/** Comparing a world with a snapshot under a tolerance: the first difference, slot by slot,
    and why an authority's quantized copy of an identical world never differs. */
module Comparison {
  import opened Common
  import opened Fixed
  import opened Bits
  import opened Schema
  import opened Quantization
  import opened Quaternions
  import opened Values
  import opened Layout
  import opened Worlds
  import opened Delta
  import opened Replication

  datatype Outcome =
    | Agrees
    | EntitySetDiffers(index: nat)
    | Diverges(entity: Entity, component: string, field: string)

  predicate Close(x: Fx, y: Fx, tolerance: Fx) {
    Abs(Sub(x, y)) <= tolerance
  }

  /** Numbers may differ by the tolerance; discrete values may not. */
  predicate ValuesAgree(a: Value, b: Value, tolerance: Fx) {
    match (a, b)
    case (VFx(x), VFx(y)) => Close(x, y, tolerance)
    case (VVec2(x, y), VVec2(u, v)) => Close(x, u, tolerance) && Close(y, v, tolerance)
    case (VVec3(x, y, z), VVec3(u, v, w)) =>
      Close(x, u, tolerance) && Close(y, v, tolerance) && Close(z, w, tolerance)
    case (VQuat(p), VQuat(q)) =>
      Close(p.x, q.x, tolerance) && Close(p.y, q.y, tolerance) && Close(p.z, q.z, tolerance) && Close(p.w, q.w, tolerance)
    case _ => a == b
  }

  /** The first field from `f` on that disagrees. */
  function CompareFields(reg: Registry, a: State, b: State, e: Entity, c: nat, f: nat, tolerance: Fx): Outcome
    requires Valid(reg, a) && Valid(reg, b) && c < |reg.layouts| && f <= |reg.layouts[c].fields|
    requires PresentAt(a, c, e.index) && PresentAt(b, c, e.index)
    decreases |reg.layouts[c].fields| - f
  {
    if f == |reg.layouts[c].fields| then Agrees
    else if !ValuesAgree(FieldAt(reg.layouts, a, c, e.index, f), FieldAt(reg.layouts, b, c, e.index, f), tolerance) then
      Diverges(e, reg.layouts[c].name, reg.layouts[c].fields[f].desc.name)
    else CompareFields(reg, a, b, e, c, f + 1, tolerance)
  }

  function CompareComponent(reg: Registry, a: State, b: State, e: Entity, c: nat, tolerance: Fx): Outcome
    requires Valid(reg, a) && Valid(reg, b) && c < |reg.layouts|
  {
    if PresentAt(a, c, e.index) != PresentAt(b, c, e.index) then Diverges(e, reg.layouts[c].name, "<presence>")
    else if !PresentAt(a, c, e.index) then Agrees
    else CompareFields(reg, a, b, e, c, 0, tolerance)
  }

  /** The first component from canonical position `j` on that disagrees. */
  function CompareComponents(reg: Registry, a: State, b: State, e: Entity, j: nat, tolerance: Fx): Outcome
    requires Valid(reg, a) && Valid(reg, b) && j <= |reg.canon|
    decreases |reg.canon| - j
  {
    if j == |reg.canon| then Agrees
    else
      var r := CompareComponent(reg, a, b, e, reg.canon[j], tolerance);
      if r != Agrees then r else CompareComponents(reg, a, b, e, j + 1, tolerance)
  }

  function CompareSlot(reg: Registry, a: State, b: State, i: Half, tolerance: Fx): Outcome
    requires Valid(reg, a) && Valid(reg, b)
  {
    match LiveAt(a, i)
    case None => if LiveAt(b, i).Some? then EntitySetDiffers(i) else Agrees
    case Some(generation) =>
      if LiveAt(b, i) != Some(generation) then EntitySetDiffers(i)
      else CompareComponents(reg, a, b, Entity(i, generation), 0, tolerance)
  }

  /** The first slot from `i` on that differs. */
  function CompareFrom(reg: Registry, a: State, b: State, i: nat, slots: Half, tolerance: Fx): Outcome
    requires Valid(reg, a) && Valid(reg, b) && i <= slots
    decreases slots - i
  {
    if i == slots then Agrees
    else
      var r := CompareSlot(reg, a, b, i, tolerance);
      if r != Agrees then r else CompareFrom(reg, a, b, i + 1, slots, tolerance)
  }

  function Compare(reg: Registry, a: State, b: State, tolerance: Fx): Outcome
    requires Valid(reg, a) && Valid(reg, b) && SlotMax(a, Some(b)) < U32
  {
    CompareFrom(reg, a, b, 0, SlotMax(a, Some(b)), tolerance)
  }

  // ----- the loops -----

  method CompareEntity(reg: Registry, a: State, b: State, e: Entity, tolerance: Fx) returns (r: Outcome)
    requires Valid(reg, a) && Valid(reg, b)
    ensures r == CompareComponents(reg, a, b, e, 0, tolerance)
  {
    hide LayoutValid, StateValid, FieldAt, ValuesAgree;
    var j := 0;
    while j < |reg.canon|
      invariant 0 <= j <= |reg.canon|
      invariant CompareComponents(reg, a, b, e, 0, tolerance) == CompareComponents(reg, a, b, e, j, tolerance)
    {
      var c := reg.canon[j];
      var mine, theirs := PresentAt(a, c, e.index), PresentAt(b, c, e.index);
      if mine != theirs {
        return Diverges(e, reg.layouts[c].name, "<presence>");
      }
      if mine {
        var f := 0;
        while f < |reg.layouts[c].fields|
          invariant 0 <= f <= |reg.layouts[c].fields|
          invariant CompareFields(reg, a, b, e, c, 0, tolerance) == CompareFields(reg, a, b, e, c, f, tolerance)
        {
          var x, y := FieldAt(reg.layouts, a, c, e.index, f), FieldAt(reg.layouts, b, c, e.index, f);
          if !ValuesAgree(x, y, tolerance) {
            return Diverges(e, reg.layouts[c].name, reg.layouts[c].fields[f].desc.name);
          }
          f := f + 1;
        }
      }
      j := j + 1;
    }
    r := Agrees;
  }

  method CompareWith(reg: Registry, a: State, b: State, tolerance: Fx) returns (r: Outcome)
    requires Valid(reg, a) && Valid(reg, b) && SlotMax(a, Some(b)) < U32
    ensures r == Compare(reg, a, b, tolerance)
  {
    hide CompareComponents, RegistryValid, StateValid;
    var slots: Half := SlotMax(a, Some(b));
    var i := 0;
    while i < slots
      invariant 0 <= i <= slots
      invariant Compare(reg, a, b, tolerance) == CompareFrom(reg, a, b, i, slots, tolerance)
    {
      var here, there := LiveAt(a, i), LiveAt(b, i);
      if here.None? {
        if there.Some? {
          return EntitySetDiffers(i);
        }
      } else {
        if there != here {
          return EntitySetDiffers(i);
        }
        r := CompareEntity(reg, a, b, Entity(i, here.value), tolerance);
        if r != Agrees {
          return r;
        }
      }
      i := i + 1;
    }
    r := Agrees;
  }

  // ----- what agreement means -----

  ghost predicate ComponentAgrees(reg: Registry, a: State, b: State, c: nat, i: nat, tolerance: Fx)
    requires Valid(reg, a) && Valid(reg, b) && c < |reg.layouts|
  {
    && PresentAt(a, c, i) == PresentAt(b, c, i)
    && (PresentAt(a, c, i) ==> forall f :: 0 <= f < |reg.layouts[c].fields| ==>
          ValuesAgree(FieldAt(reg.layouts, a, c, i, f), FieldAt(reg.layouts, b, c, i, f), tolerance))
  }

  /** The same live entity, or none, with the same components and close field values. */
  ghost predicate SlotAgrees(reg: Registry, a: State, b: State, i: nat, tolerance: Fx)
    requires Valid(reg, a) && Valid(reg, b)
  {
    && LiveAt(a, i) == LiveAt(b, i)
    && forall c :: 0 <= c < |reg.layouts| ==> ComponentAgrees(reg, a, b, c, i, tolerance)
  }

  lemma {:induction false} FieldsAgree(reg: Registry, a: State, b: State, e: Entity, c: nat, f: nat, tolerance: Fx)
    requires Valid(reg, a) && Valid(reg, b) && c < |reg.layouts| && f <= |reg.layouts[c].fields|
    requires PresentAt(a, c, e.index) && PresentAt(b, c, e.index)
    ensures CompareFields(reg, a, b, e, c, f, tolerance) == Agrees <==>
            forall g :: f <= g < |reg.layouts[c].fields| ==>
              ValuesAgree(FieldAt(reg.layouts, a, c, e.index, g), FieldAt(reg.layouts, b, c, e.index, g), tolerance)
    decreases |reg.layouts[c].fields| - f
  {
    hide ValuesAgree, LayoutValid, StateValid, SlotAt;
    if f < |reg.layouts[c].fields| {
      FieldsAgree(reg, a, b, e, c, f + 1, tolerance);
    }
  }

  lemma {:induction false} ComponentsAgree(reg: Registry, a: State, b: State, e: Entity, j: nat, tolerance: Fx)
    requires Valid(reg, a) && Valid(reg, b) && j <= |reg.canon|
    ensures CompareComponents(reg, a, b, e, j, tolerance) == Agrees <==>
            forall k :: j <= k < |reg.canon| ==> ComponentAgrees(reg, a, b, reg.canon[k], e.index, tolerance)
    decreases |reg.canon| - j
  {
    hide ValuesAgree, LayoutValid, StateValid, FieldAt;
    if j < |reg.canon| {
      ComponentsAgree(reg, a, b, e, j + 1, tolerance);
      var c := reg.canon[j];
      if PresentAt(a, c, e.index) && PresentAt(b, c, e.index) {
        FieldsAgree(reg, a, b, e, c, 0, tolerance);
      }
    }
  }

  function Below(n: nat): (r: set<nat>)
    ensures |r| == n && forall x: nat :: x in r <==> x < n
  {
    if n == 0 then {} else Below(n - 1) + {n - 1}
  }

  ghost function Image(s: seq<nat>, n: nat): set<nat>
    requires n <= |s|
  {
    if n == 0 then {} else Image(s, n - 1) + {s[n - 1]}
  }

  lemma {:induction false} ImageMember(s: seq<nat>, n: nat, x: nat)
    requires n <= |s|
    ensures x in Image(s, n) <==> exists k :: 0 <= k < n && s[k] == x
  {
    if n > 0 {
      ImageMember(s, n - 1, x);
    }
  }

  lemma {:induction false} ImageSize(s: seq<nat>, n: nat)
    requires n <= |s| && forall j, k :: 0 <= j < k < |s| ==> s[j] != s[k]
    ensures |Image(s, n)| == n
  {
    if n > 0 {
      ImageSize(s, n - 1);
      ImageMember(s, n - 1, s[n - 1]);
    }
  }

  /** Canonical order visits every component. */
  lemma CanonCovers(reg: Registry, c: nat) returns (j: nat)
    requires RegistryValid(reg) && c < |reg.layouts|
    ensures j < |reg.canon| && reg.canon[j] == c
  {
    hide LayoutsValid;
    var n := |reg.canon|;
    ImageSize(reg.canon, n);
    forall x: nat {
      ImageMember(reg.canon, n, x);
    }
    SubsetFull(Image(reg.canon, n), Below(n));
    assert c in Image(reg.canon, n);
    j :| j < n && reg.canon[j] == c;
  }

  lemma SubsetFull(a: set<nat>, b: set<nat>)
    requires a <= b && |a| == |b|
    ensures a == b
  {
    assert |b - a| == |b| - |a|;
  }

  lemma SlotAgreesExactly(reg: Registry, a: State, b: State, i: Half, tolerance: Fx)
    requires Valid(reg, a) && Valid(reg, b)
    ensures CompareSlot(reg, a, b, i, tolerance) == Agrees <==> SlotAgrees(reg, a, b, i, tolerance)
  {
    hide ValuesAgree, LayoutValid, FieldAt, CompareComponents;
    if LiveAt(a, i).Some? && LiveAt(a, i) == LiveAt(b, i) {
      var e := Entity(i, LiveAt(a, i).value);
      ComponentsAgree(reg, a, b, e, 0, tolerance);
      if CompareSlot(reg, a, b, i, tolerance) == Agrees {
        forall c | 0 <= c < |reg.layouts|
          ensures ComponentAgrees(reg, a, b, c, i, tolerance)
        {
          var j := CanonCovers(reg, c);
        }
      }
    } else {
      assert forall c :: LiveAt(a, i).None? ==> !PresentAt(a, c, i);
      assert forall c :: LiveAt(b, i).None? ==> !PresentAt(b, c, i);
    }
  }

  lemma {:induction false} SlotsAgree(reg: Registry, a: State, b: State, i: nat, slots: Half, tolerance: Fx)
    requires Valid(reg, a) && Valid(reg, b) && i <= slots
    ensures CompareFrom(reg, a, b, i, slots, tolerance) == Agrees <==>
            forall k :: i <= k < slots ==> SlotAgrees(reg, a, b, k, tolerance)
    decreases slots - i
  {
    hide SlotAgrees, CompareSlot, StateValid, RegistryValid;
    if i < slots {
      SlotsAgree(reg, a, b, i + 1, slots, tolerance);
      SlotAgreesExactly(reg, a, b, i, tolerance);
    }
  }

  /** A comparison agrees exactly when every slot does: the same live handles, the same
      components and every number within the tolerance. */
  lemma CompareExactly(reg: Registry, a: State, b: State, tolerance: Fx)
    requires Valid(reg, a) && Valid(reg, b) && SlotMax(a, Some(b)) < U32
    ensures Compare(reg, a, b, tolerance) == Agrees <==> forall i: nat :: SlotAgrees(reg, a, b, i, tolerance)
  {
    hide ValuesAgree, LayoutValid, FieldAt, CompareSlot;
    var slots: Half := SlotMax(a, Some(b));
    SlotsAgree(reg, a, b, 0, slots, tolerance);
    forall i: nat | i >= slots
      ensures SlotAgrees(reg, a, b, i, tolerance)
    {
      assert LiveAt(a, i).None? && LiveAt(b, i).None?;
      assert forall c :: !PresentAt(a, c, i) && !PresentAt(b, c, i);
    }
  }

  // ----- agreement, field by field -----

  /** The numbers a value is made of; a discrete value has none. */
  function Numbers(v: Value): seq<int> {
    match v
    case VFx(x) => [x]
    case VVec2(x, y) => [x, y]
    case VVec3(x, y, z) => [x, y, z]
    case VQuat(q) => [q.x, q.y, q.z, q.w]
    case _ => []
  }

  /** Values of one type whose numbers differ by at most the tolerance, as integers; without
      numbers, equal values. */
  ghost predicate Alike(a: Value, b: Value, tolerance: int) {
    && TypeOf(a) == TypeOf(b)
    && (Numbers(a) == [] ==> a == b)
    && |Numbers(a)| == |Numbers(b)|
    && forall n :: 0 <= n < |Numbers(a)| ==> -tolerance <= Numbers(a)[n] - Numbers(b)[n] <= tolerance
  }

  lemma CloseExactly(x: Fx, y: Fx, tolerance: Fx)
    requires 0 <= tolerance < MAX
    ensures Close(x, y, tolerance) <==> -tolerance <= x - y <= tolerance
  {
  }

  lemma AgreeExactly(a: Value, b: Value, tolerance: Fx)
    requires 0 <= tolerance < MAX
    ensures ValuesAgree(a, b, tolerance) <==> Alike(a, b, tolerance)
  {
    hide Close;
    if TypeOf(a) == TypeOf(b) {
      match a
      case VFx(x) =>
        CloseExactly(x, b.f, tolerance);
        assert Numbers(a)[0] == x && Numbers(b)[0] == b.f;
      case VVec2(x, y) =>
        CloseExactly(x, b.x2, tolerance);
        CloseExactly(y, b.y2, tolerance);
        assert Numbers(a)[0] == x && Numbers(a)[1] == y && Numbers(b)[0] == b.x2 && Numbers(b)[1] == b.y2;
      case VVec3(x, y, z) =>
        CloseExactly(x, b.x3, tolerance);
        CloseExactly(y, b.y3, tolerance);
        CloseExactly(z, b.z3, tolerance);
        assert Numbers(a)[0] == x && Numbers(a)[1] == y && Numbers(a)[2] == z;
        assert Numbers(b)[0] == b.x3 && Numbers(b)[1] == b.y3 && Numbers(b)[2] == b.z3;
      case VQuat(p) =>
        var q := b.q;
        CloseExactly(p.x, q.x, tolerance);
        CloseExactly(p.y, q.y, tolerance);
        CloseExactly(p.z, q.z, tolerance);
        CloseExactly(p.w, q.w, tolerance);
        assert Numbers(a)[0] == p.x && Numbers(a)[1] == p.y && Numbers(a)[2] == p.z && Numbers(a)[3] == p.w;
        assert Numbers(b)[0] == q.x && Numbers(b)[1] == q.y && Numbers(b)[2] == q.z && Numbers(b)[3] == q.w;
      case _ =>
    }
  }

  /** One slot of two worlds, in plain terms: the same live handle or none, the same components,
      every discrete field equal and every number within the tolerance. */
  ghost predicate SlotAlike(reg: Registry, a: State, b: State, i: nat, tolerance: int)
    requires Valid(reg, a) && Valid(reg, b)
  {
    && LiveAt(a, i) == LiveAt(b, i)
    && forall c :: 0 <= c < |reg.layouts| ==> ComponentAlike(reg, a, b, c, i, tolerance)
  }

  ghost predicate ComponentAlike(reg: Registry, a: State, b: State, c: nat, i: nat, tolerance: int)
    requires Valid(reg, a) && Valid(reg, b) && c < |reg.layouts|
  {
    && PresentAt(a, c, i) == PresentAt(b, c, i)
    && (PresentAt(a, c, i) ==> forall f :: 0 <= f < |reg.layouts[c].fields| ==>
          Alike(FieldAt(reg.layouts, a, c, i, f), FieldAt(reg.layouts, b, c, i, f), tolerance))
  }

  lemma ComponentAlikeExactly(reg: Registry, a: State, b: State, c: nat, i: nat, tolerance: Fx)
    requires Valid(reg, a) && Valid(reg, b) && c < |reg.layouts| && 0 <= tolerance < MAX
    ensures ComponentAgrees(reg, a, b, c, i, tolerance) <==> ComponentAlike(reg, a, b, c, i, tolerance)
  {
    hide ValuesAgree, Alike, LayoutValid, StateValid, FieldAt;
    if PresentAt(a, c, i) && PresentAt(b, c, i) {
      forall f | 0 <= f < |reg.layouts[c].fields|
        ensures ValuesAgree(FieldAt(reg.layouts, a, c, i, f), FieldAt(reg.layouts, b, c, i, f), tolerance) <==>
                Alike(FieldAt(reg.layouts, a, c, i, f), FieldAt(reg.layouts, b, c, i, f), tolerance)
      {
        AgreeExactly(FieldAt(reg.layouts, a, c, i, f), FieldAt(reg.layouts, b, c, i, f), tolerance);
      }
    }
  }

  /** Agreement at any tolerance, exactly. */
  lemma AgreesExactly(reg: Registry, a: State, b: State, tolerance: Fx)
    requires Valid(reg, a) && Valid(reg, b) && SlotMax(a, Some(b)) < U32 && 0 <= tolerance < MAX
    ensures Compare(reg, a, b, tolerance) == Agrees <==> forall i: nat :: SlotAlike(reg, a, b, i, tolerance)
  {
    hide ValuesAgree, Alike, LayoutValid, StateValid, FieldAt, Compare, ComponentAgrees, ComponentAlike;
    CompareExactly(reg, a, b, tolerance);
    forall i: nat
      ensures SlotAgrees(reg, a, b, i, tolerance) <==> SlotAlike(reg, a, b, i, tolerance)
    {
      forall c: nat | c < |reg.layouts|
        ensures ComponentAgrees(reg, a, b, c, i, tolerance) <==> ComponentAlike(reg, a, b, c, i, tolerance)
      {
        ComponentAlikeExactly(reg, a, b, c, i, tolerance);
      }
    }
  }

  lemma AlikeAtZero(a: Value, b: Value)
    ensures Alike(a, b, 0) <==> a == b
  {
    if Alike(a, b, 0) && Numbers(a) != [] {
      var m, n := Numbers(a), Numbers(b);
      assert forall k :: 0 <= k < |m| ==> m[k] == n[k];
      match a
      case VFx(x) => assert m[0] == x;
      case VVec2(x, y) => assert m[0] == x && m[1] == y;
      case VVec3(x, y, z) => assert m[0] == x && m[1] == y && m[2] == z;
      case VQuat(q) => assert m[0] == q.x && m[1] == q.y && m[2] == q.z && m[3] == q.w;
      case _ =>
    }
  }

  /** With no tolerance, two worlds agree exactly when their live views are equal. */
  lemma AgreesIsSameView(reg: Registry, a: State, b: State)
    requires Valid(reg, a) && Valid(reg, b) && SlotMax(a, Some(b)) < U32 && SameSchema(reg, reg)
    ensures Compare(reg, a, b, 0) == Agrees <==> SameView(reg, a, reg, b)
  {
    hide Alike, LayoutValid, StateValid, FieldAt, Compare;
    AgreesExactly(reg, a, b, 0);
    forall x: Value, y: Value
      ensures Alike(x, y, 0) <==> x == y
    {
      AlikeAtZero(x, y);
    }
    forall i: nat
      ensures SlotAlike(reg, a, b, i, 0) <==> SameSlot(reg, a, reg, b, i)
    {
      SlotAlikeIsSame(reg, a, b, i);
    }
  }

  lemma SlotAlikeIsSame(reg: Registry, a: State, b: State, i: nat)
    requires Valid(reg, a) && Valid(reg, b) && SameSchema(reg, reg)
    requires forall x: Value, y: Value :: Alike(x, y, 0) <==> x == y
    ensures SlotAlike(reg, a, b, i, 0) <==> SameSlot(reg, a, reg, b, i)
  {
    hide Alike, LayoutValid, StateValid, FieldAt;
    if SlotAlike(reg, a, b, i, 0) {
      forall j | 0 <= j < |reg.canon|
        ensures SameComponent(reg, a, reg, b, j, i)
      {
        assert ComponentAlike(reg, a, b, reg.canon[j], i, 0);
      }
    }
    if SameSlot(reg, a, reg, b, i) {
      forall c | 0 <= c < |reg.layouts|
        ensures ComponentAlike(reg, a, b, c, i, 0)
      {
        var j := CanonCovers(reg, c);
        assert SameComponent(reg, a, reg, b, j, i);
      }
    }
  }

  // ----- what a reported difference is -----

  /** The named component of this entity is on one side only, or the named field differs. */
  ghost predicate Differs(reg: Registry, a: State, b: State, e: Entity, component: string, field: string, tolerance: Fx)
    requires Valid(reg, a) && Valid(reg, b)
  {
    exists c: nat :: c < |reg.layouts| && DiffersIn(reg, a, b, e, c, component, field, tolerance)
  }

  ghost predicate DiffersIn(reg: Registry, a: State, b: State, e: Entity, c: nat, component: string, field: string, tolerance: Fx)
    requires Valid(reg, a) && Valid(reg, b) && c < |reg.layouts|
  {
    && reg.layouts[c].name == component
    && if PresentAt(a, c, e.index) != PresentAt(b, c, e.index) then field == "<presence>"
       else
         && PresentAt(a, c, e.index)
         && exists f :: 0 <= f < |reg.layouts[c].fields| && reg.layouts[c].fields[f].desc.name == field
              && !ValuesAgree(FieldAt(reg.layouts, a, c, e.index, f), FieldAt(reg.layouts, b, c, e.index, f), tolerance)
  }

  lemma {:induction false} FieldDiffers(reg: Registry, a: State, b: State, e: Entity, c: nat, f: nat, tolerance: Fx)
    requires Valid(reg, a) && Valid(reg, b) && c < |reg.layouts| && f <= |reg.layouts[c].fields|
    requires PresentAt(a, c, e.index) && PresentAt(b, c, e.index)
    ensures var r := CompareFields(reg, a, b, e, c, f, tolerance);
            r.Agrees? || (r.Diverges? && r.entity == e && DiffersIn(reg, a, b, e, c, r.component, r.field, tolerance))
    decreases |reg.layouts[c].fields| - f
  {
    hide ValuesAgree, LayoutValid, StateValid, FieldAt;
    if f < |reg.layouts[c].fields| {
      FieldDiffers(reg, a, b, e, c, f + 1, tolerance);
    }
  }

  lemma {:induction false} ComponentDiffers(reg: Registry, a: State, b: State, e: Entity, j: nat, tolerance: Fx)
    requires Valid(reg, a) && Valid(reg, b) && j <= |reg.canon|
    ensures var r := CompareComponents(reg, a, b, e, j, tolerance);
            r.Agrees? || (r.Diverges? && r.entity == e && Differs(reg, a, b, e, r.component, r.field, tolerance))
    decreases |reg.canon| - j
  {
    hide ValuesAgree, LayoutValid, StateValid, FieldAt;
    if j < |reg.canon| {
      var c := reg.canon[j];
      if PresentAt(a, c, e.index) && PresentAt(b, c, e.index) {
        FieldDiffers(reg, a, b, e, c, 0, tolerance);
      }
      hide CompareFields;
      var r := CompareComponent(reg, a, b, e, c, tolerance);
      if !r.Agrees? {
        assert DiffersIn(reg, a, b, e, c, r.component, r.field, tolerance);
      }
      ComponentDiffers(reg, a, b, e, j + 1, tolerance);
    }
  }

  /** A comparison that does not agree names the first slot that differs, and something of it
      that does. */
  lemma {:induction false} DifferenceIsReal(reg: Registry, a: State, b: State, i: nat, slots: Half, tolerance: Fx)
    requires Valid(reg, a) && Valid(reg, b) && i <= slots
    ensures match CompareFrom(reg, a, b, i, slots, tolerance)
            case Agrees => true
            case EntitySetDiffers(k) =>
              i <= k < slots && LiveAt(a, k) != LiveAt(b, k) && AgreeBetween(reg, a, b, i, k, tolerance)
            case Diverges(e, component, field) =>
              && i <= e.index < slots && LiveAt(a, e.index) == LiveAt(b, e.index) == Some(e.generation)
              && Differs(reg, a, b, e, component, field, tolerance) && AgreeBetween(reg, a, b, i, e.index, tolerance)
    decreases slots - i
  {
    hide SlotAgrees, StateValid, RegistryValid, CompareComponents, Differs;
    if i < slots {
      SlotAgreesExactly(reg, a, b, i, tolerance);
      if LiveAt(a, i).Some? && LiveAt(a, i) == LiveAt(b, i) {
        ComponentDiffers(reg, a, b, Entity(i, LiveAt(a, i).value), 0, tolerance);
      }
      DifferenceIsReal(reg, a, b, i + 1, slots, tolerance);
    }
  }

  ghost predicate AgreeBetween(reg: Registry, a: State, b: State, i: nat, k: nat, tolerance: Fx)
    requires Valid(reg, a) && Valid(reg, b)
  {
    forall m :: i <= m < k ==> SlotAgrees(reg, a, b, m, tolerance)
  }

  // ----- quantization is absorbed -----

  /** A number the receiver holds within the tolerance: in its declared range, with a step no
      larger. */
  predicate Absorbed(d: FieldDesc, x: Fx, tolerance: Fx)
    requires RangeDeclared(d)
  {
    d.quantize.Some? ==> d.min.value <= x <= d.max.value && d.quantize.value <= tolerance
  }

  predicate ValueAbsorbed(d: FieldDesc, v: Value, tolerance: Fx)
    requires ParametersValid(d)
  {
    match v
    case VFx(x) => Absorbed(d, x, tolerance)
    case VVec2(x, y) => Absorbed(d, x, tolerance) && Absorbed(d, y, tolerance)
    case VVec3(x, y, z) => Absorbed(d, x, tolerance) && Absorbed(d, y, tolerance) && Absorbed(d, z, tolerance)
    case VQuat(_) => d.quantizeBits.None?
    case _ => true
  }

  lemma LossyClose(d: FieldDesc, x: Fx, tolerance: Fx)
    requires RangeDeclared(d) && Absorbed(d, x, tolerance) && tolerance >= 0
    ensures Close(x, LossyFx(d, x), tolerance)
  {
    if d.quantize.Some? {
      hide Quantize, Dequantize;
      QuantizeError(x, d.min.value, d.max.value, d.quantize.value);
    }
  }

  lemma LossyAgrees(d: FieldDesc, v: Value, tolerance: Fx)
    requires ParametersValid(d) && ValueAbsorbed(d, v, tolerance) && tolerance >= 0
    ensures ValuesAgree(v, LossyRoundTrip(d, v), tolerance)
  {
    hide Close, LossyFx;
    match v
    case VFx(x) => LossyClose(d, x, tolerance);
    case VVec2(x, y) => LossyClose(d, x, tolerance); LossyClose(d, y, tolerance);
    case VVec3(x, y, z) => LossyClose(d, x, tolerance); LossyClose(d, y, tolerance); LossyClose(d, z, tolerance);
    case VQuat(q) => SelfClose(q.x, tolerance); SelfClose(q.y, tolerance); SelfClose(q.z, tolerance); SelfClose(q.w, tolerance);
    case _ =>
  }

  lemma SelfClose(x: Fx, tolerance: Fx)
    requires tolerance >= 0
    ensures Close(x, x, tolerance)
  {
  }

  lemma ValueAgreesWithItself(v: Value, tolerance: Fx)
    requires tolerance >= 0
    ensures ValuesAgree(v, v, tolerance)
  {
  }

  ghost predicate AllAbsorbed(reg: Registry, s: State, tolerance: Fx)
    requires Valid(reg, s)
  {
    forall c: nat, i: nat, f: nat :: PresentAt(s, c, i) && f < |reg.layouts[c].fields| ==>
      ParametersValid(reg.layouts[c].fields[f].desc) &&
      ValueAbsorbed(reg.layouts[c].fields[f].desc, FieldAt(reg.layouts, s, c, i, f), tolerance)
  }

  /** An authority's copy of an identical world, as its deltas send it, compares as agreeing
      when the tolerance covers every step, values are in range and no rotation is
      quantized. */
  lemma SentCopyAgrees(reg: Registry, s: State, tolerance: Fx)
    requires Valid(reg, s) && SlotMax(s, Some(AsSent(reg, s))) < U32
    requires tolerance >= 0 && AllAbsorbed(reg, s, tolerance)
    ensures Compare(reg, s, AsSent(reg, s), tolerance) == Agrees
  {
    hide ValuesAgree, LayoutValid, FieldAt, Compare, LossyRoundTrip, AsSent, StateValid, SlotAgrees;
    forall i: nat
      ensures SlotAgrees(reg, s, AsSent(reg, s), i, tolerance)
    {
      SentSlotAgrees(reg, s, i, tolerance);
    }
    CompareExactly(reg, s, AsSent(reg, s), tolerance);
  }

  lemma SentSlotAgrees(reg: Registry, s: State, i: nat, tolerance: Fx)
    requires Valid(reg, s) && tolerance >= 0 && AllAbsorbed(reg, s, tolerance)
    ensures SlotAgrees(reg, s, AsSent(reg, s), i, tolerance)
  {
    hide ValuesAgree, LayoutValid, LossyRoundTrip, AsSent, StateValid, ValueAbsorbed;
    var sent := AsSent(reg, s);
    AsSentIsSent(reg, s, i);
    forall c: nat | c < |reg.layouts|
      ensures ComponentAgrees(reg, s, sent, c, i, tolerance)
    {
      var j := CanonCovers(reg, c);
      assert SentHeld(reg, s, reg, sent, j, i);
      if PresentAt(s, c, i) {
        forall f: nat | f < |reg.layouts[c].fields|
          ensures ValuesAgree(FieldAt(reg.layouts, s, c, i, f), FieldAt(reg.layouts, sent, c, i, f), tolerance)
        {
          assert Holds(reg, sent, c, i, SentValues(reg, s, c, i), f);
          LossyAgrees(reg.layouts[c].fields[f].desc, FieldAt(reg.layouts, s, c, i, f), tolerance);
        }
      }
    }
  }
}
