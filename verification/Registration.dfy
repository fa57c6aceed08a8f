/** Registering components: ids follow registration order, and the wire walks them sorted by
    name, so peers that register the same components in any two orders agree on the wire. */
module Registration {
  import opened Common
  import opened Schema
  import opened CanonicalText
  import opened CanonicalSchemas
  import opened Layout
  import opened Worlds
  import opened Delta
  import opened Replication

  function NamedIds(layouts: seq<ComponentLayout>): (ids: seq<Named<nat>>)
    ensures |ids| == |layouts|
  {
    seq(|layouts|, i requires 0 <= i < |layouts| => Named(layouts[i].name, i))
  }

  /** The component ids, sorted by name. */
  function CanonicalIds(layouts: seq<ComponentLayout>): (canon: seq<nat>)
    ensures |canon| == |layouts|
  {
    var sorted := SortNamed(NamedIds(layouts));
    seq(|sorted|, j requires 0 <= j < |sorted| => sorted[j].body)
  }

  function RegistryOf(layouts: seq<ComponentLayout>): Registry {
    Registry(layouts, CanonicalIds(layouts))
  }

  ghost predicate NamesDistinct(layouts: seq<ComponentLayout>) {
    forall i, j :: 0 <= i < j < |layouts| ==> layouts[i].name != layouts[j].name
  }

  /** The canonical order names each registered component once. */
  lemma CanonicalIdsAre(layouts: seq<ComponentLayout>)
    requires NamesDistinct(layouts)
    ensures var canon := CanonicalIds(layouts);
            && |canon| == |layouts|
            && (forall j :: 0 <= j < |canon| ==> canon[j] < |layouts|)
            && (forall j, k :: 0 <= j < k < |canon| ==> StringLess(layouts[canon[j]].name, layouts[canon[k]].name))
            && (forall i :: 0 <= i < |layouts| ==> i in canon)
  {
    hide StringLess, SortNamed;
    var ids := NamedIds(layouts);
    var sorted, canon := SortNamed(ids), CanonicalIds(layouts);
    SortStrict(ids);
    forall j | 0 <= j < |sorted|
      ensures canon[j] < |layouts| && sorted[j].name == layouts[canon[j]].name
    {
      assert sorted[j] in sorted;
      SortMember(ids, sorted[j]);
      var i :| 0 <= i < |ids| && ids[i] == sorted[j];
    }
    forall i | 0 <= i < |layouts|
      ensures i in canon
    {
      assert ids[i] in ids;
      SortMember(ids, ids[i]);
      var j :| 0 <= j < |sorted| && sorted[j] == ids[i];
      assert canon[j] == i;
    }
  }

  lemma RegistryIsValid(layouts: seq<ComponentLayout>)
    requires LayoutsValid(layouts) && NamesDistinct(layouts)
    ensures RegistryValid(RegistryOf(layouts))
  {
    hide LayoutsValid, StringLess;
    CanonicalIdsAre(layouts);
    var canon := CanonicalIds(layouts);
    forall j, k | 0 <= j < k < |canon|
      ensures canon[j] != canon[k]
    {
      LessTotal(layouts[canon[j]].name, layouts[canon[k]].name);
    }
  }

  /** The layouts as the wire walks them. */
  ghost function InOrder(layouts: seq<ComponentLayout>): (s: seq<Named<ComponentLayout>>)
    requires NamesDistinct(layouts)
    ensures |s| == |layouts|
  {
    CanonicalIdsAre(layouts);
    seq(|layouts|, j requires 0 <= j < |layouts| =>
      Named(layouts[CanonicalIds(layouts)[j]].name, layouts[CanonicalIds(layouts)[j]]))
  }

  lemma InOrderIs(layouts: seq<ComponentLayout>)
    requires NamesDistinct(layouts)
    ensures StrictNamed(InOrder(layouts))
    ensures forall x :: x in InOrder(layouts) <==> x.body in layouts && x.name == x.body.name
  {
    hide StringLess, CanonicalIds;
    CanonicalIdsAre(layouts);
    var order, canon := InOrder(layouts), CanonicalIds(layouts);
    forall x
      ensures x in order <==> x.body in layouts && x.name == x.body.name
    {
      if x.body in layouts && x.name == x.body.name {
        var i :| 0 <= i < |layouts| && layouts[i] == x.body;
        assert i in canon;
        var j :| 0 <= j < |canon| && canon[j] == i;
        assert order[j] == x;
      }
    }
  }

  /** Two peers that register the same components, in any two orders, have the same schema on
      the wire. */
  lemma RegistrationOrderFree(a: seq<ComponentLayout>, b: seq<ComponentLayout>)
    requires LayoutsValid(a) && LayoutsValid(b) && NamesDistinct(a) && NamesDistinct(b)
    requires forall l :: l in a <==> l in b
    ensures SameSchema(RegistryOf(a), RegistryOf(b))
  {
    hide LayoutsValid, StrictNamed, CanonicalIds;
    RegistryIsValid(a);
    RegistryIsValid(b);
    InOrderIs(a);
    InOrderIs(b);
    StrictNamedUnique(InOrder(a), InOrder(b));
    CanonicalIdsAre(a);
    CanonicalIdsAre(b);
    forall j | 0 <= j < |a|
      ensures a[CanonicalIds(a)[j]] == b[CanonicalIds(b)[j]]
    {
      assert InOrder(a)[j].body == InOrder(b)[j].body;
    }
  }

  // ----- the fields of one component -----

  lemma CanonicalFieldsAre(fields: seq<FieldDesc>)
    requires forall i, j :: 0 <= i < j < |fields| ==> fields[i].name != fields[j].name
    ensures StrictNamed(SortNamed(FieldsByName(fields)))
    ensures forall x :: x in SortNamed(FieldsByName(fields)) <==> x.body in fields && x.name == x.body.name
  {
    hide StringLess, SortNamed;
    var named := FieldsByName(fields);
    SortStrict(named);
    forall x
      ensures x in SortNamed(named) <==> x.body in fields && x.name == x.body.name
    {
      SortMember(named, x);
      if x.body in fields && x.name == x.body.name {
        var i :| 0 <= i < |fields| && fields[i] == x.body;
        assert named[i] == x;
      }
    }
  }

  /** A component's layout is settled by its name and the set of its fields: offsets, sizes and
      wire order do not depend on the order in which they were declared. */
  lemma FieldOrderFree(a: ComponentLayout, b: ComponentLayout, fa: seq<FieldDesc>, fb: seq<FieldDesc>)
    requires forall i, j :: 0 <= i < j < |fa| ==> fa[i].name != fa[j].name
    requires forall i, j :: 0 <= i < j < |fb| ==> fb[i].name != fb[j].name
    requires LaysOut(a, fa) && LaysOut(b, fb) && a.name == b.name && forall f :: f in fa <==> f in fb
    ensures a == b
  {
    hide StrictNamed, SortNamed, Tiles;
    CanonicalFieldsAre(fa);
    CanonicalFieldsAre(fb);
    StrictNamedUnique(SortNamed(FieldsByName(fa)), SortNamed(FieldsByName(fb)));
    TilingUnique(a.fields, a.stride, b.fields, b.stride);
  }

  lemma {:induction false} TilingUnique(a: seq<FieldLayout>, m: nat, b: seq<FieldLayout>, n: nat)
    requires Tiles(a, m) && Tiles(b, n) && |a| == |b|
    requires forall f :: 0 <= f < |a| ==> a[f].desc == b[f].desc && a[f].size == b[f].size
    ensures a == b && m == n
  {
    if a != [] {
      var k := |a| - 1;
      TilingUnique(a[..k], a[k].offset, b[..k], b[k].offset);
      assert a == a[..k] + [a[k]] && b == b[..k] + [b[k]];
    }
  }
}
