# Verified model of the Tempo multiplayer engine core

Tempo keeps its protocols as deterministic state machines with no I/O inside. This project
models those machines in Dafny and proves what they are for. Values and step functions carry
the theorems; beside them, classes and loops of the source's own shape are proved to compute
exactly those functions.

* **Rollback** (`Ticks`, `Inputs`, `Rollback`, `Convergence`, `SessionRuns`, `InputDelay`,
  `InputSources`, `RollbackLimits`, `Finality`, `RollbackSession`): in a session that predicts,
  restores and re-simulates the world is always the straight run over inputs that the schedule of
  calls alone determines: the real one wherever it has arrived, in whatever order, and otherwise the newest
  that had when the tick was last guessed.
* **Delta replication** (`Fixed`, `Bits`, `BitBuffers`, `Quantization`, `Quaternions`, `Schema`,
  `Values`, `Codec`, `Widths`, `FieldIO`, `Layout`, `Worlds`, `Handles`, `WorldObject`, `Delta`,
  `Replication`, `Minimality`, `Malformed`, `DeltaSender`, `DeltaReceiver`, `Registration`): from bit
  buffers up to whole server runs, the receiver shows what the delta decodes to, which is what the sender says it sent exactly when
  every field written survives its own encoding. Worlds are compared by their live view: live
  handles, presence, field values and tick.
* **Reliability** (`Sequences`, `Replay`, `Acks`, `AckExactness`, `Channels`, `Delivery`,
  `Reliability`, `Exchange`, `ReliableRuns`, `Retransmission`, `Conservation`, `CapLoss`,
  `CapExactness`, `ReliabilityObjects`, `Fragments`, `ReassemblerObject`): two endpoints over a
  network that may deliver any packet ever sent, any number of times, in any order, or never.
* **Interest** (`Priority`, `Starvation`, `Ageing`, `Grids`, `SpatialIndex`): starvation bounds for
  the priority accumulator, and a spatial index that agrees with a scan.
* **Prediction** (`Comparison`, `Prediction`, `PredictorObject`): the replay chain and what each
  reconciliation leaves behind.
* **Canonical text** (`CanonicalText`, `CanonicalSchemas`, `CanonicalExample`, `SchemaRegistry`): the schema printer
  is faithful.

Integers have the source's widths: 16-bit sequences, 32-bit ticks, ids and generations, 64-bit
raw fixed point with saturation, and division that truncates toward zero. A bit field or a 64-bit
mask is modelled as the sequence of its bits. An ordered map is walked by repeatedly taking its
least key. `sort_by` is a stable insertion sort on the same key.

Run `dafny verify dfyconfig.toml` in this directory. The proofs were written for Dafny 4.11 with a
resource limit of 2000000.

## Where the code differs from what is written about it

* `Reconciliation::Resynced` is documented as a snapshot ahead of anything predicted, and late
  snapshots as harmless. With nothing held, any older snapshot is adopted and rewinds the world
  (`Prediction.LateSnapshotRewinds`, `Prediction.OlderIsStaleExactly`).
* `AckTracker::on_receive` says it ignores sequences too old to fit the buffer. It stores them over
  newer ones (`AckExactness.LateArrivalForgets`).
* A session with an input delay does not converge for every order of arrival: nobody's input is
  ever stamped for its first `input_delay` ticks, and `get_or_predict` fills them with the newest
  input known, even one for a later tick (`RollbackLimits.DelayDiverges`).
  `InputSources.FirstTickExactly` says exactly when one is the default.
* `confirmed_frame` is documented as final. It is the slowest player's newest arrival, and a tick
  an arrival overtook is still simulated again (`Finality.GapIsNotFinal`, `Finality.FinalExactly`).
* `RollbackSession::reset` says it discards input history and does not
  (`RollbackLimits.ResetKeepsPredictions`, `RollbackLimits.ResetServesHistory`).
* The comment at channel.rs:420 says a message dropped at the buffer cap will be retransmitted.
  Its packet is still acknowledged, so it is retired (`CapLoss.CapLosesMessage`,
  `CapLoss.LostExactlyAtCap`, `CapExactness.LosesExactly`). At the same cap an unordered message
  can be delivered twice (`CapLoss.CapRepeatsMessage`, `Delivery.RepeatedExactlyAtCap`).
* A header written before anything was received acknowledges packet 0
  (`Acks.HeaderSoundExactly`).
* Ack headers are exact only for capacities of at least 33 that divide 2^16 or reach it
  (`AckExactness.HeadersExact`).
* A payload of more than 65535 chunks never comes back whole (`Fragments.RoundTripsExactly`).
* `SpatialGrid::query` can miss an entity for a radius under one half
  (`Grids.CellsSufficeExactly`).
* `PriorityRule::gain` says it never reaches zero; it does for a small enough base
  (`Priority.GainNeverZero`).
* The example in docs/spec/schema-and-hashing.md prints the type of `score` as `u32`; the code prints
  `uint` (`CanonicalExample.SpecificationExample`).
* Smallest-three compression of an already compressed rotation is not the identity, although
  delta.rs:153 compresses the lossy value again (`Quaternions.RecompressionDrifts`); it is exactly
  when the omitted component stays the first of largest magnitude
  (`Quaternions.RecompressionFixed`).

## Model

| member | source | states |
|---|---|---|
| InputSources.Converges | crates/tempo-rollback/src/session.rs:161-267 | after any interleaving of frames, local inputs, late, repeated or reordered remote inputs and rollbacks that all return Ok the world is the straight run over inputs the schedule determines, tick by tick: an arrived input is used, any other tick has the newest input that had arrived when it was last guessed; these are the given inputs, with the default where none arrived, if and only if each such guess is the default |
| InputSources.RunSourced | crates/tempo-rollback/src/session.rs:161-267 | from any reachable session: the schedule alone says whether every further call returns Ok, and which input every tick ends with |
| InputSources.RunsExactly | crates/tempo-rollback/src/session.rs:170-186 | all calls of an admissible schedule return Ok if and only if no input arrives for a tick `max_rollback` or more behind that was simulated on another one |
| InputSources.FirstTickExactly | crates/tempo-rollback/src/input.rs:168-179 | a tick of a player none of whose inputs up to it ever arrived holds the default if and only if the player was mute (nothing known, or its newest input the default) when it was first simulated |
| InputDelay.ConvergesInFull | crates/tempo-rollback/src/session.rs:161-267 | when the first ticks' inputs arrive too, the world is the straight run over the real inputs whatever the order |
| SessionRuns.RunKeeps | crates/tempo-rollback/src/session.rs:161-267 | unconditionally, over every run of calls that return Ok: the world is the straight run over the inputs each tick was last simulated with, and every ring and saved state agrees |
| InputDelay.RunQuiet | crates/tempo-rollback/src/input.rs:168-179 | over every run, a player for whose first `input_delay` ticks nothing arrives has the default there if and only if it was mute whenever one of them was first simulated |
| InputDelay.WaitingIsQuiet | crates/tempo-rollback/src/session.rs:161-165 | a caller that hands over no input before tick `input_delay` is simulated meets the condition |
| InputDelay.WaitingConverges | crates/tempo-rollback/src/session.rs:161-267 | for such a caller the world is the straight run with the default for the first `input_delay` ticks and the real inputs after |
| RollbackLimits.DelayDiverges | crates/tempo-rollback/src/session.rs:161-165 | with a delay of one, two runs given the same inputs, everything meant for a simulated tick included, end at the same tick in different worlds |
| InputSources.OrdersAgree | crates/tempo-rollback/src/session.rs:161-267 | two sessions given the same real inputs in any two admissible orders end in the same world, when both guessed the default wherever nothing arrived |
| Convergence.AddRemoteKeeps | crates/tempo-rollback/src/session.rs:170-186 | a remote input in the window, on time, late, repeated or out of order: the exact outcome (accepted, or refused beyond the rollback limit, never a missing saved state), and the world stays the fold of the inputs now believed |
| Convergence.AddLocalKeeps | crates/tempo-rollback/src/session.rs:161-165 | a local input is stamped `input_delay` ticks ahead and never contradicts anything |
| Convergence.AdvanceKeeps | crates/tempo-rollback/src/session.rs:189-216 | one frame extends the straight run by exactly one tick over the believed inputs |
| Convergence.RollbackKeeps | crates/tempo-rollback/src/session.rs:219-267 | inside the window a rollback always finds its saved state and restores the invariant |
| Convergence.RollbackReproduces | crates/tempo-rollback/src/session.rs:219-267 | with nothing corrected, the exact verdict for every tick: one not simulated yet changes nothing, one past the limit is refused and counted, one inside it is simulated again with world, rings and saved states exactly as they were and the counters advanced by its depth |
| Convergence.SyncTestPasses | crates/tempo-rollback/src/session.rs:277-303 | the sync test finds every state it needs and never blames a simulation that is a function of state and input |
| Convergence.SyncTestExactly | crates/tempo-rollback/src/session.rs:277-303 | whatever has been written into the world since, the sync test passes if and only if the world's state is what the re-simulated frame leaves, and names the tick otherwise; session and simulated state are as before |
| SessionRuns.RunCounts | crates/tempo-rollback/src/session.rs:189-267 | over every run that returns Ok the counters tell the truth: one frame for each tick of the world, every rollback at least one tick simulated again, none more than the deepest, and that within `max_rollback` |
| Finality.FinalExactly | crates/tempo-rollback/src/input.rs:192-208 | in every reachable state, what was simulated up to a tick can no longer change if and only if every input up to it that a correction can still reach has arrived or was guessed right, whatever the confirmed frame says |
| Finality.GapFreeIsFinal | crates/tempo-rollback/src/input.rs:192-208 | where every player's inputs up to a tick arrived without gaps, the inputs used up to it are the real ones over every run from there on |
| Finality.GapIsNotFinal | crates/tempo-rollback/src/input.rs:192-208 | a run whose confirmed frame is tick 2 while tick 1 is still simulated again |
| Finality.ConfirmedFrameIs | crates/tempo-rollback/src/input.rs:196-208 | the confirmed frame is the slowest player's newest arrival; there is none if and only if somebody has sent nothing or nobody plays |
| RollbackLimits.RefusalIsSilentAfterwards | crates/tempo-rollback/src/session.rs:170-186 | a contradicted prediction at least `max_rollback` ticks old: the correction is refused and never applied, and delivered again it is accepted with the world as it was |
| RollbackLimits.ResetKeepsPredictions | crates/tempo-rollback/src/session.rs:310-314 | after a resync to any tick, an input reports a missing saved state if and only if it contradicts a prediction made before the reset for a tick not newer than the world's and within the rollback depth |
| RollbackLimits.ResetServesHistory | crates/tempo-rollback/src/session.rs:310-314 | the first frame after a resync uses the inputs a session with its history discarded would use if and only if every player's entry for that tick, or else its newest known input, is the default |
| RollbackLimits.ResetLosesCorrection | crates/tempo-rollback/src/session.rs:310-314 | a run from a new session that reaches the missing saved state |
| RollbackLimits.ResetServesStaleGuess | crates/tempo-rollback/src/session.rs:310-314 | a run from a new session whose first frame after a resync to another tick is simulated with a guess made before it |
| Inputs.ConfirmKeeps | crates/tempo-rollback/src/input.rs:135-162 | a real input in the window either leaves the timeline right or names the first tick to simulate again |
| Inputs.ConfirmLog | crates/tempo-rollback/src/input.rs:135-162 | what a confirmation does to the recorded inputs: it stores the input, and a contradiction clears exactly the later predictions |
| Inputs.PredictKeeps | crates/tempo-rollback/src/input.rs:168-179 | asking for the next tick extends the timeline by exactly the input handed out |
| Inputs.PutHeld | crates/tempo-rollback/src/input.rs:49-64 | storing a tick can evict only a tick a whole capacity away |
| Inputs.InvalidateHeld | crates/tempo-rollback/src/input.rs:72-80 | exactly the predicted entries after the tick are forgotten |
| Rollback.FrameComplete | crates/tempo-rollback/src/input.rs:182-190 | a frame lists every player once, in ascending order, with its own ring's input |
| RollbackSession.SnapshotRing.Store | crates/tempo-core/src/snapshot.rs:159-162 | the slot `tick % capacity` is overwritten and no other |
| RollbackSession.SnapshotRing.Get | crates/tempo-core/src/snapshot.rs:168-174 | a state is served only under its own tick |
| RollbackSession.InputQueue.Confirm | crates/tempo-rollback/src/input.rs:135-162 | the queue after the call and the contradicted tick, as the value-level confirmation |
| RollbackSession.InputQueue.InvalidatePredictionsAfter | crates/tempo-rollback/src/input.rs:72-80 | the clearing loop against the ring it leaves |
| RollbackSession.InputQueue.GetOrPredict | crates/tempo-rollback/src/input.rs:168-179 | the input, its source and the ring afterwards |
| RollbackSession.InputQueue.Frame | crates/tempo-rollback/src/input.rs:182-190 | the frame for a tick and the rings it leaves, player by player |
| RollbackSession.InputQueue.ConfirmedFrame | crates/tempo-rollback/src/input.rs:196-208 | the loop over the participants finds the oldest of their newest confirmed ticks |
| RollbackSession.Session.AddLocalInput | crates/tempo-rollback/src/session.rs:161-165 | the session after the call and the stamped tick |
| RollbackSession.Session.AddRemoteInput | crates/tempo-rollback/src/session.rs:170-186 | session, world and outcome, including the rollback it triggers |
| RollbackSession.Session.Advance | crates/tempo-rollback/src/session.rs:189-216 | session, world and frame after one tick |
| RollbackSession.Session.RollbackTo | crates/tempo-rollback/src/session.rs:219-267 | session, world and outcome, the limit errors included |
| RollbackSession.Session.SyncTest | crates/tempo-rollback/src/session.rs:277-303 | the world is restored to what it was and the verdict is the value-level one |
| RollbackSession.Session.Reset | crates/tempo-rollback/src/session.rs:310-314 | only the saved states and the current tick change |
| Replication.DeltaReplicates | crates/tempo-core/src/delta.rs:48-215 | a receiver whose live view is the baseline's (empty when there is none) applies the bits without error, whatever padding follows, and ends with the tick and exactly the live view of `as_sent` if and only if every field written survives its own encoding |
| Replication.DeltaLands | crates/tempo-core/src/delta.rs:48-313 | with no condition on the values: the receiver ends with the sender's live handles, presence and tick, despawns and recycled slots included, and every field as the delta decodes |
| Replication.FaithfulSurvives | crates/tempo-wire/src/value.rs:79-94 | integers that fit their width and rotations whose omitted component stays the largest always survive |
| Replication.ReceiverTracksExactly | crates/tempo-core/src/delta.rs:48-313 | over every server run that uses the previous `as_sent` as baseline, the receiver shows exactly that state after every delta if and only if every field written survives its own encoding |
| Replication.ReceiverTracks | crates/tempo-core/src/delta.rs:48-313 | in such a run the receiver never errs and ends with the last state the sender returned |
| Registration.RegistrationOrderFree | crates/tempo-core/src/world.rs:100-179 | peers that register the same components in any two orders agree on the wire order of their layouts |
| Replication.DeltaConverges | crates/tempo-core/src/delta.rs:97-157 | re-encoding an unchanged world against the returned `as_sent` describes no entity, quantized rotations included |
| Minimality.DeltaIsMinimal | crates/tempo-core/src/delta.rs:48-215 | the delta mentions exactly the slots the baseline does not show as they would be sent, and every bit of its size is accounted for: a field the baseline shows costs its mask bit and nothing more, any other its encoding |
| Minimality.HeaderReads | crates/tempo-core/src/delta.rs:175-181 | the header names the tick, the baseline's tick or the mark for none, and how many slots follow |
| Minimality.SilentExactly | crates/tempo-core/src/delta.rs:160-173 | nothing is said about a slot if and only if the baseline already shows what would be |
| Minimality.OperationIs | crates/tempo-core/src/delta.rs:74-95 | a mention is a despawn when nobody lives there any more, a spawn when the one who does is not the one the baseline shows, and an update otherwise |
| Malformed.EntryRefusedExactly | crates/tempo-core/src/delta.rs:250-283 | an entry by its first two bits: exactly when it is refused as reserved, as an update for an unknown entity or for its generation, and that a despawn never is |
| Malformed.CountRefused | crates/tempo-core/src/delta.rs:225-235 | a count larger than the bits that follow it is refused before any entry is read |
| Malformed.IndexIs | crates/tempo-core/src/delta.rs:237-248 | a gap leads to the next index in plain integers, or out of the 32-bit range |
| Replication.AsSentIsSent | crates/tempo-core/src/delta.rs:150-157 | `as_sent` holds the lossy value of every field, not only of dirty ones |
| Replication.EntriesApply | crates/tempo-core/src/delta.rs:241-309 | applying the entries of a run of slots leaves exactly those slots as the delta decodes |
| Replication.EntryApplies | crates/tempo-core/src/delta.rs:241-309 | one entry makes its slot what the delta decodes to and touches no other: despawns, recycled slots, added and removed components |
| Replication.ComponentsApply | crates/tempo-core/src/delta.rs:284-308 | reading an entity's components leaves every dirty field as it decodes and every other as the baseline has it |
| Replication.SilentSlot | crates/tempo-core/src/delta.rs:160-173 | a slot the delta does not mention already shows what would have been sent |
| Replication.IndexReads | crates/tempo-core/src/delta.rs:183-192 | the receiver recovers each gap-encoded index |
| Delta.EntriesAscend | crates/tempo-core/src/delta.rs:70-79 | entry indices are strictly ascending, which the gap encoding needs |
| DeltaSender.EncodeDelta | crates/tempo-core/src/delta.rs:48-215 | the bytes begin with exactly the block's bits; the returned `as_sent` and count, or the error, are the specification's |
| DeltaSender.EncodeSlot | crates/tempo-core/src/delta.rs:74-173 | what the delta says about one slot, with `as_sent` patched on the way |
| DeltaSender.EncodeComponents | crates/tempo-core/src/delta.rs:112-158 | presence, dirty masks and dirty fields in canonical order |
| DeltaSender.WriteFields | crates/tempo-core/src/delta.rs:147-157 | every field of `as_sent` is patched, and only dirty ones are encoded |
| DeltaSender.Splice | crates/tempo-core/src/delta.rs:195-207 | the 32-bit-chunk splice appends exactly the payload's bits |
| DeltaSender.WriteEntries | crates/tempo-core/src/delta.rs:181-208 | the entries' bits, each after its gap |
| DeltaReceiver.ApplyDelta | crates/tempo-core/src/delta.rs:221-313 | the world afterwards and the tick, or the error, as the specification reads the bits |
| DeltaReceiver.StoreEntries | crates/tempo-core/src/delta.rs:237-309 | the index arithmetic, with its overflow and range errors, entry by entry |
| DeltaReceiver.StoreEntry | crates/tempo-core/src/delta.rs:250-283 | the operation, its reserved code, generation range and unknown-entity errors |
| DeltaReceiver.StoreComponents | crates/tempo-core/src/delta.rs:289-308 | absent components are removed, present ones inserted and filled |
| Worlds.SpawnAtKeeps | crates/tempo-core/src/entity.rs:115-127 | claiming a slot makes that handle live and disturbs no other slot or cell |
| Worlds.SpawnedKeeps | crates/tempo-core/src/entity.rs:88-109 | a spawn takes a slot nobody lives in, with nothing on it |
| Worlds.DespawnKeeps | crates/tempo-core/src/world.rs:246-261 | the slot dies under its next generation, its components are cleared, and nothing else changes: `present ==> alive` is kept |
| Handles.DeadStayDead | crates/tempo-core/src/entity.rs:88-150 | over every run of spawns, despawns and component writes that wraps no generation, no handle is handed out twice, and the live handles are exactly those handed out and not despawned |
| Handles.ReusedExactlyAtWrap | crates/tempo-core/src/entity.rs:137-150 | after such a run, despawning an entity makes the next spawn repeat a handle if and only if its generation was the last of 2^32 |
| Handles.NextAfterDespawn | crates/tempo-core/src/entity.rs:88-150 | the slot just vacated is the next one used, under the next generation |
| Handles.SpawnAtOrderly | crates/tempo-core/src/entity.rs:115-127 | an identity chosen elsewhere leaves the free list naming vacant slots, each once, and not the one claimed |
| Worlds.InsertKeeps | crates/tempo-core/src/world.rs:264-276 | a component is added to one cell only, and left alone when it was there |
| Worlds.RemoveKeeps | crates/tempo-core/src/world.rs:279-290 | a component is removed from one cell only |
| Worlds.WriteKeeps | crates/tempo-core/src/world.rs:331-346 | one field takes the value and no other field of any cell moves |
| Layout.WriteRead | crates/tempo-core/src/layout.rs:101-170 | a written field reads back and no other field of the slot moves |
| Layout.ValueBytes | crates/tempo-core/src/layout.rs:101-186 | every storable value survives its little-endian bytes |
| Layout.NewLayout | crates/tempo-core/src/layout.rs:66-87 | the layout of a component's declared fields: sorted by name, one after another with no gap; variable-length fields are refused |
| Registration.FieldOrderFree | crates/tempo-core/src/layout.rs:66-87 | the layout does not depend on the order in which the fields were declared |
| WorldObject.World.Spawn | crates/tempo-core/src/world.rs:233-237 | the handle handed out and the whole new state |
| WorldObject.World.SpawnOf | crates/tempo-core/src/world.rs:240-243 | the whole new state |
| WorldObject.World.Despawn | crates/tempo-core/src/world.rs:246-261 | the whole new state; a stale handle changes nothing |
| WorldObject.World.Insert | crates/tempo-core/src/world.rs:264-276 | the whole new state and each error case |
| WorldObject.World.Remove | crates/tempo-core/src/world.rs:279-290 | the whole new state and each error case |
| WorldObject.World.Set | crates/tempo-core/src/world.rs:331-346 | the whole new state and each error case; after a type mismatch the component is there all the same |
| WorldObject.World.Restore | crates/tempo-core/src/snapshot.rs:113-130 | the whole state is replaced, or the shape error leaves it alone |
| Codec.ListRoundTrip | crates/tempo-wire/src/value.rs:127-262 | any list of fields that fit their widths, strings and byte strings included, written from any bit on is read back from there as the declared loss of each, consuming exactly the bits written |
| Codec.FieldRoundTrip | crates/tempo-wire/src/value.rs:127-262 | decoding what was encoded, at whatever bit both start, yields exactly what the receiver is said to hold |
| Codec.BytesRoundTrip | crates/tempo-wire/src/value.rs:177-186 | a length prefix, the zero bits up to the next byte boundary and the bytes are read back from any bit offset |
| Codec.ReceivedIsLossyIffFits | crates/tempo-wire/src/value.rs:79-94 | the receiver holds `lossy_round_trip` of a value exactly when an integer fits its declared width |
| Codec.SentIsReceived | crates/tempo-wire/src/value.rs:79-94 | encoding a value already lossy loses nothing more if and only if it fits its declared width, rotations included whose omitted component stays the first of largest magnitude |
| Widths.FieldWidth | crates/tempo-wire/src/value.rs:127-174 | the number of bits of every fixed-size field, by its declaration |
| Widths.DeclaredBits | crates/tempo-wire/src/schema.rs:464-474 | a quantized component and an enum take the base-two logarithm of their steps or variants, rounded up: none when there is one |
| Widths.VaruintGroups | crates/tempo-wire/src/bits.rs:77-88 | a varint takes one byte for every seven bits, and at least one |
| Widths.ZigzagOrder | crates/tempo-wire/src/bits.rs:244-253 | zig-zag numbers the integers by magnitude, the negative of each pair first |
| Widths.BytesWidth | crates/tempo-wire/src/value.rs:177-186 | a string or byte string ends on a byte boundary, at most seven bits beyond its length and its bytes |
| FieldIO.WriteField | crates/tempo-wire/src/value.rs:127-189 | the writer gains exactly the field's bits for where it stands, or the error is the codec's |
| FieldIO.WriteLengthAndBytes | crates/tempo-wire/src/value.rs:177-186 | `check_len`, the length and the aligned bytes |
| FieldIO.ReadField | crates/tempo-wire/src/value.rs:192-262 | the reader yields the value and stands where the codec leaves off, or the error is the codec's, malformed UTF-8 included |
| FieldIO.ReadLengthAndBytes | crates/tempo-wire/src/value.rs:292-307 | the length is checked against the limit and what is left before anything is taken, then the aligned bytes |
| Bits.VaruintRoundTrip | crates/tempo-wire/src/bits.rs:77-212 | every 64-bit varint is read back, whatever follows |
| Bits.ReadWritten | crates/tempo-wire/src/bits.rs:46-186 | the bits written are read back, whatever follows |
| Bits.ByteAt | crates/tempo-wire/src/bits.rs:111-123 | a byte buffer as the stream it stands for: byte `i` is bits `8 i` to `8 i + 8`, least significant first |
| BitBuffers.BitWriter.WriteBits | crates/tempo-wire/src/bits.rs:46-65 | the stream written so far grows by exactly the low bits of the value |
| BitBuffers.BitWriter.WriteVaruint | crates/tempo-wire/src/bits.rs:77-88 | the stream grows by exactly the varint |
| BitBuffers.BitWriter.Align | crates/tempo-wire/src/bits.rs:98-102 | exactly the zero bits up to the next byte boundary are added |
| BitBuffers.BitWriter.WriteBytes | crates/tempo-wire/src/bits.rs:105-108 | the stream gains that padding and then the bytes |
| BitBuffers.BitWriter.Finish | crates/tempo-wire/src/bits.rs:111-114 | the bytes are everything written and then the padding |
| BitBuffers.BitWriter.ToBytes | crates/tempo-wire/src/bits.rs:117-123 | the same, without disturbing the writer |
| BitBuffers.BitReader.ReadBits | crates/tempo-wire/src/bits.rs:160-186 | the next bits and what is left, or an error exactly at the end |
| BitBuffers.BitReader.ReadVaruint | crates/tempo-wire/src/bits.rs:195-212 | the varint and what is left, with both error cases |
| BitBuffers.BitReader.ReadBytes | crates/tempo-wire/src/bits.rs:226-237 | the bytes from the next boundary and what is left, or an error exactly when they are not all there |
| Quantization.QuantizeNearest | crates/tempo-wire/src/quantize.rs:40-54 | no other index stands for a value nearer to the one sent |
| Quantization.QuantizeIdempotent | crates/tempo-wire/src/quantize.rs:40-54 | quantizing what the receiver holds gives back its index |
| Quantization.QuantizedFits | crates/tempo-wire/src/schema.rs:468-474 | every index fits `quantized_bits` |
| Quantization.QuantizeError | crates/tempo-wire/src/quantize.rs:40-54 | in range the error is under one step, and at most half of one except in a last partial step |
| Quantization.DequantizeExact | crates/tempo-wire/src/quantize.rs:52-54 | no index in range saturates |
| Quaternions.NearUnit | crates/tempo-wire/src/quantize.rs:123-140 | when the three kept squares sum to at most one, the exact squared norm is within a bound of one set by the roundings |
| Quaternions.RecompressionFixed | crates/tempo-wire/src/quantize.rs:92-140 | compressing a decoded rotation gives back its encoding if and only if the omitted component is still the first of largest magnitude |
| Quaternions.UnitRoundTrip | crates/tempo-wire/src/quantize.rs:58-76 | each component index stands for a value that rounds back to it, at every width up to 30 bits |
| Quaternions.RotationKept | crates/tempo-wire/src/quantize.rs:92-140 | a rotation comes back as itself or its negation: the omitted component is not negative, and each kept one is within half a step, and the step's rounding, of the original's, negated exactly when the omitted one was negative |
| Quaternions.RecompressionDrifts | crates/tempo-wire/src/quantize.rs:92-140 | a concrete rotation that changes when compressed again |
| Quaternions.CompressQuatLoop | crates/tempo-wire/src/quantize.rs:92-120 | the loop keeps the largest component out and the other three, sign-corrected, in order |
| Fixed.IsqrtLoop | crates/tempo-fixed/src/lib.rs:419-437 | for every n the restoring loop ends with r*r <= n < (r+1)*(r+1) |
| Fixed.Sqrt | crates/tempo-fixed/src/lib.rs:442-447 | the largest r with r*r <= raw * 2^32; zero for non-positive inputs |
| Fixed.MulFloors | crates/tempo-fixed/src/lib.rs:217-219 | a product is the exact one rounded down, clamped to what fits |
| Fixed.DivTruncates | crates/tempo-fixed/src/lib.rs:227-238 | a quotient is the exact one rounded toward zero, clamped to what fits; over zero it is the extreme of the numerator's sign |
| CanonicalSchemas.CanonicalTextFaithful | crates/tempo-wire/src/schema.rs:333-344 | two valid schemas have the same canonical text exactly when they are equal up to component order, field order and `base_priority` |
| CanonicalExample.SpecificationExample | crates/tempo-wire/src/schema.rs:220-344 | the example of section 3.1 of the schema specification has its text, character for character, but for the type the specification prints as `u32` and the code as `uint` |
| CanonicalSchemas.CanonicalIsLines | crates/tempo-wire/src/schema.rs:333-344 | the text is the lines of the schema's sorted form |
| CanonicalSchemas.TextInjective | crates/tempo-wire/src/schema.rs:333-344 | the text determines its lines and each line its words |
| CanonicalSchemas.BodyLinesInjective | crates/tempo-wire/src/schema.rs:336-341 | the lines determine the components and their fields |
| CanonicalSchemas.SortStrict | crates/tempo-wire/src/schema.rs:270-330 | sorting distinct names leaves them strictly ascending |
| CanonicalText.WordsInjective | crates/tempo-wire/src/schema.rs:220-245 | a field's line determines everything but its priority |
| CanonicalText.ParametersInjective | crates/tempo-wire/src/schema.rs:224-244 | set parameters are read back key by key |
| CanonicalText.RenderInjective | crates/tempo-wire/src/schema.rs:455-462 | distinct fixed-point values render differently |
| CanonicalText.DecimalInjective | crates/tempo-wire/src/schema.rs:224-244 | distinct integers render differently |
| SchemaRegistry.ValidateField | crates/tempo-wire/src/schema.rs:159-217 | accepts exactly the valid declarations |
| SchemaRegistry.ValidateComponent | crates/tempo-wire/src/schema.rs:277-296 | accepts exactly identifier names, valid fields and distinct field names |
| SchemaRegistry.Schema.Register | crates/tempo-wire/src/schema.rs:313-323 | appends exactly the valid components whose name is free |
| SchemaRegistry.Schema.CanonicalText | crates/tempo-wire/src/schema.rs:333-344 | the printing loops produce the canonical form |
| SchemaRegistry.WriteField | crates/tempo-wire/src/schema.rs:220-245 | the printing steps produce a field's line |
| ReliableRuns.OrderedIsPrefix | crates/tempo-reliability/src/channel.rs:341-424 | under any loss, duplication, reordering and delay, and whatever the cap refuses, the ReliableOrdered output is a prefix of what was sent |
| ReliableRuns.UnorderedOnce | crates/tempo-reliability/src/channel.rs:372-387 | while no cap refuses a message, ReliableUnordered delivers each id at most once, and exactly the ids below `next_expect_id` or in `seen_above` |
| Conservation.NothingLost | crates/tempo-reliability/src/channel.rs:223-333 | over every run each unordered id sent is unacknowledged or was delivered, even at the buffer cap; each ordered id is unacknowledged, delivered or buffered while the cap refuses no ordered message |
| Retransmission.CarriedAgain | crates/tempo-reliability/src/channel.rs:271-303 | over every run, an unacknowledged message is never carried again before its wait since the last packet that carried it; once that and half as long again have passed the next packet carries it if and only if no message of the channel, itself or an older one, is too large for what is left, and always when everything unacknowledged fits |
| Retransmission.OnePacketRepairs | crates/tempo-reliability/src/channel.rs:248-424 | whatever the network did before, one packet sent late enough, with room for everything unacknowledged, repairs it all by arriving: both reliable channels have then delivered everything sent |
| Retransmission.RunTimed | crates/tempo-reliability/src/channel.rs:285-292 | over every run `last_sent` is when a packet last carried the message and `attempts` the packets that did after the first |
| Retransmission.PacketOnTime | crates/tempo-reliability/src/channel.rs:248-318 | one packet, in times and sizes: what it must leave out, what it must carry, and what it remembers of each reliable message |
| Retransmission.WaitIsDelay | crates/tempo-reliability/src/channel.rs:135-151 | the wait is half the round trip, at least 10 ms, doubled for each attempt past the eighth up to five times; jitter adds at most half of it |
| Retransmission.QueuedGoesOnce | crates/tempo-reliability/src/channel.rs:293-310 | a queued unreliable message goes with the next packet if it fits what is left, and is forgotten either way |
| Retransmission.SentGoesOut | crates/tempo-reliability/src/channel.rs:224-318 | what has just been sent, on any channel, goes out with the next packet that has room for it |
| ReliableRuns.FullyAckedIsFullyDelivered | crates/tempo-reliability/src/channel.rs:437-440 | once everything is acknowledged, the ordered channel has delivered exactly what was sent and the unordered one every id once |
| ReliableRuns.SequencedAscends | crates/tempo-reliability/src/channel.rs:357-370 | UnreliableSequenced output is strictly newer every time while ids span less than half their space |
| ReliableRuns.AcksSound | crates/tempo-reliability/src/ack.rs:107-131 | over every run each reported sequence was received by the peer, and none is reported twice |
| ReliableRuns.ActKeeps | crates/tempo-reliability/src/channel.rs:223-424 | every call of either end keeps both directions' invariants |
| CapLoss.CapLosesMessage | crates/tempo-reliability/src/channel.rs:418-421 | a concrete run in which a message dropped at the cap is acknowledged and lost, contrary to the comment |
| CapExactness.LosesExactly | crates/tempo-reliability/src/channel.rs:418-421 | over every run, a reliable channel never loses a message at any point if and only if every acknowledgement that arrives newly covers only what its sender has delivered or buffered |
| CapExactness.ArrivalKeepsExactly | crates/tempo-reliability/src/channel.rs:321-328 | in every state two ends can be in, one arriving packet loses nothing on a reliable channel if and only if whatever its header newly acknowledges is delivered or buffered at the other end |
| CapLoss.LostExactlyAtCap | crates/tempo-reliability/src/channel.rs:418-421 | an ordered message alone in the newest packet, whose acknowledgement then gets through, is lost if and only if the cap did not accept it |
| CapLoss.AckedUnheldIsLost | crates/tempo-reliability/src/channel.rs:418-421 | in every state two ends can be in: when an acknowledgement arrives for a remembered packet, whatever it lists and the receiver does not hold is neither unacknowledged nor held from then on |
| CapLoss.CapRepeatsMessage | crates/tempo-reliability/src/channel.rs:384-386 | a run from new endpoints that delivers an unordered message twice |
| Delivery.OrderedReceive | crates/tempo-reliability/src/channel.rs:389-421 | one arrival: output stays the log's prefix, and the message is held afterwards exactly when the cap accepts it |
| Delivery.UnorderedReceive | crates/tempo-reliability/src/channel.rs:372-387 | one arrival the cap accepts is delivered unless held already, and held afterwards |
| Delivery.RepeatedExactlyAtCap | crates/tempo-reliability/src/channel.rs:372-387 | a second copy of a message not yet held is delivered again if and only if the cap does not accept it |
| Delivery.SequencedReceive | crates/tempo-reliability/src/channel.rs:357-370 | delivered exactly when newer than everything delivered |
| Delivery.NewerExactly | crates/tempo-reliability/src/channel.rs:362-365 | in plain integers, which ids count as newer: those up to 2^31 - 2 ahead across the wrap |
| Channels.RetryDelayBounds | crates/tempo-reliability/src/channel.rs:135-146 | below 2^58 microseconds nothing saturates: the delay is the backed-off half round trip plus at most half of it |
| Channels.PacketWithinBudget | crates/tempo-reliability/src/channel.rs:248-318 | the packet's payloads and what is left add up to the budget |
| Channels.CollectKeeps | crates/tempo-reliability/src/channel.rs:271-303 | a pass takes only due messages, in ascending id, marks exactly those as sent now and changes nothing else |
| Channels.HeadOfLine | crates/tempo-reliability/src/channel.rs:271-303 | a due message left behind is behind one at least as old that did not fit |
| Exchange.RetireAllKeeps | crates/tempo-reliability/src/channel.rs:321-328 | only packets in the list retire anything, and only what they carried |
| Exchange.GivenUpForgets | crates/tempo-reliability/src/channel.rs:321-335 | a packet given up for lost retires nothing if it is acknowledged after all, and every other packet retires what it would have |
| ReliabilityObjects.ChannelSet.Send | crates/tempo-reliability/src/channel.rs:224-241 | the whole new state and the id |
| ReliabilityObjects.ChannelSet.Packetize | crates/tempo-reliability/src/channel.rs:248-318 | the whole new state and the packet's messages |
| ReliabilityObjects.ChannelSet.PackReliable | crates/tempo-reliability/src/channel.rs:271-303 | the loop over one reliable channel, with its early exit |
| ReliabilityObjects.ChannelSet.PackQueue | crates/tempo-reliability/src/channel.rs:304-319 | the loop over one unreliable queue |
| ReliabilityObjects.ChannelSet.OnPacketAcked | crates/tempo-reliability/src/channel.rs:321-328 | exactly the packet's messages are retired |
| ReliabilityObjects.ChannelSet.OnPacketLost | crates/tempo-reliability/src/channel.rs:333-335 | only the packet's bookkeeping goes |
| ReliabilityObjects.ChannelSet.OnReceive | crates/tempo-reliability/src/channel.rs:341-424 | the whole new state and the messages released |
| ReliabilityObjects.ReleaseRun | crates/tempo-reliability/src/channel.rs:402-410 | filling a gap releases the whole buffered run |
| ReliabilityObjects.AbsorbRun | crates/tempo-reliability/src/channel.rs:380-383 | the contiguous run absorbs the ids seen above it |
| Acks.HeaderSoundExactly | crates/tempo-reliability/src/ack.rs:89-101 | a header marks only sequences received if and only if something was; before the first receipt it acknowledges packet 0 |
| Acks.AckHeaderReports | crates/tempo-reliability/src/ack.rs:107-131 | a header reports exactly the sequences it marks that are remembered and were not reported, each once |
| AckExactness.HeadersExact | crates/tempo-reliability/src/ack.rs:78-101 | header bits mark exactly the received among the 32 before `ack`, on every orderly run, if and only if the capacity is at least 33 and divides 2^16 or reaches it |
| AckExactness.ShortBufferForgets | crates/tempo-reliability/src/sequence.rs:84-96 | with 32 slots or fewer the arrival a full buffer back is forgotten |
| AckExactness.MisalignedBufferForgets | crates/tempo-reliability/src/sequence.rs:79-96 | with any other misaligned capacity, a concrete run across the wrap loses a received sequence |
| AckExactness.LateArrivalForgets | crates/tempo-reliability/src/ack.rs:76-83 | at any capacity, an arrival one buffer behind a received sequence clears the bit the header had set for it |
| ReliabilityObjects.AckTracker.BeginSend | crates/tempo-reliability/src/ack.rs:62-73 | the whole new state and the sequence |
| ReliabilityObjects.AckTracker.OnReceive | crates/tempo-reliability/src/ack.rs:78-84 | the whole new state |
| ReliabilityObjects.AckTracker.MakeHeader | crates/tempo-reliability/src/ack.rs:89-101 | the loop computes the header |
| ReliabilityObjects.AckTracker.OnAckHeader | crates/tempo-reliability/src/ack.rs:107-114 | the whole new state, bit by bit |
| Sequences.OrderSurvivesWrap | crates/tempo-reliability/src/sequence.rs:13-26 | `is_newer` and `distance` are right for numbers less than 2^15 apart |
| Sequences.OrderExactly | crates/tempo-reliability/src/sequence.rs:13-26 | and no further: of numbers within one turn of the wire, those closer than 2^15 compare right and those exactly 2^15 apart when the first is the older, no others |
| Sequences.RingPutGet | crates/tempo-reliability/src/sequence.rs:79-96 | a value is served only under its own sequence |
| Sequences.ExtendRecovers | crates/tempo-reliability/src/sequence.rs:34-51 | the 64-bit number is recovered if and only if it is less than 2^15 from the highest seen, ties within its block of 2^16, or has no rival block |
| Sequences.ExtendLoop | crates/tempo-reliability/src/sequence.rs:34-51 | the candidate loop keeps the first of the nearest |
| Replay.AcceptExact | crates/tempo-netcode/src/crypto.rs:133-162 | after the first acceptance exactly the sequences not yet accepted and less than 64 behind the highest are accepted; the mask refines the accepted set |
| Replay.NoReplay | crates/tempo-netcode/src/crypto.rs:133-162 | over every run no sequence is accepted twice |
| Replay.RefusedForCause | crates/tempo-netcode/src/crypto.rs:133-162 | an arrival is refused exactly when it was accepted before or an accepted one is 64 or more ahead |
| Replay.ExtendedArrivalJudged | crates/tempo-netcode/src/crypto.rs:133-162 | with sequence extension, what is judged is the true number |
| Replay.ReplayWindow.Accept | crates/tempo-netcode/src/crypto.rs:133-162 | the whole new state and the verdict |
| Fragments.Reassembles | crates/tempo-reliability/src/fragment.rs:158-238 | fragments in any order, repeated and interleaved with other messages, however old the reassembler is, give nothing until the last missing one, which gives the payload exactly |
| Fragments.RoundTripsExactly | crates/tempo-reliability/src/fragment.rs:79-110 | handed every fragment in order with room and time, the payload comes back if and only if the chunks do not exceed `max_fragments`; the 16-bit count wraps past 65535 |
| Fragments.TooManyChunks | crates/tempo-reliability/src/fragment.rs:95-108 | beyond that no run of its fragments ever returns the payload |
| Fragments.PushSound | crates/tempo-reliability/src/fragment.rs:158-238 | in every reachable state `total_bytes` is the stored part lengths and stays within the limits, as does the number of messages |
| Fragments.RefusedExactly | crates/tempo-reliability/src/fragment.rs:158-238 | which fragments are refused and with which error, in counts, times and bytes; other messages leave only by timing out |
| Fragments.PushPart | crates/tempo-reliability/src/fragment.rs:200-237 | one fragment that is not refused: duplicate, last or kept |
| Fragments.PushOther | crates/tempo-reliability/src/fragment.rs:158-238 | a fragment of another message leaves this one alone unless its timeout has passed |
| Fragments.ChunksConcat | crates/tempo-reliability/src/fragment.rs:94-109 | the chunks joined are the payload |
| ReassemblerObject.Reassembler.Push | crates/tempo-reliability/src/fragment.rs:158-238 | the whole new state and the result, each error included |
| ReassemblerObject.Reassembler.Expire | crates/tempo-reliability/src/fragment.rs:243-254 | exactly the messages past their timeout go, and their bytes are freed |
| ReassemblerObject.Assemble | crates/tempo-reliability/src/fragment.rs:232-236 | the parts are joined in order |
| Starvation.NoStarvation | crates/tempo-interest/src/priority.rs:89-183 | among N candidates that fit the budget alone, accumulate once a tick and gain within a ratio R, each is sent within 4R(N-1)+1 ticks, while its own score does not saturate |
| Ageing.NoLongStarvation | crates/tempo-interest/src/priority.rs:78-97 | the wait goes with the square root of the ratio: where the staleness scale is S ticks or less, each is sent within 8m max(N-1, S)+1 ticks for any m whose square reaches R |
| Ageing.AgedOutrankingAge | crates/tempo-interest/src/priority.rs:78-97 | what outranks a candidate that waited t ticks, at least 4mS, is more than t/(4m) ticks old |
| Ageing.ScoreGrowsSquare | crates/tempo-interest/src/priority.rs:89-97 | past one scale, a candidate 4m times as old has scored at least 2m^2 times as much |
| Starvation.BlockerAge | crates/tempo-interest/src/priority.rs:89-183 | whoever is sent while a candidate waits is older than its share of the wait |
| Starvation.SinceSent | crates/tempo-interest/src/priority.rs:89-118 | a score some ticks after a reset is at most the heaviest possible |
| Starvation.WhileWaiting | crates/tempo-interest/src/priority.rs:89-97 | a candidate passed over has scored at least the lightest possible |
| Starvation.OutrankingAge | crates/tempo-interest/src/priority.rs:78-88 | what outranks a candidate that waited t ticks is more than t/(2R) ticks old |
| Starvation.IncrementBounds | crates/tempo-interest/src/priority.rs:89-97 | one fixed-point increment lies between one weight and 2R-1 of them |
| Priority.SelectKeeps | crates/tempo-interest/src/priority.rs:146-183 | bytes within budget, sent plus deferred is everyone, exactly the sent start over |
| Priority.ChooseTurn | crates/tempo-interest/src/priority.rs:168-176 | each is sent exactly when it still fits after those ranked before it |
| Priority.RankSorts | crates/tempo-interest/src/priority.rs:152-161 | the ranking is the candidates rearranged by score, then index |
| Priority.LeftOutBehind | crates/tempo-interest/src/priority.rs:146-183 | a candidate that fits alone is left out only behind one scoring at least as high, which is sent |
| Priority.GainMonotone | crates/tempo-interest/src/priority.rs:213-217 | nearer never gains less |
| Priority.GainIs | crates/tempo-interest/src/priority.rs:208-217 | the gain is the base over one plus the distance in half distances, rounded down: the whole base at no distance, half of it at the half distance |
| Priority.GainNeverZero | crates/tempo-interest/src/priority.rs:208-217 | the gain is positive at every distance if and only if the base, shifted up, reaches the falloff at the greatest distance |
| Priority.PriorityAccumulator.AddPriority | crates/tempo-interest/src/priority.rs:89-97 | the whole new state |
| Priority.PriorityAccumulator.Pick | crates/tempo-interest/src/priority.rs:146-183 | the whole new state and the selection |
| Priority.PriorityAccumulator.RemoveObserver | crates/tempo-interest/src/priority.rs:128-130 | exactly that observer's entries go; the others keep theirs |
| SpatialIndex.SpatialGrid.QueryAsScan | crates/tempo-interest/src/aoi.rs:176-201 | for radius at least 0.5 whose square does not saturate, with every searched cell index within 32 bits, the query is exactly the scan, strictly ascending: everything in the circle, and nothing whose squared distance exceeds it by two or more |
| SpatialIndex.SpatialGrid.Query | crates/tempo-interest/src/aoi.rs:176-201 | the hits in the visited cells, strictly ascending |
| SpatialIndex.SpatialGrid.Insert | crates/tempo-interest/src/aoi.rs:113-133 | positions gain or move the entity; every entity stays in its cell's bucket once |
| SpatialIndex.SpatialGrid.Remove | crates/tempo-interest/src/aoi.rs:136-146 | positions lose the entity; empty buckets go |
| SpatialIndex.SpatialGrid.CellCount | crates/tempo-interest/src/aoi.rs:166-169 | one bucket for each occupied cell |
| SpatialIndex.QueriesAgreeExactly | crates/tempo-interest/src/aoi.rs:176-201 | for any radius: every query is the scan if and only if the cells searched reach the furthest offset the distance test lets through |
| Grids.HitIsCircle | crates/tempo-interest/src/aoi.rs:190-195 | the distance test in plain integers, for every offset, saturating or not: every point of the circle passes, and whatever passes has a raw squared distance less than 2^33 beyond the radius's |
| Grids.CellsSufficeExactly | crates/tempo-interest/src/aoi.rs:105-110 | every hit lies in the cells searched, around every centre, under that same condition and no weaker one |
| Grids.CellSpread | crates/tempo-interest/src/aoi.rs:105-110 | truncating then flooring never spreads coordinates more than k cells apart when they are within k widths |
| Grids.CellIndexIs | crates/tempo-interest/src/aoi.rs:105-110 | which coordinates fall in a cell, the truncation of negative quotients included |
| Grids.HitOffsets | crates/tempo-interest/src/aoi.rs:190-195 | a hit is within the furthest passing offset on each axis |
| Grids.HalfIsCovered | crates/tempo-interest/src/aoi.rs:176-201 | radius at least 0.5 meets the condition |
| Prediction.RunTracks | crates/tempo-predict/src/predict.rs:107-231 | over every run the history is at most `max_history` contiguous ticks, each state the simulation of the one before, the last the live world |
| Prediction.ReconcileKeeps | crates/tempo-predict/src/predict.rs:158-231 | any snapshot keeps the chain |
| Prediction.RecordKeeps | crates/tempo-predict/src/predict.rs:107-112 | recording the next tick keeps the chain |
| Prediction.RecordsHeld | crates/tempo-predict/src/predict.rs:107-112 | after any number of records in a row exactly the newest `max_history` entries are held |
| Prediction.HeldTick | crates/tempo-predict/src/predict.rs:187-230 | agreement releases what is confirmed; disagreement leaves the world as the fold of the later inputs over the authority |
| Prediction.HeldTickVerdict | crates/tempo-predict/src/predict.rs:187-230 | a snapshot for a held tick is confirmed if and only if every slot has the same live handle, presence and discrete fields and no number is further off than the tolerance; otherwise the authority is adopted and replayed |
| Prediction.OutcomeByTick | crates/tempo-predict/src/predict.rs:169-185 | which outcome, from the snapshot's tick and whether any history is held: with none, or past the newest, the snapshot is adopted; before the oldest, nothing changes; in between, it is compared |
| Prediction.OlderIsStaleExactly | crates/tempo-predict/src/predict.rs:169-184 | a snapshot older than the world and everything held leaves the world alone if and only if something is held |
| Prediction.LateSnapshotRewinds | crates/tempo-predict/src/predict.rs:169-198 | confirming the newest prediction and then receiving an older snapshot rewinds the world to it, reported as a resync |
| Prediction.CorrectionCatchesUp | crates/tempo-predict/src/predict.rs:200-230 | after one correction the world and every held state are the authority's, so later exact snapshots are confirmed |
| Prediction.QuantizedAuthorityConfirms | crates/tempo-predict/src/predict.rs:187-198 | a right prediction is confirmed against the authority's own `as_sent` |
| PredictorObject.Predictor.Record | crates/tempo-predict/src/predict.rs:107-112 | the whole new state |
| PredictorObject.Predictor.Reconcile | crates/tempo-predict/src/predict.rs:158-231 | predictor, world and outcome, with the replay loop |
| Comparison.CompareExactly | crates/tempo-core/src/snapshot.rs:441-493 | a comparison agrees exactly when every slot does |
| Comparison.AgreesExactly | crates/tempo-core/src/snapshot.rs:441-514 | at a tolerance from 0 up to but below the largest, two worlds agree if and only if live handles, presence and every discrete field are equal and every number differs by at most the tolerance, as integers |
| Comparison.AgreesIsSameView | crates/tempo-core/src/snapshot.rs:441-514 | at no tolerance two worlds agree if and only if their live views are equal |
| Comparison.DifferenceIsReal | crates/tempo-core/src/snapshot.rs:441-493 | the difference reported is a real one, and in the first slot that has any |
| Comparison.SentCopyAgrees | crates/tempo-core/src/snapshot.rs:441-514 | a world agrees with its own `as_sent` when the tolerance covers every step, values are in range and no rotation is quantized |
| Comparison.CompareWith | crates/tempo-core/src/snapshot.rs:441-493 | the loops find the first difference |

## Left out

- InputSources.Converges: asks for a fixed player set, one true input per player and tick, confirmations inside a window that fits `input_history`, and fewer than 2^31 ticks; the simulation is a pure function that does not read an input's source.
- RollbackSession.Session.RollbackTo: a saved state always has the world's shape, so the restore error of the core is not among its outcomes; clocks and statistics beyond the counters are not modelled.
- Replication.DeltaReplicates: asks that slots stay below 2^32; whether a value survives its own encoding is settled by Codec.SentIsReceived for every type but a rotation whose omitted component changes.
- DeltaReceiver.ApplyDelta: `gap as i64 + 1` is taken as the wrapping addition of an optimised build; after an error the half-updated world is only known to be consistent.
- Conservation.NothingLost: at most 2^16 packets each way, fewer than 2^32 messages a channel, and an ack header travels only after a first receipt; for the ordered channel also that the cap refuses no ordered message.
- ReliableRuns.UnorderedOnce: the same contracts, and that the cap refuses no message.
- ReliableRuns.AcksSound: at most 2^16 packets each way.
- Channels.RetryDelayBounds: round trips below 2^58 microseconds, like Retransmission.CarriedAgain; above, the additions wrap or saturate.
- Retransmission.OnePacketRepairs: the same contracts as ReliableRuns.UnorderedOnce, for the packet that arrives too.
- Finality.FinalExactly: about one further arrival within the contracts of InputSources.Converges; ticks older than the input history are out of reach.
- Handles.DeadStayDead: slot indices stay below 2^32 - 1.
- Starvation.NoStarvation: the candidates and the observer stay the same over the run, and the waiting candidate's own score neither starts negative nor saturates.
- Ageing.NoLongStarvation: the same, with a staleness scale of at least one tick and a wait below 2^31 ticks.
- SpatialIndex.SpatialGrid.Query: asks, like SpatialIndex.SpatialGrid.QueryAsScan, that every cell searched has 32-bit indices; beyond, the additions of the source overflow. SpatialIndex.QueriesAgreeExactly is about unbounded cell indices.
- Grids.CellsSufficeExactly: asks that the radius spans fewer than 2^31 cells and that its square does not saturate.
- Fragments.Reassembles: asks that no fragment of the message is refused by a limit and that the message's own fragments do not time out before the run ends.
- Prediction.RunTracks: snapshots come from the same registry, so the shape error of `restore` does not arise, and ticks stay below 2^31.
- Quaternions.RecompressionFixed: two different encodings can decode to the same rotation, so a rotation can survive a second compression although its encoding does not.
- The schema ID and the state hash: BLAKE3 is not part of this model; canonical text and the live view stand for them.
- `Schema::diff` (what changed between two schemas), `RelevanceTracker` (who entered or left each observer's view), `RewindBuffer` (past snapshots for lag compensation), `RttEstimator` and `ClockSync` (smoothed round trip and clock offset): not modelled.
- `EntityAllocator` live count and iteration order: nothing modelled reads them.
- A pending delta entry keeps its payload as finished bytes and a bit length rather than as a live writer.
- Trigonometry, logarithms, vector rotation and float conversion: their tables and floats are not part of this model.
- Encryption, connect tokens, sockets and the link simulator: outside the state machines.
- Wrap-around of the 32-bit tick inside the rings.
- Hostile malformed packets beyond the errors the modelled decoders return.
