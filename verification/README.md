# Verification of the telemetry pipeline

A Dafny 4.11 model of the parts of the telemetry pipeline whose comments make
claims about every input, run or document, and proofs of those claims. `dafny verify
dfyconfig.toml` checks all of it.

Five components are modelled.

**The canonical data plane** (`model/src/canonical.rs`, `value.rs`, `encode.rs`,
`finite.rs`, and what `codegen/src/wrapper` generates per message). One tree is
walked four ways: total order, hash stream, wire bytes, validation. A message
schema is a list of plans (number, metadata flag, sortable flag, shape, limits);
compare, digest, emit, canonicalize and read are interpreters over schema and
value, and the recursive `Value` is one leaf kind. Doubles are 64-bit patterns.
The encoder is compared with a specification encoder and decoder written from the
Protocol Buffers encoding ("Base 128 Varints", "Signed Integers",
"Length-Delimited Records"). Files: `Orders`, `Bytes`, `Finites`, `Values`,
`ValueReading`, `ValueOrder`, `ValueDigest`, `ValueWire`, `Records`, `Leaves`,
`Schemas`, `SchemaOrder`, `SchemaDigest`, `SchemaWire`, `SchemaReading`,
`MessageReading`, `Canonicalization`, `HashStability`, `AdjacentScan`, `Contract`
(the shipped graph, identity and signal messages) and `Sinks` (the same writers and
readers as loops over a mutable buffer).

**Rules over canonical form** (`model/src/rules.rs`, `codegen/src/lint.rs`).
Frontier loops against reachability by paths, binary search relying on the
canonical sort, series grouping, and the checks the `Readings` and `ResourceGraph`
messages are built under. Files: `Graphs`, `Rules`, `ReadingsBuilding`,
`GraphBuilding`, `LintGraphs`.

**The collection protocol** (`orchestration/src/stream.rs`, `collector.rs`).
State machines whose steps are the lock sections, queue operations and task
events, with invariants over every run of every interleaving. The lock sections
are also methods of the objects that share the state, and any sequence of calls on
those objects is a run of the machine. Files: `Reconnect`, `StreamProtocol`,
`Collector`.

**gNMI projection** (`sources/gnmi/src/projection.rs`). The backward scan, the
claiming of leaves and identities, chunking and deletes, with the subscription's
mapping, JSON expansion and conversion as functions of the spec; and what the stages
come to, read off the notification without naming any of them. Files:
`GnmiProjection`, `GnmiMeaning`.

**The projection compiler** (`codegen/src/projection`, `sources/redfish/src/uri.rs`).
Emitted Rust is an expression language with an evaluator; compiled reads mean what
a direct walk means. The lint's pairing rule is safe on every document of the source
schema. `WellPaired` is enough for payable payloads on every document, and it is
needed too for instances that some document emits together, with gates read apart
and conversions that never refuse (`PairingExact`); the rule asks for more than it by
exactly one violation (`RuleAndNeed`). Location templates and their matchers agree.
Files: `ReadChains`, `SourceDocuments`, `PairingLint`, `PairingDocuments`,
`Locations`.

Two claims of the source are not true as stated, and the proofs say exactly when
they hold:

- `model/src/canonical.rs:10-16` suggests sorting cannot move a hash under
  metadata. It can when metadata is nested in a visible field of a sorted element
  (`NestedMetadataMovesTheHash`: two lists of one content, two streams). A message's
  hash is its content if and only if no sorted field has an interleaved element type
  (`HashIsContentExactly`), where interleaved is read off the schema: at some level a
  visible field that can vary in metadata alone stands before a visible field that
  can vary in content, a list counting as both. Metadata directly on the element is
  never interleaved (`DirectMetadataIsApart`), and the shipped graph has no other
  (`GraphHashExact`).
- `orchestration/src/stream.rs:164-171` doubles at most 31 times, so `max_retry`
  is ever reached if and only if `first_retry * 2^31 >= max_retry` (`CapReached`). A
  first retry of one nanosecond under a cap of three seconds is admitted and never
  reaches it (`CapOutOfReach`).

One lint predicate is narrower than what it stands for: `always_present` asks
for a path that is required and non-nullable throughout, while a required-nullable
leaf under an invalid-null policy also leaves its fallbacks unreachable
(`AlwaysAnswers` gives the exact condition). The pairing rule counts any gate as one
that can fail: a required scalar read from a bare property always has a value, and
the rule refuses it all the same (`RefusedAndPayable`); two descriptors anchored on
disjoint values of one enumeration are never emitted together, and it refuses them
too (`ExclusiveAndPayable`).

## Model

| member | source | states |
|---|---|---|
| Finites.New | model/src/finite.rs:31-39 | admits exactly the finite patterns, keeps the number denoted, and changes no bits but those of negative zero |
| Finites.CmpEqual | model/src/finite.rs:48-63 | the order over denoted numbers says Equal exactly for identical bits: one zero |
| Finites.CmpIsSignMagnitude | model/src/finite.rs:56-63 | comparing the numbers two finite patterns denote (IEEE 754-2019 section 3.4) is comparing their sign-magnitude integer keys |
| ValueReading.TryValueExact | model/src/value.rs:376-411 | a wire tree is accepted if and only if it is whole, finite, bounded, unique-keyed, below one second of nanos and at most 16 deep; the value built is valid, caches the true nesting depth and denotes what the wire said, entries sorted by key |
| ValueReading.TryMapExact | model/src/value.rs:470-492 | a bare map reads exactly when its entries are whole, bounded and distinct, and keeps each |
| ValueReading.CollectExact | model/src/value.rs:497-513 | collecting succeeds exactly on nonempty, bounded, unused keys and counts in bound; the result is sorted and is the union of what was there and what came |
| ValueReading.TryIntoWire | model/src/value.rs:413-441 | writing a valid value to the wire tree and reading it back is the identity |
| ValueReading.WireIdempotent | model/src/value.rs:376-441 | wire to value to wire is idempotent on every acceptable tree |
| ValueOrder.CmpEqual | model/src/value.rs:667-683 | Equal means identical on valid values, at any nesting |
| ValueOrder.CmpFlip | model/src/value.rs:667-683 | swapping the operands reverses the verdict |
| ValueOrder.CmpTransitive | model/src/value.rs:667-683 | the order is transitive through lists and maps |
| Orders.CmpIntsLess | model/src/canonical.rs:172-189 | text and bytes compare Less if and only if at the first difference the first ends or has the lesser byte |
| ValueOrder.ScalarOrder | model/src/value.rs:667-683 | which order it is: instants by seconds * 10^9 + nanos, numbers as numbers, lists and maps at their first difference, a proper prefix before what extends it |
| ValueOrder.NumericOrder | model/src/value.rs:627-636 | numbers of one arm as numbers, otherwise by arm |
| ValueOrder.CmpSliceTransitive | model/src/canonical.rs:149-158 | the list order is transitive |
| ValueOrder.CmpMapEqual | model/src/canonical.rs:160-170 | maps compare Equal exactly when they hold the same entries |
| ValueOrder.CmpNumericEqual | model/src/value.rs:627-636 | numeric values of different arms are never Equal; of one arm only when identical |
| ValueDigest.ValuePrefixFree | model/src/value.rs:685-707 | equal streams followed by anything mean equal values and equal remainders |
| ValueDigest.MapSplit | model/src/canonical.rs:116-123 | the map stream is prefix-free |
| ValueDigest.BlobSplit | model/src/canonical.rs:78-86 | length-prefixed text and bytes are prefix-free |
| ValueDigest.TimeSplit | model/src/value.rs:603-611 | the timestamp stream is prefix-free |
| ValueDigest.NumericSplit | model/src/value.rs:638-647 | the numeric stream is prefix-free across arms |
| ValueDigest.StreamsLiterally | model/src/value.rs:685-707 | the stream of every arm, byte for byte: the arm's number in four bytes, then the payload |
| ValueDigest.StreamsPartsLiterally | model/src/value.rs:603-647 | instants, numeric values, list elements and map entries likewise |
| Bytes.ParseVarintInverts | model/src/encode.rs:41-54 | parsing a Base 128 varint followed by anything gives the number and the rest |
| Bytes.VarintLenExact | model/src/encode.rs:48-54 | the computed length of a varint is the number of bytes written |
| Bytes.VarintIsBase128 | model/src/encode.rs:41-54 | the k-th byte of a varint carries the k-th group of seven bits, the continuation bit on all but the last |
| Bytes.LEIsLittleEndian | model/src/canonical.rs:64-76 | the k-th byte of a fixed-width number is its k-th byte from the low end |
| Records.ParseSer | model/src/encode.rs:26-39 | any sequence of records parses back from its serialization |
| ValueWire.EmitExact | model/src/value.rs:741-796 | emit writes exactly emitted_len bytes, equal to the specification encoding of the wire tree |
| ValueWire.EmitsLiterally | model/src/value.rs:741-796 | the bytes of every arm, key included: 0A 00 for null to 52 for maps; Int(i) is 18 and the varint of 2i, or of -2i-1 below zero, two bytes in all for -64 <= i < 64 |
| ValueWire.EmitsPartsLiterally | model/src/value.rs:603-625 | instants, list elements and map entries likewise, seconds in two's complement |
| ValueWire.EmitsNumericLiterally | model/src/value.rs:709-739 | a numeric value likewise: 10 and the varint of 2i or -2i-1 for an integer |
| ValueWire.ArmIsWireField | model/src/value.rs:667-796 | the number the order ranks an arm by and its stream is labelled with is its wire field |
| ValueWire.EmitMapExact | model/src/encode.rs:56-86 | the two-pass map encoder writes the specification encoding in the computed length |
| ValueWire.DecodeInverts | model/src/encode.rs:26-86 | the specification decoder inverts the encoding of every wire tree |
| ValueWire.RoundTrip | model/src/value.rs:741-796 | for every valid value: announced length, specification encoding, and decoding then validating gives the value back |
| Leaves.CheckedEnumsDoNotAlias | codegen/src/wrapper/mod.rs:385-440 | the enum check passes exactly values whose number decodes to them, so checked values with one number are one value |
| Leaves.CmpEqual | model/src/canonical.rs:172-189 | leaf comparison says Equal exactly for identical leaves of every kind |
| Leaves.CmpTransitive | model/src/canonical.rs:172-189 | leaf comparison is transitive |
| Leaves.PrefixFree | model/src/canonical.rs:64-123 | every leaf stream is prefix-free |
| Leaves.StreamsLiterally | model/src/canonical.rs:64-123 | the stream of every kind of leaf, byte for byte |
| Leaves.LeafOrder | model/src/canonical.rs:125-189 | which order leaves of a kind are in, an enum by its number |
| Leaves.DecodeInverts | codegen/src/wrapper/plans.rs:968-1000 | every leaf's record payload decodes to it |
| Leaves.EmitsLiterally | codegen/src/wrapper/plans.rs:968-1000 | the bytes of every kind of leaf field: key, then varint or delimited body, an enum's number in 64-bit two's complement |
| Leaves.TryLeafExactly | codegen/src/wrapper/mod.rs:740-751 | a leaf conversion succeeds exactly on known enum numbers, finite numbers, whole timestamps, and acceptable values and maps |
| SchemaOrder.CmpEqual | codegen/src/wrapper/mod.rs:565-582 | the generated comparison says Equal exactly for identical messages, metadata included |
| SchemaOrder.CmpFlip | codegen/src/wrapper/mod.rs:565-582 | it is antisymmetric, through optional, repeated, oneof and nested fields |
| SchemaOrder.CmpTransitive | codegen/src/wrapper/mod.rs:565-582 | it is transitive, although metadata is compared in a second phase at every level |
| SchemaOrder.MessageOrder | codegen/src/wrapper/mod.rs:565-582 | which order it is: Less if and only if at the first differing visible field, or with all of them equal the first differing metadata field, the first message's is less |
| SchemaOrder.SlotOrder | codegen/src/wrapper/mod.rs:565-582 | an absent field is less than any present one, a list at its first difference, a proper prefix first, a oneof by arm and then value |
| SchemaDigest.DatumPrefixFree | codegen/src/wrapper/plans.rs:154-214 | over one schema, equal streams followed by anything mean equal visible content and equal remainders |
| SchemaDigest.StreamIsContent | codegen/src/wrapper/mod.rs:583-624 | two messages feed equal bytes if and only if they agree after erasing metadata at every level |
| SchemaDigest.StreamsLiterally | codegen/src/wrapper/plans.rs:154-214 | a present field is its number then its value, a list its count then its elements, a message its visible fields then a zero |
| SchemaDigest.UnusedMovesNothing | model/src/canonical.rs:26-39 | a field that is absent or metadata contributes nothing: the stream is that of the schema without it |
| Canonicalization.SortByExact | codegen/src/wrapper/mod.rs:626-640 | sorting an unordered field sorts it and keeps its elements |
| Canonicalization.SortIgnoresMetadataExactly | model/src/canonical.rs:10-16 | lists of one content sort to one content order if and only if, pair by pair, the order of elements with different visible content ignores metadata |
| HashStability.OrderFollowsContentExactly | model/src/canonical.rs:10-16 | that order ignores metadata if and only if the schema is not interleaved: no visible field that can vary in metadata alone before a visible field that can vary in content, at any level of required, optional, repeated and oneof fields |
| HashStability.SortingKeepsContentExactly | model/src/canonical.rs:10-16 | so sorting lists of one content gives one content order if and only if the element type is not interleaved |
| HashStability.HashIsContentExactly | codegen/src/wrapper/mod.rs:626-675 | for a whole message, equal streams after canonicalization mean equal content for all values, both ways, if and only if no sorted visible field has an interleaved element |
| HashStability.HashMoves | codegen/src/wrapper/mod.rs:626-675 | for every schema with such a field there are two messages of one content with different streams |
| Canonicalization.DirectMetadataSuffices | model/src/canonical.rs:10-16 | metadata only directly on the sorted element meets that condition |
| HashStability.NestedMetadataMovesTheHash | model/src/canonical.rs:10-16 | the counterexample: [(1,1),(2,2)] and [(2,1),(1,2)], first number metadata inside an earlier visible field, have one content and two streams |
| HashStability.DirectMetadataIsApart | model/src/canonical.rs:10-16 | metadata only directly on the element is never interleaved |
| Canonicalization.ContentHashExact | codegen/src/wrapper/mod.rs:626-675 | construction canonicalized and no sorted order moved by metadata, two messages hash equal if and only if every visible field agrees, sortable fields as multisets of visible content |
| Contract.GraphHashExact | model/src/generated/model.rs:3527-3540 | two graphs feed equal streams if and only if resources agree as multisets once entity tag and read time are erased and relations agree as multisets |
| Contract.ResourceScanSound | codegen/src/wrapper/plans.rs:936-964 | the graph's resource key is checked by the neighbour scan |
| Contract.RelationScanSound | codegen/src/wrapper/plans.rs:936-964 | so is the relation key triple |
| Contract.DerivedOrderIsCanonical | codegen/src/wrapper/mod.rs:496-509 | the derived order of Subject is its canonical order |
| Contract.DerivedKeyOrderIsCanonical | codegen/src/wrapper/mod.rs:496-509 | the derived order of SignalKey is its canonical order |
| Contract.KeyDatumInjective | model/src/generated/model.rs:3426-3430 | signal keys are equal exactly when the fields compared are |
| AdjacentScan.ScanSoundLeads | codegen/src/wrapper/plans.rs:936-964 | when the generator calls the scan sound, every visible field before a key field is a key field |
| AdjacentScan.SortedKeysGrouped | codegen/src/wrapper/plans.rs:936-964 | then in canonical order equal keys are adjacent |
| AdjacentScan.SetScan | codegen/src/wrapper/plans.rs:741-780 | the set scan returns the first repeated index, or none |
| AdjacentScan.NeighbourScan | codegen/src/wrapper/plans.rs:741-780 | on grouped keys the neighbour scan returns that same index |
| AdjacentScan.CheckUnique | codegen/src/wrapper/plans.rs:741-780 | whichever scan is generated, the verdict and index are those of the set check |
| SchemaWire.EmitExact | codegen/src/wrapper/mod.rs:583-609 | a message emits the specification encoding of its wire tree in exactly emitted_len bytes |
| SchemaWire.EmitsLiterally | codegen/src/wrapper/mod.rs:583-609 | a field is its leaf's bytes or a delimited message, a list each element's field in turn, absence nothing, a message its fields in order |
| SchemaWire.FoldInverts | codegen/src/wrapper/mod.rs:583-609 | folding the records of a wire tree over defaults rebuilds it |
| SchemaReading.FromIntoWire | codegen/src/wrapper/mod.rs:740-760 | converting a valid message to the wire and validating it back is the identity, canonicalization included |
| SchemaReading.FromWireValid | codegen/src/wrapper/mod.rs:706-751 | whatever construction accepts is valid and canonical and keeps its cross-field rule, whichever that is |
| MessageReading.FromWireExactly | codegen/src/wrapper/mod.rs:706-751 | a message is accepted if and only if its wire tree is acceptable: required parts present, every leaf and nested message acceptable, lengths and counts in bound, no repeated key, and the cross-field rule kept by what the tree denotes, read off it part by part; and the message built is what it denotes |
| MessageReading.OrderForgotten | codegen/src/wrapper/mod.rs:634-640 | wire trees that differ only in the order of unordered lists, at any depth, build the same message |
| MessageReading.StreamForgetsOrder | codegen/src/wrapper/mod.rs:611-640 | and so hash equal |
| SchemaReading.RoundTrip | codegen/src/wrapper/mod.rs:547-609 | encode, decode, convert, canonicalize, check: the message comes back, in the announced length |
| SchemaReading.OneWireForm | codegen/src/wrapper/mod.rs:589-594 | valid messages emit equal bytes if and only if they are equal |
| Sinks.Sink.Tag | model/src/canonical.rs:69-72 | appends the tag's bytes to the hasher |
| Sinks.Sink.MapValue | model/src/canonical.rs:116-123 | the loop appends exactly the map stream |
| Sinks.Sink.DigestTime | model/src/value.rs:603-611 | appends exactly the timestamp stream |
| Sinks.Sink.DigestValue | model/src/value.rs:685-707 | the recursive writer appends exactly the value stream |
| Sinks.Sink.Nested | model/src/encode.rs:41-46 | appends key, announced length and body of a nested message |
| Sinks.Sink.MapField | model/src/encode.rs:56-67 | the two-pass loop appends exactly the map field |
| Sinks.Sink.EmitValue | model/src/value.rs:741-772 | the emitter appends exactly the value's encoding |
| Sinks.ReadValue | model/src/value.rs:376-411 | the recursive reader computes the conversion whose acceptance TryValueExact states |
| Sinks.ReadValues | model/src/value.rs:394-404 | the list loop stops at the first fault |
| Sinks.ReadEntries | model/src/value.rs:478-492 | the entry loop stops at the first fault |
| Sinks.Collect | model/src/value.rs:497-513 | the collecting loop refuses empty, long and repeated keys and counts over bound |
| Sinks.Built.Canonicalize | codegen/src/wrapper/mod.rs:634-640 | sorts every sortable field in place and touches no other |
| Graphs.ExploreVisit | model/src/rules.rs:363-373 | visiting a node keeps the worklist invariant: seen and queued are reached, and edges of seen stay inside |
| Graphs.ExploreDone | model/src/rules.rs:363-373 | an empty queue means exactly the reachable nodes were seen |
| Rules.BuildEdges | model/src/rules.rs:356-362 | the adjacency built has an edge per relation and no other |
| Rules.Reach | model/src/rules.rs:363-373 | the frontier loop ends on any graph and returns exactly what the scope reaches |
| Rules.ObservationBatch | model/src/rules.rs:336-388 | a complete scoped graph is accepted if and only if every resource is joined to the scope by a path of relations; otherwise the first unjoined index is named; complete logs are refused and nothing else is |
| Rules.BinarySearch | model/src/rules.rs:119-138 | over a canonically sorted list finds a key if and only if it is there |
| Rules.LeadingKeysSorted | model/src/rules.rs:119-138 | sorted elements have sorted leading keys, which the search needs |
| Rules.FirstUnresolved | model/src/rules.rs:119-138 | reports the first sample key no descriptor leads with, or that all resolve |
| ReadingsBuilding.PassesExactly | model/src/rules.rs:119-138 | over both lists as construction sorts them, the bounds hold, the uniqueness scan finds no repeat and binary search resolves every sample if and only if the lists are within bounds, the descriptors' keys distinct and each sample names one |
| ReadingsBuilding.Check | model/src/generated/model.rs:3419-3440 | the generated check, scan and searches included, reports the first fault in the source's order with its canonical index |
| GraphBuilding.PassesExactly | model/src/rules.rs:224-244 | the same of a graph: within bounds, resource subjects distinct, relation triples distinct, and each relation's source some resource's subject |
| GraphBuilding.Check | model/src/generated/model.rs:3605-3633 | the generated graph check reports the first fault in the source's order with its canonical index |
| Rules.CheckStates | model/src/rules.rs:157-193 | passes if and only if repeated identities all carry distinct instants; otherwise names an observation at fault |
| LintGraphs.HashReachable | codegen/src/lint.rs:292-322 | exactly the messages that a hashable message has nested in it, at any depth, along fields that are not metadata |
| LintGraphs.ContainsItself | codegen/src/lint.rs:328-349 | true exactly for messages nested in themselves at some depth, along any fields |
| LintGraphs.SelfReferential | codegen/src/lint.rs:328-349 | exactly the messages nested in themselves |
| Reconnect.BaseIsLadder | orchestration/src/stream.rs:164-171 | under a validated policy nothing saturates: the base is the doubled first retry, capped |
| Reconnect.BaseOnRung | orchestration/src/stream.rs:164-171 | the base is the first retry after zero or one unproductive instances, min(first * 2^(n-1), max) up to 32, and stays there beyond |
| Reconnect.BaseMonotone | orchestration/src/stream.rs:164-171 | more unproductive instances never shorten the base |
| Reconnect.CapReached | orchestration/src/stream.rs:164-171 | some count reaches the cap if and only if first * 2^31 >= max |
| Reconnect.CapOutOfReach | orchestration/src/stream.rs:164-171 | the counterexample: from one nanosecond no count reaches a cap of three seconds, in a policy validation admits |
| Reconnect.DelayExact | orchestration/src/stream.rs:164-178 | a closed stream always has a delay, a refused or failed one exactly when its failure said so; the delay is the base plus the endpoint's share of it, at most the configured percent |
| Reconnect.PlaceIsFnv1a | orchestration/src/stream.rs:180-184 | the endpoint's place is 32-bit FNV-1a on its published vectors for the empty text, "a" and "fo" |
| StreamProtocol.StepInv | orchestration/src/stream.rs:357-596 | every lock section and task event keeps the whole protocol invariant |
| StreamProtocol.Always | orchestration/src/stream.rs:398-596 | in every reachable state: one attempt at most is unfinished, exactly while connecting; an opened stream is in one place; each ended instance is counted once; no wake-up is lost; drops cancel |
| StreamProtocol.StoppedForGood | orchestration/src/stream.rs:455-512 | stopped is absorbing and nothing is dispatched after it |
| StreamProtocol.NotRetried | orchestration/src/stream.rs:367-395 | an end NotConnected(false) or Failed(false) is followed by no attempt in any continuation |
| StreamProtocol.AttemptsSpaced | orchestration/src/stream.rs:367-430 | the i-th and j-th attempts are at least (j - i) first retries apart |
| StreamProtocol.ScheduleSpaced | orchestration/src/stream.rs:367-395 | a Closed, NotConnected(true) or Failed(true) end becomes due at least the first retry later, and stops only when the instant overflows |
| StreamProtocol.EndIsScheduled | orchestration/src/stream.rs:492-546 | an instance's end is recorded as it came, refused, failed or closed, productive or not, and nothing but a scan or a drop moves it |
| StreamProtocol.Retried | orchestration/src/stream.rs:367-415 | over runs: the next scan makes it due after the delay of as many unproductive instances as ended in a row, or stops it and wakes the reader |
| StreamProtocol.StopsOnlyFor | orchestration/src/stream.rs:367-596 | a stream stops only by a drop, or at a scan of an end not retried or whose retry cannot be represented |
| StreamProtocol.DispatchesExactly | orchestration/src/stream.rs:357-433 | an attempt is dispatched if and only if one is due by the last scan, all earlier ones finished |
| StreamProtocol.OpenedIsRead | orchestration/src/stream.rs:483-580 | an opened stream reaches the reader: the next poll takes it whatever came between, the leaf's drop included |
| StreamProtocol.ProductiveExactly | orchestration/src/stream.rs:549-574 | an instance counts as productive if and only if it delivered an item since it was taken |
| StreamProtocol.CanConnect | orchestration/src/stream.rs:357-580 | from every reachable state in which an attempt is or will be due, a scan no sooner than that, a dispatch and an attempt bring a new stream to the reader |
| StreamProtocol.DroppedReportsCancel | orchestration/src/stream.rs:583-596 | after the reports are dropped nothing is retained, a performing attempt is aborted, and one not begun makes no request |
| StreamProtocol.ParkedHasNothing | orchestration/src/stream.rs:549-580 | a parked reader has neither a stream nor an end available |
| StreamProtocol.ParkedIsRegistered | orchestration/src/stream.rs:549-580 | while the reports live they are parked exactly when their waker is held |
| StreamObjects.System.Advance | orchestration/src/stream.rs:357-596 | an enabled step, made by calling the lock sections of the cell, leaf and reports, takes the shared objects to the state the step names |
| StreamObjects.System.Execute | orchestration/src/stream.rs:357-596 | any sequence of those calls from construction is a run, so the invariants of every run hold of the objects |
| Collector.StepInv | orchestration/src/collector.rs:179-451 | every step keeps seats, order, conservation and the queue bound |
| Collector.Always | orchestration/src/collector.rs:179-451 | hence so does every run of adds, removes, shutdown, panics and drops |
| Collector.DeliveredInOrder | orchestration/src/collector.rs:274-317 | for one id the delivered generations ascend, a retirement is its generation's last message, and each generation's reports are a prefix of what it produced |
| Collector.NothingLost | orchestration/src/collector.rs:376-451 | while the consumer listens, produced is delivered, then queued, then held |
| Collector.RetiresAfterLastReport | orchestration/src/collector.rs:297-308 | an ordinary retirement follows everything its generation produced |
| Collector.OneTaskPerId | orchestration/src/collector.rs:179-219 | at most one live task per id |
| Collector.AddSeats | orchestration/src/collector.rs:179-219 | over runs: an add seats a new running task under its id if the output is open, the consumer listens and no live task has the id, and otherwise changes nothing |
| Collector.OpenUntil | orchestration/src/collector.rs:225-242 | the output is open until shutdown and the consumer listens until dropped, whatever else happens |
| Collector.SeatedAreSignalled | orchestration/src/collector.rs:225-242 | a remove signals exactly the seated task of its id and a shutdown every seated task, and nothing else of any task changes |
| Collector.SignalStays | orchestration/src/collector.rs:225-242 | a stop signal is never withdrawn |
| Collector.HeldCanBeSent | orchestration/src/collector.rs:376-451 | a running or draining task can send what it holds, at the latest after one delivery from a full queue of 1024 |
| Collector.CanRetire | orchestration/src/collector.rs:277-451 | from every reachable state every live task can come to give up its seat, and with the consumer listening it delivers all it produced first |
| Collector.ClosedForGood | orchestration/src/collector.rs:236-242 | after shutdown, or with the consumer gone, no id enters and, once all seats are given up, nothing is sent |
| Collector.Collection.Advance | orchestration/src/collector.rs:179-451 | an enabled step, made by calling the registry, takes the registry, tasks and queue to the state the step names |
| Collector.Collection.Execute | orchestration/src/collector.rs:179-451 | any sequence of those calls from construction is a run |
| GnmiProjection.ResolveExact | sources/gnmi/src/projection.rs:457-507 | a path resolves if and only if one origin and one target serve the subscription, the prefix and the path, each its own or empty, and both parts are sound; it is then the prefix's elements followed by its own |
| GnmiProjection.ConflictsExactly | sources/gnmi/src/projection.rs:457-511 | a conflict is reported if and only if no single origin, or no single target, serves all three |
| GnmiProjection.FirstFault | sources/gnmi/src/projection.rs:457-507 | and which fault is reported: a conflict before either part's, the prefix's before the path's own |
| GnmiProjection.ResolvePath | sources/gnmi/src/projection.rs:457-507 | the loops compute that resolution, first fault first |
| GnmiProjection.ExpandUpdate | sources/gnmi/src/projection.rs:168-215 | an object stands for its expanded members and faults in order, anything else for itself |
| GnmiProjection.ScanUpdates | sources/gnmi/src/projection.rs:62-93 | the backward scan with its seen set keeps exactly the last update of each wanted path, and reports every unresolved one |
| GnmiProjection.LatestUpdateOwns | sources/gnmi/src/projection.rs:57-101 | a claimed leaf comes from the highest-index kept update that has a leaf at its path |
| GnmiProjection.ClaimLeaves | sources/gnmi/src/projection.rs:95-131 | identities are tracked with their only leaf or poisoned for good, each claimed leaf raises its own issue, and each colliding leaf exactly one |
| GnmiProjection.Survivors | sources/gnmi/src/projection.rs:133 | an identity is emitted if and only if exactly one claimed leaf projects to it |
| GnmiProjection.SplitPayloads | sources/gnmi/src/projection.rs:305-351 | every observation lands in exactly one payload, in order; no payload is empty or over its bound; on identity-distinct input every payload passes the readings check (descriptor scan and binary search over the sorted descriptors) or the states check, so the error path is never taken |
| GnmiProjection.BuildReadings | sources/gnmi/src/projection.rs:377-396 | building a readings chunk runs the generated check and never fails |
| GnmiProjection.BuildStates | sources/gnmi/src/projection.rs:404-418 | building a states chunk runs the series check and never fails |
| GnmiProjection.DistinctStatesOk | model/src/rules.rs:157-193 | identity-distinct states satisfy the series rule |
| GnmiProjection.DeleteIssues | sources/gnmi/src/projection.rs:355-375 | one issue per delete that is unresolved or covers a mapping, none for the rest |
| GnmiProjection.Project | sources/gnmi/src/projection.rs:45-144 | the whole projection refines the two-stage specification: it fails exactly on a claimed leaf's model error, and otherwise emits exactly the uncollided observations and reports exactly the four kinds of issue |
| GnmiMeaning.FinalExactly | sources/gnmi/src/projection.rs:62-83 | an update is kept if and only if it names a path some mapping wants or covers and no later update names the same, mapped, malformed or not |
| GnmiMeaning.BringsExactly | sources/gnmi/src/projection.rs:168-215 | what it then stands for at a leaf path is the first member of its JSON object there, or itself when it is no object |
| GnmiMeaning.ClaimedAreOwned | sources/gnmi/src/projection.rs:92-101 | the leaves claimed are exactly those owned: of the kept updates that have a leaf at the path, the last one's, whatever its value turns out to be |
| GnmiMeaning.EmittedExactly | sources/gnmi/src/projection.rs:92-133 | an observation is emitted if and only if an owned, mapped leaf converts to it and no other owned leaf converts to one of the same signal, or of the same subject, facet and name |
| GnmiMeaning.FailsExactly | sources/gnmi/src/projection.rs:111-115 | the projection fails if and only if an owned, mapped leaf's conversion does |
| GnmiMeaning.IssuesExactly | sources/gnmi/src/projection.rs:62-144 | an issue is reported if and only if the notification calls for it: an update or delete that names no path, a malformed member, an owned leaf that is unmapped, without a subject, ill-typed or in series with another, a delete covering a mapping |
| GnmiMeaning.CollisionsCounted | sources/gnmi/src/projection.rs:117-131 | there are as many collision issues as leaves in series with another |
| GnmiMeaning.ReadingsAreOwn | sources/gnmi/src/projection.rs:305-393 | a readings payload describes each sample by the very descriptor it was observed with, describes no signal twice and nothing else, within 65536 of each |
| GnmiMeaning.NothingIsLost | sources/gnmi/src/projection.rs:305-351 | every observation is in some payload, a reading with its own descriptor, and a payload of states holds nothing else |
| ReadChains.LeafMatch | codegen/src/projection/emit.rs:1730-1834 | the loop over prefix steps builds the access and match that LeafMeans is about, or the first refusal |
| ReadChains.LeafCompiles | codegen/src/projection/emit.rs:1742-1788 | a read compiles if and only if no segment before the leaf is nullable and no required-nullable leaf is below an optional segment |
| ReadChains.LeafMeans | codegen/src/projection/emit.rs:1730-1834 | on every conforming document the emitted read is well typed and tells absent, explicit null and present apart as a direct walk does, under either null policy |
| ReadChains.FieldEvaluation | codegen/src/projection/emit.rs:718-774 | folding the chain innermost first builds the code ChainMeans is about, or the innermost refusal |
| ReadChains.ChainMeans | codegen/src/projection/emit.rs:706-774 | the compiled chain gives the first non-absent member's conversion or issue, and reports absence once and only for a required primary |
| ReadChains.ChainCompiles | codegen/src/projection/emit.rs:734-774 | a chain compiles if and only if each member is readable and all produce one local type |
| ReadChains.AlwaysAnswers | codegen/src/projection/lint.rs:1379-1388 | a mapping answers every document if and only if its path is bare throughout, or bare to a required-nullable leaf whose null is invalid |
| ReadChains.UnreachableFallback | codegen/src/projection/lint.rs:1672-1680 | behind an always-present member the rest of a chain never runs |
| PairingLint.CheckPayloadPairing | codegen/src/projection/lint.rs:731-818 | the counting loop reports the pairing violations of one source type |
| PairingLint.PassesExactly | codegen/src/projection/lint.rs:731-851 | nothing is reported if and only if there is at most one item instance and one descriptor instance and, beside a reading, a descriptor none of whose mappings, assemblies or templates is an anchor, required, or on a field the contract requires |
| PairingLint.GroupChains | codegen/src/projection/emit.rs:550-562 | grouping by target builds the chains in declaration order |
| PairingLint.ChainsPartition | codegen/src/projection/lint.rs:1643-1656 | chains partition the fields by target |
| PairingLint.BuildGroups | codegen/src/projection/emit.rs:1385-1490 | bucketing by head and building inside out gives the grouped outputs |
| PairingLint.GroupsKeepGates | codegen/src/projection/emit.rs:1442-1458 | hoisting group gates loses none and adds none, at any nesting |
| PairingLint.SettersExactly | codegen/src/projection/emit.rs:1385-1490 | each setter is called once per mapping landing on it and once more, with the group built inside, if any mapping lands deeper |
| PairingLint.EmitsExact | codegen/src/projection/emit.rs:1118-1154 | an instance is emitted if and only if every chain whose first mapping is an anchor, required, or on a field the contract requires has a value, and every assembly that is an anchor or lands on such a field has an entry |
| PairingLint.UngatedEmits | codegen/src/projection/lint.rs:824-851 | a projection the lint calls ungated emits for every document |
| PairingLint.RunExactly | codegen/src/projection/emit.rs:1118-1154 | the generated function fails if and only if, a subject found, a key it needs is not or an emitted instance does not build; otherwise each emitted instance is one part under the key and nothing else is |
| PairingLint.GatedAlike | codegen/src/projection/spec.rs:94-130 | every instance of an expansion is gated exactly when the lint, which reads the templates, calls the projection gated |
| PairingLint.PairingSafe | codegen/src/projection/lint.rs:731-818 | a passing group, on every document, yields at most one item and readings only beside the one descriptor carrying their key |
| SourceDocuments.ValueExactly | codegen/src/projection/emit.rs:706-774 | a chain has a value on every document of the schema if and only if some member is bare throughout, and it and each member before it that can be the first to answer never answer with nothing |
| SourceDocuments.EntriesExactly | codegen/src/projection/emit.rs:1118-1154 | an assembly has an entry on every document if and only if the entries of some bare path cannot all convert to nothing on one value |
| PairingDocuments.PairingSafeOnDocuments | codegen/src/projection/lint.rs:731-818 | a passing group yields payable parts on every document, all instances reading that one document through their chains |
| PairingDocuments.FailsOnExactly | codegen/src/projection/emit.rs:1118-1154 | on a document it fails if and only if a conversion refuses, or the subject is found and a needed key is not, or an instance the document emits does not build |
| PairingDocuments.EmittedExactly | codegen/src/projection/emit.rs:1118-1154 | an instance is emitted on every document of the schema if and only if each of its gating chains and assemblies is sure |
| PairingDocuments.GatedSuppresses | codegen/src/projection/lint.rs:824-851 | one with an unsure gate is suppressed by a document of the schema, and by every other that agrees with it along that gate |
| PairingDocuments.WellPairedPayable | codegen/src/projection/lint.rs:723-730 | one descriptor whose gates are sure beside any readings, and at most one item, is payable on every document |
| PairingDocuments.PairingExact | codegen/src/projection/lint.rs:723-730 | for instances that some document emits together, with descriptor gates read apart from reading gates and conversions that never refuse, every document is payable if and only if the group is so paired |
| PairingDocuments.RuleAndNeed | codegen/src/projection/lint.rs:731-818 | the lint's rule implies that pairing, and where it refuses a group so paired its only complaint is a gate on the descriptor |
| PairingDocuments.RefusedAndPayable | codegen/src/projection/lint.rs:824-851 | such a group: a descriptor gated by a required scalar on a bare property, refused and payable on every document |
| PairingDocuments.ExclusiveAndPayable | codegen/src/projection/lint.rs:768-777 | two descriptors anchored on different values of one property, refused and payable on every document |
| Locations.Parse | codegen/src/projection/location.rs:20-89 | the parsing loop gives the parse or its first fault |
| Locations.ParseExact | codegen/src/projection/location.rs:20-89 | a template is accepted if and only if the grammar describes it: nonempty plain segments and whole-segment placeholders, the capture exactly once |
| Locations.ParsedIsGrammar | codegen/src/projection/location.rs:20-89 | and the segments carried are the grammar's pieces, in order |
| Locations.RefusedExactly | codegen/src/projection/location.rs:20-89 | each refusal is for the first thing wrong, read off the text: the name, a missing root, query or fragment, a trailing separator, the first segment at fault and its fault, then no capture or how many |
| Locations.CanonicalIdempotent | sources/redfish/src/uri.rs:20-29 | canonical is idempotent |
| Locations.CanonicalShape | sources/redfish/src/uri.rs:20-29 | fixed points are exactly the strings with no query, fragment or trailing separator, and the root |
| Locations.CanonicalExactly | sources/redfish/src/uri.rs:20-29 | the canonical form read off the text: cut at the first query or fragment mark, less the slashes at its end, or one slash where there is nothing else |
| Locations.CanonicalIgnores | sources/redfish/src/uri.rs:20-29 | trailing separators, query and fragment (RFC 3986 sections 3.3 to 3.5) change nothing unless the path is empty and separators follow |
| Locations.AcceptedIsCanonical | codegen/src/projection/location.rs:127-146 | an accepted template is a fixed point of canonical |
| Locations.MatchLocation | codegen/src/projection/emit.rs:1668-1700 | the generated segment checks compute the match MatchExact is about |
| Locations.MatchExact | codegen/src/projection/emit.rs:1668-1700 | the matcher yields c if and only if the canonical location is the template with nonempty slash-free segments substituted and c at the capture |
| Locations.FilledLocationMatches | codegen/src/projection/emit.rs:1668-1700 | so a filled template matches under any trailing separators, query or fragment |
| Locations.LogServiceOwnerExact | sources/redfish/src/uri.rs:34-44 | an owner is read off exactly the supported locations built from it |

## Left out

- UTF-8: strings are byte sequences (characters in paths and names), so text validity is not checked on decoding.
- The decoder inverts what the encoder writes; non-canonical input is decoded only as far as that needs (a repeated nested message replaces, where prost merges), and prost's recursion limit is not modelled.
- Error path strings are not modelled; the uniqueness, resolution and reachability checks keep the index.
- Generated message reading takes the cross-field rule as a parameter. `Rules`, `ReadingsBuilding` and `GraphBuilding` model the observation-batch, states, readings and resource-graph rules; `value_range`, `observation_window` and `acquisition_status` are not modelled.
- HashStability.HashIsContentExactly: what a field can vary in is read off its shape and type, over all typed values; limits (a list capped at one element, say) are not taken into account.
- Plans are listed in field-number order, where the generator sorts declarations by number.
- Message-level emit and digest are functions over the schema; their imperative form is shown for `Value`, whose writers are hand-written loops.
- Lengths are below 2^64; the hasher is the concatenation of its writes.
- Rules.CheckStates: names an observation at fault, not which of several, because the source visits series in identity order.
- Reconnect.DelayExact: the FNV-1a hash is computed but its spread over endpoints is not claimed.
- StreamProtocol.Always: the dispatcher, its breaker and rate limits are not part of this model; scans see a non-decreasing clock, attempts may be discarded once the leaf is gone, and an aborted attempt may still lose the race it has already won.
- Collector.Always: stop signals, deadlines and the runtime's own progress only choose which step comes next; they are not constrained, so the invariants hold for more runs than tokio allows.
- GnmiProjection.Project: the timestamp split, the subscription's mapping, JSON expansion and value conversion are functions of the spec or left out; observations come in some order over identities, where the source's map gives identity order.
- ReadChains.ChainMeans: conversions are functions of the present leaf; borrowing and cloning are transparent to the evaluator.
- PairingDocuments.PairingExact: groups whose instances exclude one another, whose descriptor and reading gates share a path, or whose conversions can refuse get the safe direction only (`PairingSafeOnDocuments`, `WellPairedPayable`). Whether a builder accepts its values, and whether a subject and key are found, are free settings; building a nested group's message affects values but no gate.
- Locations.MatchLocation: the checks are a loop over the pattern, where the generated function has one statement per segment.
- Network, HTTP, SSE, tonic, tokio internals, protobuf reflection, manifest loading, token rendering, benches, examples and exporters are not part of this model.
- Lookup tables, wrappers and diagnostics (`plan.rs`, `status.rs`, `report.rs`, `clock.rs`, `issue.rs` and the like) are not modelled.
