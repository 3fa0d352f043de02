# A verified model of the replicated document

This project models, in Dafny, the parts of the repository whose correctness is
hardest to see from the code, and proves what they promise.

The main subject is the replicated document in `crdt/`. Replicas edit maps, lists
and texts, commit their edits as changes, and exchange changes in any order. The
project follows five questions about it.

**Do replicas agree?** `OpIds`, `Rga`, `TreeOrder` and `Reorder` treat identities and
the order of elements: an element stands behind the nearest smaller identity, this
order is unique, inserting keeps it, and the preorder walk of the reference tree is
the same order. `Objects`, `Histories`, `Representation` and `Application` show that a
document state is a function of the set of operations applied to it. `Documents`
states every call as a function of the document; `DocInvariant`, `LocalCalls`,
`Recording` and `CausalGraph` keep the invariant over each call; `Replicas` and `Runs`
keep it over every run in which the replicas agree on the kind of every object, and
`Convergence` proves that they always do, which ends in `Convergence.StrongConvergence`.
`Delivery` says what a replica has recorded after a message or a merge, and that a merge
each way makes two replicas equal. `Lamport` and `Merging` settle when `Merge`, which
checks no dependencies, still applies changes in causal order, and `Refusal` is a run in
which it does not.

**Do the calls do what they say?** `Effects` ties every call to the caller's own values:
what it stores, journals and reports, what it leaves alone, and when it is refused.
`Runes` is the rune conversion of Go, and `Utf8` proves it to be the decoding of UTF-8 as
RFC 3629 defines it. `TextSplice`, `ListEdits` and `Consequences` say what edits by index
mean for the visible text, and `Limits` says exactly where the promises stop.

**Is the fast index the plain list?** `Fenwick`, `Columns`, `BlockIndex` and `SeqIndex`
model the blocked sequence with its identity map and its Fenwick tree as classes with
mutable state. Every operation is proved to do to the document order what the flat
list does.

**Does a saved document come back?** `Varints`, `Interning`, `ValueCodec`, `ElemCodec`,
`OpCodec`, `ChangeCodec`, `Snapshot` and `DocumentCodec` define the compact snapshot as
encoders and decoders and prove the round trip up to whole documents. `SnapWriter` and
`SnapReader` are the writer and the reader as objects, proved to append and to read
exactly that, the reader on every input. `Format` gives the bytes by literal codes and
places in the finished tables, and the encoders are proved to write exactly those;
`Malformed` says what the reader refuses. `Saving` shows that reachable documents are in
the form a snapshot keeps.

**Does the object do what the functions say?** `Document` is the document with its
fields updated in place, each method proved equal to its function in `Documents`.

Four smaller parts stand beside it: dependency validation in `PerfGraph`, keyframe
decimation in `Keyframes`, the registration protocol of the desktop view in
`Bootstrap`, and the rebase of instance transforms in `Rebase`.

`dafny verify dfyconfig.toml` checks the whole project.

## What the convergence theorem assumes

`Convergence.StrongConvergence` speaks of all runs whose steps satisfy
`Convergence.Permitted`. Its conditions on calls and merges can be tested on the replica
at hand, or on the two replicas of a merge, before the step; the first, third and fourth
points below are assumptions about the whole system.

- Replicas have distinct, non-empty actor identities. Forks keep the actor of their
  original, so two forks that both edit reuse identities.
- No counter reaches the 64-bit limit.
- A commit hash is not the hash of a change that any replica has recorded. A hash of 32
  bytes cannot be injective on all changes, so the absence of collisions is assumed where
  it is used.
- What arrives is the very change that was committed. Messages carry changes as JSON, in
  which bytes that are not valid UTF-8 are replaced: a map key that is the byte 0xFF
  arrives as U+FFFD under the same hash. The model has no such step, so its results hold
  for changes whose texts are valid UTF-8.
- `Increment` is not called: it overwrites the identity of an entry without comparing it.
  `Limits.IncrementCommutes` says exactly when it agrees with a put or a delete of the
  entry in both orders, `Limits.IncrementsCommute` that two different increments of one
  entry never do although their amounts add up, and `Limits.IncrementApart` that
  increments of separate entries always do.
- New objects come from `MakeMap`, `MakeList` and `MakeText`, which are not addressed to
  a list (`Limits.RefusedMakeDiverges`). A put or an insert of an object value names an
  object that the replica holds, with its kind. Callers may instead choose names of their
  own, if all replicas give a name one kind: `Runs.AgreedRunsConverge` is the theorem for
  them, and `Limits.KindsClash` says why they must.
- A delete by text on a list names an element that is there
  (`Limits.EarlyDeleteIsLost`).
- A merge takes its changes from a replica whose changes start above their dependencies.
  `Convergence.MergesAreCausal` proves this for every run in which remote changes arrive
  only while nothing is pending, `Merging` says for which receivers a merge goes wrong
  otherwise, and `Refusal.MergeRefused` shows one that is refused.

Where the source comments and the code differ, the model follows the code: the snapshot
is described as lossless, but a value that was never set, such as that of a deleted map
entry, comes back as null.

## Model

| member | source | states |
|---|---|---|
| OpIds.LessIsStrictOrder | crdt/change.go:103-112 | Operation identities are strictly ordered: irreflexive and transitive, counter first, then the actor byte by byte. |
| OpIds.LessIsTotal | crdt/change.go:103-112 | Two identities are equal or ordered one way, never both, so no two distinct writes tie. |
| OpIds.StrLessMeans | crdt/change.go:103-108 | Texts are ordered as in a dictionary over bytes: at the first difference the smaller byte decides, and a proper start comes first. |
| OpIds.LessMeans | crdt/change.go:103-112 | The older identity has the smaller counter, and between equal counters the actor that comes first in the dictionary. |
| OpIds.DigitsMean | crdt/change.go:99-101 | Each digit of a printed counter counts with its power of ten. |
| OpIds.DecimalIsShort | crdt/change.go:99-101 | A printed counter has no leading zero. |
| OpIds.PrintInjective | crdt/change.go:99-101 | The printed form of an identity determines it, an `@` inside the actor included. |
| OpIds.ParsePrint | crdt/doc.go:1201-1222 | Parsing a printed reference gives back every 64-bit counter with every non-empty actor. |
| OpIds.ParseRange | crdt/doc.go:1201-1214 | Whatever the parser accepts has a 64-bit counter and a non-empty actor. |
| OpIds.ParseExact | crdt/doc.go:1201-1214 | A text parses to an identity if and only if it is digits of its 64-bit counter, an at-sign and its non-empty actor, leading zeros allowed; only the empty text is the head. |
| Ops.CompressOpIDRuns | crdt/doc.go:956-972 | The loop joins neighbouring counters of one actor into maximal runs, and expanding the runs gives the list back. |
| Ops.CompressExpand | crdt/doc.go:956-982 | Expanding a compressed identity list gives the same list, in order, for every list. |
| Ops.ExpandOpIDRuns | crdt/doc.go:974-982 | The two nested loops list exactly the identities that the runs stand for, run by run. |
| Utf8.SplitEncoded | crdt/doc.go:1052-1061 | The encoding of every Unicode scalar value, one to four bytes long, becomes one rune, whatever follows it. |
| Utf8.SplitBad | crdt/doc.go:1052-1061 | A text that starts with no such encoding loses one byte to the replacement character. |
| Utf8.SplitText | crdt/doc.go:567-583 | The text of n code points splits into n runes, each the encoding of its code point. |
| Utf8.ValidIffText | crdt/doc.go:1052-1061 | The valid texts are exactly the concatenations of encodings of scalar values. |
| Utf8.TextIsUnique | crdt/doc.go:1052-1061 | A text spells only one list of code points. |
| Runes.SplitConcat | crdt/doc.go:1052-1061 | Splitting text into runes and joining them gives the text back exactly when it is valid UTF-8, as Utf8.ValidIffText defines it. |
| Runes.SplitSingle | crdt/doc.go:1052-1061 | Every element a splice stores holds exactly one rune, a replaced bad byte included. |
| Rga.InsertKeepsTreeOrder | crdt/seq.go:322-359 | Inserting a fresh element behind a present reference with a smaller identity, past all larger identities, keeps the document in tree order. |
| Rga.InsertKeepsUnique | crdt/seq.go:330-359 | Inserting a fresh identity keeps identities unique. |
| Rga.UnknownAppends | crdt/seq.go:330-359 | An element whose reference is not there goes to the end, and one without a reference goes in front of everything that is not larger. |
| TreeOrder.OrderIsUnique | crdt/seq.go:322-359 | Elements with given references have only one tree order, so replicas with the same elements list them alike. |
| Reorder.OrderRebuilds | crdt/doc.go:1257-1309 | The preorder walk with siblings newest first gives back any tree-ordered sequence from any permutation of its elements. |
| Reorder.OrderElemsOrders | crdt/doc.go:1257-1309 | For every list with unique identities and valid references the walk yields a tree-ordered permutation of it. |
| Reorder.OrderElemsKeeps | crdt/doc.go:1257-1309 | For every list with unique identities, whatever its references, dangling and circular ones included, the walk loses, doubles and invents nothing. |
| Reorder.OrderElemsAlike | crdt/doc.go:1257-1309 | The result depends on the elements alone and not on the order they come in, whatever their references. |
| Reorder.NormalizeRepairs | crdt/doc.go:1233-1253 | Normalising gives back a tree-ordered sequence from any permutation of it, and leaves it alone when it is in order. |
| Histories.SeqOfIsUnique | crdt/seq.go:412-439 | A set of inserts and visibility decisions determines order, tombstones and deciding identities; arrival order and repetition do not matter. |
| Histories.SetVisibilitySeqOf | crdt/seq.go:412-439 | A delete or revive of a present element adds one decision, and the greatest identity decides. |
| Histories.DeleteAllSeqOf | crdt/doc.go:1043-1047 | The deletes of a splice add one decision for each of its identities and move nothing. |
| Histories.InsertRunSeqOf | crdt/doc.go:1048-1066 | The inserts of a splice add one element per rune, each behind the one before, also when some were there already. |
| Histories.MapOfIsUnique | crdt/doc.go:1074-1085 | A set of writes determines a map: for each key the write with the greatest identity. |
| Histories.WriteEntryMapOf | crdt/doc.go:1074-1096 | Storing a put or delete adds one write to a map; an older one changes nothing. |
| Representation.RepresentsIsUnique | crdt/doc.go:1014-1037 | A document state is a function of its set of operations. |
| Application.ApplyRepresents | crdt/doc.go:1014-1037 | Applying a causally ready operation is accepted and makes the state that of one operation more, also the second time. |
| CausalGraph.CommitGraph | crdt/doc.go:830-865 | A commit keeps the change graph: nothing twice, dependencies first, heads exactly the changes nobody depends on, index exact. |
| CausalGraph.RemoteGraph | crdt/doc.go:893-930 | Recording a remote change with known dependencies keeps the same four facts. |
| CausalGraph.InsertHashIncreasing | crdt/doc.go:919-928 | Adding a head to a sorted head list keeps it strictly sorted with exactly one member more. |
| CausalGraph.HeadsWithoutExact | crdt/doc.go:914-919 | Dropping the dependencies of a change leaves exactly the other heads, sorted. |
| CausalGraph.IncreasingIsUnique | crdt/doc.go:922-929 | A sorted head list is determined by its members, so the map and the sort in the code give one list. |
| CausalGraph.HeadsNameThePast | crdt/doc.go:839-848 | A dependency-closed record that holds the heads of another record holds all of it, so a change that names the heads names its whole past. |
| DocInvariant.NewDocOK | crdt/doc.go:148-154 | A new document satisfies the document invariant. |
| DocInvariant.JournalOK | crdt/doc.go:252-263 | A well-formed, ready local operation with fresh counters is accepted, journalled, and keeps the invariant. |
| LocalCalls.PutOK | crdt/doc.go:252-263 | Put keeps the invariant, accepted or refused, when an object value has the kind that the given assignment of kinds has for it and no new object goes to a list. |
| LocalCalls.DeleteOK | crdt/doc.go:265-276 | Delete keeps the invariant on maps, and on sequences when the text names no element or one that is there. |
| LocalCalls.InsertOK | crdt/doc.go:453-476 | InsertAt keeps the invariant for every index, and for every value whose object, if it names one, has the kind of the given assignment. |
| LocalCalls.DeleteAtOK | crdt/doc.go:478-500 | DeleteAt keeps the invariant for every index. |
| LocalCalls.SetElementOK | crdt/doc.go:520-535 | DeleteByElemID and ReviveElem keep the invariant for every identity. |
| LocalCalls.SpliceDeletes | crdt/doc.go:557-573 | The compressed deletes of a splice expand to the visible identities of its range, all of them present. |
| LocalCalls.SpliceOK | crdt/doc.go:539-585 | SpliceText keeps the invariant and is accepted for every range inside the text. |
| LocalCalls.CallOK | crdt/doc.go:252-610 | Every local call that a given assignment of kinds allows keeps the invariant and records no change by itself; Convergence.StepKinds finds the assignment for the makes. |
| Effects.PutStores | crdt/doc.go:252-263 | Put on a map stores the caller's value under the caller's key and the next identity, keeps every other entry and object, adds at most the empty object the value names, and journals and reports exactly that. |
| Effects.PutRefused | crdt/doc.go:1074-1085 | Put on anything but a map is refused and uses up one counter. |
| Effects.DeleteBuries | crdt/doc.go:265-276 | Delete on a map turns the entry of that key into a tombstone under the next identity and keeps everything else. |
| Effects.DeleteByText | crdt/doc.go:1092-1098 | Delete on a list or text by the printed identity of a present element is DeleteByElemID; any other text is journalled and reported but changes no object. |
| Effects.IncrementRaises | crdt/doc.go:278-289 | Increment on a map raises a counter or integer by the caller's amount modulo 2^64, starts a counter over anything else, undoes a tombstone, and takes the next identity. |
| Effects.IncrementRefused | crdt/doc.go:1136-1138 | Increment on anything but a map is refused and uses up one counter. |
| Effects.MakeMakes | crdt/doc.go:411-451 | MakeMap, MakeList and MakeText on a map name the child by actor, dash and counter, create it empty and of the kind asked for, and store it under the identity behind that. |
| Effects.InsertReports | crdt/doc.go:453-476 | InsertAt journals and reports the caller's index and value behind the visible element before it, and touches no other object. |
| Effects.InsertRefused | crdt/doc.go:453-476 | InsertAt past the end, or not on a list or text, is refused and changes nothing. |
| Effects.SetReports | crdt/doc.go:587-610 | DeleteByElemID and ReviveElem journal and report the element they were given, with its value when it is revived, and touch no other object. |
| Effects.SetRefused | crdt/doc.go:587-610 | They are refused, and change nothing, when the element is not there. |
| Effects.DeleteAtIsSet | crdt/doc.go:478-500 | DeleteAt is the delete of the element with that visible index. |
| Effects.DeleteAtRefused | crdt/doc.go:478-500 | DeleteAt past the end, or not on a list or text, is refused and changes nothing. |
| Effects.SpliceReports | crdt/doc.go:539-585 | SpliceText journals the caller's insertion behind the visible element before it with the identities of its range, takes one counter for each rune and at least one, and reports index and insertion; a splice of nothing does nothing. |
| Effects.SpliceRefused | crdt/doc.go:539-585 | SpliceText outside the text, or not on a text, is refused and changes nothing. |
| Effects.AcceptedExactly | crdt/doc.go:1014-1165 | Exactly these operations are accepted, local or remote: puts and increments on maps, deletes on anything, readable inserts on lists and texts, revives of present elements, splices of a text whose deleted elements are all present. |
| Recording.CommitOK | crdt/doc.go:830-865 | Commit keeps the invariant: the change owns its operations, names the heads, and its hash is the hash of its content. |
| Effects.CommitRecords | crdt/doc.go:830-865 | Commit records the journal with the caller's message and time, the caller's group or else actor, colon and number, the next number, the heads as dependencies and the first pending counter as start; it empties the journal and changes nothing else. |
| Effects.RemoteCounts | crdt/doc.go:876-897 | A remote change raises the counter to the greatest that document and change have used, no further, and leaves the journal alone. |
| Effects.LastCounterMeans | crdt/doc.go:883-888 | A splice of n code points takes n counters, at least one; every other operation takes one. |
| Recording.ApplyOpsOK | crdt/doc.go:876-892 | The operations of a deliverable change are all accepted, in order, and the counter follows them. |
| Recording.RemoteOK | crdt/doc.go:867-897 | Applying a deliverable remote change keeps the invariant and is never refused. |
| Replicas.ReceiveOK | crdt/doc.go:773-795 | Receiving any list of genuine changes, in any order and with repetitions, is never refused and keeps the invariant of the whole system. |
| Delivery.ReceiveDelivers | crdt/doc.go:773-795 | Receiving keeps all recorded changes, adds only changes of the message, and records the k-th one exactly when it is new and all it depends on is recorded after the k before it. |
| Delivery.ReadyIsRecorded | crdt/doc.go:773-795 | A change of the message whose dependencies are recorded before the message is recorded after it, whatever else the message holds. |
| Delivery.RoundsRecord | crdt/doc.go:773-795 | Delivering all changes of a replica in any order, as many times as there are changes, records them all. |
| Runs.SortChangesSorted | crdt/doc.go:660-665 | The list that Merge applies is sorted by first operation and then by hash. |
| Runs.SortIsCausal | crdt/doc.go:655-687 | When changes start above their dependencies, that order puts every dependency first. |
| Runs.MergeIsReceive | crdt/doc.go:655-687 | Merge in a dependency-first order does what receiving the same list does, although it checks no dependency. |
| Runs.MergeSystem | crdt/doc.go:655-687 | A merge from a replica with causal starts is never refused and keeps the invariant of the whole system. |
| Delivery.MergeTakes | crdt/doc.go:655-687 | An accepted merge records every change of the other replica, behind its own, and no others. |
| Delivery.MergeDelivers | crdt/doc.go:655-687 | After an allowed merge the replica holds exactly its own changes and those of the other. |
| Delivery.MergesSynchronise | crdt/doc.go:655-687 | At the end of every run in which remote changes arrive only while nothing is pending, a merge each way leaves two replicas with nothing pending equal: all changes of both, the same objects and heads. |
| Runs.StepOK | crdt/doc.go:252-930 | For a given assignment of kinds, every allowed edit, commit, delivery or merge of any replica keeps the invariant of the whole system. |
| Runs.RunOK | crdt/doc.go:252-930 | For a given assignment of kinds, the invariant of the whole system holds after every run of such steps. |
| Runs.SameHeads | crdt/doc.go:912-930 | Replicas with the same changes have the same heads. |
| Runs.SameChangesAgree | crdt/doc.go:867-897 | Replicas with the same changes and nothing pending hold identical objects: entries with identities, element order, tombstones, deciding identities. |
| Runs.AgreedRunsConverge | crdt/doc.go:655-930 | Strong eventual consistency for runs in which all replicas give each object one kind, names of new objects chosen by the callers included. |
| Convergence.NamesKept | crdt/doc.go:984-987 | After every permitted step each object value anywhere names the root or a child of some replica whose counter has passed it. |
| Convergence.StepKinds | crdt/doc.go:411-451 | A fresh child is unknown to every replica, so the kinds before a permitted step extend to kinds with which the step is allowed and the invariant holds. |
| Convergence.RunKinds | crdt/doc.go:252-930 | Every permitted run is an allowed run for one assignment of kinds that agrees with the earlier one on all objects known at its start. |
| Convergence.KindsExist | crdt/doc.go:252-930 | From empty replicas every permitted run admits one assignment of kinds, so none has to be agreed on beforehand. |
| Convergence.StrongConvergence | crdt/doc.go:655-930 | Strong eventual consistency: in every permitted run from empty replicas with distinct actors, whatever the order of arrival, replicas with the same changes and nothing pending hold identical objects and heads. |
| Convergence.MergesAreCausal | crdt/doc.go:655-811 | In every run in which remote changes arrive only while nothing is pending, all steps are permitted, starts rise along dependencies, and any merge afterwards is accepted. |
| Lamport.StartsAreCausal | crdt/doc.go:839-848 | If remote changes arrive only with an empty journal, every change starts above every operation of its dependencies. |
| Lamport.AncestorsBelow | crdt/doc.go:839-848 | Along any chain of dependencies every operation counter of the ancestor is below the start of the descendant. |
| Lamport.DisciplinedOK | crdt/doc.go:655-811 | A step of such a run is an allowed step and keeps the starts causal. |
| Lamport.MergeOrderIsCausal | crdt/doc.go:655-687 | In every such run from empty replicas, for a given assignment of kinds, no delivery or merge is refused and every merge applies dependencies first. |
| Merging.MergeOrderExact | crdt/doc.go:655-687 | Whatever the receiver already holds, Merge applies dependencies first if and only if every dependency that the receiver lacks sorts before its dependents. |
| Merging.PendingMisorders | crdt/doc.go:839-848 | A change that arrives while operations are pending becomes a dependency of the next commit, which starts at the first pending operation; a merge from there stays in order exactly for the receivers that hold every head of that moment or lack only heads that sort before the commit. |
| Refusal.AllRun | crdt/doc.go:655-930 | A run of permitted steps: a change arrives while a put is pending, and the commit holds an operation on the object that the change made. |
| Refusal.MergeRefused | crdt/doc.go:655-687 | After that run a merge is refused and leaves a write behind that no recorded change explains, while receiving the same changes in dependency order is accepted. |
| TextSplice.SpliceTextReplaces | crdt/doc.go:539-585 | After SpliceText the visible elements are the old ones with the range replaced by one element per rune; the returned identities are exactly those deleted and inserted; no other object changes; for a non-empty insert the patch position is the index. |
| Consequences.SpliceTextIsStringSplice | crdt/doc.go:539-585 | The text after SpliceText is the runes before the index, the inserted runes, the runes behind the range. |
| Consequences.ReachableOrderIsStable | crdt/doc.go:1233-1309 | On every reachable sequence the preorder walk is the identity, so normalising never changes one. |
| Consequences.CounterDominates | crdt/doc.go:883-891 | The counter of a reachable document dominates every element, deciding and entry identity in it. |
| Consequences.LocalDecisionWins | crdt/doc.go:587-610 | A local delete or revive always wins its comparison: the element takes the new state and no other changes. |
| Consequences.DeleteThenRevive | crdt/doc.go:520-535 | Deleting an element and reviving it moves nothing, and gives back the visible elements exactly when the element had been visible. |
| Limits.RefusedPutLeavesOrphan | crdt/doc.go:1014-1037 | A put is refused exactly on a missing object or a sequence, and then changes the objects exactly when it brings a new object to a sequence, which stays behind empty. |
| Limits.RefusedMakeDiverges | crdt/doc.go:411-451 | MakeMap, MakeList or MakeText is refused and still changes the objects if and only if it addresses a sequence and its child is new; no change is recorded and nothing is journalled. |
| Limits.OneMakeDiverges | crdt/doc.go:411-451 | A reachable document on which a make is refused and changes the objects. |
| Limits.EarlyDeleteIsLost | crdt/doc.go:1092-1098 | A delete by text that arrives before its element agrees with the other order exactly when it would have lost the comparison. |
| Limits.OneDeleteIsLost | crdt/doc.go:1092-1098 | A reachable document on which an early delete is lost. |
| Limits.KindsClash | crdt/doc.go:997-1012 | Two puts that name one new object, on any maps and keys, agree in both orders exactly when they give it the same kind. |
| Limits.OneChildClashes | crdt/doc.go:997-1012 | Two puts on a new document that clash. |
| Limits.IncrementCommutes | crdt/doc.go:1120-1139 | An increment beside a put or a delete of the same entry agrees in both orders exactly when the write is not newer and, if it takes the entry, leaves the increment the same outcome. |
| Limits.AmountsCommute | crdt/doc.go:1124-1134 | The amounts of two increments come out the same in both orders, with 64-bit wrap-around. |
| Limits.IncrementsCommute | crdt/doc.go:1120-1139 | Two increments of one entry leave the same amount in both orders but the identity of the later one, so they agree exactly when they carry the same identity. |
| Limits.IncrementApart | crdt/doc.go:1120-1139 | On separate entries an increment agrees with every put, delete and increment. |
| Limits.OneIncrementDiverges | crdt/doc.go:1120-1139 | Two increments of one entry of a new document end in different entries. |
| Limits.IncrementDoesNotCommute | crdt/doc.go:1120-1139 | A concrete case: an older increment and a newer put of one entry end in different entries. |
| ListEdits.InsertAtInserts | crdt/doc.go:453-476 | After InsertAt the visible elements are the old ones with the new one at the index, and the patch names that index. |
| ListEdits.DeleteAtDeletes | crdt/doc.go:478-500 | After DeleteAt the visible elements are the old ones without that index. |
| ListEdits.IncrementsAdd | crdt/doc.go:1124-1134 | The amounts of two increments of an entry add up, with 64-bit wrap-around; the identity the entry keeps is that of the later one, which Limits.IncrementsCommute treats. |
| ListEdits.IndexOfVisible | crdt/seq.go:231-265 | From a visible index to its identity and back gives the index. |
| ListEdits.VisibleOfIndex | crdt/seq.go:231-265 | From the identity of a visible element to its index and back gives the element. |
| ListEdits.IndexOfAbsent | crdt/seq.go:231-244 | An element that is deleted or not there has the visible length as its index. |
| Documents.ChildNamesDiffer | crdt/doc.go:984-987 | Two new objects get the same identity exactly when actor and counter are the same, for actors of any characters, and never that of the root. |
| Fenwick.ChildrenCover | crdt/seq.go:62-81 | A tree node is its own count plus what its children pass on, which is the sum over its low-bit span. |
| Fenwick.SpanUpdate | crdt/seq.go:93-107 | Changing one count changes exactly the spans that contain it, by the same amount. |
| Fenwick.CoverIsUnique | crdt/seq.go:121-137 | At most one block covers a visible index, blocks without visible elements included. |
| SeqIndex.Tree.Build | crdt/seq.go:62-81 | Build leaves a clean tree over the visible counts of the blocks. |
| SeqIndex.Tree.Ensure | crdt/seq.go:84-89 | Ensure leaves a clean tree, rebuilding only a stale one. |
| SeqIndex.Tree.Add | crdt/seq.go:93-107 | Add turns a clean tree for some counts into the clean tree for the changed counts; an index out of range marks it stale. |
| SeqIndex.Tree.PrefixSum | crdt/seq.go:110-119 | The sum read from a clean tree is the visible count before a block. |
| SeqIndex.Tree.Search | crdt/seq.go:124-137 | The descent finds the block whose range holds a visible index, and the exact remainder. |
| SeqIndex.Seq.constructor | crdt/seq.go:154-162 | A new sequence is valid and empty. |
| SeqIndex.Seq.Reset | crdt/seq.go:165-191 | Reset loads any list with unique identities: the order is that list, and every index is exact. |
| SeqIndex.Seq.Locate | crdt/seq.go:200-211 | Locate finds an element exactly when it is there, at its place in the document order. |
| SeqIndex.Seq.ContainsId | crdt/seq.go:214-217 | Membership is that of the flat list. |
| SeqIndex.Seq.ElemByID | crdt/seq.go:220-226 | The element returned is the one of the flat list. |
| SeqIndex.Seq.VisibleIndex | crdt/seq.go:231-244 | The visible index is the number of visible elements before, or the visible length for what is absent or deleted. |
| SeqIndex.Seq.VisibleAt | crdt/seq.go:247-256 | The element at a visible index is that of the visible list; any other index gives none. |
| SeqIndex.Seq.VisibleIDAt | crdt/seq.go:259-265 | The same for its identity. |
| SeqIndex.Seq.BlockAtVisible | crdt/seq.go:268-285 | The block and offset found hold the visible element with that index. |
| SeqIndex.Seq.CollectVisibleRange | crdt/seq.go:289-320 | The identities collected are exactly those of the visible range, across blocks, or none and an error when it is out of bounds. |
| SeqIndex.Seq.StartPlace | crdt/seq.go:330-341 | The place behind a reference; the end of the order when it is unknown. |
| SeqIndex.Seq.SkipLarger | crdt/seq.go:343-357 | Stepping over larger identities across block borders ends where it ends in the flat list. |
| SeqIndex.Seq.InsertAfterRef | crdt/seq.go:330-359 | Inserting into the blocks does to the order exactly what inserting into the flat list does. |
| SeqIndex.Seq.Append | crdt/seq.go:362-365 | Append adds the element at the end of the order. |
| SeqIndex.Seq.InsertAt | crdt/seq.go:367-384 | An insert at a block offset puts the element there, keeps every index exact, and splits a full block. |
| SeqIndex.Seq.Split | crdt/seq.go:387-408 | A split keeps the order, restores the size bound, the block positions and the identity map. |
| SeqIndex.Seq.SetElementVisibility | crdt/seq.go:412-439 | Setting visibility does to the order exactly what it does to the flat list, and returns the stored element. |
| SeqIndex.Seq.Elems | crdt/seq.go:454-460 | The blocks joined are the document order. |
| SeqIndex.Seq.VisibleString | crdt/seq.go:463-477 | The text is that of the visible elements in document order. |
| Format.UlebIs | crdt/encoding/leb128.go:6-17 | A number is written in groups of seven bits, the lowest first, the high bit set on all but the last byte, in the shortest form. |
| Format.UlebIsUnique | crdt/encoding/leb128.go:6-17 | A number has one such form. |
| Format.IntIs | crdt/snapshot.go:143-143 | A signed number is written as twice its size, less one when it is negative. |
| Format.DeltaIs | crdt/snapshot.go:600-600 | A counter is written as its distance from another modulo 2^64, taken as signed. |
| Format.ValueIs | crdt/snapshot.go:238-316 | Values carry the codes 0 to 12 and 255 and the fields listed with them, object names as places in the finished table. |
| Format.ElemIs | crdt/snapshot.go:567-622 | An element is flags of weight 1 to 16, the distance of its counter, and the fields its flags call for. |
| Format.RunsAre | crdt/snapshot.go:624-639 | The run lengths spread out to the tombstones, and none but the first is empty. |
| Format.ElemsAre | crdt/snapshot.go:567-643 | An element column is a counted list of elements and a counted list of run lengths. |
| Format.ActionIs | crdt/snapshot.go:735-735 | Actions go by their six names. |
| Format.OpIs | crdt/snapshot.go:704-767 | An operation is flags of weight 1 to 64, identity, action, object, and in order Prop, value, After, run and deletes as flagged. |
| Format.ChangeIs | crdt/snapshot.go:646-687 | A change is two flags, actor, numbers, the distance in time, message and group as flagged, dependencies by place or raw, operations. |
| Format.PlacesAreLast | crdt/snapshot.go:501-504 | The place of a hash is the last change that carries it. |
| Format.ObjectIs | crdt/snapshot.go:529-563 | An object is a code 0 to 2 and its entries in key order or its element column. |
| Format.BodyIs | crdt/snapshot.go:479-509 | A body is own actor, two numbers, heads as raw hashes, objects in key order, changes. |
| Format.SnapshotIs | crdt/snapshot.go:469-527 | A snapshot is the byte 2, the tables of actors, objects and other texts, and a body whose references are places in them. |
| Malformed.UintExact | crdt/encoding/leb128.go:20-36 | A number is read up to its first byte below 128, which must be among the first ten; bits beyond 64 are cut off. |
| Malformed.UintUnending | crdt/encoding/leb128.go:20-36 | A number without such a byte is refused. |
| Malformed.OutOfRange | crdt/snapshot.go:157-234 | Names outside their table and texts past the end are refused. |
| Malformed.CountTooLarge | crdt/snapshot.go:846-848 | A count that exceeds the body is refused. |
| Malformed.UnknownCodes | crdt/snapshot.go:318-428 | Unknown value codes, object codes and versions are refused. |
| Malformed.NoElementBefore | crdt/snapshot.go:1000-1050 | The first element of a column cannot refer to one before it. |
| Malformed.NothingThere | crdt/snapshot.go:1084-1108 | Tombstones past the last element and dependencies past the changes before are refused. |
| Malformed.ActorExact | crdt/change.go:65-80 | An actor is read from exactly 32 hexadecimal digits of either case, and printed in lower case. |
| Varints.AppendUleb | crdt/encoding/leb128.go:6-17 | The loop appends the LEB128 form. |
| Varints.ReadUleb | crdt/encoding/leb128.go:20-36 | The loop reads what the decoder reads, with the number of bytes, and fails on truncation and past 64 bits. |
| Varints.UintRoundTrip | crdt/encoding/leb128.go:6-36 | Every 64-bit number reads back and leaves what follows it. |
| Varints.IntRoundTrip | crdt/snapshot.go:143-145 | Every signed 64-bit number reads back through zigzag. |
| Varints.DeltaRoundTrip | crdt/snapshot.go:600-600 | The signed difference of two 64-bit counters is undone exactly, also when it wraps. |
| Varints.WrapRoundTrip | crdt/snapshot.go:661-662 | The same for the seconds of two times. |
| Varints.WordRoundTrip | crdt/snapshot.go:293-303 | A fixed-width little-endian word reads back. |
| Varints.StrRoundTrip | crdt/snapshot.go:103-111 | A length-prefixed string reads back and leaves what follows it. |
| Varints.BitOfFlags | crdt/snapshot.go:38-51 | Every bit of a flag byte says what was put there. |
| Interning.ActorRoundTrip | crdt/snapshot.go:113-121 | An actor index written at any time resolves to that actor in the finished table, however the table grew since. |
| Interning.ObjectIDRoundTrip | crdt/snapshot.go:123-131 | The same for objects. |
| Interning.StringRoundTrip | crdt/snapshot.go:133-141 | The same for strings. |
| Interning.ListRoundTrip | crdt/snapshot.go:469-527 | If each item reads back behind the items before it, so does a counted list, and the length guard never rejects it. |
| ValueCodec.TimeRoundTrip | crdt/snapshot.go:307-316 | Every time reads back, an absent one included. |
| ValueCodec.ValueRoundTrip | crdt/snapshot.go:238-428 | Every value of every kind reads back, an unset one as null, an unknown kind by its name. |
| ElemCodec.IDRefRoundTrip | crdt/snapshot.go:1224-1238 | A reference stored as actor index and wrapped difference reads back exactly. |
| ElemCodec.ElemRoundTrip | crdt/snapshot.go:580-622 | Every element reads back behind its predecessors under every combination of flags. |
| ElemCodec.RunsMeanTombstones | crdt/snapshot.go:624-643 | The alternating run lengths mean exactly the tombstones, for every pattern. |
| ElemCodec.ElemsRoundTrip | crdt/snapshot.go:567-644 | Reading a written element column gives every element in stored form, consumes exactly its bytes and leaves any suffix. |
| OpCodec.ActionRoundTrip | crdt/snapshot.go:735-735 | Every action name reads back, unknown ones included. |
| OpCodec.TextRoundTrip | crdt/snapshot.go:706-722 | Every Prop and After string reads back, also a map key that merely looks like a reference. |
| OpCodec.DeletesRoundTrip | crdt/snapshot.go:759-766 | Every list of delete runs reads back. |
| OpCodec.OpRoundTrip | crdt/snapshot.go:704-767 | Every operation reads back exactly. |
| ChangeCodec.DepRoundTrip | crdt/snapshot.go:672-679 | A dependency reads back as the same hash, through the table index or as raw bytes. |
| ChangeCodec.StampRoundTrip | crdt/snapshot.go:657-663 | Sequence number, start and time read back, the time against the change before. |
| ChangeCodec.ChangeRoundTrip | crdt/snapshot.go:646-687 | A change reads back with the hash recomputed from its content. |
| ChangeCodec.ChangesRoundTrip | crdt/snapshot.go:1180-1200 | By induction over the table every recomputed hash is the original and every dependency resolves to the same hash. |
| Sorting.SortedKeys | crdt/snapshot.go:533-537 | The keys of a map, each once, in byte order. |
| Snapshot.RowsRoundTrip | crdt/snapshot.go:533-550 | Storing the rows of a map again gives the map. |
| Snapshot.EntryRowRoundTrip | crdt/snapshot.go:539-550 | A map entry reads back with its identity and tombstone; an unset value as null. |
| Snapshot.ObjectRoundTrip | crdt/snapshot.go:529-563 | Every map, list and text reads back. |
| Snapshot.ObjectsRoundTrip | crdt/snapshot.go:489-499 | The object table reads back as the same map of objects. |
| DocumentCodec.ActorParses | crdt/change.go:65-80 | A printed actor identity parses back. |
| DocumentCodec.TableRoundTrip | crdt/snapshot.go:513-524 | An interned table reads back, and its length guard never rejects it. |
| DocumentCodec.IndexChangesExact | crdt/snapshot.go:893-911 | The change index rebuilt on load holds exactly the changes by hash. |
| DocumentCodec.BodyRoundTrip | crdt/snapshot.go:469-912 | The document body reads back against the finished tables. |
| DocumentCodec.SnapshotRoundTrip | crdt/snapshot.go:469-912 | Decoding an encoded document gives back actor, counters, heads, objects and changes with their hashes, and leaves no byte. |
| Saving.DocKept | crdt/snapshot.go:567-644 | Every reachable document is in the form a snapshot keeps: canonical references, deciding identities set, 64-bit counters. |
| Saving.SaveThenLoad | crdt/doc.go:158-220 | Loading what a reachable document saved gives the committed document back; only a value never set comes back as null. |
| SnapWriter.SnapWriter.constructor | crdt/snapshot.go:89-95 | A new writer is empty, with empty tables. |
| SnapWriter.SnapWriter.Uint | crdt/snapshot.go:97-97 | Appends the LEB128 form and nothing else. |
| SnapWriter.SnapWriter.Int | crdt/snapshot.go:99-99 | Appends the zigzag form. |
| SnapWriter.SnapWriter.ByteVal | crdt/snapshot.go:101-101 | Appends one byte. |
| SnapWriter.SnapWriter.String | crdt/snapshot.go:103-111 | Appends length and bytes. |
| SnapWriter.SnapWriter.ActorRef | crdt/snapshot.go:113-121 | Writes the first place of the actor in the table, adding it when it is new; map and list stay in step. |
| SnapWriter.SnapWriter.ObjectRef | crdt/snapshot.go:123-131 | The same for objects. |
| SnapWriter.SnapWriter.StringRef | crdt/snapshot.go:133-141 | The same for strings. |
| SnapWriter.SnapWriter.WriteValue | crdt/snapshot.go:238-291 | Appends exactly the encoding of the value and grows the tables as it says. |
| SnapWriter.SnapWriter.WriteTime | crdt/snapshot.go:307-316 | Appends the marker and the time. |
| SnapWriter.SnapWriter.WriteElem | crdt/snapshot.go:580-622 | Appends one element with the flags that its predecessor calls for. |
| SnapWriter.SnapWriter.WriteTombstones | crdt/snapshot.go:624-643 | Appends the tombstone run lengths. |
| SnapWriter.SnapWriter.WriteElems | crdt/snapshot.go:567-644 | Appends exactly the encoded element column. |
| SnapWriter.SnapWriter.WriteOp | crdt/snapshot.go:704-767 | Appends exactly the encoded operation. |
| SnapWriter.SnapWriter.WriteDeps | crdt/snapshot.go:672-679 | Appends the dependencies, by table index where they precede. |
| SnapWriter.SnapWriter.WriteChange | crdt/snapshot.go:646-687 | Appends exactly the encoded change and returns the base of the next time. |
| SnapWriter.SnapWriter.WriteEntries | crdt/snapshot.go:531-550 | Appends the entries of a map in key order. |
| SnapWriter.SnapWriter.WriteObject | crdt/snapshot.go:529-563 | Appends exactly the encoded object. |
| SnapWriter.SnapWriter.WriteObjects | crdt/snapshot.go:489-499 | Appends the objects in key order. |
| SnapWriter.SnapWriter.WriteChanges | crdt/snapshot.go:501-509 | Appends the changes, each against the time of the one before. |
| SnapWriter.SnapWriter.WriteBody | crdt/snapshot.go:479-509 | Appends exactly the encoded document body. |
| SnapWriter.SnapWriter.WriteHeader | crdt/snapshot.go:511-526 | Appends the version, the finished tables and the body. |
| SnapWriter.TombstoneRuns | crdt/snapshot.go:624-639 | The counting loop computes the tombstone run lengths. |
| SnapWriter.IndexPlaces | crdt/snapshot.go:501-504 | The loop computes the last place of every hash. |
| SnapWriter.EncodeSnapshot | crdt/snapshot.go:469-527 | Encoding with two writers yields exactly the encoded document. |
| SnapReader.SnapReader.Uint | crdt/snapshot.go:157-164 | Reads and fails exactly as the decoder of unsigned numbers. |
| SnapReader.SnapReader.Int | crdt/snapshot.go:166-172 | Reads and fails as the decoder of signed numbers. |
| SnapReader.SnapReader.ByteVal | crdt/snapshot.go:174-181 | Reads one byte, or fails at the end. |
| SnapReader.SnapReader.Raw | crdt/snapshot.go:183-190 | Reads that many bytes, or fails. |
| SnapReader.SnapReader.String | crdt/snapshot.go:192-213 | Reads a length-prefixed string, or fails when the length exceeds the body. |
| SnapReader.SnapReader.Actor | crdt/snapshot.go:215-220 | Resolves an actor index, or fails when it is out of range. |
| SnapReader.SnapReader.ObjectName | crdt/snapshot.go:222-227 | Resolves an object index. |
| SnapReader.SnapReader.Interned | crdt/snapshot.go:229-234 | Resolves a string index. |
| SnapReader.SnapReader.ReadValue | crdt/snapshot.go:318-428 | Reads and fails exactly as the value decoder, unknown codes included. |
| SnapReader.SnapReader.ReadTime | crdt/snapshot.go:446-464 | Reads a time; nanoseconds of a second or more count as seconds. |
| SnapReader.SnapReader.ReadIDRef | crdt/snapshot.go:1224-1238 | Reads a compact reference. |
| SnapReader.SnapReader.ReadElem | crdt/snapshot.go:1000-1082 | Reads one element against its predecessor, and fails where the flags claim one that is not there. |
| SnapReader.SnapReader.ReadTombstones | crdt/snapshot.go:1084-1108 | Marks exactly the elements in deleted runs, in place, and fails on a run past the end. |
| SnapReader.SnapReader.ReadElems | crdt/snapshot.go:984-1110 | Reads and fails exactly as the column decoder. |
| SnapReader.SnapReader.ReadOp | crdt/snapshot.go:1240-1355 | Reads and fails exactly as the operation decoder. |
| SnapReader.SnapReader.ReadDep | crdt/snapshot.go:1180-1200 | Resolves a dependency by table index or reads the raw hash. |
| SnapReader.SnapReader.ReadChange | crdt/snapshot.go:1112-1220 | Reads and fails exactly as the change decoder, with the hash recomputed. |
| SnapReader.SnapReader.ReadChanges | crdt/snapshot.go:886-911 | Reads the change table, each change against those before. |
| SnapReader.SnapReader.ReadObject | crdt/snapshot.go:914-982 | Reads and fails exactly as the object decoder. |
| SnapReader.SnapReader.ReadObjects | crdt/snapshot.go:859-884 | Reads the object table into a map. |
| SnapReader.SnapReader.ReadTable | crdt/snapshot.go:773-819 | Reads an interned table, or fails on an incredible length. |
| SnapReader.SnapReader.ReadBody | crdt/snapshot.go:821-911 | Reads and fails exactly as the body decoder. |
| SnapReader.DecodeSnapshot | crdt/snapshot.go:770-912 | Decoding with a reader succeeds exactly when the decoder does, with the same document, on every input. |
| Document.Document.constructor | crdt/doc.go:148-154 | A new document holds an empty root map. |
| Document.Document.EnsureObject | crdt/doc.go:997-1012 | A child named by a value is created unless it is there. |
| Document.Document.ApplyPut | crdt/doc.go:1074-1085 | Put on the fields is put on the document state. |
| Document.Document.ApplyDelete | crdt/doc.go:1087-1103 | The same for delete. |
| Document.Document.ApplyRevive | crdt/doc.go:1105-1118 | The same for revive. |
| Document.Document.ApplyIncrement | crdt/doc.go:1120-1139 | The same for increment, with 64-bit wrap-around. |
| Document.Document.ApplyInsert | crdt/doc.go:1141-1165 | The same for insert; a repeated insert changes nothing. |
| Document.Document.DeleteIDs | crdt/doc.go:1043-1047 | The delete loop does all deletes up to the first absent element. |
| Document.Document.InsertRunes | crdt/doc.go:1048-1066 | The rune loop places every rune behind the one before. |
| Document.Document.ApplySplice | crdt/doc.go:1039-1072 | The two loops together are the splice of the document state, partial work on refusal included. |
| Document.Document.ApplyOp | crdt/doc.go:1014-1037 | Applying an operation in place gives the objects and patch of the pure step, or its refusal. |
| Document.Document.NewLocalOp | crdt/doc.go:932-944 | A local operation takes the next counter. |
| Document.Document.Put | crdt/doc.go:252-263 | Put in place is the pure put. |
| Document.Document.Delete | crdt/doc.go:265-276 | Delete in place is the pure delete. |
| Document.Document.Increment | crdt/doc.go:278-289 | Increment in place is the pure increment. |
| Document.Document.MakeChild | crdt/doc.go:411-451 | MakeMap, MakeList and MakeText in place are the pure ones and return the child they name. |
| Document.Document.InsertAt | crdt/doc.go:453-476 | InsertAt in place is the pure insert. |
| Document.Document.DeleteAt | crdt/doc.go:478-500 | DeleteAt in place is the pure delete. |
| Document.Document.SetElementVisibility | crdt/doc.go:587-610 | DeleteByElemID and ReviveElem in place are the pure ones. |
| Document.Document.SpliceText | crdt/doc.go:539-585 | SpliceText in place is the pure splice, with the identities it returns. |
| Document.Document.Commit | crdt/doc.go:830-865 | Commit in place is the pure commit. |
| Document.Document.ApplyOps | crdt/doc.go:876-892 | The operation loop applies all, or stops at a refusal, and raises the counter. |
| Document.Document.MergedHeads | crdt/doc.go:912-930 | The map and the sort compute the merged heads. |
| Document.Document.ApplyRemote | crdt/doc.go:867-897 | Applying a remote change in place is the pure application. |
| Document.Document.MissingDeps | crdt/doc.go:899-910 | The dependencies that are not recorded; none exactly when all are known. |
| Document.Document.Receive | crdt/doc.go:773-795 | The receive loop skips what is known, puts off what misses a dependency, and stops at a refusal. |
| Document.Document.Merge | crdt/doc.go:655-687 | The merge loop is the pure merge of the sorted list. |
| PerfGraph.MergedMeans | buildmanifest/perf.go:231-231 | An edge of the merged graph is a dependency of some record of that identity. |
| PerfGraph.MergeRecords | buildmanifest/perf.go:214-232 | The first loop finds the first record that contradicts an earlier one, or the exact index of all records. |
| PerfGraph.ResolveDependencies | buildmanifest/perf.go:233-241 | The second loop finds the first dependency that is unknown or exists only for the other renderer, or there is none. |
| PerfGraph.Search.Visit | buildmanifest/perf.go:242-259 | A visit finishes a node with all it leads to, or names a node on a cycle; it ends because ever fewer nodes are uncoloured. |
| PerfGraph.FinishedIsAcyclic | buildmanifest/perf.go:242-259 | A finishing order of all nodes leaves no cycle. |
| PerfGraph.BackEdge | buildmanifest/perf.go:245-247 | A grey node met again lies on a cycle. |
| PerfGraph.SearchAll | buildmanifest/perf.go:260-269 | Visiting every identity succeeds exactly when the graph is acyclic. |
| PerfGraph.Validate | buildmanifest/perf.go:210-272 | Records are accepted if and only if no identity is contradicted, every dependency can be used, and the merged graph is acyclic; each rejection points at a culprit. |
| Keyframes.WindowFits | assetpipe/optimize_animation.go:132-152 | The window is accepted exactly when every frame in it is within the limit of the line in every component, and the worst distance is returned. |
| Keyframes.ValueSpan | assetpipe/optimize_animation.go:155-172 | The span is the largest range that any single component covers. |
| Keyframes.Extend | assetpipe/optimize_animation.go:102-113 | The window grows frame by frame while it fits and at most 256 frames are dropped, and stops where it cannot grow further. |
| Keyframes.Decimate | assetpipe/optimize_animation.go:95-124 | The outer loop ends, keeps a rising chain of frames with good links none of which could have grown, and knows its worst deviation. |
| Keyframes.InterpolatedOnLine | assetpipe/optimize_animation.go:132-142 | The interpolated value lies on the line through the two keyframes, by cross product, and meets it at both ends. |
| Keyframes.DeviationIsDistance | assetpipe/optimize_animation.go:138-147 | The deviation is within a limit exactly when the frame is that near to the line; keyframes that do not rise in time predict the value of the first. |
| Keyframes.DecimateKeyframes | assetpipe/optimize_animation.go:89-128 | Kept frames rise from first to last, every dropped frame is within tolerance times span of the line between its neighbours, at most 256 drop in a row and no fewer than the growing window allows, and the error is exactly the worst over span. |
| Keyframes.KeptIsUnique | assetpipe/optimize_animation.go:95-124 | Only one list of kept frames meets these conditions. |
| Bootstrap.NewestWins | desktop/bootstrap_windows.go:61-101 | In every run of registrations, completions in any order, failures and failed removals, the live script is that of the greatest successful generation while the view is open. |
| Bootstrap.OneLive | desktop/bootstrap_windows.go:61-101 | When removals succeed at most one script is live. |
| Bootstrap.WindowsApp.InstallBootstrap | desktop/bootstrap_windows.go:64-68 | A registration takes the next generation. |
| Bootstrap.WindowsApp.OnCompleted | desktop/bootstrap_windows.go:72-100 | The callback does to the fields and the view what the step says, and reports success exactly when id and removal allow. |
| Rebase.RotateIsLinear | assetpipe/execute_optimize.go:712-722 | Turning by any quaternion, of length one or not, is linear. |
| Rebase.RotateIsMatrix | assetpipe/execute_optimize.go:712-722 | Turning is the product with the rotation matrix of the quaternion. |
| Rebase.AxisStays | assetpipe/execute_optimize.go:712-722 | The axis of a turn stays where it is. |
| Rebase.LengthStays | assetpipe/execute_optimize.go:712-722 | A quaternion of length one keeps lengths. |
| Rebase.InstanceParts | assetpipe/execute_optimize.go:667-681 | Attributes are read row by row, and a missing or short one neither moves, turns nor scales. |
| Rebase.RebaseKeepsDrawing | assetpipe/execute_optimize.go:612-628 | Drawing a lattice point through the rebased instance and the wrapper is drawing the dequantized point through the original. |
| Rebase.MoveInstancingToWrapper | assetpipe/execute_optimize.go:629-708 | The loop writes a translation for every instance, defaults for missing attributes included, so that every instance draws what it drew; nothing is written only when there are no instances. |

## Left out

- Increment in the convergence theorem: it commutes with a put or a delete of the same entry only under the condition of `Limits.IncrementCommutes`, and with another increment of that entry never.
- Forks that share an actor: identities would repeat, so replicas have distinct actors.
- Document.Document.Put: the document object holds each sequence as a list, not as a `SeqIndex.Seq`; that the blocked sequence does the same to the order is proved method by method in `SeqIndex`, and sharing between documents is not modelled.
- SeqIndex.Seq.Reset: requires distinct identities; what the index does with repeated identities is not modelled, and neither are `forEach` and `clone`.
- Runs.SortChangesSorted: `sort.Slice` is modelled by an insertion sort with the same comparison; hashes are compared as bytes, which is the order of their hexadecimal text.
- Sorting.SortedKeys: `sort.Strings` and `sort.Slice` on keys are modelled by repeated choice of the least key.
- LocalCalls.PutOK: requires that an object value has the kind of the assignment and that no new object goes to a list, because replicas diverge otherwise (`Limits.KindsClash`, `Limits.RefusedPutLeavesOrphan`).
- LocalCalls.DeleteOK: requires that a delete by text on a list names an element that is there, because replicas may diverge otherwise (`Limits.EarlyDeleteIsLost`).
- LocalCalls.InsertOK: requires that an object value has the kind of the assignment, because replicas diverge otherwise (`Limits.KindsClash`).
- LocalCalls.CallOK: the same conditions for all calls, and none on `Increment`, which is not among them.
- Runs.StepOK: for a given assignment of kinds; `Convergence.StepKinds` shows that one exists for makes.
- Runs.RunOK: for a given assignment of kinds; `Convergence.RunKinds` shows that one exists.
- Replicas.ReceiveOK: the sync state, Bloom filter, message framing and the lists of heads and needs are not modelled; receiving takes the decoded changes of a message.
- Recording.RemoteOK: a remote change is taken with its hash already set, as decoding and other replicas deliver it.
- DocumentCodec.SnapshotRoundTrip: chunk framing and checksums around the body are not modelled, and the body must be shorter than 2^64 bytes, as every Go slice is.
- SnapReader.DecodeSnapshot: one error stands for all messages; the conversion of a huge dependency index to a signed integer, and the panic it can cause, are not modelled.
- SnapReader.SnapReader.ReadDep: fails on every index past the changes before; the source converts a huge index to a negative number and panics.
- SnapReader.SnapReader.ReadChange: keeps the nanoseconds of a change as they were read; the source counts a second or more of them as seconds, which no written change needs.
- SnapReader.SnapReader.ReadObject: fails on an object of unknown kind, which the source reads by name.
- SnapWriter.SnapWriter.WriteObject: has no branch for objects of unknown kind, which the source writes by name.
- Snapshot.ObjectRoundTrip: objects of an unknown kind, which the format keeps by name, are not modelled; reading one fails.
- ValueCodec.ValueRoundTrip: floats and vector norms are their bit patterns; a value holds only the field its kind uses.
- ChangeCodec.ChangesRoundTrip: SHA-256 over the JSON form is an unspecified function of the change content.
- Varints.IntRoundTrip: zigzag is stated by arithmetic on 64-bit values, not by shifts and exclusive or.
- Keyframes.DecimateKeyframes: real numbers stand for floats, and the first value of a component for the infinities of `valueSpan`; reading and rewriting accessors is not modelled.
- Rebase.MoveInstancingToWrapper: real numbers stand for floats; reading and adding accessors, and their errors, are not modelled.
- Bootstrap.NewestWins: each callback is one atomic step, and the web view hands out an identity only once; COM reference counting is not modelled.
- PerfGraph.Validate: field formats, the version, list limits and byte limits are not modelled; the records are taken as valid one by one.
- The legacy JSON snapshot and `saveLegacyJSON`, since it is plain field-by-field JSON.
- Read accessors such as `Get`, `Lookup` and `ListLen`, which only project the state; hooks and locks, as every call is one step.
- Vector quantisation in `crdt/vector.go`, because its kernels are not part of this model.
- Every other package of the repository: rendering, routing, authentication, desktop back ends and asset file formats are mostly plumbing.
