# Glean runtime, verified model

A Dafny 4.11 model of the stateful cores of Glean's C++ runtime (`glean/rts`) and of its
work-stealing list, with proofs that each fast form agrees with a simple mathematical one.
`dafny verify dfyconfig.toml` checks everything.

| part | modules | simple meaning it is proved against |
|---|---|---|
| work stealing | `Worklist`, `Stealing` | a ledger of items over every interleaving of atomic actions |
| compressed sets | `Blocks`, `SetVectors`, `SparseMerge`, `SetCursors`, `SetU32`, `SetReaders` | `set<nat>` |
| hash-consed sets | `Usets`, `Promotions` | each set of units stored once; an explicit heap, so that a freed object cannot be used; 32-bit ids |
| trie of id ranges | `TrieShape`, `TrieCollect`, `TrieUnlink`, `TrieArray`, `TrieRead` | a function from fact ids to sets of units |
| completing ownership | `Reachability`, `RefCounts`, `Completion`, `Collection`, `Flattening`, `Ownership` | reachability in the graph of references |
| slices | `Slicing`, `Ownership` | recursive meaning of And/Or expressions |
| batches of facts | `Facts`, `Batch`, `Rebase` | renaming of references |
| query execution | `Seek`, `Suspend`, `Delivery`, `Nested` | sorted windows of keys; uninterrupted runs; reachability |
| lookup cache | `CacheStore`, `CacheOrder`, `Cache`, `CacheProtocol`, `CacheSerial`, `CacheQueue`, `CacheProgress`, `CacheDeadlock` | the base lookup, in every interleaving of a transition system with locks; the order of last uses |
| codecs | `Bytes`, `NatCodec`, `Strings`, `Json` | numbers, byte strings, section 7 of RFC 8259 |

Modelling conventions:

- Code that updates objects is a class with methods proved against functions and predicates on
  values; fixed-size buffers are arrays. Objects that are shared through raw pointers live in an
  explicit heap (`map<Ptr, ...>`); freeing removes the address, so every access is shown to hit an
  allocated object.
- `Bits256` is a set of numbers below 256. An Elias-Fano list is a strictly ascending sequence
  with a forward cursor. Hash tables are maps or sets; equality, not hashing, carries the proofs.
- A clause is a sequence of tokens, plain bytes or references with the predicate they should have;
  walking it along the type of its predicate is what generated code does in the original. In
  `Seek`, `NatCodec`, `Strings` and `Json` bytes are bytes.
- Numbers are unbounded except where the width matters: the packed 32-bit halves and the 64-bit
  increment of a worklist word, the header word of a set block, the 32-bit unit count, set ids and
  index over facts of the ownership computation, the wrap-around check of the nine-byte number form.
  Reference counts, fact ids and byte counts do not wrap.
- The index lock of the cache prefers writers, as `glean/rts/cache.h:35-36` says: while an insertion
  waits for it no lookup may start, and any waiting insertion may be the next one.
- Failing checks (`CHECK`, thrown errors) are results; documented demands on callers (sorted
  ranges, sorted units) are preconditions.

Findings the proofs made precise, where code and comments disagree or a promise fails:

- A worker that keeps polling an exhausted word carries its start into its end after 2^32 polls and
  is handed items nobody put there; conservation holds exactly without such a poll
  (`Worklist.RunConserves`, `Worklist.PollingWraps`; `Worklist.FewCallsConserve` is a bound on calls
  that rules it out).
- An insertion into the cache waits for running callbacks while it holds the index. A callback on a
  cached fact may itself look something up, as a comment in `factById` allows for. That lookup can
  ever start exactly when the insertion that holds the index takes nothing out and what is queued
  after it can pass without taking anything out either: when there is room for one fact per queued id,
  with as much data as any queued for it, and none of them replaces a cached one
  (`CacheProgress.NestedLookup`; stuck behind a holder in `CacheDeadlock.StuckReached`, behind an
  insertion that only waits in `CacheDeadlock.QueueReached`). An insertion that has taken facts out
  can ever finish exactly when every other thread can end its callbacks on cached facts without
  inserting anything on the way, and its own thread runs none (`CacheDeadlock.DeletesWhen`).
- A suspended query keeps the facts it has yet to see, but not always the ids from which owners of
  derived facts are computed: before its first fact and after its last one a restarted iterator has
  another id (`Suspend.IdExact`, `Suspend.Executor.SeekThenCut`), and `Suspend.DerivedOwners` says
  when owners are the same nevertheless.
- An empty fact set accepts any other set in `append`, but then lookups by key and by id disagree
  (`Facts.FactSet.Append`, `Facts.LookupsAgree`).
- Ownership at its 32-bit edges. With a unit 2^32 - 1 the unit count wraps to 0 and sets are no
  longer told from units. When units and sets together use all 32-bit numbers, some set is given the
  id 2^32 - 1, which means "none", and facts lose their owners (`Ownership.LargestUnit`). A result is
  usable exactly when nothing is owned, or the last unit plus one plus the number of different owner
  sets is at most 2^32 - 1 (`Ownership.ComputeOwnership`). With the key 2^32 - 1 the loop over the
  facts does not end (`Ownership.Intervals`, `Ownership.LargestKey`).
- `demangleTrustedString` is documented to return the mangled size; the code returns the demangled
  one. The table in `nat.h` starts the nine-byte form one below where the code does. The model
  follows the code.

## Model

| member | source | states |
|---|---|---|
| `Worklist.PackUnpack` | glean/interprocess/cpp/worklist.cpp:49-55 | packing a pair into one word and unpacking it are inverse, both ways |
| `Worklist.FetchAddIsIncrement` | glean/interprocess/cpp/worklist.cpp:97 | the pair left by the atomic increment is the word plus one modulo 2^64, carries included |
| `Worklist.StepConserves` | glean/interprocess/cpp/worklist.cpp:95-142 | one atomic action of any worker keeps the number of every item in counters, in flight and returned, if and only if it is not the poll that wraps |
| `Worklist.RunConserves` | glean/interprocess/cpp/worklist.cpp:95-142 | over every interleaving: items are conserved at every moment if and only if no worker makes a wrapping poll |
| `Worklist.AtMostOnce` | glean/interprocess/cpp/worklist.cpp:95-142 | with disjoint initial ranges no item is handed out twice, and none that was not put in |
| `Worklist.AllHandedOut` | glean/interprocess/cpp/worklist.cpp:134-141 | once the last call of every worker came back with nothing, every item has been handed out |
| `Worklist.OwnWordStable` | glean/interprocess/cpp/worklist.cpp:98-132 | between its empty poll and its store a stealing worker's own word is changed by nobody else |
| `Worklist.StepPotential` | glean/interprocess/cpp/worklist.cpp:123-133 | a compare-and-exchange fails only when another worker has taken an item since the word was read |
| `Worklist.RetriesBounded` | glean/interprocess/cpp/worklist.cpp:106-139 | the retries of a worker are bounded by the items taken meanwhile |
| `Worklist.CallFinishes` | glean/interprocess/cpp/worklist.cpp:106-139 | every call finishes within (items left + 2) rounds of the worker's own actions |
| `Worklist.PollingWraps` | glean/interprocess/cpp/worklist.cpp:97-98 | a lone worker that polls an exhausted list long enough is handed item 0 |
| `Stealing.NothingMeans` | glean/interprocess/cpp/worklist.cpp:106-137 | in every interleaving, a call that comes back with nothing has found every other word empty at some moment of that call |
| `Stealing.StealsFromMost` | glean/interprocess/cpp/worklist.cpp:109-116 | in every interleaving, a successful steal is from a word that holds at least what every other word held at some moment of the call |
| `Stealing.StealsHalf` | glean/interprocess/cpp/worklist.cpp:118-133 | the victim keeps the lower half, rounded down, and the thief carries the upper one; a failed exchange changes nothing |
| `Stealing.HandsOut` | glean/interprocess/cpp/worklist.cpp:95-142 | an item is handed out exactly when a call ends with one, and it is the first of the worker's own word or of what it has stolen |
| `Stealing.CallAlone` | glean/interprocess/cpp/worklist.cpp:95-142 | the whole effect of a call while nobody else moves: the own next item, else the upper half of the first largest word, else nothing, exactly when all words are empty |
| `Worklist.FewCallsConserve` | glean/interprocess/cpp/worklist.cpp:95-142 | items are conserved whenever no worker calls `next` more often than there are 32-bit numbers above all initial starts and ends |
| `Worklist.SerialCounter.Next` | glean/interprocess/cpp/worklist.cpp:211-219 | one call hands out start and advances, or nothing |
| `Worklist.SerialCounter.CountOff` | glean/interprocess/cpp/worklist.cpp:205-220 | any number of calls hands out start, start + 1, ... below end in order, then nothing |
| `SetVectors.HdrLayout` | glean/rts/ownership/setu32.h:178-240 | id, kind, sparse length and dense length are read back from the packed header word, and `before` compares ids |
| `SetVectors.Canonicity` | glean/rts/ownership/setu32.cpp:103-107 | two well-formed sets are equal as sets if and only if their three vectors are equal |
| `SetCursors.BlockEqIsEquality` | glean/rts/ownership/setu32.cpp:42-54 | block equality is equality of what the blocks denote |
| `SetCursors.BlockIncludesIsSubset` | glean/rts/ownership/setu32.cpp:56-94 | block inclusion is the subset relation, for all nine combinations of kinds |
| `SetCursors.LowerBound` | glean/rts/ownership/setu32.cpp:126-159 | the first block not below an id, with the right positions in all three vectors from whichever end they are counted |
| `SetCursors.SkipSubset` | glean/rts/ownership/setu32.cpp:257-297 | the common prefix and all covered blocks are skipped; where skipping stops, the candidate superset misses a block |
| `SetU32.SetU32.Append` | glean/rts/ownership/setu32.cpp:210-245 | appending a largest element adds exactly it and keeps the canonical form |
| `SetU32.SetU32.AppendBits` | glean/rts/ownership/setu32.cpp:301-308 | appends one dense or full block |
| `SetU32.SetU32.MergeSparse` | glean/rts/ownership/setu32.cpp:312-344 | two sparse blocks become their union, sparse below 32 elements and dense from 32 on |
| `SetU32.SetU32.AppendMergeBlock` | glean/rts/ownership/setu32.cpp:347-383 | the union of two blocks of any kinds, in canonical form |
| `SetU32.SetU32.AppendMerge` | glean/rts/ownership/setu32.cpp:386-408 | merging from two cursors appends the union of what is left of both sets |
| `SetU32.SetU32.Merge` | glean/rts/ownership/setu32.cpp:410-424 | the union of two sets, given as one argument exactly when one is a subset of the other |
| `SetReaders.Foreach` | glean/rts/ownership/setu32.h:374-401 | enumerates exactly the members, in ascending order |
| `SetReaders.Size` | glean/rts/ownership/setu32.cpp:173-192 | the number of members |
| `SetReaders.Upper` | glean/rts/ownership/setu32.cpp:194-208 | the largest member |
| `SetReaders.FromAscending` | glean/rts/ownership/setu32.cpp:439-448 | appending an ascending list gives a canonical set with exactly its elements |
| `SetReaders.RoundTrip` | glean/rts/ownership/setu32.cpp:426-448 | writing a set out and reading it back gives the same three vectors |
| `Usets.EachSetOnce` | glean/rts/ownership/uset.h:104-108 | two entries with the same operator and the same members are one entry |
| `Usets.Usets.Add` | glean/rts/ownership/uset.h:153-166 | a new set is entered; a known one gives its entry all references of the newcomer |
| `Usets.Usets.Merge` | glean/rts/ownership/uset.h:192-203 | one more reference to the entry of the union; nothing else changes |
| `Usets.Usets.Drop` | glean/rts/ownership/uset.h:209-218 | the entry goes with its last reference, and only then |
| `Usets.Usets.Promote` | glean/rts/ownership/uset.h:220-226 | a set without an id gets the next 32-bit id and a reference, one that has an id nothing; a set that is given 2^32 - 1 still has none |
| `Promotions.DenseIds` | glean/rts/ownership/uset.h:220-226 | while ids last, promotion number j gives the id first + j, and no set is promoted twice |
| `Promotions.RunsOut` | glean/rts/ownership/uset.h:92-96 | when ids have run out, one promoted set has no id, or one below the first |
| `Promotions.PromotedCard` | glean/rts/ownership/uset.h:220-226 | ids run out exactly when there are more different promoted sets than ids |
| `TrieArray.TrieArray.Visit` | glean/rts/ownership/triearray.h:274-294 | taking out a range of one slot threads whole slots, splits others, and changes no set |
| `TrieArray.TrieArray.Traverse` | glean/rts/ownership/triearray.h:258-272 | takes out exactly the keys of a range across top-level blocks |
| `TrieArray.TrieArray.Walk` | glean/rts/ownership/triearray.h:104-114 | following a list stores the new value in exactly its slots and counts them |
| `TrieArray.TrieArray.Updated` | glean/rts/ownership.cpp:80-98 | the value for one more unit: the old one in place when nothing else refers to it, else a copy, with exact counts; the call is recorded |
| `TrieArray.TrieArray.Insert` | glean/rts/ownership/triearray.h:42-125 | unless a key exceeds 32 bits, exactly the keys of the ranges gain the unit, counts equal leaves, all links are null again, and the recorded calls ask for each previous value (none included) once |
| `TrieRead.Traverse` | glean/rts/ownership/triearray.h:246-294 | a traversal meets leaves that cover the range without gap or overlap |
| `TrieRead.VisitedOnce` | glean/rts/ownership/triearray.h:258-294 | no leaf is visited twice |
| `TrieRead.LeafVisited` | glean/rts/ownership/triearray.h:258-294 | every leaf with a key in the range is visited |
| `Ownership.FillOwnership` | glean/rts/ownership.cpp:46-111 | succeeds if and only if units ascend and keys fit in 32 bits; then the trie holds for every key the units accumulated for it, and the unit count is the largest unit plus one as a 32-bit number |
| `Ownership.RawIsListed` | glean/rts/ownership.cpp:73-105 | what is accumulated for a key is exactly the set of units whose ranges contain it |
| `Collection.MoveLeaf` | glean/rts/ownership.cpp:117-136 | a leaf moves to the one stored copy of its set; duplicates are freed with their last leaf |
| `Collection.CollectUsets` | glean/rts/ownership.cpp:114-146 | afterwards all leaves point into the table, it holds nothing else, and every count equals the number of leaves |
| `Flattening.Flatten` | glean/rts/ownership/triearray.h:138-151 | the table of facts holds the units of every key, and counts equal the slots of the table |
| `RefCounts.FollowLink` | glean/rts/ownership.cpp:226-231 | following a remembered union keeps counts, links and all other owners |
| `RefCounts.RememberUnion` | glean/rts/ownership.cpp:232-238 | a new union is remembered in the link of the old set, whose reference moves to `touched` |
| `RefCounts.CountsFit` | glean/rts/ownership.cpp:216-251 | a reference count exceeds the number of slots of the table by two at most |
| `RefCounts.ForgetLink` | glean/rts/ownership.cpp:244-247 | resetting a link drops the reference `touched` held, and frees the set exactly when it was the last |
| `Completion.AddToReference` | glean/rts/ownership.cpp:220-239 | one reference adds the set of the current fact to the owners of one fact and changes nothing else |
| `Completion.CompleteFact` | glean/rts/ownership.cpp:205-255 | one fact adds its owners to all facts it refers to, duplicates included, and is promoted |
| `Completion.CompleteOwnership` | glean/rts/ownership.cpp:154-259 | the single backwards pass gives every fact exactly the units of all facts that reach it; promoted sets are the owners of facts of the database |
| `Completion.OnlyPromotedRemain` | glean/rts/ownership.cpp:148-153 | when every owned fact is in the database, exactly the sets that were promoted remain, and they have ids unless these ran out |
| `Reachability.OwnsVisit` | glean/rts/ownership.cpp:196-256 | visiting one fact extends ownership by exactly the chains that leave it |
| `Reachability.OwnsAll` | glean/rts/ownership.cpp:196-256 | when all facts have been visited, ownership is reachability |
| `Ownership.Intervals` | glean/rts/ownership.cpp:282-290 | ends if and only if the 32-bit index can get past all facts; then looking a fact up in the run-length encoded owners gives its owner, and neighbouring runs differ |
| `Ownership.ToEliasFano` | glean/rts/ownership/uset.cpp:19-28 | one list per promotion; a set that has an id is at its position in 32-bit arithmetic, and positions without a set hold an empty list |
| `Ownership.ComputeOwnership` | glean/rts/ownership.cpp:263-298 | says exactly when a check fails and when it does not return; with enough ids every fact of the database has the set of exactly the units that own it, sets are non-empty, distinct and used, and nothing beyond the table is owned; without, some owned fact has lost its owner; the result is usable if and only if nothing is owned or units and sets leave 2^32 - 1 free |
| `Ownership.TableFull` | glean/rts/ownership/triearray.h:138-151 | unless ranges are empty, the table has 2^32 slots, one too many for the index, if and only if some unit lists the largest key |
| `Ownership.LargestKey` | glean/rts/ownership.cpp:284 | a single range with the largest key passes all checks and makes the loop endless |
| `Ownership.LargestUnit` | glean/rts/ownership/uset.h:220-226 | one fact owned by unit 2^32 - 2 leaves no id for its set |
| `Ownership.VisibleIsShown` | glean/rts/ownership/slice.h:29-35 | a fact is visible in a slice if and only if a unit the slice shows owns it |
| `Ownership.NothingDangles` | glean/rts/ownership.cpp:196-256 | with a fact, everything it transitively references is visible, in both modes |
| `Ownership.SliceOf` | glean/rts/ownership/slice.cpp:20-143 | the whole way from unit ranges and references to a bitmap: with enough ids it shows exactly the facts a shown unit owns, without dangling references; the slice that excludes nothing does so if and only if there are enough ids |
| `Slicing.IsSubset` | glean/rts/ownership/slice.cpp:34-50 | all units of the set are listed; the cursor is left before the first set member |
| `Slicing.EmptyIntersection` | glean/rts/ownership/slice.cpp:52-68 | no unit of the set is listed; no set member has been passed |
| `Slicing.OrVisible` | glean/rts/ownership/slice.cpp:70-85 | some earlier set in the list is visible |
| `Slicing.AndVisible` | glean/rts/ownership/slice.cpp:87-102 | all earlier sets in the list are visible |
| `Slicing.EvalSet` | glean/rts/ownership/slice.cpp:113-136 | both phases on one cursor decide Or and And over units and sets |
| `Slicing.NoUnits` | glean/rts/ownership/slice.cpp:104-107 | with no units listed every non-empty expression is visible when excluding and none when including |
| `Slicing.Slice` | glean/rts/ownership/slice.cpp:20-143 | the one-pass bitmap equals the recursive meaning of every expression, for every sorted unit list and both modes |
| `Slicing.SeesDual` | glean/rts/ownership/slice.cpp:113-136 | including instead of excluding, with Or and And exchanged, inverts what is visible |
| `Facts.FactSet.Define` | glean/rts/factset.cpp:161-177 | a fact is found under its key, clashes, is too large, or is added with the next id |
| `Facts.SizeOfBytes` | glean/rts/factset.cpp:162-164 | the size that is compared with the limit for keys is the number of bytes of the clause |
| `Facts.FactSet.Appendable` | glean/rts/factset.cpp:255-275 | accepts exactly when one set is empty or the other continues this one with new keys |
| `Facts.FactSet.Append` | glean/rts/factset.cpp:240-253 | the facts of both sets in order with the ids they carry and an exact key index; these are the ids of their places if and only if the other set continues this one or is empty |
| `Facts.LookupsAgree` | glean/rts/factset.cpp:255-258 | facts are found again under the ids they carry if and only if every fact carries the id of its place |
| `Facts.Target.Define` | glean/rts/stacked.h:124-149 | a clause without new references is looked up in the base first, comparing non-empty values; otherwise the set defines it |
| `Batch.DefineUntrustedBatch` | glean/rts/define.cpp:20-90 | success means every fact of the batch is there under its item; failure names the first fact that fails and why, and means that no items would do; a batch that is there already is recognised and nothing is added; no fact is added that the base could hold and holds |
| `Batch.Resend` | glean/cpp/sender.cpp:170-175 | sending a batch again, even after other definitions, gives the same substitution and adds no fact |
| `Batch.SettledGrows` | glean/rts/factset.cpp:161-177 | a batch that is there stays there under the same ids however the set grows |
| `Batch.SettledMeans` | glean/rts/define.cpp:37-84 | every item names a fact with the predicate and the key of the batch's fact, all references replaced by items |
| `Batch.RenameAt` | glean/rts/define.cpp:38-60 | renaming replaces ids only, and each new id names a fact of the right predicate |
| `Batch.RenameWhen` | glean/rts/define.cpp:38-60 | renaming succeeds if and only if every reference leads to a fact of the right predicate; else the first that does not is reported, and why |
| `Batch.MaxRefIs` | glean/rts/define.cpp:41-44 | the id that is handed on is the largest one put in, or invalid if there is none |
| `Batch.RealIdIs` | glean/rts/define.cpp:39 | an id stands for the item of the fact last given it as a name, else for the item of its place in the batch, else for itself |
| `Batch.StoredAs` | glean/rts/define.cpp:37-84 | what is stored for a fact of an accepted batch differs from it in nothing but references to named facts and to facts of the batch |
| `Batch.BaseFirst` | glean/rts/stacked.h:124-149 | a fact of an accepted batch whose references lie below the boundary and whose key the base holds there gets the id of the base |
| `Batch.FailsForAll` | glean/rts/define.cpp:20-90 | a batch that fails is settled by no substitution |
| `Rebase.FirstFreeId` | glean/rts/substitution.cpp:25-28 | the least bound above the end of the range and everything ids below it are mapped to |
| `Rebase.Rebase` | glean/rts/factset.cpp:209-238 | known facts go to the store under their new ids; the rest is renumbered, and the check succeeds if and only if the renamed keys are distinct and not too large |
| `Rebase.RebasedFacts` | glean/rts/factset.cpp:209-238 | every fact is in the store or in the new buffer, where it belongs; ids before the substitution are unchanged, ids in it are items, later ones keep their distance from its end, and nothing else is different |
| `Rebase.OneToOneDistinct` | glean/rts/factset.cpp:229-235 | a substitution that is one-to-one on the ids the tail's keys mention keeps the keys apart |
| `Rebase.CollapsedIds` | glean/rts/factset.cpp:229-235 | any two ids that become one make two distinct facts clash |
| `Rebase.NewIdInjective` | glean/rts/inventory.h:45-49 | shifted ids meet no substituted id |
| `Rebase.NoClash` | glean/rts/inventory.h:45-49 | an id lies in the new buffer if and only if it was not below the end of the substitution |
| `Rebase.IdsFollow` | glean/rts/factset.cpp:213-235 | the new buffer numbers facts as references to them are renamed, if and only if the substitution does not end before the buffer |
| `Rebase.BackwardKept` | glean/rts/factset.cpp:229-235 | references of the new buffer still point to smaller ids |
| `Rebase.ReferencesFollow` | glean/rts/factset.cpp:218-235 | the reference graph is preserved: a renamed reference leads to the renamed fact |
| `Rebase.CacheAgrees` | glean/rts/factset.cpp:218-225 | what the client stores for a fact of an accepted batch is what the server holds under the same id, exactly when every reference that spells a name has the same item as the fact so named |
| `Seek.LexicographicallyNext` | glean/rts/binary.cpp:15-26 | the backwards scan computes the end of the prefix window |
| `Seek.WindowIsPrefix` | glean/rts/binary.cpp:15-26 | a key has a prefix if and only if it is not below it and below the window's end, 0xFF bytes and the empty prefix included |
| `Seek.FactIndex.Refresh` | glean/rts/factset.cpp:130-143 | comparing sizes suffices: afterwards the index holds every fact |
| `Seek.FactIndex.Seek` | glean/rts/factset.cpp:105-159 | delivers exactly the facts that carry the prefix and are not below the start, in lexicographic order |
| `Seek.WindowUnique` | glean/rts/factset.cpp:149-155 | such a window is unique |
| `Seek.TailIsWindow` | glean/rts/query.cpp:543-550 | what is left of a window is the window that starts at its next key |
| `Suspend.Executor.Next` | glean/rts/query.cpp:231-247 | delivers the next fact of the uninterrupted run, looking before moving on the first call (`Delivery.SeekDelivers` says which facts these are) |
| `Suspend.Executor.SaveState` | glean/rts/query.cpp:304-321 | saves the key each iterator stands on, or that it is finished |
| `Suspend.Executor.RestartIter` | glean/rts/query.cpp:540-561 | on the same facts the saved key is found, the same facts remain, and the id differs from the uninterrupted run only before the first and after the last fact |
| `Suspend.Executor.CutAndResume` | glean/rts/query.cpp:539-562 | the whole stack is rebuilt with the same facts left to deliver |
| `Suspend.Executor.Run` | glean/rts/query.cpp:500-562 | a program suspended at any points sees the fact sequence of an uninterrupted run and ends with the iterators of one |
| `Delivery.SeekDelivers` | glean/rts/query.cpp:210-247 | a seek and n calls of next deliver the facts with the prefix in order, and nothing from then on |
| `Delivery.NestedDelivers` | glean/rts/query.cpp:210-247 | whatever seeks are begun, moved and ended in between, call number i of the outer one delivers its fact number i |
| `Delivery.RunSeek` | glean/rts/query.cpp:210-247 | so it does when the query is suspended any number of times |
| `Suspend.IdExact` | glean/rts/query.cpp:540-560 | after any number of suspensions, an iterator has the id of the uninterrupted run if and only if it was not suspended since it last moved, or stands on a fact it has delivered, or is finished without any |
| `Suspend.Executor.SeekThenCut` | glean/rts/query.cpp:546-560 | an iterator suspended before its first fact claims to stand on it |
| `Suspend.CollectOwners` | glean/rts/query.cpp:281-298 | the owners of a derived fact are exactly those of the facts that iterators stand on |
| `Suspend.DerivedOwners` | glean/rts/query.cpp:281-298 | a resumed query computes the owner set of the uninterrupted one if and only if, apart from owners that well-placed iterators give, unstarted iterators add exactly what ended ones lose |
| `Nested.QueryExecutor.NestedFact` | glean/rts/query.cpp:348-358 | remembers a fact once, and only if its predicate is expanded |
| `Nested.QueryExecutor.Expand` | glean/rts/query.cpp:396-406 | the loop ends, even with shared references, and leaves the stack empty |
| `Nested.QueryExecutor.ResultWithPid` | glean/rts/query.cpp:361-408 | records the result and expands its references; an unknown predicate is an error |
| `Nested.QueryExecutor.Result` | glean/rts/query.cpp:119-128 | a result is recorded and expanded once |
| `Nested.NestedExactly` | glean/rts/query.cpp:348-408 | after any series of results, the nested results are exactly the existing facts reachable through allowed references, each once |
| `Nested.LinksAre` | glean/rts/query.cpp:348-358 | with full expansion all references are followed, with partial expansion those to the chosen predicates |
| `Nested.AnswerAll` | glean/rts/query.cpp:119-128 | a whole series of answers: the results are the different ones, the nested results exactly the existing facts they lead to; it fails exactly when an answer is to be expanded and its predicate is unknown |
| `CacheStore.UsedGood` | glean/rts/cache.cpp:67-70 | moving a stored fact to the end keeps indexes, accounting, hits and agreement with the base |
| `CacheStore.DrainedGood` | glean/rts/cache.cpp:359-369 | so does applying and emptying a buffer |
| `CacheStore.RemovedGood` | glean/rts/cache.cpp:284-289 | taking a fact out of list and indexes keeps all invariants and takes out nothing else |
| `CacheStore.EvictsShortest` | glean/rts/cache.cpp:319-329 | what is evicted is the shortest beginning of the list that gets the bytes down to the target |
| `CacheStore.AppendedGood` | glean/rts/cache.cpp:300-309 | storing a fact that is not there and fits keeps all invariants |
| `CacheStore.InsertionFacts` | glean/rts/cache.cpp:235-310 | an insertion drops facts if and only if it replaces one or room is missing, and then no hit is left that could name them |
| `CacheStore.FreedGood` | glean/rts/cache.cpp:228-232 | freeing what is not stored leaves everything else as it is |
| `CacheStore.HitAppends` | glean/rts/cache.cpp:337-346 | a recorded hit is the last one of its buffer |
| `CacheStore.MadeProper` | glean/rts/cache.cpp:120-201 | what is inserted says what the base says, as far as it was asked for, and has the size of a header and what is loaded |
| `CacheOrder.TouchedOrder` | glean/rts/cache.cpp:67-70 | a hit makes the fact the last of the list and leaves the others in order |
| `CacheOrder.HitsOrder` | glean/rts/cache.cpp:359-369 | after a series of hits facts are in the order of their last hits, those without any first and in their old order |
| `CacheOrder.InsertionIs` | glean/rts/cache.cpp:235-310 | nothing changes for a fact that is too large or known with as much data; else it becomes the last of the list, the one it replaces goes, and others only if there is no room |
| `CacheOrder.InsertionEvicts` | glean/rts/cache.cpp:279-298 | without room facts go until the target is reached, and not one more |
| `CacheOrder.WantedIs` | glean/rts/cache.cpp:292-297 | the target leaves room for the new fact below nine tenths of the capacity, rounded down |
| `CacheOrder.LeastRecentlyUsed` | glean/rts/cache.cpp:266-298 | apart from what is replaced, nothing goes while a fact with an older last use, recorded or applied, stays |
| `Cache.LookupCache.Drain` | glean/rts/cache.cpp:359-369 | the loop applies the recorded hits in order and empties the buffer |
| `Cache.LookupCache.Evict` | glean/rts/cache.cpp:319-329 | the loop takes facts from the front of the list, out of both indexes, until the target is reached |
| `Cache.LookupCache.InsertOne` | glean/rts/cache.cpp:235-310 | the new contents are those of an insertion as a whole, and what is returned is what was dropped |
| `Cache.LookupCache.Insert` | glean/rts/cache.cpp:219-233 | run on its own: afterwards the fact is known with at least as much data, if it fits at all, and exactly the stored facts are allocated |
| `Cache.LookupCache.Touch` | glean/rts/cache.cpp:331-357 | run on its own: with room the hit goes to the next slot; a full buffer is applied and emptied if the list can be locked; without buffers the list is updated at once |
| `Cache.LookupCache.IdByKey` | glean/rts/cache.cpp:106-132 | run on its own: answers as the base (interleaved with others: `CacheProtocol.AlwaysSafe`); what is cached is hit, what the base gives otherwise is inserted |
| `Cache.LookupCache.TypeById` | glean/rts/cache.cpp:134-158 | run on its own: answers as the base (interleaved with others: `CacheProtocol.AlwaysSafe`); what is cached is hit, what the base gives otherwise is inserted |
| `Cache.LookupCache.FactById` | glean/rts/cache.cpp:160-201 | run on its own: answers as the base (interleaved with others: `CacheProtocol.AlwaysSafe`); what is cached as a whole is hit, what the base gives otherwise is inserted |
| `CacheProtocol.LookupAnswers` | glean/rts/cache.cpp:106-201 | whatever the indexes lead to answers the query as the base does |
| `CacheProtocol.StepInv` | glean/rts/cache.cpp:106-369 | every shared action of every thread keeps the whole invariant: contents, locks, hits in flight, and the facts that callbacks run on |
| `CacheProtocol.AlwaysSafe` | glean/rts/cache.cpp:106-369 | in every interleaving of lookups, hits, drains, insertions and callbacks: both indexes are exact, bytes and count match the list and the capacity, hits recorded and about to be applied are stored facts, every fact found answers as the base, and every callback runs on an allocated fact that is the base's |
| `CacheProtocol.MissRight` | glean/rts/cache.cpp:124-131 | a lookup that misses is answered by the base |
| `CacheSerial.LookupWhen` | glean/rts/cache.cpp:106-201 | a fact is found if and only if it is stored with enough of its data |
| `CacheSerial.HitSerial` | glean/rts/cache.cpp:331-369 | the actions of a hit, in a row, have the effect of a hit on the cache on its own, and the callback runs on the fact if one was given |
| `CacheSerial.MissSerial` | glean/rts/cache.cpp:120-233 | the actions of a miss, in a row, have the effect of an insertion with what goes freed, or none if the base has no such fact |
| `CacheProgress.EnterWhen` | glean/rts/cache.h:35-36 | a lookup can start if and only if no other thread holds the index for writing or waits to |
| `CacheQueue.FirstPasses` | glean/rts/cache.cpp:240-261 | if all queued insertions fit, one with most data takes nothing out, and the others still fit |
| `CacheQueue.BeginBack` | glean/rts/cache.cpp:240-261 | no order of the insertions makes a queue fit that does not |
| `CacheProgress.StepBack` | glean/rts/cache.cpp:106-369 | no action of another thread makes the way passable for a callback |
| `CacheProgress.NestedLookup` | glean/rts/cache.cpp:163-176 | a lookup from inside a callback on a cached fact can ever start if and only if the holder of the index and the queued insertions can pass without taking anything out |
| `CacheProgress.BoundBlocks` | glean/rts/cache.cpp:219-227 | they cannot when the holder has taken facts out or is bound to |
| `CacheProgress.NeverEnters` | glean/rts/cache.cpp:219-227 | once they cannot, no run of the others lets the lookup start |
| `CacheProgress.SelfStuck` | glean/rts/cache.cpp:219-227 | a callback on a cached fact that inserts something for which a fact has to go keeps the index for ever, whatever anybody does |
| `CacheDeadlock.NoDeadlock` | glean/rts/cache.cpp:160-233 | somebody in the cache can go on if and only if it is not the case that an insertion waits for a callback and everybody else is queued behind that insertion |
| `CacheDeadlock.DeletesWhen` | glean/rts/cache.cpp:219-227 | an insertion that has taken facts out can ever get the delete lock if and only if its thread runs no callback on a cached fact and all others can end theirs without inserting anything |
| `CacheDeadlock.StuckReached` | glean/rts/cache.cpp:160-233 | a run reaches a state in which another thread holds the index and a callback can look up nothing any more |
| `CacheDeadlock.QueueReached` | glean/rts/cache.cpp:160-233 | a run reaches a state in which nobody holds the index for writing, but an insertion waits for it and a callback can look up nothing any more |
| `NatCodec.Store` | glean/rts/nat.cpp:238-290 | writes exactly the encoding into the buffer and returns its size |
| `NatCodec.StoreLoads` | glean/rts/nat.cpp:166-236 | both loads invert storing and skipping moves as far, whatever follows |
| `NatCodec.LoadStores` | glean/rts/nat.cpp:200-236 | what is accepted is the encoding of the number loaded, so encodings are unique |
| `NatCodec.SkipIsLoad` | glean/rts/nat.cpp:15-28 | skipping accepts exactly what loading accepts and consumes the same length |
| `NatCodec.PrefixFree` | glean/rts/nat.h:25-31 | no encoding starts another one |
| `NatCodec.StoreOrder` | glean/rts/nat.h:25-31 | lexicographic byte order is numeric order |
| `NatCodec.HeadSize` | glean/rts/nat.h:68-121 | the first byte tells the size |
| `Strings.MangleString` | glean/rts/string.cpp:141-155 | copying chunk by chunk computes the mangled form |
| `Strings.TrustedChunks` | glean/rts/string.cpp:98-114 | the chunk loop computes the demangled text, its mangled size and one chunk more than embedded NULs |
| `Strings.SkipTrustedString` | glean/rts/string.cpp:118-127 | reports the mangled and the demangled size |
| `Strings.DemangleMangle` | glean/rts/string.cpp:129-155 | demangling inverts mangling, whatever follows |
| `Strings.MangleDemangle` | glean/rts/string.cpp:129-139 | bytes whose NULs are followed by 0 or 1 are the mangled form of what they demangle to |
| `Strings.MangleOrder` | glean/rts/string.h:23-26 | mangled strings compare like the strings |
| `Strings.ManglePrefixFree` | glean/rts/string.h:18-24 | no mangled string starts another one |
| `Json.EscapedSize` | glean/rts/json.cpp:113-140 | the size of what escaping writes |
| `Json.SameSizeSameText` | glean/rts/json.cpp:152-157 | the copying fast path is taken exactly when nothing has to be escaped |
| `Json.Escape` | glean/rts/json.cpp:146-190 | fills the buffer exactly with the escaped text |
| `Json.UnescapeEscaped` | glean/rts/json.cpp:279-291 | reading the escaped text as a JSON string (section 7 of RFC 8259) gives back the text |
| `Json.EscapeMangled` | glean/rts/json.cpp:293-307 | reading the escaped form of a mangled string gives back the string that was mangled |

## Left out

- RocksDB, Thrift, file mapping, logging, timers, statistics and the foreign-function layer: wrappers over unseen libraries.
- The bytecode evaluator and the schema-directed walk over clauses; references are tokens instead, and malformed clauses are not modelled.
- Reading a batch from bytes: a batch is a sequence of facts.
- Elias-Fano coding, hash tables, AVX instructions and hashing: folly and hardware internals.
- Overflow of 64-bit ids and of byte counts.
- Ownership.ComputeOwnership: does not model wrap-around of the 32-bit reference counts; a count exceeds the number of slots of the table by two at most, and by one more in the middle of a step (`RefCounts.CountsFit`), so only tables within four slots of 2^32 are concerned.
- Owner lookup beyond the last stored interval, and reading sets back from disk.
- Derived ownership (`derived.cpp`), `Sliced` and `Snapshot` lookups, and iteration backwards.
- `Substitution::compose` and `substIntervals`.
- Merging of base and stacked iterators in `StackedBase::seek`.
- Bulk loading of the cache, which holds all locks for its whole run; the lossy cross-shard order of hits is kept, but nothing is claimed about it.
- CacheStore.InsertionFacts: the target of 90% of the capacity is computed over the reals and rounded down, not in floating point.
- The victim that a call of the worklist reports: it is only logged.
- Untrusted UTF-8 validation and lower-casing: ICU macros.
- Query timeouts, result limits and the saved registers of a query: the evaluator decides when to suspend.
- Nested.QueryExecutor.ResultWithPid: of a result only its id is recorded, because keys and values are copied along unchanged.
