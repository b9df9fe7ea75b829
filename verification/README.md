# CatLa memory management, verified

A Dafny model of the memory management of the CatLa virtual machine and proofs about it: the
cycle-collecting reference counter, the same counter and collector as a concurrent protocol, the
size-class heap allocator, the reader-writer lock, and the passes of the module loader that lay out
and link object fields.

## What is modelled

*Reference counting* (`Memory`, `RefCount`, `Consistency`, `Mutator`). Memory is a sequence of
objects: count, state, `async_release`, `is_cyclic_type` and nullable fields. The books are right
(`Accounts`) when every count is the number of field slots plus loose references that hold the
object. The two drop cascades are methods with work lists, as in the source. Their contract names
`order`, the sequence of objects whose counts ran out, and proves that it is the least set closed
under "all remaining references come from the set".

*The collector* (`TrialDeletion`, `Collector`, `Repeated`). `TrialDeletion` says, from fields and
counts alone, what one collection may release, and proves that this is exactly what nothing outside
can reach. `Collector` holds the phases of `gc_collect` as methods with loops: locking, gray,
white/black, marking, the walk over waiting trees, release, killing and re-insertion. `Repeated`
proves that calling the collector often enough leaves no garbage.

*The protocol* (`Protocol`, `ProtocolInvariant`, `ProtocolThreads`, `ProtocolWrites`,
`ProtocolDrops`, `ProtocolCollector`, `ProtocolRelease`, `ProtocolSafety`, `ProtocolCycles`,
`ProtocolRest`, `ProtocolVerdicts`, `ProtocolOperations`). Any
number of threads clone, flag, insert, lock, read, write, drop and allocate while the collector
locks one object at a time, reads one count at a time, paints, marks, unlocks, walks, releases, kills
and re-inserts. A step is one access to shared memory. The invariant is proved for every step, and
safety, exact counts, conservation of candidates, cycles that never go unnoticed and freedom from
circular waiting follow for every state of every run. `ProtocolRest` joins the two halves: whenever
the collector rests, a run has left what the sequential operations require. `ProtocolVerdicts` proves
that the collector judges every root as trial deletion does, and `ProtocolOperations` that the steps
of a thread make up the operations of `Mutator`.

*The allocator* (`SizeClasses`, `Allocator`), *the lock* (`RWLock`), *the loader* (`Loader`,
`BitSet`, `Types`); `MachineWord` holds the size of a machine word.

Names: `C` are cells whose fields count as references, `X` cells that the collector has sealed off,
`ext` loose references, `held` references in the hands of threads. `hide` statements keep single
proofs small; they do not weaken any statement.

## Assumptions

- Steps are sequentially consistent, and a drop together with the cascade it starts is one step.
  That such a step exists in every reachable state is `ProtocolSafety.RunDropReady` together with
  `RefCount.DecrementReferenceCount`.
- A thread that writes a field holds the parent besides the reference it moves in.
- Fields are null or hold an object.
- For progress only: every cycle of live objects is made of cyclic types.
- In the protocol the collector takes list members in any order; its own use of the list lock is a
  step that is enabled while the lock is free; painting and visiting one object of a waiting tree are
  single steps (both read only fields that nobody else writes then, which the invariant states).
- In the protocol an allocation is one step, although it is several stores; nobody else has a reference
  to the new object before it is done.

## Where code and expectation differ

- `HeapAllocator::malloc` computes the size of an object in wrapping arithmetic. It refuses exactly
  the requests with more than 59 fields only below 2^61 - 5 fields; with 2^61 fields it hands out a cell of
  40 bytes (`SizeClasses.WhenRefused`), and objects fit their cells after an allocation exactly if
  there are at most 59 fields (`Allocator.PlacedFits`).
- A request for 96 bytes goes to the class of 128 (`SizeClasses.ClassFits`); a block that was once
  found full is never tried again, whatever dies in it (`Allocator.HeapChunk.Malloc`).
- The word of the reader-writer lock wraps around: with 2^64 - 1 readers in, it is zero, as with a writer
  in. It counts who is in exactly if there are fewer than 2^64 - 1 threads (`RWLock.ExactlyWhen`); a writer
  is alone with any number of threads, since nobody enters while the word is zero (`RWLock.RunExclusive`).
- `load_module` returns nothing for a module that is loaded already, although nothing failed
  (`Loader.CatVM.LoadImports`).

## Model

| member | source | states |
|---|---|---|
| Memory.ReachIsPaths | src/gc/GC.cpp:39-72 | being in every closed set that contains the root is being at the end of a path of fields from it |
| Memory.ReachPred | src/gc/GC.cpp:49-63 | whatever is reached and is not a source is referenced by something reached |
| Memory.ReachFrame | src/gc/GC.cpp:39-72 | reachability depends on the fields of reached objects only, so locking those freezes it |
| Memory.SlotsZero | src/gc/GC.cpp:75-111 | no slot of a set holds an object exactly if no member points to it |
| Memory.DropLoose | src/gc/GC.h:110 | giving up a loose reference and decrementing keeps the books, and the count was positive |
| Memory.OpenCell | src/gc/GC.h:127-131 | the fields of an object without references become loose references, with the books unchanged |
| RefCount.GroundedIsLeast | src/gc/GC.h:109-155 | an order in which counts run out stays inside every set closed under "all remaining references come from the set" |
| RefCount.CascadeComplete | src/gc/GC.h:109-155 | what a finished cascade zeroed is closed in that sense, and every other count stays positive |
| RefCount.OwningIsForest | src/gc/GC.h:58-107 | retained fields lead to distinct members that are no candidates, and every member hangs below a candidate |
| RefCount.ForestUnion | src/gc/GC.h:58-107 | forests left by separate cascades form one forest |
| RefCount.StackedPush | src/gc/GC.h:77-83 | an object whose count ran out goes on a work list that did not hold it: it is pushed at most once |
| RefCount.StackedPop | src/gc/GC.h:90-94 | what is popped is unopened and on no list any more |
| RefCount.Join | src/gc/GC.h:75-83 | an object whose count has just run out is referenced by earlier zeroed objects only |
| RefCount.DropFieldsWaiting | src/gc/GC.h:70-88 | one object of the waiting cascade: fields leading to objects it owns are kept, all others are nulled with the count decremented, candidates go to the root list |
| RefCount.StoreStates | src/gc/GC.h:97-99 | exactly the listed objects get the state |
| RefCount.DecrementWaiting | src/gc/GC.h:58-107 | the zeroed objects all wait, form a forest and were zeroed in a grounded order; the books hold for the rest; it terminates on any graph |
| RefCount.AbsorbDying | src/gc/GC.h:137-139 | a waiting cascade started inside a killing one becomes part of it |
| RefCount.DropFields | src/gc/GC.h:127-146 | the field loop of the killing cascade |
| RefCount.DecrementReferenceCount | src/gc/GC.h:109-155 | zeroes exactly the least closed set that holds the dropped object, each member ends dead or waiting, every other count equals its references from outside that set |
| RefCount.WhoWaits | src/gc/GC.h:58-155 | candidates wait; of the others the dropped one dies, one referenced by waiting members only waits, one referenced by dying members only dies; one that waits is kept by exactly one slot, which held it before |
| RefCount.IncrementReferenceCount | src/gc/GC.h:46-54 | one more count, and flag and list exactly when the count of a cyclic type leaves one and the flag was clear |
| Consistency.LiveClosed | src/CatLa.cpp:120-188 | fields of live objects and hands of threads lead to live objects only |
| Consistency.ForestAcyclic | src/gc/GC.h:58-107 | no cycle runs through the waiting trees |
| Consistency.CycleHasCandidate | src/gc/GC.h:46-54 | run invariant: every cycle of objects of cyclic types that are not dead contains a listed candidate |
| Consistency.IncrementKeeps | src/gc/GC.h:46-54 | an increment keeps the whole invariant |
| Consistency.WriteSlots | src/CatLa.cpp:155-171 | a write moves one reference out of the hands into a slot and one back: the sum is conserved |
| Consistency.WriteAcyclic | src/CatLa.cpp:120-171 | a write cannot close a cycle of unregistered objects, because its parent has one reference and the writer holds it |
| Consistency.WriteKeeps | src/CatLa.cpp:120-188 | a write keeps the whole invariant |
| Consistency.CascadeForest | src/gc/GC.h:58-155 | the forest of waiting objects and what a cascade adds to it are one forest |
| Consistency.DropKeeps | src/gc/GC.h:109-155 | a drop with its cascade keeps the whole invariant |
| Consistency.DropSafe | src/gc/GC.h:109-155 | a drop leaves alone whatever the remaining references reach |
| Consistency.ZeroedUnreached | src/gc/GC.h:109-155 | nothing reached from a remaining reference runs out of counts |
| Consistency.AllocKeeps | src/heap/HeapAllocator.cpp:149-158 | handing out a dead cell keeps the whole invariant |
| Mutator.Allocate | src/heap/HeapAllocator.cpp:149-158 | a dead cell becomes a live object with count one, no flag, the given type flag and number of fields, all null, and one holder; no other cell changes |
| Mutator.Clone | src/CatLa.cpp:121-121 | one more held reference and one more count; flagged exactly if it was or the count of a cyclic type leaves one |
| Mutator.Drop | src/CatLa.cpp:134-136 | the reference is given up; everything the remaining references reach keeps state and fields |
| Mutator.Exchange | src/CatLa.cpp:159-166 | under the lock of the parent, slot `index` comes to hold the reference and the old content comes out; no other slot and no other cell changes |
| Mutator.SetMove | src/CatLa.cpp:155-171 | the caller's reference is in slot `index`, all other slots are as before, and the old content is dropped; outside of what that zeroes only counts change |
| Mutator.SetClone | src/CatLa.cpp:120-137 | slot `index` gets a reference of its own, all other slots are as before, the caller keeps his |
| Mutator.GetClone | src/CatLa.cpp:139-153 | the content is returned with a reference of its own, the slot is unchanged |
| Mutator.GetMove | src/CatLa.cpp:173-188 | the content of slot `index` is returned and the slot is null; no other slot and no other cell changes |
| TrialDeletion.WhiteSealed | src/gc/GC.cpp:75-166 | no thread holds a white object and only white objects point to it |
| TrialDeletion.WhiteIsLargest | src/gc/GC.cpp:75-166 | every sealed part of what the root reaches is white: nothing that could be freed from this root is missed |
| TrialDeletion.SealedUnreached | src/gc/GC.cpp:160-166 | nothing a thread can reach is in a sealed set |
| TrialDeletion.WaitingVerdict | src/gc/GC.cpp:171-207 | for a waiting candidate the non-cyclic branch releases its whole tree |
| TrialDeletion.WaitingCondemned | src/gc/GC.cpp:171-207 | one collection releases everything that waits |
| TrialDeletion.GarbageHasPredecessor | src/gc/GC.cpp:31-207 | unreachable live objects are referenced by unreachable live objects only, and by at least one |
| TrialDeletion.MinimalComponent | src/gc/GC.cpp:31-207 | the garbage has a strongly connected part that only its own members point to |
| TrialDeletion.CandidateAmong | src/gc/GC.h:46-54 | a part of cyclic types in which every member is pointed to contains a candidate |
| TrialDeletion.Progress | src/gc/GC.cpp:31-238 | if some live object is unreachable, a collection condemns at least one live object |
| Collector.PointedIsOnCycle | src/gc/GC.cpp:53-60 | some locked object points to the root exactly if the root reaches itself in one or more steps |
| Collector.LockPhase | src/gc/GC.cpp:39-72 | locks exactly what the root reaches, each once, and tells whether the root is on a cycle |
| Collector.UnlockAll | src/gc/GC.cpp:168-174 | frees exactly the listed locks |
| Collector.TallyKnown | src/gc/GC.cpp:86-93 | a subtraction for a gray object never goes below zero |
| Collector.TallyNew | src/gc/GC.cpp:94-100 | the first reference seen to an object finds a positive count |
| Collector.GrayPhase | src/gc/GC.cpp:75-111 | every reached object is gray and its entry is its count less the slots of the reached set that hold it |
| Collector.PaintFields | src/gc/GC.cpp:126-151 | the field loop of one white or black object: every push is a first whitening or a first blackening |
| Collector.WhiteBlackPhase | src/gc/GC.cpp:113-158 | terminates with black exactly what is reached from an object with an outside reference, white the rest, gray nothing; each object is pushed at most once on becoming white and once on becoming black, and only entries of black objects are raised |
| Collector.CollectWhite | src/gc/GC.cpp:160-166 | exactly the white objects are marked and added to the release set |
| Collector.CheckWaiting | src/gc/GC.cpp:176-201 | ready to release exactly if everything the root reaches waits, and then all of it is found |
| Collector.ProcessRoot | src/gc/GC.cpp:31-208 | one root adds exactly its verdict to the release set and leaves every lock free |
| Collector.CondemnedSealed | src/gc/GC.cpp:31-208 | no thread holds a condemned object and no live object outside points to one |
| Collector.ZeroedUnsupported | src/gc/GC.cpp:218-227 | a cascade started by the release loop cannot touch a set that supports itself |
| Collector.ReleaseFields | src/gc/GC.cpp:218-227 | dropping the live fields of one condemned object keeps the books of all others |
| Collector.ReleaseObjects | src/gc/GC.cpp:210-228 | all condemned objects leave the lists and give up their live fields |
| Collector.KillAll | src/gc/GC.cpp:230-232 | exactly the released objects become dead |
| Collector.Reinsert | src/gc/GC.cpp:234-238 | the remaining roots are listed again beside those registered meanwhile |
| Collector.ReleaseEnd | src/gc/GC.cpp:210-238 | after killing and re-insertion the whole invariant holds again |
| Collector.SurvivorsLive | src/gc/GC.cpp:210-238 | what stays live is exactly the largest part of the uncondemned live objects that lives on by itself |
| Collector.FelledDrop | src/gc/GC.cpp:218-227 | in the release loop, a zeroed object that does not wait was referenced by a condemned one or by another that does not wait |
| Collector.GcCollect | src/gc/GC.cpp:19-243 | keeps the whole invariant, makes dead exactly the condemned objects, and leaves live exactly the largest part of the other live objects that held references and its own fields support, with its fields; of what it zeroes, only what something dying referenced dies |
| Repeated.GarbageShrinks | src/gc/GC.cpp:19-243 | while there is garbage a collection leaves fewer live objects |
| Repeated.CleanStaysClean | src/gc/GC.cpp:171-232 | without garbage a collection clears all that waits and makes no garbage |
| Repeated.CollectRepeatedly | src/gc/GC.cpp:19-243 | collecting more often than there are live objects leaves only objects some thread can reach |
| ProtocolInvariant.InitInv | src/gc/GC.cpp:6-10 | the invariant holds before the first step |
| ProtocolInvariant.CountedClosed | src/gc/GC.cpp:49-63 | while roots are judged, counted objects point to counted objects only |
| ProtocolThreads.CloneKeeps | src/CatLa.cpp:121-121 | an increment by a holder, at any point of a trace or count, keeps the invariant |
| ProtocolThreads.FlagKeeps | src/gc/GC.h:49-51 | the swap of the flag keeps it, whoever wins |
| ProtocolThreads.AcquireListKeeps | src/gc/GC.h:35-35 | taking the list lock keeps it |
| ProtocolThreads.InsertKeeps | src/gc/GC.h:36-36 | the insertion keeps it |
| ProtocolThreads.LeaveListKeeps | src/gc/GC.h:37-37 | freeing the list lock keeps it |
| ProtocolThreads.WantKeeps | src/heap/HeapAllocator.h:25-29 | beginning to spin on a lock keeps it |
| ProtocolThreads.LockKeeps | src/heap/HeapAllocator.h:25-29 | taking a free object lock keeps it |
| ProtocolThreads.UnlockKeeps | src/heap/HeapAllocator.h:31-33 | freeing an object lock keeps it |
| ProtocolThreads.ReadKeeps | src/CatLa.cpp:142-143 | reading a field under the lock keeps it |
| ProtocolThreads.OutsideCount | src/gc/GC.cpp:77-100 | an object referenced from outside the traced set has a count above the references from inside |
| ProtocolThreads.CountReadKeeps | src/CatLa.cpp:144-146 | counting a field that was read, between two counts read by the collector, keeps the invariant |
| ProtocolThreads.PhaseUndisturbed | src/gc/GC.cpp:39-111 | what a change of memory must leave alone for the collector to go on |
| ProtocolWrites.WriteLost | src/gc/GC.cpp:39-63 | a write during the trace of a root that lost its references makes nothing lead back to it |
| ProtocolWrites.MutatorWriteKeeps | src/CatLa.cpp:126-129 | a field write under the lock keeps the invariant |
| ProtocolWrites.MutatorAllocateKeeps | src/heap/HeapAllocator.cpp:149-158 | an allocation, taken as one step, keeps it, even of a cell that a lost trace has found |
| ProtocolDrops.BackedSurvive | src/gc/GC.h:109-155 | objects referenced from within a set, apart from one, do not run out before that one |
| ProtocolDrops.FallRoot | src/gc/GC.cpp:39-63 | when the traced root dies in a drop, nothing still to be found leads back to it, so it is not taken for cyclic |
| ProtocolDrops.FallCounting | src/gc/GC.cpp:75-111 | a drop between two counts read by the collector zeroes nothing traced and lowers no count that had only inner references |
| ProtocolDrops.MutatorDropKeeps | src/CatLa.cpp:134-136 | a drop with its cascade keeps the invariant |
| ProtocolCollector.StartKeeps | src/gc/GC.cpp:23-27 | moving the list aside keeps the invariant |
| ProtocolCollector.RootLost | src/gc/GC.cpp:31-40 | nothing leads back to a candidate without references |
| ProtocolCollector.RootKeeps | src/gc/GC.cpp:31-40 | taking up a root keeps the invariant |
| ProtocolCollector.TraceLockKeeps | src/gc/GC.cpp:43-44 | locking a found object keeps it |
| ProtocolCollector.TraceFieldKeeps | src/gc/GC.cpp:49-63 | looking at one field keeps it, and the root counts as cyclic exactly if a passed field held it |
| ProtocolCollector.TraceDoneKeeps | src/gc/GC.cpp:65-71 | finishing an object keeps it |
| ProtocolCollector.TracedCounting | src/gc/GC.cpp:66-75 | a root found cyclic has references, and the locked set is exactly what it reaches, each member referenced from it |
| ProtocolCollector.TraceEndKeeps | src/gc/GC.cpp:66-75 | the end of the trace keeps the invariant |
| ProtocolCollector.InnerCount | src/gc/GC.cpp:77-100 | no count is below the references from the traced set |
| ProtocolCollector.ReadCountKeeps | src/gc/GC.cpp:77-100 | reading one count keeps the invariant |
| ProtocolCollector.WhiteSealed | src/gc/GC.cpp:113-166 | although counts were read one at a time while mutators ran, no thread holds a white object and only white objects point to it |
| ProtocolCollector.PaintIsTrialDeletion | src/gc/GC.cpp:75-158 | with counts read under interference, the painted set is the white set of trial deletion on memory with those counts, from which the gray phase may start |
| ProtocolCollector.PaintKeeps | src/gc/GC.cpp:113-158 | painting, taken as one step on frozen fields and the counts that were read, keeps the invariant and seals the white set off |
| ProtocolCollector.MarkKeeps | src/gc/GC.cpp:161-166 | marking one white object keeps it |
| ProtocolCollector.MarkedKeeps | src/gc/GC.cpp:161-168 | the end of marking keeps it |
| ProtocolCollector.CollectorUnlockKeeps | src/gc/GC.cpp:168-174 | freeing one lock keeps it |
| ProtocolCollector.UnlockedKeeps | src/gc/GC.cpp:168-178 | all locks freed, the walk or the next root begins |
| ProtocolCollector.WalkKeeps | src/gc/GC.cpp:180-199 | visiting one object without its lock keeps it |
| ProtocolCollector.WalkedTree | src/gc/GC.cpp:180-207 | what a walk has seen is condemned already or waits without references |
| ProtocolCollector.WalkedOwner | src/gc/GC.cpp:180-207 | only walked objects point into a walked tree, so it is released whole |
| ProtocolCollector.WalkEndKeeps | src/gc/GC.cpp:201-205 | condemning a walked tree keeps the invariant, and the other trees stay trees |
| ProtocolRelease.RootsDoneKeeps | src/gc/GC.cpp:208-211 | the end of judging keeps the invariant |
| ProtocolRelease.ReleaseTakeKeeps | src/gc/GC.cpp:211-216 | a condemned object leaves the lists, under the list lock if it is flagged |
| ProtocolRelease.ReleaseFieldKeeps | src/gc/GC.cpp:220-227 | dropping or skipping one field of it keeps the invariant |
| ProtocolRelease.ReleasePutKeeps | src/gc/GC.cpp:218-228 | finishing its fields keeps it |
| ProtocolRelease.ReleaseDoneKeeps | src/gc/GC.cpp:228-230 | the end of the release loop keeps it |
| ProtocolRelease.KillKeeps | src/gc/GC.cpp:230-232 | setting one condemned object to dead keeps it: nothing holds it |
| ProtocolRelease.KilledKeeps | src/gc/GC.cpp:230-234 | the end of killing keeps it |
| ProtocolRelease.ReinsertKeeps | src/gc/GC.cpp:234-238 | re-inserting one root keeps it |
| ProtocolRelease.EndKeeps | src/gc/GC.cpp:240-243 | the end of the collection keeps it |
| ProtocolSafety.RunInv | src/gc/GC.cpp:19-243 | the invariant holds in every state of every run |
| ProtocolSafety.CondemnedStays | src/gc/GC.cpp:160-232 | once condemned, an object stays condemned until it is dead |
| ProtocolSafety.RunSafe | src/gc/GC.cpp:39-170 | an object painted white is held, locked, read or wanted by no thread and pointed to by condemned objects only, then and in every later state until it is dead |
| ProtocolSafety.RunCounts | src/gc/GC.h:46-155 | every count is the number of references in every state, and nothing holds or points to a dead object |
| ProtocolSafety.RunDropReady | src/gc/GC.h:109-112 | whatever a thread holds has a positive count and may be dropped |
| ProtocolSafety.RunCandidates | src/gc/GC.h:34-54 | with no insertion in flight, an object that is not dead and not in the release loop is listed exactly if it is flagged, and a listed object is never dead, so its cell is not recycled |
| ProtocolSafety.WaitsDown | src/gc/GC.cpp:43-44 | whoever waits for a lock waits for somebody of lower rank |
| ProtocolSafety.RunNoCircle | src/gc/GC.cpp:39-72 | threads and collector never wait for each other in a circle, and no chain of waiting is longer than three |
| ProtocolSafety.RunUnstuck | src/gc/GC.cpp:39-174 | whenever somebody waits, some owner of a lock waits for nobody and can take a step |
| ProtocolCycles.WriteWatched | src/CatLa.cpp:126-128 | a concurrent write closes no cycle of objects that nobody has noticed |
| ProtocolCycles.AllocateWatched | src/heap/HeapAllocator.cpp:149-158 | nor does handing out a cell that stale fields of condemned objects still hold |
| ProtocolCycles.RunCycles | src/gc/GC.h:46-54 | in every state of every run, a cycle of objects of cyclic types that are not dead contains one that is flagged or about to be flagged |
| ProtocolRest.RunConsistent | src/gc/GC.cpp:19-243 | in every run, whenever the collector rests and no registration is under way, memory, list and hands satisfy the invariant of the sequential operations |
| ProtocolRest.NewIsQuiet | src/gc/GC.cpp:6-10 | zeroed memory, an empty list and empty hands satisfy that invariant |
| ProtocolRest.NewMachine | src/gc/GC.cpp:6-10 | a new heap and a new collector satisfy it |
| ProtocolRest.RunProgress | src/gc/GC.cpp:31-238 | garbage that running threads have left makes a collection condemn a live object |
| ProtocolRest.CollectAfterRun | src/gc/GC.cpp:19-243 | whatever the threads did, once they pause between operations, collecting more often than there are live objects leaves only what some thread can reach |
| ProtocolVerdicts.RunTraceExact | src/gc/GC.cpp:39-75 | in every run, when a trace ends the collector counts exactly if the root is on a cycle, and then exactly what the root reaches is locked; otherwise it walks from the root |
| ProtocolVerdicts.RunPaintExact | src/gc/GC.cpp:113-158 | in every run, what is painted white is the white set of trial deletion on memory with the counts that were read |
| ProtocolVerdicts.RunWalkExact | src/gc/GC.cpp:176-207 | in every run, a walk that ends condemns exactly what its root reaches, all of which waits |
| ProtocolVerdicts.RunWalkGivesUp | src/gc/GC.cpp:180-183 | a walk is given up only if something its root reaches does not wait |
| ProtocolVerdicts.RunAllJudged | src/gc/GC.cpp:23-40 | in every run, a collection that has judged its roots has traced every object that was listed when it began |
| ProtocolOperations.ExchangeRun | src/CatLa.cpp:155-188 | lock, write and unlock steps put the reference into the slot and the old content into the thread's hands, and change nothing else |
| ProtocolOperations.CloneRun | src/gc/GC.h:46-54 | the steps of an increment add one count and flag and list the object exactly if the count of a cyclic type left one and the flag was clear |
| ProtocolOperations.GetCloneRun | src/CatLa.cpp:139-153 | lock, read, count, register and unlock steps give the thread a reference to the content of the field and leave the field as it is |
| ProtocolOperations.AllocateRun | src/heap/HeapAllocator.cpp:149-158 | an allocation step makes a live object with count one and the given number of null fields |
| SizeClasses.ClassSteps | src/heap/HeapAllocator.cpp:88-93 | stepping to the next block keeps the block size equal to the class of the index |
| SizeClasses.ClassFits | src/heap/HeapAllocator.cpp:214-239 | the chosen class holds the request, has the computed size, and is the smallest that does unless the request is 96 bytes |
| SizeClasses.WhenRefused | src/heap/HeapAllocator.cpp:210-242 | exactly which field counts are refused, wrap-around included |
| SizeClasses.BlocksSum | src/heap/HeapAllocator.cpp:7-22 | the thirteen classes add up to the declared 1856 bytes per cell |
| SizeClasses.CellsDisjoint | src/heap/HeapAllocator.cpp:26-43 | cells do not overlap and lie below the table of block infos |
| Allocator.HeapChunk.constructor | src/heap/HeapAllocator.cpp:26-65 | blocks start where the layout says, all are open, all memory is dead |
| Allocator.HeapChunk.FindDead | src/heap/HeapAllocator.cpp:103-161 | tries every cell of the block, from the current location on and around, and finds the first dead one |
| Allocator.HeapChunk.Malloc | src/heap/HeapAllocator.cpp:80-179 | returns the first dead cell, on the way round from the current location, of the first usable block from the class on, with exactly the new header; the location moves past it, exactly the blocks passed over are flagged; returns null exactly if no block is usable, and then flags exactly the blocks tried |
| Allocator.HeapChunk.Kill | src/gc/GC.h:148-148 | a death keeps all objects fitting |
| Allocator.NoOverlap | src/heap/HeapAllocator.cpp:26-179 | objects that fit their cells do not overlap and lie below the table of block infos |
| Allocator.FreshFits | src/heap/HeapAllocator.cpp:144-158 | a new object fits exactly if it is no larger than its cell |
| Allocator.HeapAllocator.constructor | src/heap/HeapAllocator.cpp:182-200 | the given number of fresh chunks |
| Allocator.HeapAllocator.CreateNewChunk | src/heap/HeapAllocator.cpp:297-318 | one more chunk with every block usable, the others as before |
| Allocator.HeapAllocator.Round | src/heap/HeapAllocator.cpp:260-291 | a round visits the chunks in turn from the start index and around, takes the first with a usable block, and fails exactly if none has one; it states flags, locations and headers of every chunk afterwards |
| Allocator.HeapAllocator.Malloc | src/heap/HeapAllocator.cpp:209-293 | terminates, returns null exactly if the computed size exceeds 512, otherwise a previously dead cell of the first chunk with a usable block; grows by one chunk exactly if there is none, and then uses that chunk; it states flags, locations and headers of every chunk afterwards |
| Allocator.StaysOpen | src/heap/HeapAllocator.cpp:144-163 | an allocation never flags a block that could be used |
| Allocator.RotatedIs | src/heap/HeapAllocator.cpp:111-116 | the search goes round: step i from the current location is cell (location + i) modulo the number of cells |
| Allocator.FoundPlaces | src/heap/HeapAllocator.cpp:144-158 | an allocation places one fresh object in a dead cell of the class asked for or a larger one and leaves all other headers alone |
| Allocator.PlacedFits | src/heap/HeapAllocator.cpp:209-293 | after an allocation all objects fit exactly if the new one has at most 59 fields |
| Allocator.NeverOverlap | src/heap/HeapAllocator.cpp:80-293 | over every history of allocations and deaths, objects that are not dead do not overlap and lie below the table of block infos |
| RWLock.StepAdmits | src/util/Concurrent.h:39-71 | every step, stale reads and failing swaps included, is a step of a lock that admits by sets of readers and writers, for any number of threads |
| RWLock.RunExclusive | src/util/Concurrent.h:31-72 | in every run of any number of threads at most one writer is in, and no reader together with a writer |
| RWLock.ExactlyWhen | src/util/Concurrent.h:31-72 | the word is one plus readers minus writers in every state of every run of n threads exactly if n + 1 is below 2^64; otherwise a run of readers entering one after the other takes it to zero with readers in |
| RWLock.WriterRun | src/util/Concurrent.h:56-71 | for any number of threads and any of them there is a run in which it writes and leaves again, after which the word is as before |
| Loader.PathInside | src/vm/CatVM.cpp:112-137 | a path of imports from a member of a closed set stays in it |
| Loader.CatVM.LoadImports | src/vm/CatVM.cpp:102-137 | terminates on cyclic imports, loads exactly the modules reached from the name through modules not loaded before, fails exactly if one of them is missing, and leaves the loaded modules closed under imports |
| Types.ChainNoRepeat | src/vm/CatVM.cpp:181-192 | a chain of parents that ends visits no type twice |
| Types.CollectParents | src/vm/CatVM.cpp:180-192 | the chain of parents, failing exactly if it runs in a circle |
| Types.AppendFields | src/vm/CatVM.cpp:197-203 | appends all fields, failing exactly if a name would occur twice |
| Types.FlattenFields | src/vm/CatVM.cpp:176-204 | the fields of all ancestors, topmost first, failing exactly if the parents run in a circle or a name occurs twice |
| Types.LayoutAt | src/vm/CatVM.cpp:194-204 | field j that a type of the chain adds stands at the number of all fields added above it, plus j |
| Types.ReferenceBits | src/vm/CatVM.cpp:206-213 | the flag of every field says whether its type is not primitive |
| Types.TypeTable.LayOut | src/vm/CatVM.cpp:174-215 | succeeds exactly if no listed type has a circle of parents or a repeated name, and then every listed type has its layout, distinct names and agreeing flags |
| Types.FinishedNotRefused | src/vm/CatVM.cpp:186-200 | a type that was laid out had neither a circle of parents nor a repeated name |
| Types.AncestorPrefix | src/vm/CatVM.cpp:194-204 | the layout of an ancestor is a prefix of the layout of every descendant |
| Types.SetObjectFieldOwnership.Link | src/vm/modules/orders/SetFieldValue.cpp:38-57 | the index becomes that of the first field of the name, and stays as it is if there is none |
| Types.LinkedIndexValid | src/vm/modules/orders/SetFieldValue.cpp:38-57 | an index linked against a static type names the one field of that name in every subtype, with the same type and flag |
| BitSet.CreateBitset | src/vm/modules/util/BitSet.h:6-8 | all flags are clear |
| BitSet.SetFlag | src/vm/modules/util/BitSet.h:16-19 | the flag is set if the value is true, no flag is ever cleared, no other flag changes |
| BitSet.MaskValues | src/vm/modules/util/BitSet.h:12-18 | position k of a byte is the bit of value two to the k |

## Left out

- Borrowing: the field value 1 and the order that sets it; fields are null or an object.
- Memory orders and fences of C++, and interleavings inside a drop cascade; see the assumptions.
- Wrap-around of reference counts: counts are unbounded, and are proved never to be decremented below zero.
- The warnings that `decrement_reference_count`, `gc_collect` and `link` print.
- Spinning: an object lock or list lock is taken in one step when it is free.
- Allocation by several threads at once through one shared allocator (the compare-and-swap of a cell state and the lock around the chunk table).
- The chunk destructor, `calloc` and `free`, and the table of chunks that the virtual machine keeps; addresses are integers within a chunk.
- ProtocolWrites.MutatorAllocateKeeps: the stores of one allocation are not interleaved with other steps; see the assumptions.
- ProtocolCollector.PaintKeeps: the loops that subtract and paint are one step of the protocol; what they compute is in `Collector` and in `ProtocolCollector.PaintIsTrialDeletion`.
- The contents of memory beyond object headers, apart from the fields that the collector follows.
- The parser of module texts, which stands for a function from names to modules.
- What `load_module` leaves behind when it fails part-way, and its passes over functions, return types and used types.
- `SetObjectFieldOwnership::eval` and the other orders, and the interpreter loop.
- Driver, benchmarks, stack probe and printing.
