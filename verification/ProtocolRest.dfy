/** At rest the protocol leaves what the sequential operations ask for, and conversely every claim
    about them holds for the memory that running threads have left behind. */
module ProtocolRest {
  import opened Memory
  import opened RefCount
  import opened Consistency
  import opened Mutator
  import opened Protocol
  import opened ProtocolInvariant
  import opened ProtocolWrites
  import opened ProtocolSafety
  import opened ProtocolCycles
  import TrialDeletion
  import Repeated

  /** The collector rests and no thread is about to register an object. */
  ghost predicate Quiet(s: Sys) {
    s.phase == Resting && forall t :: 0 <= t < |s.threads| ==> s.threads[t].registration == NoRegistration
  }

  lemma RestBooks(s: Sys)
    requires Inv(s) && s.phase == Resting
    ensures Accounts(s.h, LiveSet(s.h), {}, Total(s.threads)) && Forest(s.h, WaitingSet(s.h))
  {
    hide Slots, Forest, Accounts, ThreadsOk, LocksOk, ListsOk;
    RestStates(s);
    assert Total(s.threads) + Pending(s.h, s.phase) == Total(s.threads);
  }

  lemma RestStates(s: Sys)
    requires Inv(s) && s.phase == Resting
    ensures s.release == {} && Condemning(s.release, s.phase) == {}
    ensures Counted(s.h, s.release, s.phase) == LiveSet(s.h) && TreeSet(s.h, s.release) == WaitingSet(s.h)
    ensures forall x :: IsRef(s.h, x) && s.h[x].state != Dead ==> s.h[x].state == Live || s.h[x].state == WaitingForGc
    ensures forall x :: IsRef(s.h, x) ==> (s.h[x].state == Live ==> s.h[x].count > 0)
  {
    hide Slots, Forest, ThreadsOk, LocksOk, ListsOk;
    assert forall x :: x in Counted(s.h, s.release, s.phase) <==> x in LiveSet(s.h);
    assert forall x :: x in TreeSet(s.h, s.release) <==> x in WaitingSet(s.h);
  }

  lemma QuietLists(s: Sys)
    requires Inv(s) && Quiet(s)
    ensures s.suspected == CandidateSet(s.h)
    ensures forall x :: IsRef(s.h, x) && s.h[x].state != Dead && s.h[x].asyncRelease ==> s.h[x].isCyclicType
  {
    hide Books, States, ThreadsOk, LocksOk;
    assert forall x :: !InFlight(s.threads, x);
    assert forall x :: x in s.suspected <==> x in CandidateSet(s.h);
  }

  lemma QuietCycles(s: Sys)
    requires Watched(s.h, s.threads) && Quiet(s)
    ensures forall x :: IsRef(s.h, x) && s.h[x].state != Dead && s.h[x].count >= 2 && s.h[x].isCyclicType ==>
          s.h[x].asyncRelease
    ensures Acyclic(s.h, PlainSet(s.h))
  {
    hide Acyclic;
    assert forall x :: !Noticed(s.threads, x);
    forall x | IsRef(s.h, x) && s.h[x].state != Dead && s.h[x].isCyclicType && !s.h[x].asyncRelease
      ensures x in Unnoticed(s.h, s.threads) {}
    AcyclicShrink(s.h, s.h, Unnoticed(s.h, s.threads), PlainSet(s.h));
  }

  lemma HandsAreRefs(s: Sys)
    requires Inv(s)
    ensures forall x :: x in Total(s.threads) ==> IsRef(s.h, x)
  {
    hide Books, States, LocksOk, ListsOk, PhaseOk, ThreadsOk;
    forall x | x in Total(s.threads) ensures IsRef(s.h, x) {
      TotalRefs(s.h, s.locks, s.listLock, s.threads, x);
    }
  }

  /** In every run, whenever the collector rests and no registration is under way, memory, list and
      hands satisfy the invariant of the sequential operations. */
  lemma RunConsistent(run: seq<Sys>, k: nat)
    requires IsRun(run) && k < |run| && Quiet(run[k])
    ensures Consistent(run[k].h, run[k].suspected, Total(run[k].threads))
  {
    hide IsRun, Inv, Accounts, Forest, Acyclic, Watched, Quiet, CandidateSet, PlainSet, Unnoticed;
    var s := run[k];
    RunInv(run, k);
    RunWatched(run, k);
    assert s.phase == Resting by { QuietRests(s); }
    RestBooks(s);
    RestStates(s);
    QuietLists(s);
    QuietCycles(s);
    HandsAreRefs(s);
  }

  lemma QuietRests(s: Sys)
    requires Quiet(s)
    ensures s.phase == Resting
  {
  }

  // --------------------------------------------------- the empty machine

  /** A run that has not begun: nothing is allocated, nobody holds anything. */
  lemma NewIsQuiet(h: seq<Object>)
    requires forall x :: IsRef(h, x) ==> h[x] == Object(0, Dead, false, false, [])
    ensures Consistent(h, {}, multiset{})
  {
    hide Consistent;
    var s := Sys(h, seq(|h|, _ => Free), Free, {}, [], {}, {}, {}, Resting);
    assert Init(s) && IsRun([s]) && Quiet([s][0]);
    RunConsistent([s], 0);
  }

  /** The invariant of the sequential operations holds to begin with (src/gc/GC.cpp:6-10). */
  method NewMachine(cells: nat) returns (heap: Heap, collector: CycleCollector)
    ensures fresh(heap) && fresh(collector)
    ensures Valid(heap, collector) && heap.locked == {} && |heap.objs| == cells && heap.held == multiset{}
  {
    hide Consistent;
    heap := new Heap(cells);
    collector := new CycleCollector();
    NewIsQuiet(heap.objs);
  }

  // ------------------------------------------------- after threads have run

  /** The collector rests and every thread is between operations. */
  ghost predicate AtRest(s: Sys) {
    s.phase == Resting && forall t :: 0 <= t < |s.threads| ==> s.threads[t].Idle()
  }

  /** The state of the sequential operations is that of the protocol. */
  ghost predicate Mirrors(heap: Heap, collector: CycleCollector, s: Sys)
    reads heap, collector
  {
    && heap.objs == s.h && collector.suspected == s.suspected && heap.held == Total(s.threads)
    && heap.locked == set p | 0 <= p < |s.locks| && s.locks[p] != Free
  }

  lemma AtRestUnlocked(s: Sys)
    requires Inv(s) && AtRest(s)
    ensures Quiet(s) && forall p :: 0 <= p < |s.locks| ==> s.locks[p] == Free
  {
    hide Books, States, ThreadsOk, ListsOk, PhaseOk;
  }

  /** Garbage in a state that running threads have left is found: if the cycles of live objects are made
      of cyclic types, some live object is condemned. */
  lemma RunProgress(run: seq<Sys>, k: nat)
    requires IsRun(run) && k < |run| && Quiet(run[k]) && Repeated.CyclesTyped(run[k].h)
    requires TrialDeletion.Garbage(run[k].h, Total(run[k].threads)) != {}
    ensures TrialDeletion.Condemned(run[k].h, run[k].suspected) * LiveSet(run[k].h) != {}
  {
    hide Consistent, IsRun, Quiet, TrialDeletion.OnCycle, TrialDeletion.Garbage;
    RunConsistent(run, k);
    TrialDeletion.Progress(run[k].h, run[k].suspected, Total(run[k].threads));
  }

  /** Whatever the threads have done, once they pause between operations, collecting again and again
      leaves only objects that some thread can reach. */
  method CollectAfterRun(heap: Heap, collector: CycleCollector, times: nat, ghost run: seq<Sys>, ghost k: nat)
    requires IsRun(run) && k < |run| && AtRest(run[k]) && Mirrors(heap, collector, run[k])
    requires Repeated.CyclesTyped(heap.objs)
    modifies heap`objs, heap`locked, collector
    ensures Valid(heap, collector) && heap.locked == {}
    ensures times > |LiveSet(old(heap.objs))| ==>
              forall x :: IsRef(heap.objs, x) && heap.objs[x].state != Dead ==>
                    x in Reach(heap.objs, HeldSet(heap.held))
  {
    hide Consistent, IsRun, Inv, Reach, LiveSet, Quiet, AtRest, Repeated.CyclesTyped;
    RunInv(run, k);
    AtRestUnlocked(run[k]);
    RunConsistent(run, k);
    assert forall p :: p !in heap.locked;
    assert heap.locked == {};
    Repeated.CollectRepeatedly(heap, collector, times);
  }
}
