/** Writing fields and allocating objects keep the invariant of the protocol. */
module ProtocolWrites {
  import opened Memory
  import opened RefCount
  import opened Consistency
  import opened Protocol
  import opened ProtocolInvariant
  import opened ProtocolThreads

  // --------------------------------------------------------------- writes

  /** A thread writes `x`, which it holds, into slot `i` of the locked `p`. */
  ghost predicate Writable(h: seq<Object>, release: set<Ref>, phase: Phase, held: multiset<Ref>, p: Ref,
                           i: nat, x: Ref) {
    && IsRef(h, p) && p in Counted(h, release, phase) && p !in Condemning(release, phase) && h[p].state == Live
    && i < |h[p].fields|
    && (x == NULL || (x in Counted(h, release, phase) && x !in Condemning(release, phase) && held[x] > 0))
  }

  ghost function HeldAfter(h: seq<Object>, held: multiset<Ref>, p: Ref, i: nat, x: Ref): multiset<Ref>
    requires IsRef(h, p) && i < |h[p].fields|
  {
    held - multiset{x} + Reference(h[p].fields[i])
  }

  lemma WriteBooks(h: seq<Object>, release: set<Ref>, phase: Phase, held: multiset<Ref>, p: Ref, i: nat, x: Ref)
    requires Books(h, release, phase, held) && States(h, release, phase) && PhaseCurrent(h, release, phase)
    requires Writable(h, release, phase, held, p, i, x)
    ensures Books(Written(h, p, i, x), release, phase, HeldAfter(h, held, p, i, x))
  {
    hide Slots, Accounts, States, WellFormed, Balanced, Counted, Condemning, Pending, HeldAfter, Written;
    WriteShape(h, release, phase, held, p, i, x);
    WriteLoose(h, Counted(h, release, phase), Condemning(release, phase), held, Pending(h, phase), p, i, x);
    WriteUncondemned(h, release, phase, held, p, i, x);
    if Judging(phase) { WriteBalance(h, Counted(h, release, phase), Condemning(release, phase), held, p, i, x); }
  }

  lemma WriteLoose(h: seq<Object>, C: set<Ref>, X: set<Ref>, held: multiset<Ref>, pending: multiset<Ref>, p: Ref,
                   i: nat, x: Ref)
    requires Accounts(h, C, X, held + pending) && p in C && p !in X && IsRef(h, p) && i < |h[p].fields|
    requires x == NULL || (IsRef(h, x) && x !in X && held[x] > 0)
    ensures Accounts(Written(h, p, i, x), C, X, HeldAfter(h, held, p, i, x) + pending)
  {
    hide Slots, Accounts, Written;
    WriteAccounts(h, C, X, held + pending, p, i, x);
    AccountsNull(Written(h, p, i, x), C, X, held + pending - multiset{x} + multiset{h[p].fields[i]},
                 HeldAfter(h, held, p, i, x) + pending);
  }

  lemma WriteUncondemned(h: seq<Object>, release: set<Ref>, phase: Phase, held: multiset<Ref>, p: Ref, i: nat, x: Ref)
    requires Books(h, release, phase, held) && Writable(h, release, phase, held, p, i, x)
    ensures forall y :: y in Condemning(release, phase) ==> HeldAfter(h, held, p, i, x)[y] == 0
  {
    hide Slots, Accounts, WellFormed, Balanced, Counted, Condemning, Pending;
    if h[p].fields[i] != NULL {
      BooksWellFormed(h, release, phase, held);
      SlotRef(h, p, i);
      FieldFacts(h, release, phase, held, p, h[p].fields[i]);
    }
  }

  lemma WriteShape(h: seq<Object>, release: set<Ref>, phase: Phase, held: multiset<Ref>, p: Ref, i: nat, x: Ref)
    requires PhaseCurrent(h, release, phase) && Writable(h, release, phase, held, p, i, x)
    ensures var h' := Written(h, p, i, x);
            Counted(h', release, phase) == Counted(h, release, phase) && Pending(h', phase) == Pending(h, phase)
    ensures IsRef(h, p) && (x == NULL || IsRef(h, x))
  {
  }

  lemma WriteBalance(h: seq<Object>, C: set<Ref>, X: set<Ref>, held: multiset<Ref>, p: Ref, i: nat, x: Ref)
    requires Balanced(h, C, X, held) && p in C && IsRef(h, p) && i < |h[p].fields| && (x == NULL || held[x] > 0)
    ensures Balanced(Written(h, p, i, x), C, X, HeldAfter(h, held, p, i, x))
  {
    hide Slots;
    forall y | y in X && IsRef(h, y)
      ensures Slots(Written(h, p, i, x), C, y) + HeldAfter(h, held, p, i, x)[y] == Slots(h, C, y) + held[y]
    {
      WriteSlots(h, C, p, i, x, held, y);
    }
  }

  /** The object in the hands of the release loop is condemned. */
  ghost predicate PhaseCurrent(h: seq<Object>, release: set<Ref>, phase: Phase) {
    phase.Releasing? && phase.current != NULL ==> phase.current in release
  }

  lemma PhaseCurrentOk(h: seq<Object>, roots: set<Ref>, release: set<Ref>, phase: Phase)
    requires PhaseOk(h, roots, release, phase)
    ensures PhaseCurrent(h, release, phase)
  {
    hide Slots, TracingOk, CountingOk, WalkingOk;
  }

  lemma SlotRef(h: seq<Object>, p: Ref, i: nat)
    requires WellFormed(h) && IsRef(h, p) && i < |h[p].fields| && h[p].fields[i] != NULL
    ensures IsRef(h, h[p].fields[i]) && Points(h, p, h[p].fields[i])
  {
  }

  lemma WriteStates(h: seq<Object>, release: set<Ref>, phase: Phase, held: multiset<Ref>, p: Ref, i: nat, x: Ref)
    requires Books(h, release, phase, held) && States(h, release, phase) && Writable(h, release, phase, held, p, i, x)
    ensures States(Written(h, p, i, x), release, phase)
  {
    hide Slots, Forest;
    var h' := Written(h, p, i, x);
    assert TreeSet(h', release) == TreeSet(h, release);
    ForestFrame(h, h', TreeSet(h, release));
  }

  lemma WritePhase(h: seq<Object>, roots: set<Ref>, release: set<Ref>, phase: Phase, held: multiset<Ref>, p: Ref,
                   i: nat, x: Ref)
    requires Books(h, release, phase, held) && States(h, release, phase) && PhaseOk(h, roots, release, phase)
    requires forall r :: r in roots ==> IsRef(h, r) && h[r].state != Dead
    requires Writable(h, release, phase, held, p, i, x) && p !in CollectorLocks(phase)
    ensures PhaseOk(Written(h, p, i, x), roots, release, phase)
  {
    hide Slots, Books, TracingLost, Backed, Closed, States;
    var h' := Written(h, p, i, x);
    assert Counted(h', release, phase) == Counted(h, release, phase);
    if phase.Tracing? {
      if h[phase.root].count > 0 {
        FoundCounted(h, Counted(h, release, phase), roots, phase);
      } else {
        WriteLost(h, release, phase, held, p, i, x);
      }
    }
    assert Undisturbed(h, h', release, phase);
    PhaseUndisturbed(h, h', roots, release, phase);
  }

  /** What is counted never leads to an object without references. */
  lemma CountedNeverBack(h: seq<Object>, release: set<Ref>, phase: Phase, held: multiset<Ref>, r: Ref)
    requires Books(h, release, phase, held) && States(h, release, phase) && Judging(phase)
    requires IsRef(h, r) && h[r].state != Dead && h[r].count == 0
    ensures NeverBack(h, Counted(h, release, phase), r)
  {
    hide Slots, Forest;
    CountedClosed(h, release, phase, held);
    SlotsZero(h, Counted(h, release, phase), r);
  }

  lemma WriteLost(h: seq<Object>, release: set<Ref>, phase: Phase, held: multiset<Ref>, p: Ref, i: nat, x: Ref)
    requires Books(h, release, phase, held) && States(h, release, phase) && Writable(h, release, phase, held, p, i, x)
    requires phase.Tracing? && TracingLost(h, phase) && IsRef(h, phase.root) && h[phase.root].state != Dead
    requires h[phase.root].count == 0
    ensures TracingLost(Written(h, p, i, x), phase)
  {
    hide Books, States;
    var h', r, C := Written(h, p, i, x), phase.root, Counted(h, release, phase);
    CountedNeverBack(h, release, phase, held, r);
    var V :| Elems(phase.found) <= V && NeverBack(h, V, r);
    assert x != r;
    forall o, y | o in V + C && Points(h', o, y) ensures y in V + C && y != r {
      assert Points(h, o, y) || (o == p && y == x);
    }
    assert NeverBack(h', V + C, r);
  }

  lemma RootsAlive(h: seq<Object>, suspected: set<Ref>, roots: set<Ref>, unprocessed: set<Ref>, release: set<Ref>,
                   phase: Phase, threads: seq<Thread>)
    requires ListsOk(h, suspected, roots, unprocessed, release, phase, threads)
    ensures forall r :: r in roots ==> IsRef(h, r) && h[r].state != Dead && h[r].Candidate()
  {
  }

  lemma WriteOthers(s: Sys, t: nat, p: Ref)
    requires ThreadsOk(s.h, s.locks, s.listLock, s.threads) && t < |s.threads| && s.threads[t].lock == p && p != NULL
    ensures forall u :: 0 <= u < |s.threads| && u != t ==> s.threads[u].lock != p
  {
    assert ThreadOk(s.h, s.locks, s.listLock, t, s.threads[t]);
    forall u | 0 <= u < |s.threads| && u != t ensures s.threads[u].lock != p {
      assert ThreadOk(s.h, s.locks, s.listLock, u, s.threads[u]);
    }
  }

  lemma WriteThread(s: Sys, s': Sys, t: nat, i: nat, x: Ref)
    requires Inv(s) && WriteStep(s, s', t, i, x)
    ensures ThreadsOk(s'.h, s'.locks, s'.listLock, s'.threads)
  {
    hide Books, States, LocksOk, PhaseOk, ListsOk, ThreadsOk, WellFormed;
    ThreadFacts(s, t);
    var p := s.threads[t].lock;
    WriteOthers(s, t, p);
    BooksWellFormed(s.h, s.release, s.phase, Total(s.threads));
    if s.h[p].fields[i] != NULL { SlotRef(s.h, p, i); }
    assert ThreadOk(s'.h, s'.locks, s'.listLock, t, s'.threads[t]);
    OthersFrame(s, s', t);
  }

  lemma WriteLists(s: Sys, s': Sys, t: nat, i: nat, x: Ref)
    requires Inv(s) && WriteStep(s, s', t, i, x)
    ensures LocksOk(|s'.h|, s'.locks, s'.listLock, s'.threads, s'.phase)
    ensures ListsOk(s'.h, s'.suspected, s'.roots, s'.unprocessed, s'.release, s'.phase, s'.threads)
  {
    hide Books, States, LocksOk, PhaseOk, ListsOk, ThreadsOk;
    LocksFrame(|s.h|, s.locks, s.listLock, s.threads, s.phase, t, s'.threads[t]);
    ListsHeap(s.h, s'.h, s.suspected, s.roots, s.unprocessed, s.release, s.phase, s.threads);
    ListsFrame(s'.h, s.suspected, s.roots, s.unprocessed, s.release, s.phase, s.threads, t, s'.threads[t]);
  }

  lemma WriteHands(s: Sys, s': Sys, t: nat, i: nat, x: Ref)
    requires Inv(s) && WriteStep(s, s', t, i, x)
    ensures Total(s'.threads) == HeldAfter(s.h, Total(s.threads), s.threads[t].lock, i, x)
  {
    hide Books, States, LocksOk, PhaseOk, ListsOk, ThreadsOk, Total, Reference;
    TotalUpdate(s.threads, t, s'.threads[t]);
    if x == NULL { TotalRefs(s.h, s.locks, s.listLock, s.threads, x); }
    WriteTotal(Total(s.threads), s.threads[t].held, x, Reference(s.h[s.threads[t].lock].fields[i]));
  }

  lemma MutatorWriteKeeps(s: Sys, s': Sys, t: nat, i: nat, x: Ref)
    requires Inv(s) && WriteStep(s, s', t, i, x)
    ensures Inv(s')
  {
    hide Books, States, LocksOk, PhaseOk, ListsOk, ThreadsOk, WellFormed, Condemning, Counted, Total, HeldAfter;
    ThreadFacts(s, t);
    WriteThread(s, s', t, i, x);
    WriteLists(s, s', t, i, x);
    WriteHands(s, s', t, i, x);
    var p := s.threads[t].lock;
    ThreadHolds(s, t, p);
    if x != NULL { ThreadHolds(s, t, x); }
    MutatorLock(|s.h|, s.locks, s.listLock, s.threads, s.phase, p, t);
    PhaseCurrentOk(s.h, s.roots, s.release, s.phase);
    WriteBooks(s.h, s.release, s.phase, Total(s.threads), p, i, x);
    WriteStates(s.h, s.release, s.phase, Total(s.threads), p, i, x);
    RootsAlive(s.h, s.suspected, s.roots, s.unprocessed, s.release, s.phase, s.threads);
    WritePhase(s.h, s.roots, s.release, s.phase, Total(s.threads), p, i, x);
  }

  lemma {:induction false} TotalMember(ts: seq<Thread>, x: Ref)
    requires x in Total(ts)
    ensures exists t :: 0 <= t < |ts| && x in ts[t].held
  {
    var n := |ts| - 1;
    if x !in ts[n].held {
      TotalMember(ts[..n], x);
      var t :| 0 <= t < n && x in ts[..n][t].held;
      assert x in ts[t].held;
    }
  }

  lemma TotalRefs(h: seq<Object>, locks: seq<Owner>, listLock: Owner, threads: seq<Thread>, x: Ref)
    requires ThreadsOk(h, locks, listLock, threads)
    ensures x in Total(threads) ==> IsRef(h, x)
  {
    if x in Total(threads) {
      TotalMember(threads, x);
      var t :| 0 <= t < |threads| && x in threads[t].held;
      assert ThreadOk(h, locks, listLock, t, threads[t]);
    }
  }

  lemma WriteTotal(total: multiset<Ref>, held: multiset<Ref>, x: Ref, more: multiset<Ref>)
    requires held <= total && (x in held || x !in total)
    ensures total - held + (held - multiset{x} + more) == total - multiset{x} + more
  {
  }

  // ----------------------------------------------------------- allocation

  /** No thread holds a dead cell, and none holds a condemned one. */
  lemma AllHeld(s: Sys)
    requires Inv(s)
    ensures forall u, x :: 0 <= u < |s.threads| && x in s.threads[u].held ==>
          IsRef(s.h, x) && s.h[x].state == Live && x !in Condemning(s.release, s.phase)
  {
    hide Inv, Condemning;
    forall u, x | 0 <= u < |s.threads| && x in s.threads[u].held
      ensures IsRef(s.h, x) && s.h[x].state == Live && x !in Condemning(s.release, s.phase)
    {
      ThreadHolds(s, u, x);
    }
  }

  lemma AllocateShape(h: seq<Object>, release: set<Ref>, phase: Phase, held: multiset<Ref>, x: Ref, n: nat,
                      cyclic: bool)
    requires States(h, release, phase) && PhaseCurrent(h, release, phase) && IsRef(h, x) && h[x].state == Dead
    ensures var h' := h[x := Fresh(n, cyclic)];
            && Counted(h', release, phase) == Counted(h, release, phase) + {x} && x !in Condemning(release, phase)
            && Pending(h', phase) == Pending(h, phase) && x !in Counted(h, release, phase)
  {
    hide Forest;
    var h' := h[x := Fresh(n, cyclic)];
    assert x !in OpenedSet(release, phase);
    assert forall y :: y in Counted(h', release, phase) <==> y in Counted(h, release, phase) + {x};
  }

  lemma AllocateBooks(h: seq<Object>, release: set<Ref>, phase: Phase, held: multiset<Ref>, x: Ref, n: nat,
                      cyclic: bool)
    requires Books(h, release, phase, held) && States(h, release, phase) && PhaseCurrent(h, release, phase)
    requires IsRef(h, x) && h[x].state == Dead
    ensures var h' := h[x := Fresh(n, cyclic)];
            && Counted(h', release, phase) == Counted(h, release, phase) + {x} && x !in Condemning(release, phase)
            && Books(h', release, phase, held + multiset{x})
  {
    hide Slots, Accounts, States, WellFormed, Counted, Condemning, Pending, Balanced;
    AllocateShape(h, release, phase, held, x, n, cyclic);
    AllocAccounts(h, Counted(h, release, phase), Condemning(release, phase), held + Pending(h, phase), x, n, cyclic);
    assert held + Pending(h, phase) + multiset{x} == held + multiset{x} + Pending(h, phase);
    if Judging(phase) {
      AllocateBalance(h, Counted(h, release, phase), Condemning(release, phase), held, x, n, cyclic);
    }
  }

  lemma AllocateBalance(h: seq<Object>, C: set<Ref>, X: set<Ref>, held: multiset<Ref>, x: Ref, n: nat, cyclic: bool)
    requires Balanced(h, C, X, held) && IsRef(h, x) && x !in C && x !in X
    ensures Balanced(h[x := Fresh(n, cyclic)], C + {x}, X, held + multiset{x})
  {
    hide Slots;
    var h' := h[x := Fresh(n, cyclic)];
    forall y | y in X && IsRef(h, y) ensures Slots(h', C + {x}, y) == Slots(h, C, y) {
      SlotsRemove(h', C + {x}, x, y);
      assert C + {x} - {x} == C;
      SlotsFrame(h, h', C, y);
    }
  }

  lemma AllocateStates(h: seq<Object>, release: set<Ref>, phase: Phase, x: Ref, n: nat, cyclic: bool)
    requires States(h, release, phase) && WellFormed(h) && IsRef(h, x) && h[x].state == Dead
    ensures States(h[x := Fresh(n, cyclic)], release, phase)
  {
    hide Forest;
    var h' := h[x := Fresh(n, cyclic)];
    assert TreeSet(h', release) == TreeSet(h, release);
    ForestFrame(h, h', TreeSet(h, release));
  }

  lemma AllocatePhase(h: seq<Object>, roots: set<Ref>, release: set<Ref>, phase: Phase, x: Ref, n: nat, cyclic: bool)
    requires States(h, release, phase) && PhaseOk(h, roots, release, phase) && IsRef(h, x) && h[x].state == Dead
    requires forall r :: r in roots ==> IsRef(h, r) && h[r].state != Dead
    requires Counted(h[x := Fresh(n, cyclic)], release, phase) == Counted(h, release, phase) + {x}
    ensures PhaseOk(h[x := Fresh(n, cyclic)], roots, release, phase)
  {
    hide Slots, TracingLost, TracingAlive, Backed, Closed, Forest;
    var h' := h[x := Fresh(n, cyclic)];
    if phase.Tracing? {
      if h[phase.root].count > 0 {
        FoundCounted(h, Counted(h, release, phase), roots, phase);
        assert x !in Elems(phase.found);
      } else {
        AllocateLost(h, phase, x, n, cyclic);
      }
    }
    assert Undisturbed(h, h', release, phase);
    PhaseUndisturbed(h, h', roots, release, phase);
  }

  lemma AllocateLost(h: seq<Object>, p: Phase, x: Ref, n: nat, cyclic: bool)
    requires p.Tracing? && TracingLost(h, p) && IsRef(h, x)
    ensures TracingLost(h[x := Fresh(n, cyclic)], p)
  {
    var h' := h[x := Fresh(n, cyclic)];
    var V :| Elems(p.found) <= V && NeverBack(h, V, p.root);
    forall o, y | o in V && Points(h', o, y) ensures Points(h, o, y) {}
    assert NeverBack(h', V, p.root);
  }

  lemma AllocateLists(h: seq<Object>, suspected: set<Ref>, roots: set<Ref>, unprocessed: set<Ref>,
                      release: set<Ref>, phase: Phase, threads: seq<Thread>, x: Ref, n: nat, cyclic: bool)
    requires ListsOk(h, suspected, roots, unprocessed, release, phase, threads) && IsRef(h, x) && h[x].state == Dead
    ensures ListsOk(h[x := Fresh(n, cyclic)], suspected, roots, unprocessed, release, phase, threads)
  {
  }

  lemma AllocateThread(s: Sys, s': Sys, t: nat, x: Ref, n: nat, cyclic: bool)
    requires Inv(s) && AllocateStep(s, s', t, x, n, cyclic)
    ensures ThreadsOk(s'.h, s'.locks, s'.listLock, s'.threads)
  {
    hide Books, States, LocksOk, PhaseOk, ListsOk, ThreadsOk, Condemning, Total;
    ThreadFacts(s, t);
    AllHeld(s);
    LocksHeld(s);
    OthersFrame(s, s', t);
  }

  lemma MutatorAllocateKeeps(s: Sys, s': Sys, t: nat, x: Ref, n: nat, cyclic: bool)
    requires Inv(s) && AllocateStep(s, s', t, x, n, cyclic)
    ensures Inv(s')
  {
    hide Books, States, LocksOk, PhaseOk, ListsOk, ThreadsOk, ThreadOk, WellFormed, Condemning, Counted;
    AllocateThread(s, s', t, x, n, cyclic);
    TotalUpdate(s.threads, t, s'.threads[t]);
    assert Total(s'.threads) == Total(s.threads) + multiset{x};
    PhaseCurrentOk(s.h, s.roots, s.release, s.phase);
    AllocateBooks(s.h, s.release, s.phase, Total(s.threads), x, n, cyclic);
    BooksWellFormed(s.h, s.release, s.phase, Total(s.threads));
    AllocateStates(s.h, s.release, s.phase, x, n, cyclic);
    RootsAlive(s.h, s.suspected, s.roots, s.unprocessed, s.release, s.phase, s.threads);
    AllocatePhase(s.h, s.roots, s.release, s.phase, x, n, cyclic);
    LocksFrame(|s.h|, s.locks, s.listLock, s.threads, s.phase, t, s'.threads[t]);
    AllocateLists(s.h, s.suspected, s.roots, s.unprocessed, s.release, s.phase, s.threads, x, n, cyclic);
    ListsFrame(s'.h, s.suspected, s.roots, s.unprocessed, s.release, s.phase, s.threads, t, s'.threads[t]);
  }

  lemma LocksHeld(s: Sys)
    requires ThreadsOk(s.h, s.locks, s.listLock, s.threads)
    ensures forall u :: 0 <= u < |s.threads| && s.threads[u].lock != NULL ==> s.threads[u].lock in s.threads[u].held
  {
    forall u | 0 <= u < |s.threads| && s.threads[u].lock != NULL ensures s.threads[u].lock in s.threads[u].held {
      assert ThreadOk(s.h, s.locks, s.listLock, u, s.threads[u]);
    }
  }
}
