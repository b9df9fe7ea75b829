/** Steps of the mutator threads keep the invariant. */
module ProtocolThreads {
  import opened Memory
  import opened RefCount
  import opened Consistency
  import opened Protocol
  import opened ProtocolInvariant

  // --------------------------------------------------------- frame lemmas

  /** What thread `t` did is no concern of the others. */
  lemma OthersFrame(s: Sys, s': Sys, t: nat)
    requires ThreadsOk(s.h, s.locks, s.listLock, s.threads)
    requires |s'.h| == |s.h| && |s'.locks| == |s.locks| && t < |s.threads|
    requires |s'.threads| == |s.threads| && s'.threads == s.threads[t := s'.threads[t]]
    requires forall u, x :: 0 <= u < |s.threads| && u != t && x in s.threads[u].held && IsRef(s.h, x) ==>
          Steady(s.h[x], s'.h[x])
    requires forall u :: 0 <= u < |s.threads| && u != t && IsRef(s.h, s.threads[u].lock) ==>
          s'.h[s.threads[u].lock].fields == s.h[s.threads[u].lock].fields
    requires forall p :: 0 <= p < |s.locks| && s.locks[p].Mutator? && s.locks[p].t != t ==> s'.locks[p] == s.locks[p]
    requires forall u: nat :: u != t ==> (s'.listLock == Mutator(u) <==> s.listLock == Mutator(u))
    requires ThreadOk(s'.h, s'.locks, s'.listLock, t, s'.threads[t])
    ensures ThreadsOk(s'.h, s'.locks, s'.listLock, s'.threads)
  {
    forall u | 0 <= u < |s.threads| ensures ThreadOk(s'.h, s'.locks, s'.listLock, u, s'.threads[u]) {
      assert ThreadOk(s.h, s.locks, s.listLock, u, s.threads[u]);
      if u != t { assert s'.threads[u] == s.threads[u]; }
    }
  }

  /** Flags are never taken back. */
  ghost predicate Steady(ob: Object, ob': Object) {
    ob'.isCyclicType == ob.isCyclicType && (ob.asyncRelease ==> ob'.asyncRelease)
  }

  lemma ThreadFacts(s: Sys, t: nat)
    requires Inv(s) && t < |s.threads|
    ensures ThreadOk(s.h, s.locks, s.listLock, t, s.threads[t])
    ensures ThreadsOk(s.h, s.locks, s.listLock, s.threads) && LocksOk(|s.h|, s.locks, s.listLock, s.threads, s.phase)
  {
    hide Books, States, LocksOk, ListsOk, PhaseOk, ThreadOk;
  }

  /** The lock table does not depend on what threads hold. */
  lemma LocksFrame(cells: nat, locks: seq<Owner>, listLock: Owner, threads: seq<Thread>, phase: Phase, t: nat,
                   T: Thread)
    requires LocksOk(cells, locks, listLock, threads, phase) && t < |threads| && T.lock == threads[t].lock
    ensures LocksOk(cells, locks, listLock, threads[t := T], phase)
  {
  }

  /** The lists do not depend on a thread that has nothing in flight to lose. */
  lemma ListsFrame(h: seq<Object>, suspected: set<Ref>, roots: set<Ref>, unprocessed: set<Ref>, release: set<Ref>,
                   phase: Phase, threads: seq<Thread>, t: nat, T: Thread)
    requires ListsOk(h, suspected, roots, unprocessed, release, phase, threads) && t < |threads|
    requires threads[t].registration.Listing? ==>
          T.registration == threads[t].registration || T.registration == Inserting(threads[t].registration.x)
    requires threads[t].registration.Inserting? ==> T.registration == threads[t].registration
    ensures ListsOk(h, suspected, roots, unprocessed, release, phase, threads[t := T])
  {
    forall x | InFlight(threads, x) ensures InFlight(threads[t := T], x) {
      var u :| 0 <= u < |threads| && (threads[u].registration == Listing(x) || threads[u].registration == Inserting(x));
      assert threads[t := T][u].registration == Listing(x) || threads[t := T][u].registration == Inserting(x);
    }
  }

  lemma TotalSame(s: Sys, s': Sys, t: nat)
    requires t < |s.threads| == |s'.threads| && s'.threads == s.threads[t := s'.threads[t]]
    requires s'.threads[t].held == s.threads[t].held
    ensures Total(s'.threads) == Total(s.threads)
  {
    TotalUpdate(s.threads, t, s'.threads[t]);
  }

  // -------------------------------------------- steps off shared memory

  lemma WantKeeps(s: Sys, s': Sys, t: nat, p: Ref)
    requires Inv(s) && WantStep(s, s', t, p)
    ensures Inv(s')
  {
    hide Books, States, LocksOk, ListsOk, PhaseOk, ThreadsOk;
    ThreadFacts(s, t);
    TotalSame(s, s', t);
    LocksFrame(|s.h|, s.locks, s.listLock, s.threads, s.phase, t, s'.threads[t]);
    ListsFrame(s.h, s.suspected, s.roots, s.unprocessed, s.release, s.phase, s.threads, t, s'.threads[t]);
    OthersFrame(s, s', t);
  }

  lemma LockKeeps(s: Sys, s': Sys, t: nat)
    requires Inv(s) && LockStep(s, s', t)
    ensures Inv(s')
  {
    hide Books, States, ListsOk, PhaseOk, ThreadsOk;
    ThreadFacts(s, t);
    TotalSame(s, s', t);
    ListsFrame(s.h, s.suspected, s.roots, s.unprocessed, s.release, s.phase, s.threads, t, s'.threads[t]);
    OthersFrame(s, s', t);
  }

  lemma ReadKeeps(s: Sys, s': Sys, t: nat, i: nat)
    requires Inv(s) && ReadStep(s, s', t, i)
    ensures Inv(s')
  {
    hide Books, States, LocksOk, ListsOk, PhaseOk, ThreadsOk;
    ThreadFacts(s, t);
    TotalSame(s, s', t);
    LocksFrame(|s.h|, s.locks, s.listLock, s.threads, s.phase, t, s'.threads[t]);
    ListsFrame(s.h, s.suspected, s.roots, s.unprocessed, s.release, s.phase, s.threads, t, s'.threads[t]);
    BooksWellFormed(s.h, s.release, s.phase, Total(s.threads));
    var f := s.h[s.threads[t].lock].fields[i];
    assert f != NULL ==> IsRef(s.h, f);
    OthersFrame(s, s', t);
  }

  lemma BooksWellFormed(h: seq<Object>, release: set<Ref>, phase: Phase, held: multiset<Ref>)
    requires Books(h, release, phase, held)
    ensures WellFormed(h)
  {
  }

  lemma UnlockLocks(s: Sys, s': Sys, t: nat)
    requires t < |s.threads| && ThreadOk(s.h, s.locks, s.listLock, t, s.threads[t]) && UnlockStep(s, s', t)
    requires LocksOk(|s.h|, s.locks, s.listLock, s.threads, s.phase)
    ensures LocksOk(|s'.h|, s'.locks, s'.listLock, s'.threads, s'.phase)
  {
  }

  lemma UnlockKeeps(s: Sys, s': Sys, t: nat)
    requires Inv(s) && UnlockStep(s, s', t)
    ensures Inv(s')
  {
    hide Books, States, LocksOk, ListsOk, PhaseOk, ThreadsOk;
    ThreadFacts(s, t);
    UnlockLocks(s, s', t);
    TotalSame(s, s', t);
    ListsFrame(s.h, s.suspected, s.roots, s.unprocessed, s.release, s.phase, s.threads, t, s'.threads[t]);
    OthersFrame(s, s', t);
  }

  lemma AcquireListKeeps(s: Sys, s': Sys, t: nat)
    requires Inv(s) && AcquireListStep(s, s', t)
    ensures Inv(s')
  {
    hide Books, States, ListsOk, PhaseOk, ThreadsOk;
    ThreadFacts(s, t);
    TotalSame(s, s', t);
    ListsFrame(s.h, s.suspected, s.roots, s.unprocessed, s.release, s.phase, s.threads, t, s'.threads[t]);
    OthersFrame(s, s', t);
  }

  lemma LeaveListKeeps(s: Sys, s': Sys, t: nat)
    requires Inv(s) && LeaveListStep(s, s', t)
    ensures Inv(s')
  {
    hide Books, States, ListsOk, PhaseOk, ThreadsOk;
    ThreadFacts(s, t);
    TotalSame(s, s', t);
    ListsFrame(s.h, s.suspected, s.roots, s.unprocessed, s.release, s.phase, s.threads, t, s'.threads[t]);
    OthersFrame(s, s', t);
  }

  lemma InsertKeeps(s: Sys, s': Sys, t: nat)
    requires Inv(s) && InsertStep(s, s', t)
    ensures Inv(s')
  {
    hide Books, States, LocksOk, PhaseOk, ThreadsOk, ListsOk;
    ThreadFacts(s, t);
    TotalSame(s, s', t);
    LocksFrame(|s.h|, s.locks, s.listLock, s.threads, s.phase, t, s'.threads[t]);
    ThreadHolds(s, t, s.threads[t].registration.x);
    ListsInsert(s, s', t);
    OthersFrame(s, s', t);
  }

  lemma ListsInsert(s: Sys, s': Sys, t: nat)
    requires ListsOk(s.h, s.suspected, s.roots, s.unprocessed, s.release, s.phase, s.threads) && InsertStep(s, s', t)
    requires var x := s.threads[t].registration.x;
             IsRef(s.h, x) && s.h[x].state != Dead && s.h[x].Candidate() && x !in Condemning(s.release, s.phase)
    ensures ListsOk(s'.h, s'.suspected, s'.roots, s'.unprocessed, s'.release, s'.phase, s'.threads)
  {
    var x := s.threads[t].registration.x;
    forall y | InFlight(s.threads, y) && y != x ensures InFlight(s'.threads, y) {
      var u :|
        && 0 <= u < |s.threads|
        && (s.threads[u].registration == Listing(y) || s.threads[u].registration == Inserting(y));
      assert s'.threads[u] == s.threads[u];
    }
    assert OpenedSet(s.release, s.phase) <= Condemning(s.release, s.phase);
  }

  // ------------------------------------------------- the phase, in general

  /** What a change of memory must leave alone for the collector to go on. */
  ghost predicate Undisturbed(h: seq<Object>, h': seq<Object>, release: set<Ref>, phase: Phase) {
    && |h'| == |h|
    && match phase
       case Tracing(root, found, _, _, _, _) =>
         IsRef(h, root) && if h'[root].count > 0
           then
             && h[root].count > 0 && Elems(found) <= Counted(h', release, phase)
             && SameFields(h, h', CollectorLocks(phase))
           else TracingLost(h', phase)
       case Counting(S, _) =>
         && S <= Counted(h', release, phase) && SameFields(h, h', S)
         && (forall x :: x in S && IsRef(h, x) && h[x].count == Slots(h, S, x) ==> h'[x].count == h[x].count)
       case Walking(_, _, seen) =>
         SameFields(h, h', seen) && forall x :: x in seen && IsRef(h, x) ==> h'[x].state == h[x].state
       case Releasing(_, current, _) => IsRef(h, current) ==> |h'[current].fields| == |h[current].fields|
       case _ => true
  }

  ghost predicate SameFields(h: seq<Object>, h': seq<Object>, S: set<Ref>) {
    |h'| == |h| && forall x :: x in S && IsRef(h, x) ==> h'[x].fields == h[x].fields
  }

  lemma PhaseUndisturbed(h: seq<Object>, h': seq<Object>, roots: set<Ref>, release: set<Ref>, phase: Phase)
    requires PhaseOk(h, roots, release, phase) && Undisturbed(h, h', release, phase)
    ensures PhaseOk(h', roots, release, phase)
  {
    hide Slots, Counted, TracingAlive, TracingLost, Backed, Closed, IsReach, WalkedTo;
    match phase
    case Tracing(root, found, scanned, at, slot, cyclic) =>
      if h'[root].count > 0 {
        TracingUndisturbed(h, h', Counted(h, release, phase), Counted(h', release, phase), phase);
      }
    case Counting(S, counts) =>
      forall x ensures Slots(h', S, x) == Slots(h, S, x) { SlotsFrame(h, h', S, x); }
      BackedFrame(h, h', S);
      IsReachFrame(h, h', S);
    case Walking(start, pending, seen) =>
      BackedFrame(h, h', seen);
      forall x | WalkedTo(h, start, seen, x) ensures WalkedTo(h', start, seen, x) {
        WalkedFrame(h, h', start, seen, x);
      }
    case _ =>
  }

  lemma WalkedFrame(h: seq<Object>, h': seq<Object>, start: Ref, seen: set<Ref>, x: Ref)
    requires SameFields(h, h', seen) && WalkedTo(h, start, seen, x)
    ensures WalkedTo(h', start, seen, x)
  {
    forall T | WalkClosed(h', start, seen, T) ensures x in T {
      forall o, f | o in seen && o in T && Points(h, o, f) ensures f in T { assert Points(h', o, f); }
      assert WalkClosed(h, start, seen, T);
    }
  }

  lemma IsReachFrame(h: seq<Object>, h': seq<Object>, S: set<Ref>)
    requires SameFields(h, h', S) && IsReach(h, S)
    ensures IsReach(h', S)
  {
    var r :| IsRef(h, r) && S == Reach(h, {r});
    ReachFrame(h, h', {r});
  }

  lemma BackedFrame(h: seq<Object>, h': seq<Object>, S: set<Ref>)
    requires SameFields(h, h', S)
    ensures Closed(h, S) ==> Closed(h', S)
    ensures forall x :: Backed(h', S, x) <==> Backed(h, S, x)
    ensures forall o, x :: o in S ==> (Points(h', o, x) <==> Points(h, o, x))
  {
    assert forall o, x :: o in S ==> (Points(h', o, x) <==> Points(h, o, x));
    forall x ensures Backed(h', S, x) <==> Backed(h, S, x) {}
  }

  lemma TracingUndisturbed(h: seq<Object>, h': seq<Object>, C: set<Ref>, C': set<Ref>, p: Phase)
    requires p.Tracing? && TracingAlive(h, C, p) && SameFields(h, h', CollectorLocks(p)) && Elems(p.found) <= C'
    ensures TracingAlive(h', C', p)
  {
    forall o, i | IsRef(h, o) && Passed(p, o, i) && i >= 0
      ensures h'[o].fields == h[o].fields
    {
      assert o in CollectorLocks(p);
    }
    forall x ensures SeenFrom(h', p, x) <==> SeenFrom(h, p, x) {
      if SeenFrom(h, p, x) {
        var o, i :| IsRef(h, o) && Passed(p, o, i) && 0 <= i < |h[o].fields| && h[o].fields[i] == x;
        assert h'[o].fields[i] == x;
      }
      if SeenFrom(h', p, x) {
        var o, i :| IsRef(h', o) && Passed(p, o, i) && 0 <= i < |h'[o].fields| && h'[o].fields[i] == x;
        assert h[o].fields[i] == x;
      }
    }
    forall k | 1 <= k < |p.found| ensures SeenBy(h', p, k, p.found[k]) {
      var j, i :|
        && 0 <= j < k && j < |p.found| && IsRef(h, p.found[j]) && Passed(p, p.found[j], i)
        && 0 <= i < |h[p.found[j]].fields| && h[p.found[j]].fields[i] == p.found[k];
      assert h'[p.found[j]].fields[i] == p.found[k];
    }
    forall x | x in p.found ensures x in C' { assert x in Elems(p.found); }
  }

  // ------------------------------------------------------------ counting

  /** Same fields, same states, and the same cells have references. */
  ghost predicate SameGraph(h: seq<Object>, h': seq<Object>) {
    |h'| == |h| && forall x :: IsRef(h, x) ==>
      h'[x].fields == h[x].fields && h'[x].state == h[x].state && (h'[x].count > 0 <==> h[x].count > 0)
  }

  lemma SameGraphFacts(h: seq<Object>, h': seq<Object>, release: set<Ref>, phase: Phase)
    requires SameGraph(h, h')
    ensures Counted(h', release, phase) == Counted(h, release, phase) && Pending(h', phase) == Pending(h, phase)
    ensures TreeSet(h', release) == TreeSet(h, release) || exists x :: IsRef(h, x) && h'[x].count != h[x].count
    ensures forall o, x :: Points(h', o, x) <==> Points(h, o, x)
    ensures forall T :: Closed(h', T) <==> Closed(h, T)
  {
    assert forall x :: x in Counted(h', release, phase) <==> x in Counted(h, release, phase);
  }

  /** The phase invariant looks at fields, states and at which cells have references, except
      that a count that was read must not grow from the inner references only. */
  lemma PhaseSameGraph(h: seq<Object>, h': seq<Object>, roots: set<Ref>, release: set<Ref>, phase: Phase)
    requires SameGraph(h, h') && PhaseOk(h, roots, release, phase)
    requires phase.Counting? ==> forall x :: x in phase.S && IsRef(h, x) && h[x].count == Slots(h, phase.S, x) ==>
          h'[x].count == h[x].count
    ensures PhaseOk(h', roots, release, phase)
  {
    hide Slots, TracingLost, Counted, Backed;
    SameGraphFacts(h, h', release, phase);
    if phase.Tracing? && TracingLost(h, phase) { LostSameGraph(h, h', phase); }
    if phase.Tracing? && h[phase.root].count > 0 { FoundCounted(h, Counted(h, release, phase), roots, phase); }
    assert Undisturbed(h, h', release, phase);
    PhaseUndisturbed(h, h', roots, release, phase);
  }

  lemma FoundCounted(h: seq<Object>, C: set<Ref>, roots: set<Ref>, p: Phase)
    requires p.Tracing? && TracingOk(h, C, roots, p) && IsRef(h, p.root) && h[p.root].count > 0
    ensures Elems(p.found) <= C
  {
    forall x | x in Elems(p.found) ensures x in C { assert x in p.found; }
  }

  lemma LostSameGraph(h: seq<Object>, h': seq<Object>, p: Phase)
    requires p.Tracing? && SameGraph(h, h') && TracingLost(h, p)
    ensures TracingLost(h', p)
  {
    var V :| Elems(p.found) <= V && NeverBack(h, V, p.root);
    assert NeverBack(h', V, p.root);
  }

  lemma ListsHeap(h: seq<Object>, h': seq<Object>, suspected: set<Ref>, roots: set<Ref>, unprocessed: set<Ref>,
                  release: set<Ref>, phase: Phase, threads: seq<Thread>)
    requires ListsOk(h, suspected, roots, unprocessed, release, phase, threads) && |h'| == |h|
    requires forall x :: IsRef(h, x) ==> (h'[x].state == Dead <==> h[x].state == Dead)
    requires forall x :: IsRef(h, x) && h[x].state != Dead ==>
          h'[x].isCyclicType == h[x].isCyclicType && h'[x].asyncRelease == h[x].asyncRelease
    ensures ListsOk(h', suspected, roots, unprocessed, release, phase, threads)
  {
  }

  lemma BumpShape(h: seq<Object>, release: set<Ref>, phase: Phase, x: Ref)
    requires x in Counted(h, release, phase)
    ensures var h' := h[x := Bumped(h[x])]; SameGraph(h, h') && TreeSet(h', release) == TreeSet(h, release)
  {
  }

  lemma BumpBalance(h: seq<Object>, C: set<Ref>, X: set<Ref>, held: multiset<Ref>, x: Ref)
    requires Balanced(h, C, X, held) && IsRef(h, x) && x !in X
    ensures Balanced(h[x := Bumped(h[x])], C, X, held + multiset{x})
  {
    hide Slots;
    forall y ensures Slots(h[x := Bumped(h[x])], C, y) == Slots(h, C, y) { SlotsFrame(h, h[x := Bumped(h[x])], C, y); }
  }

  lemma BumpStates(h: seq<Object>, release: set<Ref>, phase: Phase, x: Ref)
    requires States(h, release, phase) && WellFormed(h) && x in Counted(h, release, phase)
    ensures States(h[x := Bumped(h[x])], release, phase)
  {
    hide Forest;
    var h' := h[x := Bumped(h[x])];
    BumpShape(h, release, phase, x);
    ForestFrame(h, h', TreeSet(h, release));
  }

  /** One more reference to an object that has one already. */
  lemma BumpBooks(h: seq<Object>, release: set<Ref>, phase: Phase, held: multiset<Ref>, x: Ref)
    requires Books(h, release, phase, held) && States(h, release, phase)
    requires x in Counted(h, release, phase) && x !in Condemning(release, phase)
    ensures var h' := h[x := Bumped(h[x])];
            SameGraph(h, h') && Books(h', release, phase, held + multiset{x}) && States(h', release, phase)
  {
    hide Slots, States, Accounts, Balanced, SameGraph, Counted, Condemning, Pending, WellFormed, TreeSet;
    CountedRef(h, release, phase, x);
    var h', C, X := h[x := Bumped(h[x])], Counted(h, release, phase), Condemning(release, phase);
    BumpShape(h, release, phase, x);
    SameGraphFacts(h, h', release, phase);
    IncrementAccounts(h, C, X, held + Pending(h, phase), x, Bumped(h[x]));
    assert held + Pending(h, phase) + multiset{x} == held + multiset{x} + Pending(h, phase);
    if Judging(phase) { BumpBalance(h, C, X, held, x); }
    BooksWellFormed(h, release, phase, held);
    BumpStates(h, release, phase, x);
  }

  lemma CountedRef(h: seq<Object>, release: set<Ref>, phase: Phase, x: Ref)
    requires x in Counted(h, release, phase)
    ensures IsRef(h, x)
  {
  }

  /** An object with a reference from outside the traced set is not mistaken for an inner one. */
  lemma OutsideCount(h: seq<Object>, release: set<Ref>, phase: Phase, held: multiset<Ref>, x: Ref)
    requires Books(h, release, phase, held) && phase.Counting? && phase.S <= Counted(h, release, phase)
    requires x in phase.S && x !in Condemning(release, phase)
    requires held[x] > 0 || exists p :: p in Counted(h, release, phase) && p !in phase.S && Points(h, p, x)
    ensures h[x].count > Slots(h, phase.S, x)
  {
    hide Slots;
    var C := Counted(h, release, phase);
    SlotsSplit(h, C, phase.S, x);
    SlotsZero(h, C - phase.S, x);
  }

  lemma BumpPhase(h: seq<Object>, roots: set<Ref>, release: set<Ref>, phase: Phase, held: multiset<Ref>, x: Ref)
    requires Books(h, release, phase, held) && PhaseOk(h, roots, release, phase)
    requires x in Counted(h, release, phase) && x !in Condemning(release, phase)
    requires phase.Counting? ==>
          held[x] > 0 || exists p :: p in Counted(h, release, phase) && p !in phase.S && Points(h, p, x)
    ensures PhaseOk(h[x := Bumped(h[x])], roots, release, phase)
  {
    hide Books, Slots, PhaseOk, Condemning;
    CountingWithin(h, roots, release, phase);
    if phase.Counting? && x in phase.S {
      OutsideCount(h, release, phase, held, x);
    }
    PhaseSameGraph(h, h[x := Bumped(h[x])], roots, release, phase);
  }

  lemma CountingWithin(h: seq<Object>, roots: set<Ref>, release: set<Ref>, phase: Phase)
    requires PhaseOk(h, roots, release, phase)
    ensures phase.Counting? ==> phase.S <= Counted(h, release, phase)
  {
    hide Slots, TracingOk;
  }

  lemma BumpThread(h: seq<Object>, locks: seq<Owner>, listLock: Owner, t: nat, T: Thread, x: Ref)
    requires ThreadOk(h, locks, listLock, t, T) && T.registration.NoRegistration? && T.want == NULL
    requires (T.got == NULL || T.got == x)
    requires IsRef(h, x)
    ensures ThreadOk(h[x := Bumped(h[x])], locks, listLock, t,
                     T.(held := T.held + multiset{x}, got := NULL, registration := NextRegistration(h[x], x)))
  {
  }

  /** Thread `t` comes to hold one more reference to `x`. */
  ghost predicate Counts(s: Sys, s': Sys, t: nat, x: Ref) {
    && t < |s.threads| && IsRef(s.h, x) && var T := s.threads[t];
    && T.registration.NoRegistration? && T.want == NULL && (T.got == NULL || T.got == x)
    && s' == Put(s, t, T.(held := T.held + multiset{x}, got := NULL, registration := NextRegistration(s.h[x], x)))
             .(h := s.h[x := Bumped(s.h[x])])
  }

  lemma CountsOthers(s: Sys, s': Sys, t: nat, x: Ref)
    requires Inv(s) && Counts(s, s', t, x)
    ensures ThreadsOk(s'.h, s'.locks, s'.listLock, s'.threads)
    ensures LocksOk(|s'.h|, s'.locks, s'.listLock, s'.threads, s'.phase)
    ensures ListsOk(s'.h, s'.suspected, s'.roots, s'.unprocessed, s'.release, s'.phase, s'.threads)
  {
    hide Books, States, LocksOk, PhaseOk, ThreadsOk, ListsOk, ThreadOk, NextRegistration;
    ThreadFacts(s, t);
    BumpThread(s.h, s.locks, s.listLock, t, s.threads[t], x);
    LocksFrame(|s.h|, s.locks, s.listLock, s.threads, s.phase, t, s'.threads[t]);
    ListsHeap(s.h, s'.h, s.suspected, s.roots, s.unprocessed, s.release, s.phase, s.threads);
    ListsFrame(s'.h, s.suspected, s.roots, s.unprocessed, s.release, s.phase, s.threads, t, s'.threads[t]);
    OthersFrame(s, s', t);
  }

  lemma CountsKeeps(s: Sys, s': Sys, t: nat, x: Ref)
    requires Inv(s) && Counts(s, s', t, x)
    requires x in Counted(s.h, s.release, s.phase) && x !in Condemning(s.release, s.phase)
    requires s.phase.Counting? ==>
               || Total(s.threads)[x] > 0
               || exists p :: p in Counted(s.h, s.release, s.phase) && p !in s.phase.S && Points(s.h, p, x)
    ensures Inv(s')
  {
    hide Books, States, LocksOk, PhaseOk, ThreadsOk, ListsOk, Condemning, Counted, SameGraph, NextRegistration, Points;
    CountsOthers(s, s', t, x);
    TotalUpdate(s.threads, t, s'.threads[t]);
    assert Total(s'.threads) == Total(s.threads) + multiset{x};
    BumpBooks(s.h, s.release, s.phase, Total(s.threads), x);
    BumpPhase(s.h, s.roots, s.release, s.phase, Total(s.threads), x);
  }

  lemma CloneKeeps(s: Sys, s': Sys, t: nat, x: Ref)
    requires Inv(s) && CloneStep(s, s', t, x)
    ensures Inv(s')
  {
    hide Inv, Condemning, Counted, NextRegistration;
    ThreadHolds(s, t, x);
    CountsKeeps(s, s', t, x);
  }

  lemma CountReadKeeps(s: Sys, s': Sys, t: nat)
    requires Inv(s) && CountReadStep(s, s', t)
    ensures Inv(s')
  {
    hide Books, States, LocksOk, PhaseOk, ThreadsOk, ListsOk, Condemning, Counted, NextRegistration;
    ThreadFacts(s, t);
    var p, x := s.threads[t].lock, s.threads[t].got;
    ThreadHolds(s, t, p);
    FieldFacts(s.h, s.release, s.phase, Total(s.threads), p, x);
    MutatorLock(|s.h|, s.locks, s.listLock, s.threads, s.phase, p, t);
    CountsKeeps(s, s', t, x);
  }

  /** A lock a thread owns is not one of the collector's. */
  lemma MutatorLock(cells: nat, locks: seq<Owner>, listLock: Owner, threads: seq<Thread>, phase: Phase, p: Ref, t: nat)
    requires LocksOk(cells, locks, listLock, threads, phase) && 0 <= p < |locks| && locks[p] == Mutator(t)
    ensures p !in CollectorLocks(phase)
  {
  }

  // ------------------------------------------------------- registration

  /** Everything but the flags is the same. */
  ghost predicate SameButFlags(h: seq<Object>, h': seq<Object>) {
    |h'| == |h| && forall x :: IsRef(h, x) ==>
      h'[x].fields == h[x].fields && h'[x].state == h[x].state && h'[x].count == h[x].count
  }

  lemma FlagBooks(h: seq<Object>, h': seq<Object>, release: set<Ref>, phase: Phase, held: multiset<Ref>)
    requires Books(h, release, phase, held) && SameButFlags(h, h')
    ensures Books(h', release, phase, held)
  {
    hide Slots;
    SameGraphFacts(h, h', release, phase);
    var C := Counted(h, release, phase);
    forall x ensures Slots(h', C, x) == Slots(h, C, x) { SlotsFrame(h, h', C, x); }
  }

  lemma FlagStates(h: seq<Object>, release: set<Ref>, phase: Phase, x: Ref, ob: Object)
    requires States(h, release, phase) && WellFormed(h) && IsRef(h, x) && h[x].count > 0
    requires ob == h[x].(asyncRelease := true)
    ensures States(h[x := ob], release, phase)
  {
    hide Forest;
    var h' := h[x := ob];
    assert TreeSet(h', release) == TreeSet(h, release);
    ForestFrame(h, h', TreeSet(h, release));
  }

  lemma FlagLists(s: Sys, s': Sys, t: nat)
    requires ListsOk(s.h, s.suspected, s.roots, s.unprocessed, s.release, s.phase, s.threads) && FlagStep(s, s', t)
    requires s.h[s.threads[t].registration.x].isCyclicType && s.h[s.threads[t].registration.x].state != Dead
    requires !s.h[s.threads[t].registration.x].asyncRelease
    ensures ListsOk(s'.h, s'.suspected, s'.roots, s'.unprocessed, s'.release, s'.phase, s'.threads)
  {
    var x := s.threads[t].registration.x;
    assert s'.threads[t].registration == Listing(x);
    assert InFlight(s'.threads, x);
    forall y | InFlight(s.threads, y) ensures InFlight(s'.threads, y) {
      var u :|
        && 0 <= u < |s.threads|
        && (s.threads[u].registration == Listing(y) || s.threads[u].registration == Inserting(y));
      assert s'.threads[u] == s.threads[u];
    }
  }

  lemma FlagKeeps(s: Sys, s': Sys, t: nat)
    requires Inv(s) && FlagStep(s, s', t)
    ensures Inv(s')
  {
    hide Books, States, LocksOk, PhaseOk, ThreadsOk, ListsOk, Condemning, Counted, SameGraph, WellFormed;
    ThreadFacts(s, t);
    TotalSame(s, s', t);
    var x := s.threads[t].registration.x;
    ThreadHolds(s, t, x);
    LocksFrame(|s.h|, s.locks, s.listLock, s.threads, s.phase, t, s'.threads[t]);
    if s.h[x].asyncRelease {
      ListsFrame(s.h, s.suspected, s.roots, s.unprocessed, s.release, s.phase, s.threads, t, s'.threads[t]);
    } else {
      FlagLists(s, s', t);
      FlagBooks(s.h, s'.h, s.release, s.phase, Total(s.threads));
      BooksWellFormed(s.h, s.release, s.phase, Total(s.threads));
      FlagStates(s.h, s.release, s.phase, x, s'.h[x]);
      FlagPhase(s.h, s'.h, s.roots, s.release, s.phase);
    }
    OthersFrame(s, s', t);
  }

  lemma FlagPhase(h: seq<Object>, h': seq<Object>, roots: set<Ref>, release: set<Ref>, phase: Phase)
    requires SameButFlags(h, h') && PhaseOk(h, roots, release, phase)
    ensures PhaseOk(h', roots, release, phase)
  {
    hide PhaseOk, Slots;
    PhaseSameGraph(h, h', roots, release, phase);
  }
}
