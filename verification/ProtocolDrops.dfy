/** A drop, by a thread or by the release loop, and what it does to the invariant. */
module ProtocolDrops {
  import opened Memory
  import opened RefCount
  import opened Consistency
  import opened Protocol
  import opened ProtocolInvariant
  import opened ProtocolThreads
  import opened ProtocolWrites

  /** A reference to `x` is dropped and the cascade zeroes `order`. */
  ghost predicate Falling(h: seq<Object>, h': seq<Object>, release: set<Ref>, phase: Phase, ext: multiset<Ref>, x: Ref,
                          order: seq<Ref>) {
    && States(h, release, phase)
    && Accounts(h, Counted(h, release, phase), Condemning(release, phase), ext)
    && Dropped(h, h', Counted(h, release, phase), Condemning(release, phase), ext, x, order)
  }

  /** What a drop changes, cell by cell. */
  ghost predicate Fallen(h: seq<Object>, h': seq<Object>, C: set<Ref>, X: set<Ref>, order: seq<Ref>) {
    && |h'| == |h|
    && (forall y :: y in order ==>
          IsRef(h, y) && h[y].state == Live && h[y].count > 0 && y in C && y !in X && Settled(h[y], h'[y]))
    && (forall y :: IsRef(h, y) && y !in order ==> h'[y] == h[y].(count := h'[y].count) && h'[y].count <= h[y].count)
    && (forall y :: y in C && y !in X && y !in order ==> IsRef(h', y) && h'[y].count > 0)
    && (forall y :: IsRef(h, y) && y in X ==> h'[y] == h[y])
  }

  lemma FallingFacts(h: seq<Object>, h': seq<Object>, release: set<Ref>, phase: Phase, ext: multiset<Ref>, x: Ref,
                     order: seq<Ref>)
    requires Falling(h, h', release, phase, ext, x, order)
    ensures Fallen(h, h', Counted(h, release, phase), Condemning(release, phase), order)
    ensures Accounts(h', Counted(h, release, phase) - Elems(order), Condemning(release, phase), ext - multiset{x})
    ensures Grounded(h, Counted(h, release, phase), Condemning(release, phase), ext - multiset{x}, order)
    ensures IsRef(h, x) && ext[x] > 0
  {
    hide Slots, Forest, DropClosed, Grounded, Settled;
    var C, X := Counted(h, release, phase), Condemning(release, phase);
    DropParts(h, h', C, X, ext, x, order);
    var h1 := h[x := h[x].(count := h[x].count - 1)];
    assert forall o, y :: Points(h1, o, y) <==> Points(h, o, y);
    GroundedFrame(h1, h, C, X, ext - multiset{x}, order);
  }

  lemma GroundedFrame(h: seq<Object>, h': seq<Object>, C: set<Ref>, X: set<Ref>, ext: multiset<Ref>, order: seq<Ref>)
    requires Grounded(h, C, X, ext, order) && |h| == |h'|
    requires forall o, y :: Points(h, o, y) <==> Points(h', o, y)
    ensures Grounded(h', C, X, ext, order)
  {
  }

  lemma FallenCounted(h: seq<Object>, h': seq<Object>, release: set<Ref>, phase: Phase, order: seq<Ref>)
    requires Fallen(h, h', Counted(h, release, phase), Condemning(release, phase), order)
    ensures Counted(h', release, phase) == Counted(h, release, phase) - Elems(order)
  {
    forall y ensures y in Counted(h', release, phase) <==> y in Counted(h, release, phase) - Elems(order) {
      if y in order { assert Settled(h[y], h'[y]); }
    }
  }

  // --------------------------------------------------------------- states

  lemma FallTrees(h: seq<Object>, h': seq<Object>, release: set<Ref>, phase: Phase, order: seq<Ref>)
    requires Fallen(h, h', Counted(h, release, phase), Condemning(release, phase), order)
    requires forall y :: IsRef(h, y) && h[y].state == WaitingForGc && h[y].count > 0 ==> y in Condemning(release, phase)
    ensures TreeSet(h', release) == TreeSet(h, release) + WaitingOf(h', Elems(order))
    ensures TreeSet(h, release) !! Elems(order)
  {
    forall y ensures y in TreeSet(h', release) <==> y in TreeSet(h, release) + WaitingOf(h', Elems(order)) {
      if y in order { assert Settled(h[y], h'[y]); }
    }
  }

  lemma FallForest(h: seq<Object>, h': seq<Object>, release: set<Ref>, phase: Phase, ext: multiset<Ref>, x: Ref,
                   order: seq<Ref>)
    requires Falling(h, h', release, phase, ext, x, order)
    ensures |h'| == |h| && Forest(h', TreeSet(h', release))
  {
    hide Slots, Forest, DropClosed, Grounded, Settled, Cascaded;
    var C, X, W := Counted(h, release, phase), Condemning(release, phase), TreeSet(h, release);
    FallingFacts(h, h', release, phase, ext, x, order);
    FallTrees(h, h', release, phase, order);
    DropParts(h, h', C, X, ext, x, order);
    var h1 := h[x := h[x].(count := h[x].count - 1)];
    ForestFrame(h, h1, W);
    CascadeForest(h1, h', C, X, ext - multiset{x}, order, W);
  }

  lemma FallStates(h: seq<Object>, h': seq<Object>, release: set<Ref>, phase: Phase, ext: multiset<Ref>, x: Ref,
                   order: seq<Ref>)
    requires Falling(h, h', release, phase, ext, x, order)
    ensures States(h', release, phase)
  {
    hide Slots, Forest, DropClosed, Grounded, Cascaded, Dropped;
    FallingFacts(h, h', release, phase, ext, x, order);
    FallForest(h, h', release, phase, ext, x, order);
  }

  // ---------------------------------------------------------------- lists

  lemma FallLists(h: seq<Object>, h': seq<Object>, C: set<Ref>, X: set<Ref>, order: seq<Ref>, suspected: set<Ref>,
                  roots: set<Ref>, unprocessed: set<Ref>, release: set<Ref>, phase: Phase, threads: seq<Thread>)
    requires Fallen(h, h', C, X, order) && ListsOk(h, suspected, roots, unprocessed, release, phase, threads)
    ensures ListsOk(h', suspected, roots, unprocessed, release, phase, threads)
  {
    forall x | IsRef(h, x) ensures h'[x].isCyclicType == h[x].isCyclicType && h'[x].asyncRelease == h[x].asyncRelease
                                && (h'[x].state != Dead ==> h[x].state != Dead)
                                && (h[x].state != Dead && h[x].Candidate() ==> h'[x].state != Dead) {
      if x in order { assert Settled(h[x], h'[x]); }
    }
  }

  // ---------------------------------------------------------------- phase

  lemma Earlier(h: seq<Object>, C: set<Ref>, X: set<Ref>, ext: multiset<Ref>, order: seq<Ref>, k: nat, o: Ref)
    requires Grounded(h, C, X, ext, order) && k < |order| && o in C && Points(h, o, order[k])
    ensures exists j :: 0 <= j < k && order[j] == o
  {
    assert o in order[..k];
  }

  /** What is referenced from within a part of memory, apart from `r`, does not run out before `r`. */
  lemma {:induction false} BackedSurvive(h: seq<Object>, C: set<Ref>, X: set<Ref>, ext: multiset<Ref>, order: seq<Ref>,
                                         K: set<Ref>, r: Ref, n: nat)
    requires Grounded(h, C, X, ext, order) && K <= C
    requires forall y :: y in K && y != r ==> Backed(h, K, y)
    requires n <= |order| && forall k :: 0 <= k < n ==> order[k] != r
    ensures forall k :: 0 <= k < n ==> order[k] !in K
  {
    hide Grounded;
    if n > 0 {
      BackedSurvive(h, C, X, ext, order, K, r, n - 1);
      if order[n - 1] in K {
        var o :| o in K && Points(h, o, order[n - 1]);
        Earlier(h, C, X, ext, order, n - 1, o);
      }
    }
  }

  lemma NotBefore(order: seq<Ref>, n: nat, K: set<Ref>)
    requires n <= |order| && forall k :: 0 <= k < n ==> order[k] !in K
    ensures K !! Elems(order[..n])
  {
  }

  lemma FoundBacked(h: seq<Object>, C: set<Ref>, roots: set<Ref>, p: Phase)
    requires p.Tracing? && TracingOk(h, C, roots, p) && IsRef(h, p.root) && h[p.root].count > 0
    ensures Elems(p.found) <= C
    ensures forall y :: y in Elems(p.found) && (y != p.root || p.cyclic) ==> Backed(h, Elems(p.found), y)
  {
    FoundCounted(h, C, roots, p);
    forall y | y in Elems(p.found) && (y != p.root || p.cyclic) ensures Backed(h, Elems(p.found), y) {
      if y == p.root {
        var o, i :| IsRef(h, o) && Passed(p, o, i) && 0 <= i < |h[o].fields| && h[o].fields[i] == y;
        assert o in p.found && Points(h, o, y);
      } else {
        var k :| 0 <= k < |p.found| && p.found[k] == y;
        SeenIsBacked(h, p, k);
      }
    }
  }

  lemma SeenIsBacked(h: seq<Object>, p: Phase, k: nat)
    requires p.Tracing? && k < |p.found| && SeenBy(h, p, k, p.found[k]) && IsRef(h, p.found[k])
    ensures Backed(h, Elems(p.found), p.found[k])
  {
    var j, i :|
      && 0 <= j < k && j < |p.found| && IsRef(h, p.found[j]) && Passed(p, p.found[j], i)
      && 0 <= i < |h[p.found[j]].fields| && h[p.found[j]].fields[i] == p.found[k];
    assert p.found[j] in Elems(p.found) && Points(h, p.found[j], p.found[k]);
  }

  /** The root survives, and so does all that was found. */
  lemma FallAlive(h: seq<Object>, C: set<Ref>, X: set<Ref>, ext: multiset<Ref>, order: seq<Ref>, roots: set<Ref>,
                  p: Phase)
    requires Grounded(h, C, X, ext, order)
    requires p.Tracing? && TracingOk(h, C, roots, p) && IsRef(h, p.root) && h[p.root].count > 0 && p.root !in order
    ensures Elems(p.found) <= C - Elems(order)
  {
    hide TracingOk, Grounded;
    var K := Elems(p.found);
    FoundBacked(h, C, roots, p);
    BackedSurvive(h, C, X, ext, order, K, p.root, |order|);
  }

  /** The root runs out. What is left to find runs out later or not at all. */
  lemma FallRoot(h: seq<Object>, h': seq<Object>, C: set<Ref>, X: set<Ref>, ext: multiset<Ref>, order: seq<Ref>,
                 roots: set<Ref>, p: Phase)
    requires Grounded(h, C, X, ext, order) && Fallen(h, h', C, X, order) && Closed(h, C)
    requires p.Tracing? && TracingOk(h, C, roots, p) && IsRef(h, p.root) && h[p.root].count > 0 && p.root in order
    ensures TracingLost(h', p)
  {
    hide TracingOk, Closed, Settled;
    var K, r := Elems(p.found), p.root;
    var n :| 0 <= n < |order| && order[n] == r;
    FoundBacked(h, C, roots, p);
    BackedSurvive(h, C, X, ext, order, K, r, n);
    NotBefore(order, n, K);
    if p.cyclic { RootNotCyclic(h, C, X, ext, order, roots, p, n); }
    var V := C - Elems(order[..n]);
    forall o, y | o in V && Points(h', o, y) ensures y in V && y != r {
      FallPoints(h, h', C, X, order, o, y);
      LaterOnly(h, C, X, ext, order, n, o, y);
    }
    NeverBackIntro(h', V, r);
    assert K <= V;
  }

  lemma NeverBackIntro(h: seq<Object>, V: set<Ref>, r: Ref)
    requires forall o, y :: o in V && Points(h, o, y) ==> y in V && y != r
    ensures NeverBack(h, V, r)
  {
  }

  lemma FallPoints(h: seq<Object>, h': seq<Object>, C: set<Ref>, X: set<Ref>, order: seq<Ref>, o: Ref, y: Ref)
    requires Fallen(h, h', C, X, order) && Points(h', o, y)
    ensures Points(h, o, y)
  {
    if o in order { assert Settled(h[o], h'[o]); }
  }

  lemma LaterOnly(h: seq<Object>, C: set<Ref>, X: set<Ref>, ext: multiset<Ref>, order: seq<Ref>, n: nat, o: Ref, y: Ref)
    requires Grounded(h, C, X, ext, order) && Closed(h, C) && n < |order|
    requires o in C - Elems(order[..n]) && Points(h, o, y)
    ensures y in C - Elems(order[..n]) && y != order[n]
  {
    hide Grounded;
    assert y in C;
    assert forall j :: 0 <= j < n ==> order[j] in order[..n];
    forall k | 0 <= k <= n && order[k] == y ensures false {
      Earlier(h, C, X, ext, order, k, o);
    }
  }

  lemma RootNotCyclic(h: seq<Object>, C: set<Ref>, X: set<Ref>, ext: multiset<Ref>, order: seq<Ref>, roots: set<Ref>,
                      p: Phase, n: nat)
    requires Grounded(h, C, X, ext, order) && n < |order|
    requires p.Tracing? && order[n] == p.root && TracingOk(h, C, roots, p) && IsRef(h, p.root) && h[p.root].count > 0
    requires forall k :: 0 <= k < n ==> order[k] !in Elems(p.found)
    ensures !p.cyclic
  {
    hide TracingAlive, Grounded;
    FoundBacked(h, C, roots, p);
    if p.cyclic {
      assert p.root in Elems(p.found);
      var o :| o in Elems(p.found) && Points(h, o, p.root);
      Earlier(h, C, X, ext, order, n, o);
    }
  }

  lemma FallLost(h: seq<Object>, h': seq<Object>, C: set<Ref>, X: set<Ref>, order: seq<Ref>, p: Phase)
    requires Fallen(h, h', C, X, order) && p.Tracing? && TracingLost(h, p)
    ensures TracingLost(h', p)
  {
    hide Fallen;
    var V :| Elems(p.found) <= V && NeverBack(h, V, p.root);
    forall o, y | o in V && Points(h', o, y) ensures y in V && y != p.root {
      FallPoints(h, h', C, X, order, o, y);
    }
    NeverBackIntro(h', V, p.root);
  }

  lemma FallTracing(h: seq<Object>, h': seq<Object>, roots: set<Ref>, release: set<Ref>, phase: Phase,
                    ext: multiset<Ref>, order: seq<Ref>)
    requires phase.Tracing? && TracingOk(h, Counted(h, release, phase), roots, phase)
    requires Fallen(h, h', Counted(h, release, phase), Condemning(release, phase), order)
    requires Grounded(h, Counted(h, release, phase), Condemning(release, phase), ext, order)
    requires Closed(h, Counted(h, release, phase))
    ensures Undisturbed(h, h', release, phase)
  {
    hide Grounded, Closed, TracingLost, TracingAlive, Settled;
    var C, X, r := Counted(h, release, phase), Condemning(release, phase), phase.root;
    FallenCounted(h, h', release, phase, order);
    assert IsRef(h, r);
    if h[r].count == 0 {
      FallLost(h, h', C, X, order, phase);
      assert h'[r].count == 0;
    } else if r in order {
      FallRoot(h, h', C, X, ext, order, roots, phase);
      assert Settled(h[r], h'[r]);
      SettledZero(h[r], h'[r]);
    } else {
      FallAlive(h, C, X, ext, order, roots, phase);
      assert r in Elems(phase.found);
      assert r in Counted(h', release, phase);
      forall o | o in CollectorLocks(phase) && IsRef(h, o) ensures h'[o].fields == h[o].fields {
        assert o in Elems(phase.found);
      }
    }
  }

  lemma SettledZero(ob: Object, ob': Object)
    requires Settled(ob, ob')
    ensures ob'.count == 0
  {
  }

  lemma FallCounting(h: seq<Object>, h': seq<Object>, release: set<Ref>, phase: Phase, ext: multiset<Ref>,
                     ext': multiset<Ref>, order: seq<Ref>)
    requires phase.Counting? && CountingOk(h, Counted(h, release, phase), phase.S, phase.counts)
    requires Fallen(h, h', Counted(h, release, phase), Condemning(release, phase), order)
    requires Grounded(h, Counted(h, release, phase), Condemning(release, phase), ext, order)
    requires Accounts(h', Counted(h', release, phase), Condemning(release, phase), ext')
    ensures Undisturbed(h, h', release, phase)
  {
    hide Grounded, Closed, Backed, Slots, Settled, Condemning;
    var C, S := Counted(h, release, phase), phase.S;
    FallenCounted(h, h', release, phase, order);
    forall k | 0 <= k < |order| ensures order[k] != NULL { assert order[k] in order; }
    BackedSurvive(h, C, Condemning(release, phase), ext, order, S, NULL, |order|);
    assert S <= C - Elems(order);
    forall x | x in S && IsRef(h, x) && h[x].count == Slots(h, S, x) ensures h'[x].count == h[x].count {
      SlotsFrame(h, h', S, x);
      SlotsSplit(h', Counted(h', release, phase), S, x);
    }
  }

  lemma FallPhase(h: seq<Object>, h': seq<Object>, roots: set<Ref>, release: set<Ref>, phase: Phase,
                  ext: multiset<Ref>, x: Ref, order: seq<Ref>)
    requires Falling(h, h', release, phase, ext, x, order) && PhaseOk(h, roots, release, phase)
    requires Closed(h, Counted(h, release, phase)) || !Judging(phase)
    ensures PhaseOk(h', roots, release, phase)
  {
    hide Falling, TracingOk, CountingOk, Grounded, Settled, Condemning, Counted, Accounts, Closed;
    FallingFacts(h, h', release, phase, ext, x, order);
    FallenCounted(h, h', release, phase, order);
    if phase.Tracing? {
      FallTracing(h, h', roots, release, phase, ext - multiset{x}, order);
    } else if phase.Counting? {
      FallCounting(h, h', release, phase, ext - multiset{x}, ext - multiset{x}, order);
    } else {
      FallOther(h, h', roots, release, phase, order);
    }
    PhaseUndisturbed(h, h', roots, release, phase);
  }

  lemma FallOther(h: seq<Object>, h': seq<Object>, roots: set<Ref>, release: set<Ref>, phase: Phase, order: seq<Ref>)
    requires PhaseOk(h, roots, release, phase) && !phase.Tracing? && !phase.Counting?
    requires Fallen(h, h', Counted(h, release, phase), Condemning(release, phase), order)
    ensures Undisturbed(h, h', release, phase)
  {
    hide Settled, Backed;
    if phase.Releasing? && phase.current != NULL { assert phase.current in Condemning(release, phase); }
  }

  // ------------------------------------------------------ a thread's drop

  lemma FallBooks(h: seq<Object>, h': seq<Object>, release: set<Ref>, phase: Phase, held: multiset<Ref>, x: Ref,
                  order: seq<Ref>)
    requires Books(h, release, phase, held) && PhaseCurrent(h, release, phase) && held[x] > 0
    requires Falling(h, h', release, phase, held + Pending(h, phase), x, order)
    ensures Books(h', release, phase, held - multiset{x})
  {
    hide Accounts, Slots, Falling, Grounded, Settled, Counted, Condemning, Pending, Balanced;
    var ext := held + Pending(h, phase);
    FallingFacts(h, h', release, phase, ext, x, order);
    FallenCounted(h, h', release, phase, order);
    FallPending(h, h', release, phase, order);
    assert ext - multiset{x} == held - multiset{x} + Pending(h, phase);
    if Judging(phase) {
      FallBalance(h, h', Counted(h, release, phase), Condemning(release, phase), ext, held, x, order);
    }
  }

  lemma FallPending(h: seq<Object>, h': seq<Object>, release: set<Ref>, phase: Phase, order: seq<Ref>)
    requires PhaseCurrent(h, release, phase)
    requires Fallen(h, h', Counted(h, release, phase), Condemning(release, phase), order)
    ensures Pending(h', phase) == Pending(h, phase)
  {
    hide Settled, Counted;
    if phase.Releasing? && phase.current != NULL { assert phase.current in Condemning(release, phase); }
  }

  lemma FallBalance(h: seq<Object>, h': seq<Object>, C: set<Ref>, X: set<Ref>, ext: multiset<Ref>, held: multiset<Ref>,
                    x: Ref, order: seq<Ref>)
    requires Accounts(h, C, X, ext) && Fallen(h, h', C, X, order) && Balanced(h, C, X, held)
    requires forall y :: y in X ==> held[y] == 0
    ensures Balanced(h', C - Elems(order), X, held - multiset{x})
  {
    hide Slots, Settled;
    forall y | y in Elems(order) ensures y in C { assert y in order; }
    forall y | y in X && IsRef(h, y) ensures Slots(h', C - Elems(order), y) == Slots(h, C, y) {
      SlotsSplit(h, C, Elems(order), y);
      SlotsZero(h, Elems(order), y);
      SlotsFrame(h, h', C - Elems(order), y);
    }
  }

  lemma FallThreads(s: Sys, s': Sys, t: nat, x: Ref, order: seq<Ref>)
    requires ThreadsOk(s.h, s.locks, s.listLock, s.threads) && t < |s.threads| && s.threads[t].Idle()
    requires s' == Put(s, t, s.threads[t].(held := s.threads[t].held - multiset{x})).(h := s'.h)
    requires Fallen(s.h, s'.h, Counted(s.h, s.release, s.phase), Condemning(s.release, s.phase), order)
    requires forall y :: y in order ==> Total(s'.threads)[y] == 0
    ensures ThreadsOk(s'.h, s'.locks, s'.listLock, s'.threads)
  {
    hide Total, Counted, Condemning, Settled, ThreadsOk;
    forall u, y | 0 <= u < |s.threads| && u != t && y in s.threads[u].held ensures y !in order {
      assert s'.threads[u] == s.threads[u];
      TotalUpdate(s'.threads, u, s'.threads[u]);
    }
    LocksHeld(s);
    assert ThreadOk(s.h, s.locks, s.listLock, t, s.threads[t]) by { ThreadAt(s, t); }
    OthersFrame(s, s', t);
  }

  lemma ThreadAt(s: Sys, t: nat)
    requires ThreadsOk(s.h, s.locks, s.listLock, s.threads) && t < |s.threads|
    ensures ThreadOk(s.h, s.locks, s.listLock, t, s.threads[t])
  {
  }

  lemma GroundedLoose(h: seq<Object>, C: set<Ref>, X: set<Ref>, ext: multiset<Ref>, order: seq<Ref>)
    requires Grounded(h, C, X, ext, order)
    ensures forall y :: y in order ==> ext[y] == 0
  {
  }

  lemma MutatorDropKeeps(s: Sys, s': Sys, t: nat, x: Ref, order: seq<Ref>)
    requires Inv(s) && DropStep(s, s', t, x, order)
    ensures Inv(s')
  {
    hide Books, States, LocksOk, PhaseOk, ListsOk, ThreadsOk, ThreadOk, Condemning, Counted, Dropped, Fallen, Grounded,
         Accounts, Closed, Pending;
    TotalUpdate(s.threads, t, s'.threads[t]);
    var held := Total(s.threads);
    assert Total(s'.threads) == held - multiset{x};
    BooksAccounts(s.h, s.release, s.phase, held);
    PhaseCurrentOk(s.h, s.roots, s.release, s.phase);
    var ext := held + Pending(s.h, s.phase);
    FallBooks(s.h, s'.h, s.release, s.phase, held, x, order);
    FallStates(s.h, s'.h, s.release, s.phase, ext, x, order);
    FallingFacts(s.h, s'.h, s.release, s.phase, ext, x, order);
    if Judging(s.phase) { CountedClosed(s.h, s.release, s.phase, held); }
    FallPhase(s.h, s'.h, s.roots, s.release, s.phase, ext, x, order);
    GroundedLoose(s.h, Counted(s.h, s.release, s.phase), Condemning(s.release, s.phase), ext - multiset{x}, order);
    forall y | y in order ensures Total(s'.threads)[y] == 0 { assert (ext - multiset{x})[y] == 0; }
    FallThreads(s, s', t, x, order);
    FallenLength(s.h, s'.h, Counted(s.h, s.release, s.phase), Condemning(s.release, s.phase), order);
    LocksFrame(|s.h|, s.locks, s.listLock, s.threads, s.phase, t, s'.threads[t]);
    FallLists(s.h, s'.h, Counted(s.h, s.release, s.phase), Condemning(s.release, s.phase), order,
              s.suspected, s.roots, s.unprocessed, s.release, s.phase, s.threads);
    ListsFrame(s'.h, s.suspected, s.roots, s.unprocessed, s.release, s.phase, s.threads, t, s'.threads[t]);
  }

  lemma FallenLength(h: seq<Object>, h': seq<Object>, C: set<Ref>, X: set<Ref>, order: seq<Ref>)
    requires Fallen(h, h', C, X, order)
    ensures |h'| == |h|
  {
  }

  lemma BooksAccounts(h: seq<Object>, release: set<Ref>, phase: Phase, held: multiset<Ref>)
    requires Books(h, release, phase, held)
    ensures Accounts(h, Counted(h, release, phase), Condemning(release, phase), held + Pending(h, phase))
  {
  }
}
