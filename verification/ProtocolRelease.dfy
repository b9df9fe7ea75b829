/** Steps of the collector keep the invariant: releasing what was condemned. */
module ProtocolRelease {
  import opened Memory
  import opened RefCount
  import opened Consistency
  import opened Protocol
  import opened ProtocolInvariant
  import opened ProtocolThreads
  import opened ProtocolWrites
  import opened ProtocolDrops
  import opened ProtocolCollector

  lemma RootsDoneKeeps(s: Sys, s': Sys)
    requires Inv(s) && RootsDoneStep(s, s')
    ensures Inv(s')
  {
    hide Books, States, ThreadsOk, LocksOk;
    assert s.release - s.release == {};
    ShiftBooks(s.h, s.release, s.phase, s'.phase, Total(s.threads));
    ShiftLocks(|s.h|, s.locks, s.listLock, s.threads, s.phase, s'.phase);
  }

  // ------------------------------------------------- taking up an object

  lemma TakeBooks(h: seq<Object>, release: set<Ref>, p: Phase, held: multiset<Ref>, x: Ref, q: Phase)
    requires Books(h, release, p, held) && States(h, release, p)
    requires p.Releasing? && p.current == NULL && p.todo <= release && x in p.todo && IsRef(h, x)
    requires q == Releasing(p.todo - {x}, x, 0)
    ensures Books(h, release, q, held)
  {
    hide Slots, Forest, Accounts;
    var C, C' := Counted(h, release, p), Counted(h, release, q);
    assert Pending(h, p) == multiset{} && held + multiset{} == held;
    assert OpenedSet(release, q) == OpenedSet(release, p) + {x};
    assert forall y :: y in C' <==> y in C - {x};
    assert C' == C - {x};
    if h[x].count > 0 {
      OpenCell(h, C, Condemning(release, p), held, x);
      assert h[x].fields[0..] == h[x].fields;
      assert Pending(h, q) == multiset(h[x].fields);
    } else {
      assert C' == C && Pending(h, q) == multiset{};
    }
  }

  lemma TakeLists(s: Sys, s': Sys, x: Ref)
    requires ListsOk(s.h, s.suspected, s.roots, s.unprocessed, s.release, s.phase, s.threads)
    requires ReleaseTakeStep(s, s', x)
    requires s.phase.todo <= s.release
    ensures ListsOk(s'.h, s'.suspected, s'.roots, s'.unprocessed, s'.release, s'.phase, s'.threads)
  {
    assert OpenedSet(s'.release, s'.phase) == OpenedSet(s.release, s.phase) + {x};
  }

  lemma ReleaseTakeKeeps(s: Sys, s': Sys, x: Ref)
    requires Inv(s) && ReleaseTakeStep(s, s', x)
    ensures Inv(s')
  {
    hide Books, ThreadsOk, LocksOk, ListsOk, Forest;
    TakeBooks(s.h, s.release, s.phase, Total(s.threads), x, s'.phase);
    TakeLists(s, s', x);
    ShiftLocks(|s.h|, s.locks, s.listLock, s.threads, s.phase, s'.phase);
  }

  // --------------------------------------------------- dropping its fields

  /** Loose references to sealed objects, and null ones, are of no account. */
  lemma AccountsLoose(h: seq<Object>, C: set<Ref>, X: set<Ref>, ext: multiset<Ref>, ext': multiset<Ref>)
    requires Accounts(h, C, X, ext) && forall x :: IsRef(h, x) && x !in X ==> ext[x] == ext'[x]
    ensures Accounts(h, C, X, ext')
  {
  }

  /** The next field leaves the pending ones. */
  lemma PendingNext(h: seq<Object>, p: Phase, q: Phase)
    requires p.Releasing? && IsRef(h, p.current) && p.next < |h[p.current].fields| && q == p.(next := p.next + 1)
    ensures h[p.current].count > 0 ==> Pending(h, p) == Pending(h, q) + multiset{h[p.current].fields[p.next]}
    ensures h[p.current].count == 0 ==> Pending(h, p) == Pending(h, q) == multiset{}
  {
    var fields := h[p.current].fields;
    assert fields[p.next..] == [fields[p.next]] + fields[p.next + 1..];
  }

  /** A field that is not live is skipped. */
  lemma SkipBooks(h: seq<Object>, release: set<Ref>, p: Phase, held: multiset<Ref>, q: Phase)
    requires Books(h, release, p, held)
    requires p.Releasing? && IsRef(h, p.current) && p.next < |h[p.current].fields| && q == p.(next := p.next + 1)
    requires var f := h[p.current].fields[p.next]; !(f != NULL && IsRef(h, f) && h[f].state == Live)
    ensures Books(h, release, q, held)
  {
    hide Slots, Accounts, Pending;
    var f, C, X := h[p.current].fields[p.next], Counted(h, release, p), Condemning(release, p);
    PendingNext(h, p, q);
    var ext := held + Pending(h, p);
    if IsRef(h, f) && f !in X && ext[f] > 0 { LooseIsCounted(h, C, X, ext, f); }
    AccountsLoose(h, C, X, ext, held + Pending(h, q));
    assert Counted(h, release, q) == C;
  }

  lemma ReleaseSkipKeeps(s: Sys, s': Sys, order: seq<Ref>)
    requires Inv(s) && ReleaseFieldStep(s, s', order) && s'.h == s.h
    requires var f := s.h[s.phase.current].fields[s.phase.next]; !(f != NULL && IsRef(s.h, f) && s.h[f].state == Live)
    ensures Inv(s')
  {
    hide Books, ThreadsOk, LocksOk, ListsOk, Forest;
    SkipBooks(s.h, s.release, s.phase, Total(s.threads), s'.phase);
    ShiftLists(s.h, s.suspected, s.roots, s.unprocessed, s.release, s.phase, s'.phase, s.threads);
    ShiftLocks(|s.h|, s.locks, s.listLock, s.threads, s.phase, s'.phase);
  }

  /** The release loop drops a live field: an object with no references owns no live one. */
  lemma LiveFieldCounted(h: seq<Object>, roots: set<Ref>, release: set<Ref>, p: Phase)
    requires States(h, release, p) && PhaseOk(h, roots, release, p)
    requires p.Releasing? && IsRef(h, p.current) && p.next < |h[p.current].fields|
    requires var f := h[p.current].fields[p.next]; f != NULL && IsRef(h, f) && h[f].state == Live
    ensures h[p.current].count > 0
  {
    hide Forest;
    assert h[p.current].fields[p.next] in h[p.current].fields;
  }

  lemma DropBooks(h: seq<Object>, h': seq<Object>, roots: set<Ref>, release: set<Ref>, p: Phase, q: Phase,
                  held: multiset<Ref>, order: seq<Ref>)
    requires Books(h, release, p, held) && PhaseOk(h, roots, release, p)
    requires p.Releasing? && IsRef(h, p.current) && p.next < |h[p.current].fields| && q == p.(next := p.next + 1)
    requires h[p.current].count > 0
    requires Falling(h, h', release, p, held + Pending(h, p), h[p.current].fields[p.next], order)
    ensures Books(h', release, q, held)
  {
    hide Slots, Accounts, Pending, Falling, Fallen, Condemning, Counted, Grounded, PhaseOk;
    var f, ext := h[p.current].fields[p.next], held + Pending(h, p);
    FallingFacts(h, h', release, p, ext, f, order);
    FallenCounted(h, h', release, p, order);
    PhaseCurrentOk(h, roots, release, p);
    CurrentStays(h, h', release, p, q, order);
    PendingNext(h, p, q);
    assert ext - multiset{f} == held + Pending(h, q);
    SameCounted(h', release, p, q);
  }

  lemma CurrentStays(h: seq<Object>, h': seq<Object>, release: set<Ref>, p: Phase, q: Phase, order: seq<Ref>)
    requires PhaseCurrent(h, release, p) && Fallen(h, h', Counted(h, release, p), Condemning(release, p), order)
    requires p.Releasing? && q == p.(next := p.next + 1)
    ensures Pending(h', q) == Pending(h, q)
  {
    hide Settled, Counted;
    if p.current != NULL { assert p.current in Condemning(release, p); }
  }

  lemma SameCounted(h: seq<Object>, release: set<Ref>, p: Phase, q: Phase)
    requires p.Releasing? && q == p.(next := p.next + 1)
    ensures Counted(h, release, q) == Counted(h, release, p) && Condemning(release, q) == Condemning(release, p)
  {
  }

  /** What the threads hold does not run out. */
  lemma FallOthers(s: Sys, s': Sys, order: seq<Ref>)
    requires ThreadsOk(s.h, s.locks, s.listLock, s.threads)
    requires s'.locks == s.locks && s'.listLock == s.listLock && s'.threads == s.threads
    requires Fallen(s.h, s'.h, Counted(s.h, s.release, s.phase), Condemning(s.release, s.phase), order)
    requires forall y :: y in order ==> Total(s.threads)[y] == 0
    ensures ThreadsOk(s'.h, s'.locks, s'.listLock, s'.threads)
  {
    hide Total, Counted, Condemning, Settled;
    forall u, y | 0 <= u < |s.threads| && y in s.threads[u].held ensures y !in order {
      TotalUpdate(s.threads, u, s.threads[u]);
    }
    forall u | 0 <= u < |s.threads| ensures ThreadOk(s'.h, s'.locks, s'.listLock, u, s'.threads[u]) {
      assert ThreadOk(s.h, s.locks, s.listLock, u, s.threads[u]);
    }
  }

  lemma ReleaseDropKeeps(s: Sys, s': Sys, order: seq<Ref>)
    requires Inv(s) && ReleaseFieldStep(s, s', order)
    requires var f := s.h[s.phase.current].fields[s.phase.next]; f != NULL && IsRef(s.h, f) && s.h[f].state == Live
    ensures Inv(s')
  {
    hide Books, States, LocksOk, PhaseOk, ListsOk, ThreadsOk, Condemning, Counted, Dropped, Fallen, Grounded, Accounts,
         Pending;
    var held, f := Total(s.threads), s.h[s.phase.current].fields[s.phase.next];
    var ext := held + Pending(s.h, s.phase);
    BooksAccounts(s.h, s.release, s.phase, held);
    LiveFieldCounted(s.h, s.roots, s.release, s.phase);
    DropBooks(s.h, s'.h, s.roots, s.release, s.phase, s'.phase, held, order);
    FallStates(s.h, s'.h, s.release, s.phase, ext, f, order);
    FallingFacts(s.h, s'.h, s.release, s.phase, ext, f, order);
    FallPhase(s.h, s'.h, s.roots, s.release, s.phase, ext, f, order);
    GroundedLoose(s.h, Counted(s.h, s.release, s.phase), Condemning(s.release, s.phase), ext - multiset{f}, order);
    PendingNext(s.h, s.phase, s'.phase);
    forall y | y in order ensures held[y] == 0 { assert (ext - multiset{f})[y] == 0; }
    FallOthers(s, s', order);
    FallenLength(s.h, s'.h, Counted(s.h, s.release, s.phase), Condemning(s.release, s.phase), order);
    ShiftLocks(|s.h|, s.locks, s.listLock, s.threads, s.phase, s'.phase);
    FallLists(s.h, s'.h, Counted(s.h, s.release, s.phase), Condemning(s.release, s.phase), order,
              s.suspected, s.roots, s.unprocessed, s.release, s.phase, s.threads);
    ShiftLists(s'.h, s.suspected, s.roots, s.unprocessed, s.release, s.phase, s'.phase, s.threads);
    ReleaseNext(s.h, s'.h, s.roots, s.release, s.phase, s'.phase, order);
  }

  lemma ReleaseNext(h: seq<Object>, h': seq<Object>, roots: set<Ref>, release: set<Ref>, p: Phase, q: Phase,
                    order: seq<Ref>)
    requires Fallen(h, h', Counted(h, release, p), Condemning(release, p), order)
    requires PhaseOk(h', roots, release, p) && States(h', release, p)
    requires p.Releasing? && IsRef(h, p.current) && p.next < |h[p.current].fields| && q == p.(next := p.next + 1)
    ensures PhaseOk(h', roots, release, q) && States(h', release, q)
  {
    hide Forest, Counted, Settled;
    assert p.current in Condemning(release, p);
  }

  lemma ReleaseFieldKeeps(s: Sys, s': Sys, order: seq<Ref>)
    requires Inv(s) && ReleaseFieldStep(s, s', order)
    ensures Inv(s')
  {
    hide Inv, DroppedIn;
    var f := s.h[s.phase.current].fields[s.phase.next];
    if f != NULL && IsRef(s.h, f) && s.h[f].state == Live {
      ReleaseDropKeeps(s, s', order);
    } else {
      ReleaseSkipKeeps(s, s', order);
    }
  }

  lemma ReleasePutKeeps(s: Sys, s': Sys)
    requires Inv(s) && ReleasePutStep(s, s')
    ensures Inv(s')
  {
    hide Books, States, ThreadsOk, LocksOk, ListsOk;
    assert s.h[s.phase.current].fields[s.phase.next..] == [];
    assert Pending(s.h, s.phase) == multiset{};
    ShiftKeeps(s, s');
  }

  lemma ReleaseDoneKeeps(s: Sys, s': Sys)
    requires Inv(s) && ReleaseDoneStep(s, s')
    ensures Inv(s')
  {
    hide Books, States, ThreadsOk, LocksOk, ListsOk;
    ShiftKeeps(s, s');
  }

  // --------------------------------------------------------------- killing

  lemma KillBooks(h: seq<Object>, release: set<Ref>, held: multiset<Ref>, x: Ref)
    requires Books(h, release, Killing, held) && x in release && IsRef(h, x)
    ensures Books(h[x := h[x].(state := Dead)], release - {x}, Killing, held)
  {
    hide Slots;
    var h', release', C := h[x := h[x].(state := Dead)], release - {x}, Counted(h, release, Killing);
    assert forall y :: y in Counted(h', release', Killing) <==> y in C;
    assert Counted(h', release', Killing) == C;
    forall y ensures Slots(h', C, y) == Slots(h, C, y) { SlotsFrame(h, h', C, y); }
    assert forall o, y :: Points(h', o, y) <==> Points(h, o, y);
    SlotsZero(h, C, x);
  }

  lemma KillStates(h: seq<Object>, release: set<Ref>, x: Ref)
    requires States(h, release, Killing) && WellFormed(h) && x in release && IsRef(h, x)
    ensures States(h[x := h[x].(state := Dead)], release - {x}, Killing)
  {
    hide Forest;
    var h' := h[x := h[x].(state := Dead)];
    assert TreeSet(h', release - {x}) == TreeSet(h, release);
    ForestFrame(h, h', TreeSet(h, release));
  }

  lemma KillLists(s: Sys, s': Sys, x: Ref)
    requires ListsOk(s.h, s.suspected, s.roots, s.unprocessed, s.release, s.phase, s.threads) && KillStep(s, s', x)
    ensures ListsOk(s'.h, s'.suspected, s'.roots, s'.unprocessed, s'.release, s'.phase, s'.threads)
  {
  }

  lemma KillKeeps(s: Sys, s': Sys, x: Ref)
    requires Inv(s) && KillStep(s, s', x)
    ensures Inv(s')
  {
    hide Books, States, ThreadsOk, LocksOk, ListsOk, WellFormed;
    InvParts(s);
    KillBooks(s.h, s.release, Total(s.threads), x);
    KillStates(s.h, s.release, x);
    KillLists(s, s', x);
    StateThreads(s, s');
  }

  lemma KilledKeeps(s: Sys, s': Sys)
    requires Inv(s) && KilledStep(s, s')
    ensures Inv(s')
  {
    hide Books, States, ThreadsOk, LocksOk, ListsOk;
    ShiftKeeps(s, s');
  }

  lemma ReinsertKeeps(s: Sys, s': Sys, x: Ref)
    requires Inv(s) && ReinsertStep(s, s', x)
    ensures Inv(s')
  {
    hide Books, States, ThreadsOk, LocksOk;
  }

  lemma EndKeeps(s: Sys, s': Sys)
    requires Inv(s) && EndStep(s, s')
    ensures Inv(s')
  {
    hide Books, States, ThreadsOk, LocksOk;
    ShiftBooks(s.h, s.release, s.phase, s'.phase, Total(s.threads));
    ShiftLocks(|s.h|, s.locks, s.listLock, s.threads, s.phase, s'.phase);
  }
}
