/** Over every run, a cycle of objects of cyclic types that are not dead never goes unnoticed: one of its
    objects is flagged for the collector, or a thread is just about to flag it. */
module ProtocolCycles {
  import opened Memory
  import opened RefCount
  import opened Consistency
  import opened Protocol
  import opened ProtocolInvariant
  import opened ProtocolThreads
  import opened ProtocolWrites
  import opened ProtocolDrops
  import opened ProtocolCollector
  import opened ProtocolSafety

  /** Some thread has taken the count of `x` from one to two and has yet to set its flag. */
  ghost predicate Noticed(threads: seq<Thread>, x: Ref) {
    exists t :: 0 <= t < |threads| && threads[t].registration == Flagging(x)
  }

  /** Objects of a cyclic type that are not dead and that nobody has noticed. */
  ghost function Unnoticed(h: seq<Object>, threads: seq<Thread>): set<Ref> {
    set x | 0 <= x < |h| && h[x].state != Dead && h[x].isCyclicType && !h[x].asyncRelease && !Noticed(threads, x)
  }

  ghost predicate Watched(h: seq<Object>, threads: seq<Thread>) {
    && (forall x :: x in Unnoticed(h, threads) ==> h[x].count <= 1)
    && Acyclic(h, Unnoticed(h, threads))
  }

  /** A step after which fewer objects are unnoticed and fewer fields are set. */
  ghost predicate Shrinks(h: seq<Object>, h': seq<Object>, threads: seq<Thread>, threads': seq<Thread>) {
    && |h'| == |h|
    && (forall x :: x in Unnoticed(h', threads') ==>
          x in Unnoticed(h, threads) && (h'[x].count <= h[x].count || h'[x].count <= 1))
    && (forall x, y :: x in Unnoticed(h', threads') && Points(h', x, y) ==> Points(h, x, y))
  }

  lemma WatchedShrinks(h: seq<Object>, h': seq<Object>, threads: seq<Thread>, threads': seq<Thread>)
    requires Watched(h, threads) && Shrinks(h, h', threads, threads')
    ensures Watched(h', threads')
  {
    hide Acyclic, Unnoticed;
    forall x | x in Unnoticed(h', threads') ensures x in Unnoticed(h, threads) {}
    AcyclicShrink(h, h', Unnoticed(h, threads), Unnoticed(h', threads'));
  }

  // ---------------------------------------------------------- thread steps

  /** A thread that has nothing to flag comes to nothing that others had noticed. */
  lemma NoticedFrame(threads: seq<Thread>, t: nat, T: Thread, x: Ref)
    requires t < |threads| && Noticed(threads, x)
    requires (threads[t].registration == Flagging(x) ==> T.registration == Flagging(x))
    ensures Noticed(threads[t := T], x)
  {
    var u :| 0 <= u < |threads| && threads[u].registration == Flagging(x);
    assert threads[t := T][u].registration == Flagging(x);
  }

  /** Steps that leave memory alone. */
  lemma QuietShrinks(s: Sys, s': Sys, t: nat)
    requires s'.h == s.h && t < |s.threads| == |s'.threads| && s'.threads == s.threads[t := s'.threads[t]]
    requires !s.threads[t].registration.Flagging?
    ensures Shrinks(s.h, s'.h, s.threads, s'.threads)
  {
    forall x | Noticed(s.threads, x) ensures Noticed(s'.threads, x) { NoticedFrame(s.threads, t, s'.threads[t], x); }
  }

  /** A count grows beyond one only if the thread is to flag the object, or it was noticed before. */
  lemma BumpShrinks(s: Sys, s': Sys, t: nat, x: Ref, T: Thread)
    requires IsRef(s.h, x) && t < |s.threads| && s.threads[t].registration.NoRegistration?
    requires T.registration == NextRegistration(s.h[x], x)
    requires s'.threads == s.threads[t := T] && s'.h == s.h[x := Bumped(s.h[x])]
    requires Watched(s.h, s.threads) && s.h[x].count > 0
    ensures Shrinks(s.h, s'.h, s.threads, s'.threads)
  {
    hide Acyclic;
    forall y | Noticed(s.threads, y) ensures Noticed(s'.threads, y) { NoticedFrame(s.threads, t, T, y); }
    if s.h[x].count == 1 && s.h[x].isCyclicType {
      assert s'.threads[t].registration == Flagging(x);
      assert Noticed(s'.threads, x);
    }
    assert forall o, y :: Points(s'.h, o, y) <==> Points(s.h, o, y);
  }

  lemma FlagShrinks(s: Sys, s': Sys, t: nat)
    requires FlagStep(s, s', t)
    ensures Shrinks(s.h, s'.h, s.threads, s'.threads)
  {
    var x := s.threads[t].registration.x;
    forall y | Noticed(s.threads, y) && y != x
      ensures Noticed(s'.threads, y)
    {
      NoticedFrame(s.threads, t, s'.threads[t], y);
    }
    assert s'.h[x].asyncRelease;
    assert forall o, y :: Points(s'.h, o, y) <==> Points(s.h, o, y);
  }

  // A part of memory that meets the condemned objects is judged by its condemned members: nothing else
  // points to those, and a mutator does not reach them. The rest of memory has no stale fields.

  ghost function CondemnedSet(s: Sys): set<Ref> { Condemning(s.release, s.phase) }

  /** Condemned members that no condemned member points to are pointed to by no member at all. */
  lemma CondemnedPart(s: Sys, B: set<Ref>, b: Ref)
    requires Inv(s) && forall o :: o in B && IsRef(s.h, o) ==> s.h[o].state != Dead
    requires b in B * CondemnedSet(s) && NoneFrom(s.h, B * CondemnedSet(s), b)
    ensures NoneFrom(s.h, B, b)
  {
    hide Inv, Condemning;
    forall o | o in B ensures !Points(s.h, o, b) {
      if Points(s.h, o, b) { PointerCondemned(s, o, b); }
    }
  }

  /** Objects that are neither dead nor condemned do not point to what has one holder and no more
      counts, nor to what is dead. */
  lemma PlainPointers(s: Sys, o: Ref, p: Ref)
    requires Inv(s) && IsRef(s.h, o) && s.h[o].state != Dead && !Condemned(s, o)
    requires IsRef(s.h, p)
    requires (s.h[p].state == Dead || (s.h[p].state == Live && s.h[p].count <= 1 && Total(s.threads)[p] > 0))
    ensures !Points(s.h, o, p)
  {
    hide Inv, Counted, Condemning;
    var C := Counted(s.h, s.release, s.phase);
    if o in C {
      if s.h[p].state == Live { HeldNotCondemned(s, p); }
      CountsExact(s, p);
      SlotsZero(s.h, C, p);
    } else {
      TreePointers(s, o, p);
    }
  }

  lemma HeldNotCondemned(s: Sys, p: Ref)
    requires Inv(s) && IsRef(s.h, p) && Total(s.threads)[p] > 0
    ensures !Condemned(s, p)
  {
    hide States, ThreadsOk, LocksOk, ListsOk, PhaseOk, Slots;
  }

  /** What is not dead, not condemned and not counted waits in a tree. */
  lemma TreePointers(s: Sys, o: Ref, p: Ref)
    requires Inv(s) && IsRef(s.h, o) && s.h[o].state != Dead && !Condemned(s, o)
    requires o !in Counted(s.h, s.release, s.phase)
    requires IsRef(s.h, p) && s.h[p].state != WaitingForGc
    ensures !Points(s.h, o, p)
  {
    hide ThreadsOk, LocksOk, ListsOk, PhaseOk, Forest, Slots, Reach;
    assert o in TreeSet(s.h, s.release);
    if Points(s.h, o, p) { TreeField(s.h, TreeSet(s.h, s.release), o, p); }
  }

  /** An unnoticed parent has one reference, the one its writer holds, so no path leads to it. */
  lemma WriteWatched(s: Sys, s': Sys, t: nat, i: nat, x: Ref)
    requires Inv(s) && WriteStep(s, s', t, i, x) && Watched(s.h, s.threads)
    ensures Watched(s'.h, s'.threads)
  {
    hide Inv, Acyclic;
    var p, N, N' := s.threads[t].lock, Unnoticed(s.h, s.threads), Unnoticed(s'.h, s'.threads);
    forall y | Noticed(s.threads, y) ensures Noticed(s'.threads, y) { NoticedFrame(s.threads, t, s'.threads[t], y); }
    assert N' <= N;
    WriterAlone(s, t, i, x);
    forall B: set<Ref> | B <= N && B != {} ensures exists b :: b in B && NoneFrom(s'.h, B, b) {
      WriteLeavesSource(s, p, i, x, N, B);
    }
    assert Acyclic(s'.h, N) by { AcyclicIntro(s'.h, N); }
    AcyclicShrink(s'.h, s'.h, N, N');
  }

  lemma AcyclicIntro(h: seq<Object>, N: set<Ref>)
    requires forall B: set<Ref> :: B <= N && B != {} ==> exists b :: b in B && NoneFrom(h, B, b)
    ensures Acyclic(h, N)
  {
  }

  lemma WriterAlone(s: Sys, t: nat, i: nat, x: Ref)
    requires Inv(s) && t < |s.threads| && s.threads[t].lock != NULL
    requires x == s.threads[t].lock ==> s.threads[t].held[x] >= 2
    requires x == NULL || x in s.threads[t].held
    ensures var p := s.threads[t].lock; Writer(s, p) && (x == p ==> s.h[p].count >= 2) && !Condemned(s, x)
  {
    hide Inv, Noticed, Counted, Condemning;
    var p := s.threads[t].lock;
    ThreadFacts(s, t);
    ThreadHolds(s, t, p);
    TotalUpdate(s.threads, t, s.threads[t]);
    CountsExact(s, p);
    if x != NULL { ThreadHolds(s, t, x); } else if Condemned(s, x) { CondemnedNotDead(s, x); }
  }

  /** `p` is live and held. */
  ghost predicate Writer(s: Sys, p: Ref) {
    IsRef(s.h, p) && s.h[p].state == Live && Total(s.threads)[p] > 0 && !Condemned(s, p)
  }

  /** After a write to `p`, every part of the unnoticed objects still has a member that none points to. */
  lemma WriteLeavesSource(s: Sys, p: Ref, i: nat, x: Ref, N: set<Ref>, B: set<Ref>)
    requires Inv(s) && Acyclic(s.h, N) && N == Unnoticed(s.h, s.threads) && B <= N && B != {}
    requires forall y :: y in N ==> s.h[y].count <= 1
    requires Writer(s, p) && i < |s.h[p].fields| && (x == p ==> s.h[p].count >= 2) && !Condemned(s, x)
    ensures exists b :: b in B && NoneFrom(Written(s.h, p, i, x), B, b)
  {
    hide Inv, Noticed, Condemning, NoneFrom;
    var D := B * CondemnedSet(s);
    if D != {} {
      assert D <= N;
      var b :| b in D && NoneFrom(s.h, D, b);
      CondemnedPart(s, B, b);
      WrittenNoneFrom(s.h, p, i, x, B, b);
    } else if p in B {
      NotInPart(s, B);
      PlainPart(s, B, p);
      WrittenNoneFrom(s.h, p, i, x, B, p);
    } else {
      var b :| b in B && NoneFrom(s.h, B, b);
      SameEdges(s.h, Written(s.h, p, i, x), B, b);
    }
  }

  lemma NotInPart(s: Sys, B: set<Ref>)
    requires B * CondemnedSet(s) == {}
    ensures forall o :: o in B ==> !Condemned(s, o)
  {
    hide Condemning;
    forall o | o in B ensures !Condemned(s, o) { assert o !in B * CondemnedSet(s); }
  }

  lemma PlainPart(s: Sys, B: set<Ref>, p: Ref)
    requires Inv(s) && IsRef(s.h, p)
    requires s.h[p].state == Dead || (s.h[p].state == Live && s.h[p].count <= 1 && Total(s.threads)[p] > 0)
    requires forall o :: o in B ==> IsRef(s.h, o) && s.h[o].state != Dead && !Condemned(s, o)
    ensures NoneFrom(s.h, B, p)
  {
    hide Inv, Condemning;
    forall o | o in B ensures !Points(s.h, o, p) { PlainPointers(s, o, p); }
  }

  /** Cells change as a cascade changes them. */
  lemma FallShrinks(h: seq<Object>, h': seq<Object>, C: set<Ref>, X: set<Ref>, order: seq<Ref>, threads: seq<Thread>,
                    threads': seq<Thread>)
    requires Fallen(h, h', C, X, order)
    requires forall x :: Noticed(threads, x) ==> Noticed(threads', x)
    ensures Shrinks(h, h', threads, threads')
  {
    hide Noticed;
    forall x | x in Unnoticed(h', threads') ensures x in Unnoticed(h, threads) && h'[x].count <= h[x].count {
      if x in order { assert Settled(h[x], h'[x]); }
    }
    forall x, y | Points(h', x, y) ensures Points(h, x, y) { FallPoints(h, h', C, X, order, x, y); }
  }

  lemma DropWatched(s: Sys, s': Sys, t: nat, x: Ref, order: seq<Ref>)
    requires Inv(s) && DropStep(s, s', t, x, order) && Watched(s.h, s.threads)
    ensures Watched(s'.h, s'.threads)
  {
    hide Inv, Watched, Falling, Counted, Condemning, Fallen, Dropped, Pending;
    InvParts(s);
    BooksAccounts(s.h, s.release, s.phase, Total(s.threads));
    FallingIntro(s, s'.h, x, order);
    FallingFacts(s.h, s'.h, s.release, s.phase, Total(s.threads) + Pending(s.h, s.phase), x, order);
    forall y | Noticed(s.threads, y) ensures Noticed(s'.threads, y) { NoticedFrame(s.threads, t, s'.threads[t], y); }
    FallShrinks(s.h, s'.h, Counted(s.h, s.release, s.phase), Condemning(s.release, s.phase), order, s.threads,
                s'.threads);
    WatchedShrinks(s.h, s'.h, s.threads, s'.threads);
  }

  lemma FallingIntro(s: Sys, h': seq<Object>, x: Ref, order: seq<Ref>)
    requires Inv(s) && DroppedIn(s, h', x, order)
    ensures Falling(s.h, h', s.release, s.phase, Total(s.threads) + Pending(s.h, s.phase), x, order)
  {
    hide States, ThreadsOk, LocksOk, ListsOk, PhaseOk, Accounts, Dropped;
  }

  lemma AllocateWatched(s: Sys, s': Sys, t: nat, x: Ref, n: nat, cyclic: bool)
    requires Inv(s) && AllocateStep(s, s', t, x, n, cyclic) && Watched(s.h, s.threads)
    ensures Watched(s'.h, s'.threads)
  {
    hide Inv, Acyclic, NoneFrom;
    var N, N' := Unnoticed(s.h, s.threads), Unnoticed(s'.h, s'.threads);
    forall y | Noticed(s.threads, y) ensures Noticed(s'.threads, y) { NoticedFrame(s.threads, t, s'.threads[t], y); }
    assert N' <= N + {x};
    forall B: set<Ref> | B <= N' && B != {} ensures exists b :: b in B && NoneFrom(s'.h, B, b) {
      AllocateLeavesSource(s, x, n, cyclic, N, B);
    }
    AcyclicIntro(s'.h, N');
  }

  lemma AllocateLeavesSource(s: Sys, x: Ref, n: nat, cyclic: bool, N: set<Ref>, B: set<Ref>)
    requires Inv(s) && Acyclic(s.h, N) && N == Unnoticed(s.h, s.threads) && B <= N + {x} && B != {}
    requires IsRef(s.h, x) && s.h[x].state == Dead
    ensures exists b :: b in B && NoneFrom(s.h[x := Fresh(n, cyclic)], B, b)
  {
    hide Inv, Noticed, Condemning, NoneFrom;
    var B0 := B - {x};
    var D := B0 * CondemnedSet(s);
    if D != {} {
      assert D <= N;
      var b :| b in D && NoneFrom(s.h, D, b);
      CondemnedPart(s, B0, b);
      FreshNoneFrom(s.h, x, n, cyclic, B, b);
    } else if x in B {
      NotInPart(s, B0);
      PlainPart(s, B0, x);
      FreshNoneFrom(s.h, x, n, cyclic, B, x);
    } else {
      assert B <= N;
      var b :| b in B && NoneFrom(s.h, B, b);
      SameEdges(s.h, s.h[x := Fresh(n, cyclic)], B, b);
    }
  }

  lemma ThreadWatched(s: Sys, s': Sys, t: nat)
    requires Inv(s) && ThreadStep(s, s', t) && Watched(s.h, s.threads)
    ensures Watched(s'.h, s'.threads)
  {
    hide Inv, Watched, Shrinks, DropStep, AllocateStep, WriteStep, FlagStep, CloneStep, CountReadStep;
    if x :| CloneStep(s, s', t, x) { CloneShrinks(s, s', t, x); }
    else if FlagStep(s, s', t) { FlagShrinks(s, s', t); WatchedShrinks(s.h, s'.h, s.threads, s'.threads); }
    else if i, x :| WriteStep(s, s', t, i, x) { WriteWatched(s, s', t, i, x); }
    else if CountReadStep(s, s', t) { CountReadShrinks(s, s', t); }
    else if x, order :| DropStep(s, s', t, x, order) { DropWatched(s, s', t, x, order); }
    else if x, n, cyclic :| AllocateStep(s, s', t, x, n, cyclic) { AllocateWatched(s, s', t, x, n, cyclic); }
    else { IdleShrinks(s, s', t); }
  }

  lemma CloneShrinks(s: Sys, s': Sys, t: nat, x: Ref)
    requires Inv(s) && CloneStep(s, s', t, x) && Watched(s.h, s.threads)
    ensures Watched(s'.h, s'.threads)
  {
    hide Inv, Watched, Shrinks;
    ThreadHolds(s, t, x);
    BumpShrinks(s, s', t, x, s'.threads[t]);
    WatchedShrinks(s.h, s'.h, s.threads, s'.threads);
  }

  lemma CountReadShrinks(s: Sys, s': Sys, t: nat)
    requires Inv(s) && CountReadStep(s, s', t) && Watched(s.h, s.threads)
    ensures Watched(s'.h, s'.threads)
  {
    hide Inv, Watched, Shrinks;
    ThreadFacts(s, t);
    ThreadHolds(s, t, s.threads[t].lock);
    InvParts(s);
    FieldFacts(s.h, s.release, s.phase, Total(s.threads), s.threads[t].lock, s.threads[t].got);
    BumpShrinks(s, s', t, s.threads[t].got, s'.threads[t]);
    WatchedShrinks(s.h, s'.h, s.threads, s'.threads);
  }

  lemma IdleShrinks(s: Sys, s': Sys, t: nat)
    requires AcquireListStep(s, s', t) || InsertStep(s, s', t) || LeaveListStep(s, s', t)
          || (exists p :: WantStep(s, s', t, p)) || LockStep(s, s', t) || (exists i :: ReadStep(s, s', t, i))
          || UnlockStep(s, s', t)
    requires Inv(s) && Watched(s.h, s.threads)
    ensures Watched(s'.h, s'.threads)
  {
    hide Books, States, LocksOk, ListsOk, PhaseOk, Watched, Shrinks;
    ThreadFacts(s, t);
    QuietShrinks(s, s', t);
    WatchedShrinks(s.h, s'.h, s.threads, s'.threads);
  }

  // ------------------------------------------------------- collector steps

  /** The collector changes states, or drops. */
  lemma CollectorWatched(s: Sys, s': Sys)
    requires Inv(s) && CollectorStep(s, s') && Watched(s.h, s.threads)
    ensures Watched(s'.h, s'.threads)
  {
    hide Inv, Watched, Shrinks, ReleaseFieldStep;
    if order :| ReleaseFieldStep(s, s', order) {
      ReleaseWatched(s, s', order);
    } else {
      forall x | Condemned(s, x) ensures IsRef(s.h, x) && s.h[x].state != Dead { CondemnedNotDead(s, x); }
      CollectorStates(s, s');
      StatesShrinks(s.h, s'.h, s.threads);
      WatchedShrinks(s.h, s'.h, s.threads, s'.threads);
    }
  }

  lemma CollectorStates(s: Sys, s': Sys)
    requires CollectorStep(s, s') && forall order :: !ReleaseFieldStep(s, s', order)
    requires forall x :: Condemned(s, x) ==> IsRef(s.h, x) && s.h[x].state != Dead
    ensures s'.threads == s.threads && |s'.h| == |s.h|
    ensures forall x :: IsRef(s.h, x) && s'.h[x] != s.h[x] ==>
          s'.h[x] == s.h[x].(state := s'.h[x].state) && s.h[x].state != Dead
  {
    hide ReleaseFieldStep, Reach;
  }

  lemma StatesShrinks(h: seq<Object>, h': seq<Object>, threads: seq<Thread>)
    requires |h'| == |h|
    requires forall x :: IsRef(h, x) && h'[x] != h[x] ==> h'[x] == h[x].(state := h'[x].state) && h[x].state != Dead
    ensures Shrinks(h, h', threads, threads)
  {
    hide Noticed;
    assert forall x :: IsRef(h, x) ==> h'[x] == h[x].(state := h'[x].state);
  }

  lemma ReleaseWatched(s: Sys, s': Sys, order: seq<Ref>)
    requires Inv(s) && ReleaseFieldStep(s, s', order) && Watched(s.h, s.threads)
    ensures Watched(s'.h, s'.threads)
  {
    hide Inv, Watched, Shrinks, Falling, Counted, Condemning, Fallen, Dropped, Pending;
    var f := s.h[s.phase.current].fields[s.phase.next];
    if f != NULL && IsRef(s.h, f) && s.h[f].state == Live {
      FallingIntro(s, s'.h, f, order);
      FallingFacts(s.h, s'.h, s.release, s.phase, Total(s.threads) + Pending(s.h, s.phase), f, order);
      FallShrinks(s.h, s'.h, Counted(s.h, s.release, s.phase), Condemning(s.release, s.phase), order, s.threads,
                  s'.threads);
      WatchedShrinks(s.h, s'.h, s.threads, s'.threads);
    }
  }

  // ------------------------------------------------------------ over runs

  lemma {:induction false} RunWatched(run: seq<Sys>, k: nat)
    requires IsRun(run) && k < |run|
    ensures Watched(run[k].h, run[k].threads)
  {
    hide Inv, Watched, Next;
    if k == 0 {
      InitWatched(run[0]);
    } else {
      var s, s' := run[k - 1], run[k - 1 + 1];
      RunWatched(run, k - 1);
      RunInv(run, k - 1);
      assert Next(s, s');
      NextWatched(s, s');
    }
  }

  lemma NextWatched(s: Sys, s': Sys)
    requires Inv(s) && Next(s, s') && Watched(s.h, s.threads)
    ensures Watched(s'.h, s'.threads)
  {
    hide Inv, Watched, ThreadStep, CollectorStep;
    if t :| ThreadStep(s, s', t) { ThreadWatched(s, s', t); } else { CollectorWatched(s, s'); }
  }

  lemma InitWatched(s: Sys)
    requires Init(s)
    ensures Watched(s.h, s.threads)
  {
    hide Noticed;
    assert forall x :: x !in Unnoticed(s.h, s.threads);
  }

  /** In every state of every run, every cycle of objects of cyclic types that are not dead
      contains one that is flagged for the collector or is just being flagged. */
  lemma RunCycles(run: seq<Sys>, k: nat, cycle: seq<Ref>)
    requires IsRun(run) && k < |run| && cycle != [] && IsPath(run[k].h, cycle + [cycle[0]])
    requires forall x :: x in cycle ==> IsRef(run[k].h, x) && run[k].h[x].state != Dead && run[k].h[x].isCyclicType
    ensures exists x :: x in cycle && IsRef(run[k].h, x) && (run[k].h[x].asyncRelease || Noticed(run[k].threads, x))
  {
    hide IsPath, NoneFrom, IsRun, Noticed;
    RunWatched(run, k);
    var h, B := run[k].h, Elems(cycle);
    assert cycle[0] in B;
    forall b | b in B ensures !NoneFrom(h, B, b) {
      CycleHasPredecessors(h, cycle, b);
    }
    assert !(B <= Unnoticed(h, run[k].threads));
    var x :| x in B && x !in Unnoticed(h, run[k].threads);
    assert x in cycle;
  }
}
