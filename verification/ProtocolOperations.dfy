/** The steps of a thread make up the operations of src/CatLa.cpp:120-188: from a state in which the locks
    they take are free, a thread alone gets from one end of an operation to the other, with the result
    that Mutator states. */
module ProtocolOperations {
  import opened Memory
  import opened RefCount
  import opened Consistency
  import opened Mutator
  import opened Protocol
  import opened ProtocolInvariant
  import opened ProtocolSafety

  /** Steps of thread `t` one after the other. */
  ghost predicate ThreadRun(run: seq<Sys>, t: nat) {
    run != [] && forall k :: 0 <= k < |run| - 1 ==> ThreadStep(run[k], run[k + 1], t)
  }

  lemma Extend(run: seq<Sys>, s: Sys, t: nat)
    requires ThreadRun(run, t) && ThreadStep(run[|run| - 1], s, t)
    ensures ThreadRun(run + [s], t)
  {
    hide ThreadStep;
    var longer := run + [s];
    forall k | 0 <= k < |longer| - 1 ensures ThreadStep(longer[k], longer[k + 1], t) {
      if k < |run| - 1 { assert ThreadStep(run[k], run[k + 1], t); }
    }
  }

  /** Nothing but thread `t`, and the cell of `p`, differs. */
  ghost predicate OnlyHere(s: Sys, s': Sys, t: nat, p: Ref) {
    && |s'.threads| == |s.threads| && (forall u :: 0 <= u < |s.threads| && u != t ==> s'.threads[u] == s.threads[u])
    && |s'.h| == |s.h| && (forall y :: IsRef(s.h, y) && y != p ==> s'.h[y] == s.h[y])
    && s'.locks == s.locks && s'.listLock == s.listLock && s'.phase == s.phase
    && s'.roots == s.roots && s'.unprocessed == s.unprocessed && s'.release == s.release
  }

  /** What a thread holds after an operation, with nothing under way. */
  ghost predicate Holds(s: Sys, t: nat, held: multiset<Ref>) {
    t < |s.threads| && s.threads[t] == Thread(held, NULL, NULL, NULL, NoRegistration)
  }

  /** A thread that is idle and may take the lock of `p`, which it holds. */
  ghost predicate Ready(s: Sys, t: nat, p: Ref) {
    && Inv(s) && t < |s.threads| && s.threads[t].Idle() && p in s.threads[t].held
    && IsRef(s.h, p) && p < |s.locks| && s.locks[p] == Free
  }

  function Locked(s: Sys, t: nat, p: Ref): Sys
    requires t < |s.threads| && 0 <= p < |s.locks|
  {
    Put(s, t, s.threads[t].(lock := p)).(locks := s.locks[p := Mutator(t)])
  }

  lemma LockRun(s: Sys, t: nat, p: Ref) returns (run: seq<Sys>)
    requires Ready(s, t, p)
    ensures ThreadRun(run, t) && run[0] == s && run[|run| - 1] == Locked(s, t, p)
  {
    hide Inv;
    var T := s.threads[t];
    var s1 := Put(s, t, T.(want := p));
    assert WantStep(s, s1, t, p);
    assert LockStep(s1, Locked(s, t, p), t);
    run := [s];
    Extend(run, s1, t);
    run := run + [s1];
    Extend(run, Locked(s, t, p), t);
    run := run + [Locked(s, t, p)];
  }

  /** A field is overwritten under the lock of its object: the new content leaves the thread's hands, the old
      one comes into them, and no other slot or cell changes. */
  lemma ExchangeRun(s: Sys, t: nat, p: Ref, i: nat, x: Ref) returns (run: seq<Sys>)
    requires Ready(s, t, p) && i < |s.h[p].fields|
    requires x == NULL || (x in s.threads[t].held && (x == p ==> s.threads[t].held[x] >= 2))
    ensures ThreadRun(run, t) && run[0] == s
    ensures var s' := run[|run| - 1];
            && OnlyHere(s, s', t, p) && s'.suspected == s.suspected
            && Stored(s.h[p], s'.h[p], i, x) && s'.h[p].count == s.h[p].count
            && Holds(s', t, s.threads[t].held - multiset{x} + Reference(s.h[p].fields[i]))
  {
    hide Inv, ThreadStep;
    run := LockRun(s, t, p);
    var s2 := Locked(s, t, p);
    var T := s2.threads[t];
    var s3 := Put(s2, t, T.(held := T.held - multiset{x} + Reference(s.h[p].fields[i]))).(h := Written(s.h, p, i, x));
    assert ThreadStep(s2, s3, t) by { WriteIsStep(s2, s3, t, i, x); }
    Extend(run, s3, t);
    run := run + [s3];
    var s4 := Put(s3, t, s3.threads[t].(lock := NULL)).(locks := s3.locks[p := Free]);
    assert ThreadStep(s3, s4, t) by { UnlockIsStep(s3, s4, t); }
    Extend(run, s4, t);
    run := run + [s4];
    assert s4.locks == s.locks;
  }

  lemma WriteIsStep(s: Sys, s': Sys, t: nat, i: nat, x: Ref)
    requires WriteStep(s, s', t, i, x)
    ensures ThreadStep(s, s', t)
  {
    hide WriteStep;
  }

  lemma UnlockIsStep(s: Sys, s': Sys, t: nat)
    requires UnlockStep(s, s', t)
    ensures ThreadStep(s, s', t)
  {
    hide UnlockStep;
  }

  /** An object read from a field, with one more count: flagged and listed if its count left one. */
  ghost predicate Registered(s: Sys, s': Sys, x: Ref) {
    && IsRef(s.h, x) && |s'.h| == |s.h|
    && var ob, ob' := s.h[x], s'.h[x];
       && ob'.count == ob.count + 1 && ob'.state == ob.state && ob'.fields == ob.fields
       && ob'.isCyclicType == ob.isCyclicType
       && (ob'.asyncRelease <==> ob.asyncRelease || (ob.count == 1 && ob.isCyclicType))
       && s'.suspected == if ob'.asyncRelease && !ob.asyncRelease then s.suspected + {x} else s.suspected
  }

  /** The rest of an increment: the swap of the flag and, if it succeeds, the insertion. `s` is the state
      before, `s1` the one after the count was incremented. */
  lemma RegisterRun(s: Sys, s1: Sys, t: nat, x: Ref, T: Thread) returns (run: seq<Sys>)
    requires t < |s.threads| && IsRef(s.h, x) && s.listLock == Free && T.registration == NoRegistration
    requires s1 == Put(s, t, T.(registration := NextRegistration(s.h[x], x))).(h := s.h[x := Bumped(s.h[x])])
    ensures ThreadRun(run, t) && run[0] == s1
    ensures var s' := run[|run| - 1];
            && Registered(s, s', x) && s'.threads == s.threads[t := T]
            && s' == s.(h := s'.h, suspected := s'.suspected, threads := s'.threads)
            && forall y :: IsRef(s.h, y) && y != x ==> s'.h[y] == s.h[y]
  {
    hide ThreadStep;
    run := [s1];
    var T1 := s1.threads[t];
    if T1.registration.Flagging? {
      var s2 := if s1.h[x].asyncRelease then Put(s1, t, T1.(registration := NoRegistration))
                else Put(s1, t, T1.(registration := Listing(x))).(h := s1.h[x := s1.h[x].(asyncRelease := true)]);
      assert ThreadStep(s1, s2, t) by { FlagIsStep(s1, s2, t); }
      Extend(run, s2, t);
      run := run + [s2];
      if !s1.h[x].asyncRelease {
        var s3 := Put(s2, t, T.(registration := Inserting(x))).(listLock := Mutator(t));
        var s4 := Put(s3, t, T.(registration := Leaving)).(suspected := s.suspected + {x});
        var s5 := Put(s4, t, T).(listLock := Free);
        assert ThreadStep(s2, s3, t) && ThreadStep(s3, s4, t) && ThreadStep(s4, s5, t) by {
          InsertionSteps(s2, s3, s4, s5, t);
        }
        Extend(run, s3, t);
        run := run + [s3];
        Extend(run, s4, t);
        run := run + [s4];
        Extend(run, s5, t);
        run := run + [s5];
        assert s5.threads == s.threads[t := T];
      } else {
        assert s2.threads == s.threads[t := T];
      }
    }
  }

  lemma FlagIsStep(s: Sys, s': Sys, t: nat)
    requires FlagStep(s, s', t)
    ensures ThreadStep(s, s', t)
  {
    hide FlagStep;
  }

  lemma InsertionSteps(s2: Sys, s3: Sys, s4: Sys, s5: Sys, t: nat)
    requires AcquireListStep(s2, s3, t) && InsertStep(s3, s4, t) && LeaveListStep(s4, s5, t)
    ensures ThreadStep(s2, s3, t) && ThreadStep(s3, s4, t) && ThreadStep(s4, s5, t)
  {
    hide AcquireListStep, InsertStep, LeaveListStep;
  }

  lemma Append(a: seq<Sys>, b: seq<Sys>, t: nat)
    requires ThreadRun(a, t) && ThreadRun(b, t) && a[|a| - 1] == b[0]
    ensures ThreadRun(a + b[1..], t) && (a + b[1..])[0] == a[0]
    ensures (a + b[1..])[|a + b[1..]| - 1] == b[|b| - 1]
  {
    hide ThreadStep;
    var c := a + b[1..];
    forall k | 0 <= k < |c| - 1 ensures ThreadStep(c[k], c[k + 1], t) {
      if k < |a| - 1 {
        assert ThreadStep(a[k], a[k + 1], t);
      } else {
        var l := k - (|a| - 1);
        assert ThreadStep(b[l], b[l + 1], t);
      }
    }
  }

  /** A thread copies a reference it holds. */
  lemma CloneRun(s: Sys, t: nat, x: Ref) returns (run: seq<Sys>)
    requires Inv(s) && t < |s.threads| && s.threads[t].Idle() && x in s.threads[t].held && s.listLock == Free
    ensures ThreadRun(run, t) && run[0] == s
    ensures var s' := run[|run| - 1];
            OnlyHere(s, s', t, x) && Registered(s, s', x) && Holds(s', t, s.threads[t].held + multiset{x})
  {
    hide Inv, ThreadStep;
    ThreadHolds(s, t, x);
    var T := s.threads[t].(held := s.threads[t].held + multiset{x});
    var s1 := Put(s, t, T.(registration := NextRegistration(s.h[x], x))).(h := s.h[x := Bumped(s.h[x])]);
    assert ThreadStep(s, s1, t) by { CloneIsStep(s, s1, t, x); }
    var rest := RegisterRun(s, s1, t, x, T);
    Extend([s], s1, t);
    Append([s] + [s1], rest, t);
    run := [s] + [s1] + rest[1..];
  }

  lemma CloneIsStep(s: Sys, s': Sys, t: nat, x: Ref)
    requires CloneStep(s, s', t, x)
    ensures ThreadStep(s, s', t)
  {
    hide CloneStep;
  }

  /** A field is read under the lock of its object: the thread comes to hold its content, which has one more
      count, or nothing if it is null; the field itself is unchanged. */
  lemma GetCloneRun(s: Sys, t: nat, p: Ref, i: nat) returns (run: seq<Sys>)
    requires Ready(s, t, p) && i < |s.h[p].fields| && s.listLock == Free
    ensures ThreadRun(run, t) && run[0] == s
    ensures var s', x := run[|run| - 1], s.h[p].fields[i];
            && OnlyHere(s, s', t, x) && Holds(s', t, s.threads[t].held + Reference(x))
            && (x == NULL ==> s'.suspected == s.suspected)
            && (x != NULL ==> Registered(s, s', x))
  {
    hide Inv, ThreadStep, Registered;
    var x := s.h[p].fields[i];
    assert x != NULL ==> IsRef(s.h, x) by { FieldOfHeld(s, p, i); }
    run := LockRun(s, t, p);
    var s2 := Locked(s, t, p);
    var s3 := Put(s2, t, s2.threads[t].(got := x));
    assert ThreadStep(s2, s3, t) by { ReadIsStep(s2, s3, t, i); }
    Extend(run, s3, t);
    run := run + [s3];
    if x != NULL {
      var T := s2.threads[t].(held := s2.threads[t].held + multiset{x});
      var s4 := Put(s3, t, T.(registration := NextRegistration(s.h[x], x))).(h := s.h[x := Bumped(s.h[x])]);
      assert ThreadStep(s3, s4, t) by { CountReadIsStep(s3, s4, t); }
      Extend(run, s4, t);
      run := run + [s4];
      var rest := RegisterRun(s3, s4, t, x, T);
      Append(run, rest, t);
      run := run + rest[1..];
      var s5 := run[|run| - 1];
      RegisteredFrom(s, s3, s5, x);
      run := UnlockRun(s, run, t, p);
      assert Registered(s, run[|run| - 1], x) by { RegisteredTo(s, s5, run[|run| - 1], x); }
    } else {
      run := UnlockRun(s, run, t, p);
      assert s.threads[t].held + Reference(x) == s.threads[t].held;
    }
  }

  lemma FieldOfHeld(s: Sys, p: Ref, i: nat)
    requires Inv(s) && IsRef(s.h, p) && i < |s.h[p].fields|
    ensures s.h[p].fields[i] == NULL || IsRef(s.h, s.h[p].fields[i])
  {
    hide States, ThreadsOk, LocksOk, ListsOk, PhaseOk, Accounts;
    BooksWellFormed(s);
  }

  lemma BooksWellFormed(s: Sys)
    requires Inv(s)
    ensures WellFormed(s.h)
  {
    hide States, ThreadsOk, LocksOk, ListsOk, PhaseOk;
  }

  lemma ReadIsStep(s: Sys, s': Sys, t: nat, i: nat)
    requires ReadStep(s, s', t, i)
    ensures ThreadStep(s, s', t)
  {
    hide ReadStep;
  }

  lemma CountReadIsStep(s: Sys, s': Sys, t: nat)
    requires CountReadStep(s, s', t)
    ensures ThreadStep(s, s', t)
  {
    hide CountReadStep;
  }

  lemma RegisteredFrom(s: Sys, s3: Sys, s': Sys, x: Ref)
    requires Registered(s3, s', x) && s3.h == s.h && s3.suspected == s.suspected
    ensures Registered(s, s', x) && |s'.h| == |s.h|
  {
  }

  lemma RegisteredTo(s: Sys, s5: Sys, s': Sys, x: Ref)
    requires Registered(s, s5, x) && s5.h == s'.h && s5.suspected == s'.suspected
    ensures Registered(s, s', x)
  {
  }

  /** The lock is freed, and nobody but the thread has changed since it was taken. */
  lemma UnlockRun(s: Sys, run0: seq<Sys>, t: nat, p: Ref) returns (run: seq<Sys>)
    requires ThreadRun(run0, t) && run0[0] == s && t < |s.threads| && 0 <= p < |s.locks| && s.locks[p] == Free
    requires var s5 := run0[|run0| - 1];
             && t < |s5.threads| && s5.threads[t] == Thread(s5.threads[t].held, NULL, p, NULL, NoRegistration)
             && s5.threads == s.threads[t := s5.threads[t]]
             && s5.locks == s.locks[p := Mutator(t)]
    ensures ThreadRun(run, t) && run[0] == s
    ensures var s5, s' := run0[|run0| - 1], run[|run| - 1];
            && s' == s5.(threads := s'.threads, locks := s.locks) && Holds(s', t, s5.threads[t].held)
            && s'.threads == s.threads[t := s'.threads[t]]
  {
    hide ThreadStep;
    var s5 := run0[|run0| - 1];
    var s6 := Put(s5, t, s5.threads[t].(lock := NULL)).(locks := s5.locks[p := Free]);
    assert ThreadStep(s5, s6, t) by { UnlockIsStep(s5, s6, t); }
    Extend(run0, s6, t);
    run := run0 + [s6];
    assert s6.locks == s.locks;
  }

  /** A dead cell is handed out as an object with one holder and null fields. */
  lemma AllocateRun(s: Sys, t: nat, x: Ref, n: nat, cyclic: bool) returns (run: seq<Sys>)
    requires Inv(s) && t < |s.threads| && s.threads[t].Idle() && IsRef(s.h, x) && s.h[x].state == Dead
    ensures ThreadRun(run, t) && run[0] == s
    ensures var s' := run[|run| - 1];
            && OnlyHere(s, s', t, x) && s'.suspected == s.suspected && Holds(s', t, s.threads[t].held + multiset{x})
            && var ob := s'.h[x];
               && ob.count == 1 && ob.state == Live && !ob.asyncRelease && ob.isCyclicType == cyclic
               && |ob.fields| == n && forall i :: 0 <= i < n ==> ob.fields[i] == NULL
  {
    hide Inv, ThreadStep;
    var s1 := Put(s, t, s.threads[t].(held := s.threads[t].held + multiset{x})).(h := s.h[x := Fresh(n, cyclic)]);
    assert ThreadStep(s, s1, t) by { AllocateIsStep(s, s1, t, x, n, cyclic); }
    Extend([s], s1, t);
    run := [s] + [s1];
  }

  lemma AllocateIsStep(s: Sys, s': Sys, t: nat, x: Ref, n: nat, cyclic: bool)
    requires AllocateStep(s, s', t, x, n, cyclic)
    ensures ThreadStep(s, s', t)
  {
    hide AllocateStep;
  }
}
