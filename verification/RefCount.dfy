/** Reference counting: src/gc/GC.h.

    A reference that is dropped may bring the count of its object to zero. The object then
    drops the references in its own fields, and so on. The cascade is iterative and runs in
    one of two forms: an object that is not a candidate of the collector dies at once, a
    candidate waits for the collector together with everything only it owns. */
module RefCount {
  import opened Memory

  // -------------------------------------------------- what a cascade zeroes

  /** `Z` is closed under "all remaining references come from the set". */
  ghost predicate DropClosed(h: seq<Object>, C: set<Ref>, X: set<Ref>, ext: multiset<Ref>, Z: set<Ref>) {
    forall x :: x in C && x !in X && ext[x] == 0 && (forall o :: o in C && Points(h, o, x) ==> o in Z) ==> x in Z
  }

  /** An order in which the counts run out: each object is referenced by earlier ones only. */
  ghost predicate Grounded(h: seq<Object>, C: set<Ref>, X: set<Ref>, ext: multiset<Ref>, order: seq<Ref>) {
    && NoDup(order)
    && (forall k :: 0 <= k < |order| ==>
          && IsRef(h, order[k]) && order[k] in C && order[k] !in X && ext[order[k]] == 0
          && (forall o :: o in C && Points(h, o, order[k]) ==> o in order[..k]))
  }

  /** An order of this kind stays inside every closed set. */
  lemma {:induction false} GroundedIsLeast(h: seq<Object>, C: set<Ref>, X: set<Ref>, ext: multiset<Ref>,
                                           order: seq<Ref>, Z: set<Ref>)
    requires Grounded(h, C, X, ext, order) && DropClosed(h, C, X, ext, Z)
    ensures Elems(order) <= Z
  {
    if order != [] {
      var n := |order| - 1;
      var init := order[..n];
      forall k | 0 <= k < n ensures init[..k] == order[..k] {}
      assert Grounded(h, C, X, ext, init);
      GroundedIsLeast(h, C, X, ext, init, Z);
      forall o | o in C && Points(h, o, order[n]) ensures o in Z {
        assert o in order[..n];
        assert o in Elems(init);
      }
      assert order[n] in C && order[n] !in X && ext[order[n]] == 0;
      assert order[n] in Z;
      assert order == init + [order[n]];
    }
  }

  // ------------------------------------------------- what waits afterwards

  /** The objects of `W` form trees: a field is null or leads to a member that is not a
      candidate, no two fields lead to the same member, and every member hangs below a
      candidate. */
  ghost predicate Forest(h: seq<Object>, W: set<Ref>) {
    && (forall o :: o in W ==> IsRef(h, o))
    && (forall o, i :: o in W && 0 <= i < |h[o].fields| && h[o].fields[i] != NULL ==>
          h[o].fields[i] in W && !h[h[o].fields[i]].Candidate())
    && (forall o, i, p, j ::
          o in W && p in W && 0 <= i < |h[o].fields| && 0 <= j < |h[p].fields| &&
          h[o].fields[i] == h[p].fields[j] != NULL ==>
          o == p && i == j)
    && W <= Reach(h, Candidates(h, W))
  }

  ghost function Candidates(h: seq<Object>, W: set<Ref>): set<Ref> {
    set x | x in W && IsRef(h, x) && h[x].Candidate()
  }

  ghost function WaitingOf(h: seq<Object>, W: set<Ref>): set<Ref> {
    set x | x in W && IsRef(h, x) && h[x].state == WaitingForGc
  }

  lemma ForestClosed(h: seq<Object>, W: set<Ref>)
    requires Forest(h, W) && WellFormed(h)
    ensures Closed(h, W)
  {
    forall o, x | o in W && Points(h, o, x) ensures x in W {
      var i :| 0 <= i < |h[o].fields| && h[o].fields[i] == x;
    }
  }

  lemma ForestFrame(h: seq<Object>, h': seq<Object>, W: set<Ref>)
    requires Forest(h, W) && WellFormed(h) && |h| == |h'|
    requires forall o :: o in W ==> h'[o].fields == h[o].fields && h'[o].Candidate() == h[o].Candidate()
    ensures Forest(h', W)
  {
    ForestClosed(h, W);
    assert Candidates(h, W) == Candidates(h', W);
    ReachLeast(h, Candidates(h, W), W);
    ReachFrame(h, h', Candidates(h, W));
  }

  lemma ForestUnion(h: seq<Object>, V: set<Ref>, W: set<Ref>)
    requires Forest(h, V) && Forest(h, W) && V !! W
    ensures Forest(h, V + W)
  {
    var A := Candidates(h, V + W);
    ReachClosed(h, A);
    ReachMono(h, Candidates(h, V), A);
    ReachMono(h, Candidates(h, W), A);
    assert V <= Reach(h, Candidates(h, V)) <= Reach(h, A);
    forall o, i | o in V + W && 0 <= i < |h[o].fields| && h[o].fields[i] != NULL
      ensures h[o].fields[i] in V + W && !h[h[o].fields[i]].Candidate()
    {
      assert o in V || o in W;
    }
  }

  // ------------------------------------------------------ cascade contract

  /** From `h` a cascade has led to `h'`, zeroing the objects of `order` in that order. */
  ghost predicate Cascaded(h: seq<Object>, h': seq<Object>, C: set<Ref>, X: set<Ref>, ext: multiset<Ref>,
                           order: seq<Ref>) {
    && |h'| == |h|
    && Grounded(h, C, X, ext, order)
    && Accounts(h', C - Elems(order), X, ext)
    && (forall x :: IsRef(h, x) && x !in order ==> h'[x] == h[x].(count := h'[x].count) && h'[x].count <= h[x].count)
    && (forall x :: IsRef(h, x) && x in X ==> h'[x] == h[x])
    && (forall x :: x in C && x !in X && x !in order && h'[x].count == 0 ==> h[x].count == 0)
    && (forall x :: x in order ==> Settled(h[x], h'[x]))
    && (forall k :: 1 <= k < |order| ==> h[order[k]].count > 0)
    && Forest(h', WaitingOf(h', Elems(order)))
  }

  /** What becomes of a zeroed object. A dead one keeps its fields as they were. */
  ghost predicate Settled(ob: Object, ob': Object) {
    && ob'.count == 0
    && ob'.isCyclicType == ob.isCyclicType && ob'.asyncRelease == ob.asyncRelease
    && |ob'.fields| == |ob.fields|
    && (forall i :: 0 <= i < |ob.fields| ==> ob'.fields[i] == ob.fields[i] || ob'.fields[i] == NULL)
    && (ob'.state == Dead ==> !ob.Candidate() && ob'.fields == ob.fields)
    && (ob'.state == Dead || ob'.state == WaitingForGc)
  }

  /** A cascade under way: `C` are the cells of `C0` not opened yet. */
  ghost predicate Cascading(h0: seq<Object>, h: seq<Object>, C0: set<Ref>, C: set<Ref>, X: set<Ref>,
                            ext0: multiset<Ref>, ext: multiset<Ref>, order: seq<Ref>) {
    && |h| == |h0|
    && C <= C0 && ext0 <= ext && (forall x :: x in C0 ==> IsRef(h, x))
    && Grounded(h0, C0, X, ext0, order) && (forall x :: x in order ==> IsRef(h, x))
    && Accounts(h, C, X, ext)
    && (forall x :: x in C0 && x !in C ==> x in order)
    && (forall x :: IsRef(h, x) && x !in order ==> h[x] == h0[x].(count := h[x].count) && h[x].count <= h0[x].count)
    && (forall x :: IsRef(h, x) && x in X ==> h[x] == h0[x])
    && (forall x :: x in C && x !in X && x !in order && h[x].count == 0 ==> h0[x].count == 0)
    && (forall x :: x in order && x in C ==> h[x] == h0[x].(count := 0))
    && (forall x :: x in order ==> h[x].count == 0)
    && (forall k :: 1 <= k < |order| ==> h0[order[k]].count > 0)
  }

  /** An object whose count has just run out extends the order. */
  lemma Join(h0: seq<Object>, h: seq<Object>, C0: set<Ref>, C: set<Ref>, X: set<Ref>,
             ext0: multiset<Ref>, ext: multiset<Ref>, order: seq<Ref>, f: Ref)
    requires Grounded(h0, C0, X, ext0, order) && Accounts(h, C, X, ext)
    requires |h| == |h0| && C <= C0 && ext0 <= ext
    requires forall x :: x in C0 && x !in C ==> x in order
    requires forall x :: x in C ==> h[x].fields == h0[x].fields
    requires f in C && f !in X && f !in order && h[f].count == 0
    ensures Grounded(h0, C0, X, ext0, order + [f])
  {
    var order' := order + [f];
    SlotsZero(h, C, f);
    assert Slots(h, C, f) == 0 && ext[f] == 0;
    forall o | o in C0 && Points(h0, o, f) ensures o in order {
      assert o in C ==> Points(h, o, f);
    }
    forall k | 0 <= k < |order| ensures order'[..k] == order[..k] {}
    assert order'[..|order|] == order;
  }

  /** One decrement of a field of an opened cell. */
  lemma DecrementStep(h0: seq<Object>, h: seq<Object>, C0: set<Ref>, C: set<Ref>, X: set<Ref>,
                      ext0: multiset<Ref>, ext: multiset<Ref>, order: seq<Ref>, f: Ref)
    requires Cascading(h0, h, C0, C, X, ext0, ext, order)
    requires IsRef(h, f) && f !in X && ext0[f] < ext[f]
    ensures h[f].count > 0 && f in C && f !in order && h[f].state == Live
    ensures var h' := h[f := h[f].(count := h[f].count - 1)];
            Cascading(h0, h', C0, C, X, ext0, ext - multiset{f}, if h'[f].count == 0 then order + [f] else order)
  {
    hide Accounts, Grounded, Cascading;
    DecrementFacts(h0, h, C0, C, X, ext0, ext, order);
    LooseIsCounted(h, C, X, ext, f);
    DropLoose(h, C, X, ext, f);
    var h', ext' := h[f := h[f].(count := h[f].count - 1)], ext - multiset{f};
    assert ext0 <= ext';
    if h'[f].count == 0 {
      Join(h0, h', C0, C, X, ext0, ext', order, f);
      DecrementJoins(h0, h, C0, C, X, ext0, ext, ext', order, f);
    } else {
      DecrementStays(h0, h, C0, C, X, ext0, ext, ext', order, f);
    }
  }

  lemma DecrementFacts(h0: seq<Object>, h: seq<Object>, C0: set<Ref>, C: set<Ref>, X: set<Ref>,
                       ext0: multiset<Ref>, ext: multiset<Ref>, order: seq<Ref>)
    requires Cascading(h0, h, C0, C, X, ext0, ext, order)
    ensures |h| == |h0| && C <= C0 && ext0 <= ext && Grounded(h0, C0, X, ext0, order) && Accounts(h, C, X, ext)
    ensures forall x :: x in C0 ==> IsRef(h, x)
    ensures forall x :: x in C0 && x !in C ==> x in order
    ensures forall x :: x in C ==> h[x].fields == h0[x].fields
    ensures forall x :: x in order && IsRef(h, x) ==> h[x].count == 0
  {
    hide Accounts, Grounded;
  }

  lemma DecrementStays(h0: seq<Object>, h: seq<Object>, C0: set<Ref>, C: set<Ref>, X: set<Ref>,
                       ext0: multiset<Ref>, ext: multiset<Ref>, ext': multiset<Ref>, order: seq<Ref>, f: Ref)
    requires Cascading(h0, h, C0, C, X, ext0, ext, order) && IsRef(h, f) && f in C && f !in X && f !in order
    requires h[f].count > 1
    requires ext0 <= ext' && Accounts(h[f := h[f].(count := h[f].count - 1)], C, X, ext')
    ensures Cascading(h0, h[f := h[f].(count := h[f].count - 1)], C0, C, X, ext0, ext', order)
  {
    hide Accounts, Grounded;
  }

  lemma DecrementJoins(h0: seq<Object>, h: seq<Object>, C0: set<Ref>, C: set<Ref>, X: set<Ref>,
                       ext0: multiset<Ref>, ext: multiset<Ref>, ext': multiset<Ref>, order: seq<Ref>, f: Ref)
    requires Cascading(h0, h, C0, C, X, ext0, ext, order) && IsRef(h, f) && f in C && f !in X && f !in order
    requires h[f].count == 1
    requires ext0 <= ext' && Accounts(h[f := h[f].(count := 0)], C, X, ext') && Grounded(h0, C0, X, ext0, order + [f])
    ensures Cascading(h0, h[f := h[f].(count := 0)], C0, C, X, ext0, ext', order + [f])
  {
    hide Accounts, Grounded;
    var order' := order + [f];
    assert forall x :: x in order' <==> x in order || x == f;
  }

  /** Opening the next zeroed object. */
  lemma OpenStep(h0: seq<Object>, h: seq<Object>, C0: set<Ref>, C: set<Ref>, X: set<Ref>,
                 ext0: multiset<Ref>, order: seq<Ref>, o: Ref)
    requires Cascading(h0, h, C0, C, X, ext0, ext0, order)
    requires o in C && o in order
    ensures Cascading(h0, h, C0, C - {o}, X, ext0, ext0 + multiset(h[o].fields), order)
  {
    OpenCell(h, C, X, ext0, o);
  }

  /** Changing state and fields of an opened object. */
  lemma RewriteStep(h0: seq<Object>, h: seq<Object>, C0: set<Ref>, C: set<Ref>, X: set<Ref>,
                    ext0: multiset<Ref>, ext: multiset<Ref>, order: seq<Ref>, o: Ref, ob: Object)
    requires Cascading(h0, h, C0, C, X, ext0, ext, order)
    requires o in order && o !in C && h[o].state != Dead
    requires ob.count == 0
    requires forall i :: 0 <= i < |ob.fields| ==> ob.fields[i] == NULL || IsRef(h, ob.fields[i])
    ensures Cascading(h0, h[o := ob], C0, C, X, ext0, ext, order)
  {
    RewriteCell(h, C, X, ext, o, ob);
  }

  // ------------------------------------------- the cascade that waits

  /** The work lists of a cascade hold each zeroed and unopened object exactly once. */
  ghost predicate Stacked(C: set<Ref>, order: seq<Ref>, objects: seq<Ref>, roots: seq<Ref>) {
    && NoDup(objects) && NoDup(roots)
    && (forall x :: x in objects ==> x in C && x in order && x !in roots)
    && (forall x :: x in roots ==> x in C && x in order)
    && (forall x :: x in order && x in C ==> x in objects || x in roots)
  }

  lemma StackedPush(C: set<Ref>, order: seq<Ref>, objects: seq<Ref>, roots: seq<Ref>, f: Ref)
    requires Stacked(C, order, objects, roots)
    requires f in C && f !in order
    ensures Stacked(C, order + [f], objects, roots + [f])
    ensures Stacked(C, order + [f], objects + [f], roots)
  {
  }

  lemma StackedPop(C: set<Ref>, order: seq<Ref>, objects: seq<Ref>, roots: seq<Ref>, o: Ref)
    requires Stacked(C, order, objects + [o], roots)
    ensures o in C && o in order && o !in objects && o !in roots
    ensures Stacked(C - {o}, order, objects, roots)
  {
    var s := objects + [o];
    assert s[|objects|] == o;
    forall k | 0 <= k < |objects| ensures objects[k] != o && objects[k] in s { assert s[k] == objects[k]; }
    assert NoDup(objects) by {
      forall i, j | 0 <= i < j < |objects| ensures objects[i] != objects[j] { assert s[i] != s[j]; }
    }
  }

  /** `owner` names, for every zeroed object that is not a candidate, the one slot that still
      leads to it; the slots looked at are those of the objects in `P` and the first `n` of `o`. */
  ghost predicate Owning(h: seq<Object>, order: seq<Ref>, owner: map<Ref, (Ref, int)>, P: set<Ref>, o: Ref, n: nat) {
    SlotsOwn(h, order, owner, P, o, n) && Owned(h, order, owner, P, o, n)
  }

  /** A slot that was looked at is null or the owner of what it holds. */
  ghost predicate SlotsOwn(h: seq<Object>, order: seq<Ref>, owner: map<Ref, (Ref, int)>, P: set<Ref>, o: Ref, n: nat) {
    && (forall p, j :: (p in P || (p == o && j < n)) && IsRef(h, p) && 0 <= j < |h[p].fields| &&
                       h[p].fields[j] != NULL ==>
          h[p].fields[j] in order && h[p].fields[j] in owner && owner[h[p].fields[j]] == (p, j))
    && (forall x :: x in owner ==> IsRef(h, x) && !h[x].Candidate())
  }

  /** A zeroed object that is not a candidate has an owner zeroed before it. */
  ghost predicate Owned(h: seq<Object>, order: seq<Ref>, owner: map<Ref, (Ref, int)>, P: set<Ref>, o: Ref, n: nat) {
    forall k :: 0 <= k < |order| && IsRef(h, order[k]) && !h[order[k]].Candidate() ==>
      && order[k] in owner
      && var (p, j) := owner[order[k]];
         && (p in P || (p == o && j < n)) && IsRef(h, p) && 0 <= j < |h[p].fields|
         && h[p].fields[j] == order[k] && p in order[..k]
  }

  lemma {:induction false} OwnedIsReached(h: seq<Object>, order: seq<Ref>, owner: map<Ref, (Ref, int)>, k: nat)
    requires Owning(h, order, owner, Elems(order), NULL, 0)
    requires forall x :: x in order ==> IsRef(h, x)
    requires k < |order|
    ensures order[k] in Reach(h, Candidates(h, Elems(order)))
    decreases k
  {
    var A := Candidates(h, Elems(order));
    ReachClosed(h, A);
    if !h[order[k]].Candidate() {
      var (p, j) := owner[order[k]];
      assert p in order[..k];
      var l :| 0 <= l < k && order[l] == p;
      OwnedIsReached(h, order, owner, l);
      assert Points(h, p, order[k]);
    }
  }

  lemma OwningIsForest(h: seq<Object>, order: seq<Ref>, owner: map<Ref, (Ref, int)>)
    requires Owning(h, order, owner, Elems(order), NULL, 0)
    requires forall x :: x in order ==> IsRef(h, x)
    ensures Forest(h, Elems(order))
  {
    var W := Elems(order);
    forall x | x in W ensures x in Reach(h, Candidates(h, W)) {
      var k :| 0 <= k < |order| && order[k] == x;
      OwnedIsReached(h, order, owner, k);
    }
    forall o, i | o in W && 0 <= i < |h[o].fields| && h[o].fields[i] != NULL
      ensures h[o].fields[i] in W && !h[h[o].fields[i]].Candidate() {
      var f := h[o].fields[i];
      assert f in order && f in owner;
    }
  }

  lemma OwningCount(h: seq<Object>, h': seq<Object>, order: seq<Ref>, owner: map<Ref, (Ref, int)>, P: set<Ref>, o: Ref,
                    n: nat)
    requires Owning(h, order, owner, P, o, n) && |h'| == |h|
    requires forall x :: IsRef(h, x) ==> h'[x].fields == h[x].fields && h'[x].Candidate() == h[x].Candidate()
    ensures Owning(h', order, owner, P, o, n)
  {
  }

  /** Slot `n` of `o` holds null. */
  lemma OwningNull(h: seq<Object>, order: seq<Ref>, owner: map<Ref, (Ref, int)>, P: set<Ref>, o: Ref, n: nat)
    requires Owning(h, order, owner, P, o, n) && o !in P
    requires IsRef(h, o) && n < |h[o].fields| && h[o].fields[n] == NULL
    ensures Owning(h, order, owner, P, o, n + 1)
  {
  }

  /** Slot `n` of `o` is set to null. */
  lemma OwningClear(h: seq<Object>, order: seq<Ref>, owner: map<Ref, (Ref, int)>, P: set<Ref>, o: Ref, n: nat)
    requires Owning(h, order, owner, P, o, n) && o !in P
    requires IsRef(h, o) && n < |h[o].fields|
    ensures Owning(h[o := h[o].(fields := h[o].fields[n := NULL])], order, owner, P, o, n)
  {
  }

  /** A candidate is zeroed. */
  lemma OwningCandidate(h: seq<Object>, order: seq<Ref>, owner: map<Ref, (Ref, int)>, P: set<Ref>, o: Ref, n: nat,
                        f: Ref)
    requires Owning(h, order, owner, P, o, n)
    requires IsRef(h, f) && h[f].Candidate()
    ensures Owning(h, order + [f], owner, P, o, n)
  {
    forall k | 0 <= k < |order| ensures (order + [f])[..k] == order[..k] {}
  }

  /** An object that is not a candidate is zeroed through slot `n` of `o`, which keeps it. */
  lemma OwningKeep(h: seq<Object>, order: seq<Ref>, owner: map<Ref, (Ref, int)>, P: set<Ref>, o: Ref, n: nat, f: Ref)
    requires Owning(h, order, owner, P, o, n)
    requires IsRef(h, f) && !h[f].Candidate() && f !in order && o in order && o !in P
    requires IsRef(h, o) && n < |h[o].fields| && h[o].fields[n] == f
    ensures Owning(h, order + [f], owner[f := (o, n)], P, o, n + 1)
  {
    hide SlotsOwn, Owned;
    KeepSlots(h, order, owner, P, o, n, f);
    KeepOwned(h, order, owner, P, o, n, f);
  }

  lemma KeepSlots(h: seq<Object>, order: seq<Ref>, owner: map<Ref, (Ref, int)>, P: set<Ref>, o: Ref, n: nat, f: Ref)
    requires SlotsOwn(h, order, owner, P, o, n)
    requires IsRef(h, f) && !h[f].Candidate() && f !in order && o !in P
    requires IsRef(h, o) && n < |h[o].fields| && h[o].fields[n] == f
    ensures SlotsOwn(h, order + [f], owner[f := (o, n)], P, o, n + 1)
  {
    forall p, j | (p in P || (p == o && j < n)) && IsRef(h, p) && 0 <= j < |h[p].fields| && h[p].fields[j] != NULL
      ensures h[p].fields[j] in order && h[p].fields[j] != f {}
  }

  lemma KeepOwned(h: seq<Object>, order: seq<Ref>, owner: map<Ref, (Ref, int)>, P: set<Ref>, o: Ref, n: nat, f: Ref)
    requires Owned(h, order, owner, P, o, n)
    requires IsRef(h, f) && f !in order && o in order
    requires IsRef(h, o) && n < |h[o].fields| && h[o].fields[n] == f
    ensures Owned(h, order + [f], owner[f := (o, n)], P, o, n + 1)
  {
    forall k | 0 <= k < |order| ensures (order + [f])[..k] == order[..k] {}
    assert (order + [f])[..|order|] == order;
  }

  /** State of the field loop of the waiting cascade before slot `i` of `o`. */
  ghost predicate Scanning(h0: seq<Object>, h: seq<Object>, C0: set<Ref>, C: set<Ref>, X: set<Ref>, ext0: multiset<Ref>,
                           order: seq<Ref>, owner: map<Ref, (Ref, int)>, P: set<Ref>, o: Ref,
                           fields0: seq<Ref>, i: nat) {
    && |h| == |h0| && IsRef(h, o) && i <= |fields0| == |h[o].fields|
    && h[o].fields[i..] == fields0[i..]
    && (forall j :: 0 <= j < i ==> h[o].fields[j] == fields0[j] || h[o].fields[j] == NULL)
    && (forall f :: f in fields0 ==> f !in X)
    && o in order && o !in C && h[o].state == ProcessGc
    && P == Elems(order) - C - {o} && (forall x :: x in P ==> IsRef(h, x))
    && Cascading(h0, h, C0, C, X, ext0, ext0 + multiset(fields0[i..]), order)
    && Owning(h, order, owner, P, o, i)
  }

  lemma ScanNull(h0: seq<Object>, h: seq<Object>, C0: set<Ref>, C: set<Ref>, X: set<Ref>, ext0: multiset<Ref>,
                 order: seq<Ref>, owner: map<Ref, (Ref, int)>, P: set<Ref>, o: Ref, fields0: seq<Ref>, i: nat)
    requires Scanning(h0, h, C0, C, X, ext0, order, owner, P, o, fields0, i)
    requires i < |fields0| && fields0[i] == NULL
    ensures Scanning(h0, h, C0, C, X, ext0, order, owner, P, o, fields0, i + 1)
  {
    hide Cascading, Owning;
    assert fields0[i..] == [fields0[i]] + fields0[i + 1..];
    assert h[o].fields[i] == h[o].fields[i..][0];
    OwningNull(h, order, owner, P, o, i);
    assert h[o].fields[i + 1..] == fields0[i + 1..];
    CascadingNull(h0, h, C0, C, X, ext0, ext0 + multiset(fields0[i + 1..]), order);
    assert ext0 + multiset(fields0[i..]) == ext0 + multiset(fields0[i + 1..]) + multiset{NULL};
  }

  /** Null is not a reference: it may leave the loose references unnoticed. */
  lemma CascadingNull(h0: seq<Object>, h: seq<Object>, C0: set<Ref>, C: set<Ref>, X: set<Ref>,
                      ext0: multiset<Ref>, ext: multiset<Ref>, order: seq<Ref>)
    ensures Cascading(h0, h, C0, C, X, ext0, ext + multiset{NULL}, order) && ext0 <= ext
       ==> Cascading(h0, h, C0, C, X, ext0, ext, order)
  {
  }

  lemma ScanTarget(h0: seq<Object>, h: seq<Object>, C0: set<Ref>, C: set<Ref>, X: set<Ref>, ext0: multiset<Ref>,
                   order: seq<Ref>, owner: map<Ref, (Ref, int)>, P: set<Ref>, o: Ref, fields0: seq<Ref>, i: nat)
    requires Scanning(h0, h, C0, C, X, ext0, order, owner, P, o, fields0, i)
    requires i < |fields0| && fields0[i] != NULL
    ensures IsRef(h, o) && |h[o].fields| == |fields0| && IsRef(h, fields0[i]) && h[o].fields[i] == fields0[i]
    ensures fields0[i] !in X
    ensures o in order && Owning(h, order, owner, P, o, i)
    ensures Cascading(h0, h, C0, C, X, ext0, ext0 + multiset(fields0[i..]), order)
  {
    hide Owning;
    assert fields0[i] in fields0;
    assert h[o].fields[i] == h[o].fields[i..][0] == fields0[i];
  }

  /** The next slot holds `f`: its count can be decremented, and `f` is not the opened object. */
  lemma ScanDecrement(h0: seq<Object>, h: seq<Object>, C0: set<Ref>, C: set<Ref>, X: set<Ref>, ext0: multiset<Ref>,
                      order: seq<Ref>, owner: map<Ref, (Ref, int)>, P: set<Ref>, o: Ref, fields0: seq<Ref>, i: nat)
    requires Scanning(h0, h, C0, C, X, ext0, order, owner, P, o, fields0, i)
    requires i < |fields0| && fields0[i] != NULL
    ensures var f := fields0[i];
            && h[o].fields[i] == f && IsRef(h, f) && f != o && f in C && f !in X && f !in order && h[f].count > 0
            && var h' := h[f := h[f].(count := h[f].count - 1)];
               && Cascading(h0, h', C0, C, X, ext0, ext0 + multiset(fields0[i + 1..]),
                         if h'[f].count == 0 then order + [f] else order)
               && Owning(h', order, owner, P, o, i)
  {
    hide Owning, Cascading, Scanning;
    ScanTarget(h0, h, C0, C, X, ext0, order, owner, P, o, fields0, i);
    NextLoose(ext0, fields0, i);
    var f := fields0[i];
    DecrementStep(h0, h, C0, C, X, ext0, ext0 + multiset(fields0[i..]), order, f);
    OwningCount(h, h[f := h[f].(count := h[f].count - 1)], order, owner, P, o, i);
  }

  lemma NextLoose(ext: multiset<Ref>, fields: seq<Ref>, i: nat)
    requires i < |fields|
    ensures ext + multiset(fields[i..]) - multiset{fields[i]} == ext + multiset(fields[i + 1..])
    ensures ext[fields[i]] < (ext + multiset(fields[i..]))[fields[i]]
  {
    assert fields[i..] == [fields[i]] + fields[i + 1..];
  }

  lemma ScanClear(h0: seq<Object>, h: seq<Object>, C0: set<Ref>, C: set<Ref>, X: set<Ref>, ext0: multiset<Ref>,
                  order: seq<Ref>, owner: map<Ref, (Ref, int)>, P: set<Ref>, o: Ref, fields0: seq<Ref>, i: nat)
    requires |h| == |h0| && IsRef(h, o) && i < |fields0| == |h[o].fields|
    requires h[o].fields[i..] == fields0[i..]
    requires forall j :: 0 <= j < i ==> h[o].fields[j] == fields0[j] || h[o].fields[j] == NULL
    requires forall f :: f in fields0 ==> f !in X
    requires o in order && o !in C && h[o].state == ProcessGc
    requires P == Elems(order) - C - {o} && (forall x :: x in P ==> IsRef(h, x))
    requires Cascading(h0, h, C0, C, X, ext0, ext0 + multiset(fields0[i + 1..]), order)
    requires Owning(h, order, owner, P, o, i)
    ensures var h' := h[o := h[o].(fields := h[o].fields[i := NULL])];
            Scanning(h0, h', C0, C, X, ext0, order, owner, P, o, fields0, i + 1)
  {
    hide Owning;
    var ob := h[o].(fields := h[o].fields[i := NULL]);
    assert ob.fields[i + 1..] == h[o].fields[i..][1..] == fields0[i..][1..] == fields0[i + 1..];
    RewriteStep(h0, h, C0, C, X, ext0, ext0 + multiset(fields0[i + 1..]), order, o, ob);
    OwningClear(h, order, owner, P, o, i);
    OwningNull(h[o := ob], order, owner, P, o, i);
  }

  lemma ScanKeep(h0: seq<Object>, h: seq<Object>, C0: set<Ref>, C: set<Ref>, X: set<Ref>, ext0: multiset<Ref>,
                 order: seq<Ref>, owner: map<Ref, (Ref, int)>, P: set<Ref>, o: Ref, fields0: seq<Ref>, i: nat, f: Ref)
    requires |h| == |h0| && IsRef(h, o) && i < |fields0| == |h[o].fields|
    requires h[o].fields[i..] == fields0[i..] && h[o].fields[i] == f
    requires forall j :: 0 <= j < i ==> h[o].fields[j] == fields0[j] || h[o].fields[j] == NULL
    requires forall f :: f in fields0 ==> f !in X
    requires o in order && o !in C && h[o].state == ProcessGc
    requires P == Elems(order) - C - {o} && (forall x :: x in P ==> IsRef(h, x))
    requires IsRef(h, f) && f in C && f !in order && !h[f].Candidate()
    requires Cascading(h0, h, C0, C, X, ext0, ext0 + multiset(fields0[i + 1..]), order + [f])
    requires Owning(h, order, owner, P, o, i)
    ensures Scanning(h0, h, C0, C, X, ext0, order + [f], owner[f := (o, i)], P, o, fields0, i + 1)
  {
    hide Cascading, Owning;
    assert h[o].fields[i + 1..] == h[o].fields[i..][1..] == fields0[i..][1..] == fields0[i + 1..];
    assert h[o].fields[i] == h[o].fields[i..][0] == fields0[i];
    OwningKeep(h, order, owner, P, o, i, f);
    assert Elems(order + [f]) == Elems(order) + {f};
  }

  lemma ScanFacts(h0: seq<Object>, h: seq<Object>, C0: set<Ref>, C: set<Ref>, X: set<Ref>, ext0: multiset<Ref>,
                  order: seq<Ref>, owner: map<Ref, (Ref, int)>, P: set<Ref>, o: Ref, fields0: seq<Ref>, i: nat)
    requires Scanning(h0, h, C0, C, X, ext0, order, owner, P, o, fields0, i)
    ensures |h| == |h0| && IsRef(h, o) && i <= |fields0| == |h[o].fields| && h[o].state == ProcessGc
    ensures i < |fields0| ==> h[o].fields[i] == fields0[i]
    ensures o !in P && P !! C && forall x :: x in P ==> IsRef(h, x)
  {
    hide Cascading, Owning;
    assert i < |fields0| ==> h[o].fields[i] == h[o].fields[i..][0];
  }

  /** One slot of the field loop, by what becomes of the object it holds. */
  lemma ScanSlot(h0: seq<Object>, h: seq<Object>, C0: set<Ref>, C: set<Ref>, X: set<Ref>, ext0: multiset<Ref>,
                 order: seq<Ref>, owner: map<Ref, (Ref, int)>, P: set<Ref>, o: Ref, fields0: seq<Ref>, i: nat)
    requires Scanning(h0, h, C0, C, X, ext0, order, owner, P, o, fields0, i)
    requires i < |fields0| && fields0[i] != NULL
    ensures IsRef(h, o) && i < |h[o].fields|
    ensures var f := fields0[i];
            && IsRef(h, f) && f != o && f in C && f !in order && h[f].count > 0
            && var h1 := h[f := h[f].(count := h[f].count - 1)];
               var h2 := h1[o := h1[o].(fields := h1[o].fields[i := NULL])];
               if h[f].count > 1 then Scanning(h0, h2, C0, C, X, ext0, order, owner, P, o, fields0, i + 1)
               else if h[f].Candidate() then Scanning(h0, h2, C0, C, X, ext0, order + [f], owner, P, o, fields0, i + 1)
               else Scanning(h0, h1, C0, C, X, ext0, order + [f], owner[f := (o, i)], P, o, fields0, i + 1)
  {
    hide Cascading, Owning;
    ScanFacts(h0, h, C0, C, X, ext0, order, owner, P, o, fields0, i);
    ScanDecrement(h0, h, C0, C, X, ext0, order, owner, P, o, fields0, i);
    var f := fields0[i];
    var h1 := h[f := h[f].(count := h[f].count - 1)];
    if h[f].count > 1 {
      ScanClear(h0, h1, C0, C, X, ext0, order, owner, P, o, fields0, i);
    } else {
      assert Elems(order + [f]) == Elems(order) + {f};
      if h[f].Candidate() {
        OwningCandidate(h1, order, owner, P, o, i, f);
        ScanClear(h0, h1, C0, C, X, ext0, order + [f], owner, P, o, fields0, i);
      } else {
        ScanKeep(h0, h1, C0, C, X, ext0, order, owner, P, o, fields0, i, f);
      }
    }
  }

  /** What has been pushed: candidates on the root list, other objects on the object list. */
  ghost predicate Sifted(h: seq<Object>, objects0: seq<Ref>, objects: seq<Ref>, roots0: seq<Ref>, roots: seq<Ref>) {
    && objects0 <= objects && roots0 <= roots
    && (forall k :: |objects0| <= k < |objects| ==> IsRef(h, objects[k]) && !h[objects[k]].Candidate())
    && (forall k :: |roots0| <= k < |roots| ==> IsRef(h, roots[k]) && h[roots[k]].Candidate())
  }

  ghost predicate SameFlags(h: seq<Object>, h': seq<Object>) {
    |h'| == |h| && forall x :: IsRef(h, x) ==> h'[x].Candidate() == h[x].Candidate()
  }

  lemma SiftNone(h: seq<Object>, objects: seq<Ref>, roots: seq<Ref>)
    ensures Sifted(h, objects, objects, roots, roots)
  {
  }

  lemma SiftStays(h: seq<Object>, h': seq<Object>, objects0: seq<Ref>, objects: seq<Ref>, roots0: seq<Ref>,
                  roots: seq<Ref>)
    requires Sifted(h, objects0, objects, roots0, roots) && SameFlags(h, h')
    ensures Sifted(h', objects0, objects, roots0, roots)
  {
  }

  lemma SiftRoot(h: seq<Object>, h': seq<Object>, objects0: seq<Ref>, objects: seq<Ref>, roots0: seq<Ref>,
                 roots: seq<Ref>, f: Ref)
    requires Sifted(h, objects0, objects, roots0, roots) && SameFlags(h, h') && IsRef(h, f) && h[f].Candidate()
    ensures Sifted(h', objects0, objects, roots0, roots + [f])
  {
  }

  lemma SiftObject(h: seq<Object>, h': seq<Object>, objects0: seq<Ref>, objects: seq<Ref>, roots0: seq<Ref>,
                   roots: seq<Ref>, f: Ref)
    requires Sifted(h, objects0, objects, roots0, roots) && SameFlags(h, h') && IsRef(h, f) && !h[f].Candidate()
    ensures Sifted(h', objects0, objects + [f], roots0, roots)
  {
  }

  /** The field loop at src/gc/GC.h:70-88 on the opened object `o`. */
  method DropFieldsWaiting(heap: Heap, o: Ref, objects0: seq<Ref>, roots0: seq<Ref>,
                           ghost h0: seq<Object>, ghost C0: set<Ref>, ghost C: set<Ref>, ghost X: set<Ref>,
                           ghost ext0: multiset<Ref>, ghost order0: seq<Ref>, ghost owner0: map<Ref, (Ref, int)>,
                           ghost P: set<Ref>)
    returns (objects: seq<Ref>, roots: seq<Ref>, ghost order: seq<Ref>, ghost owner: map<Ref, (Ref, int)>)
    requires IsRef(heap.objs, o)
    requires Scanning(h0, heap.objs, C0, C, X, ext0, order0, owner0, P, o, heap.objs[o].fields, 0)
    requires Stacked(C, order0, objects0, roots0)
    modifies heap`objs
    ensures |heap.objs| == |old(heap.objs)|
    ensures var fields0 := old(heap.objs[o].fields);
            Scanning(h0, heap.objs, C0, C, X, ext0, order, owner, P, o, fields0, |fields0|)
    ensures order0 <= order
    ensures Stacked(C, order, objects, roots)
    ensures Sifted(heap.objs, objects0, objects, roots0, roots)
    ensures forall x :: x in P ==> IsRef(heap.objs, x) && heap.objs[x] == old(heap.objs[x])
    ensures heap.objs[o] == old(heap.objs[o]).(fields := heap.objs[o].fields)
  {
    hide Scanning, Stacked, Sifted;
    SiftNone(heap.objs, objects0, roots0);
    objects, roots, order, owner := objects0, roots0, order0, owner0;
    ghost var fields0 := heap.objs[o].fields;
    ScanFacts(h0, heap.objs, C0, C, X, ext0, order, owner, P, o, fields0, 0);
    var i := 0;
    while i < |heap.objs[o].fields|
      invariant |heap.objs| == |old(heap.objs)| && |heap.objs[o].fields| == |fields0|
      invariant i <= |fields0|
      invariant Scanning(h0, heap.objs, C0, C, X, ext0, order, owner, P, o, fields0, i)
      invariant order0 <= order
      invariant Stacked(C, order, objects, roots)
      invariant Sifted(heap.objs, objects0, objects, roots0, roots)
      invariant forall x :: x in P ==> IsRef(heap.objs, x) && heap.objs[x] == old(heap.objs[x])
      invariant heap.objs[o] == old(heap.objs[o]).(fields := heap.objs[o].fields)
    {
      ScanFacts(h0, heap.objs, C0, C, X, ext0, order, owner, P, o, fields0, i);
      var f := heap.objs[o].fields[i];
      if f != NULL {
        ScanSlot(h0, heap.objs, C0, C, X, ext0, order, owner, P, o, fields0, i);
        ghost var h := heap.objs;
        var previous := heap.objs[f].count;
        heap.objs := heap.objs[f := heap.objs[f].(count := previous - 1)];
        if previous == 1 {
          StackedPush(C, order, objects, roots, f);
          order := order + [f];
          if heap.objs[f].isCyclicType && heap.objs[f].asyncRelease {
            heap.objs := heap.objs[o := heap.objs[o].(fields := heap.objs[o].fields[i := NULL])];
            SiftRoot(h, heap.objs, objects0, objects, roots0, roots, f);
            roots := roots + [f];
          } else {
            owner := owner[f := (o, i)];
            SiftObject(h, heap.objs, objects0, objects, roots0, roots, f);
            objects := objects + [f];
          }
        } else {
          heap.objs := heap.objs[o := heap.objs[o].(fields := heap.objs[o].fields[i := NULL])];
          SiftStays(h, heap.objs, objects0, objects, roots0, roots);
        }
      } else {
        ScanNull(h0, heap.objs, C0, C, X, ext0, order, owner, P, o, fields0, i);
      }
      i := i + 1;
    }
  }

  /** Count, flags and fields of a zeroed object, whatever its state. */
  ghost predicate Emptied(ob: Object, ob': Object) {
    && ob'.count == 0
    && ob'.isCyclicType == ob.isCyclicType && ob'.asyncRelease == ob.asyncRelease
    && |ob'.fields| == |ob.fields|
    && (forall i :: 0 <= i < |ob.fields| ==> ob'.fields[i] == ob.fields[i] || ob'.fields[i] == NULL)
  }

  /** Opened objects may move between states other than dead. */
  lemma RestateStep(h0: seq<Object>, h: seq<Object>, h': seq<Object>, C0: set<Ref>, C: set<Ref>, X: set<Ref>,
                    ext0: multiset<Ref>, ext: multiset<Ref>, order: seq<Ref>)
    requires Cascading(h0, h, C0, C, X, ext0, ext, order) && |h'| == |h|
    requires forall x :: IsRef(h, x) ==> h'[x] == h[x].(state := h'[x].state)
    requires forall x :: IsRef(h, x) && h'[x] != h[x] ==>
          x in order && x !in C && h[x].state != Dead && h'[x].state != Dead
    ensures Cascading(h0, h', C0, C, X, ext0, ext, order)
  {
    hide Accounts, Grounded;
    RestateAccounts(h, h', C, X, ext);
    GroundedOutside(h0, C0, X, ext0, order);
  }

  lemma GroundedOutside(h: seq<Object>, C: set<Ref>, X: set<Ref>, ext: multiset<Ref>, order: seq<Ref>)
    requires Grounded(h, C, X, ext, order)
    ensures forall x :: x in order ==> x !in X
  {
  }

  lemma RestateAccounts(h: seq<Object>, h': seq<Object>, C: set<Ref>, X: set<Ref>, ext: multiset<Ref>)
    requires Accounts(h, C, X, ext) && |h'| == |h|
    requires forall x :: IsRef(h, x) ==> h'[x] == h[x].(state := h'[x].state)
    requires forall x :: IsRef(h, x) && h'[x] != h[x] ==> x !in C && h[x].state != Dead && h'[x].state != Dead
    ensures Accounts(h', C, X, ext)
  {
    hide Slots;
    forall x ensures Slots(h, C, x) == Slots(h', C, x) { SlotsFrame(h, h', C, x); }
    assert forall p, x :: Points(h', p, x) ==> Points(h, p, x);
  }

  /** Storing one state in every listed object, as at src/gc/GC.h:97-99. */
  method StoreStates(heap: Heap, list: seq<Ref>, s: State)
    requires forall x :: x in list ==> IsRef(heap.objs, x)
    modifies heap`objs
    ensures |heap.objs| == |old(heap.objs)|
    ensures forall x :: IsRef(heap.objs, x) ==>
              heap.objs[x] == if x in list then old(heap.objs[x]).(state := s) else old(heap.objs[x])
  {
    for k := 0 to |list|
      invariant |heap.objs| == |old(heap.objs)|
      invariant forall x :: IsRef(heap.objs, x) ==>
                  heap.objs[x] == if x in list[..k] then old(heap.objs[x]).(state := s) else old(heap.objs[x])
    {
      assert list[k] in list;
      heap.objs := heap.objs[list[k] := heap.objs[list[k]].(state := s)];
      assert list[..k + 1] == list[..k] + [list[k]];
    }
    assert list[..|list|] == list;
  }

  /** The opened objects of a waiting cascade: those of the round in progress are listed. */
  ghost predicate Opened(h0: seq<Object>, h: seq<Object>, C: set<Ref>, order: seq<Ref>, round: seq<Ref>) {
    && |h| == |h0|
    && (forall x :: x in round ==> x in order && x !in C)
    && (forall x :: x in order && x !in C ==>
          IsRef(h, x) && Emptied(h0[x], h[x]) && h[x].state == if x in round then ProcessGc else WaitingForGc)
  }

  lemma FieldsOutside(h: seq<Object>, C: set<Ref>, X: set<Ref>, ext: multiset<Ref>, o: Ref)
    requires Accounts(h, C, X, ext) && o in C && o !in X
    ensures forall f :: f in h[o].fields ==> f !in X
  {
    forall f | f in h[o].fields ensures f !in X {
      assert f in X ==> Points(h, o, f);
    }
  }

  lemma CascadingFacts(h0: seq<Object>, h: seq<Object>, C0: set<Ref>, C: set<Ref>, X: set<Ref>,
                       ext0: multiset<Ref>, ext: multiset<Ref>, order: seq<Ref>, o: Ref)
    requires Cascading(h0, h, C0, C, X, ext0, ext, order) && o in order
    ensures |h| == |h0| && IsRef(h, o) && o !in X && h[o].count == 0 && Accounts(h, C, X, ext)
    ensures o in C ==> h[o] == h0[o].(count := 0) && h[o].state == Live
  {
  }

  lemma OwningShift(h: seq<Object>, h': seq<Object>, order: seq<Ref>, owner: map<Ref, (Ref, int)>, P: set<Ref>, o: Ref)
    requires Owning(h, order, owner, P, NULL, 0) && |h'| == |h|
    requires forall x :: IsRef(h, x) ==> h'[x].fields == h[x].fields && h'[x].Candidate() == h[x].Candidate()
    ensures Owning(h', order, owner, P, o, 0)
  {
  }

  /** Taking the next object in hand (src/gc/GC.h:66-67). */
  lemma TakeUp(h0: seq<Object>, h: seq<Object>, C0: set<Ref>, C: set<Ref>, X: set<Ref>, ext0: multiset<Ref>,
               order: seq<Ref>, owner: map<Ref, (Ref, int)>, round: seq<Ref>, o: Ref)
    requires Cascading(h0, h, C0, C, X, ext0, ext0, order)
    requires Owning(h, order, owner, Elems(order) - C, NULL, 0)
    requires Opened(h0, h, C, order, round)
    requires o in C && o in order
    ensures IsRef(h, o)
    ensures var h' := h[o := h[o].(state := ProcessGc)];
            && Scanning(h0, h', C0, C - {o}, X, ext0, order, owner, Elems(order) - C, o, h'[o].fields, 0)
            && Opened(h0, h', C - {o}, order, round + [o])
  {
    hide Cascading, Owning, Accounts;
    CascadingFacts(h0, h, C0, C, X, ext0, ext0, order, o);
    FieldsOutside(h, C, X, ext0, o);
    var h', P := h[o := h[o].(state := ProcessGc)], Elems(order) - C;
    OpenStep(h0, h, C0, C, X, ext0, order, o);
    RestateStep(h0, h, h', C0, C - {o}, X, ext0, ext0 + multiset(h[o].fields), order);
    assert Elems(order) - (C - {o}) - {o} == P;
    OwningShift(h, h', order, owner, P, o);
    assert h[o].fields[0..] == h[o].fields;
  }

  /** All fields of the object in hand have been handled. */
  lemma PutDown(h0: seq<Object>, h1: seq<Object>, h: seq<Object>, C0: set<Ref>, C: set<Ref>, X: set<Ref>,
                ext0: multiset<Ref>,
                order1: seq<Ref>, order: seq<Ref>, owner: map<Ref, (Ref, int)>, P: set<Ref>, round: seq<Ref>, o: Ref,
                fields0: seq<Ref>)
    requires Scanning(h0, h, C0, C, X, ext0, order, owner, P, o, fields0, |fields0|)
    requires Opened(h0, h1, C, order1, round) && order1 <= order && o in order1 && o in round
    requires P == Elems(order1) - C - {o}
    requires |h1| == |h| && (forall x :: x in P ==> h[x] == h1[x])
    requires h[o] == h1[o].(fields := h[o].fields) && h1[o].fields == fields0 == h0[o].fields
    ensures Cascading(h0, h, C0, C, X, ext0, ext0, order)
    ensures Owning(h, order, owner, Elems(order) - C, NULL, 0)
    ensures Opened(h0, h, C, order, round)
  {
    hide Cascading, Owning;
    assert fields0[|fields0|..] == [];
    assert ext0 + multiset(fields0[|fields0|..]) == ext0;
    assert Elems(order) - C == P + {o};
    OwningClose(h, order, owner, P, o, |fields0|);
    forall x | x in order && x !in C
      ensures IsRef(h, x) && Emptied(h0[x], h[x]) && h[x].state == if x in round then ProcessGc else WaitingForGc
    {
      assert x in P + {o};
      assert x in order1;
    }
  }

  lemma OwningClose(h: seq<Object>, order: seq<Ref>, owner: map<Ref, (Ref, int)>, P: set<Ref>, o: Ref, n: nat)
    requires Owning(h, order, owner, P, o, n) && IsRef(h, o) && n == |h[o].fields|
    ensures Owning(h, order, owner, P + {o}, NULL, 0)
  {
  }

  lemma CascadeStart(h: seq<Object>, C: set<Ref>, X: set<Ref>, ext: multiset<Ref>, o: Ref)
    requires Accounts(h, C, X, ext) && o in C && o !in X && h[o].count == 0
    ensures IsRef(h, o) && Cascading(h, h, C, C, X, ext, ext, [o])
  {
    Join(h, h, C, C, X, ext, ext, [], o);
    assert [] + [o] == [o];
  }

  lemma CascadeEnd(h0: seq<Object>, h: seq<Object>, C0: set<Ref>, C: set<Ref>, X: set<Ref>, ext0: multiset<Ref>,
                   order: seq<Ref>)
    requires Cascading(h0, h, C0, C, X, ext0, ext0, order)
    requires forall x :: x in order ==> x !in C
    requires forall x :: x in order && IsRef(h, x) ==> Settled(h0[x], h[x])
    requires Forest(h, WaitingOf(h, Elems(order)))
    ensures Cascaded(h0, h, C0, X, ext0, order)
  {
    hide Forest;
    forall x ensures x in C0 - Elems(order) <==> x in C {
      assert x in Elems(order) <==> x in order;
    }
    assert C0 - Elems(order) == C;
  }

  lemma StackedStart(C: set<Ref>, o: Ref)
    requires o in C
    ensures Stacked(C, [o], [o], [])
  {
  }

  lemma StackedNextRoot(C: set<Ref>, order: seq<Ref>, roots: seq<Ref>)
    requires Stacked(C, order, [], roots) && roots != []
    ensures Stacked(C, order, [roots[|roots| - 1]], roots[..|roots| - 1])
  {
    var n := |roots| - 1;
    assert roots == roots[..n] + [roots[n]];
  }

  lemma OpenedStart(h: seq<Object>, C: set<Ref>, o: Ref)
    requires o in C && IsRef(h, o) && h[o].Candidate()
    ensures Opened(h, h, C, [o], []) && Elems([o]) - C == {} && Owning(h, [o], map[], {}, NULL, 0)
  {
  }

  lemma OpenedClose(h0: seq<Object>, h: seq<Object>, h': seq<Object>, C: set<Ref>, order: seq<Ref>, round: seq<Ref>)
    requires Opened(h0, h, C, order, round) && |h'| == |h|
    requires forall x :: IsRef(h, x) ==> h'[x] == if x in round then h[x].(state := WaitingForGc) else h[x]
    ensures Opened(h0, h', C, order, [])
  {
  }

  lemma OpenedRefs(h0: seq<Object>, h: seq<Object>, C: set<Ref>, order: seq<Ref>, round: seq<Ref>)
    requires Opened(h0, h, C, order, round)
    ensures forall x :: x in round ==> IsRef(h, x)
  {
  }

  /** The objects of a round go from being processed to waiting. */
  lemma RoundWaits(h0: seq<Object>, h: seq<Object>, h': seq<Object>, C0: set<Ref>, C: set<Ref>, X: set<Ref>,
                   ext: multiset<Ref>, order: seq<Ref>, owner: map<Ref, (Ref, int)>, round: seq<Ref>)
    requires Cascading(h0, h, C0, C, X, ext, ext, order) && Owning(h, order, owner, Elems(order) - C, NULL, 0)
    requires Opened(h0, h, C, order, round) && |h'| == |h|
    requires forall x :: IsRef(h, x) ==> h'[x] == if x in round then h[x].(state := WaitingForGc) else h[x]
    ensures Cascading(h0, h', C0, C, X, ext, ext, order) && Owning(h', order, owner, Elems(order) - C, NULL, 0)
    ensures Opened(h0, h', C, order, [])
  {
    hide Cascading, Owning, Emptied;
    RestateStep(h0, h, h', C0, C, X, ext, ext, order);
    OwningCount(h, h', order, owner, Elems(order) - C, NULL, 0);
    OpenedClose(h0, h, h', C, order, round);
  }

  lemma WaitingEnd(h0: seq<Object>, h: seq<Object>, C0: set<Ref>, C: set<Ref>, X: set<Ref>, ext: multiset<Ref>,
                   order: seq<Ref>, owner: map<Ref, (Ref, int)>)
    requires Cascading(h0, h, C0, C, X, ext, ext, order)
    requires Owning(h, order, owner, Elems(order) - C, NULL, 0)
    requires Opened(h0, h, C, order, []) && Stacked(C, order, [], [])
    ensures Cascaded(h0, h, C0, X, ext, order)
    ensures forall x :: x in order ==> IsRef(h, x) && h[x].state == WaitingForGc
  {
    assert Elems(order) - C == Elems(order);
    OwningIsForest(h, order, owner);
    assert WaitingOf(h, Elems(order)) == Elems(order);
    CascadeEnd(h0, h, C0, C, X, ext, order) by { hide Cascading, Forest, Owning; }
  }

  /** The cascade of src/gc/GC.h:58-107: `root` is a candidate whose count has run out. */
  method DecrementWaiting(heap: Heap, root: Ref, ghost C0: set<Ref>, ghost X: set<Ref>, ghost ext: multiset<Ref>)
    returns (ghost order: seq<Ref>)
    requires Accounts(heap.objs, C0, X, ext)
    requires root in C0 && root !in X && heap.objs[root].count == 0 && heap.objs[root].Candidate()
    modifies heap`objs
    ensures Cascaded(old(heap.objs), heap.objs, C0, X, ext, order)
    ensures order != [] && order[0] == root
    ensures forall x :: x in order ==> IsRef(heap.objs, x) && heap.objs[x].state == WaitingForGc
  {
    hide Cascading, Cascaded, Owning, Opened, Accounts, Scanning, Stacked, Forest, Emptied, Settled, Sifted;
    ghost var h0, C := heap.objs, C0;
    CascadeStart(h0, C0, X, ext, root);
    order := [root];
    StackedStart(C0, root);
    OpenedStart(h0, C0, root);
    ghost var owner: map<Ref, (Ref, int)> := map[];
    var checkRoots: seq<Ref> := [];
    var currentRoot := root;
    while true
      invariant Cascading(h0, heap.objs, C0, C, X, ext, ext, order)
      invariant Owning(heap.objs, order, owner, Elems(order) - C, NULL, 0)
      invariant Opened(h0, heap.objs, C, order, [])
      invariant Stacked(C, order, [currentRoot], checkRoots)
      invariant order != [] && order[0] == root
      decreases C
    {
      var releaseObjects: seq<Ref> := [];
      var checkObjects: seq<Ref> := [];
      var currentObject := currentRoot;
      ghost var C1 := C;
      assert checkObjects + [currentObject] == [currentRoot];
      while true
        invariant C <= C1
        invariant Cascading(h0, heap.objs, C0, C, X, ext, ext, order)
        invariant Owning(heap.objs, order, owner, Elems(order) - C, NULL, 0)
        invariant Opened(h0, heap.objs, C, order, releaseObjects)
        invariant Stacked(C, order, checkObjects + [currentObject], checkRoots)
        invariant order != [] && order[0] == root
        decreases C
      {
        StackedPop(C, order, checkObjects, checkRoots, currentObject);
        CascadingFacts(h0, heap.objs, C0, C, X, ext, ext, order, currentObject);
        TakeUp(h0, heap.objs, C0, C, X, ext, order, owner, releaseObjects, currentObject);
        releaseObjects := releaseObjects + [currentObject];
        heap.objs := heap.objs[currentObject := heap.objs[currentObject].(state := ProcessGc)];
        ghost var P := Elems(order) - C;
        C := C - {currentObject};
        ghost var h1, order1 := heap.objs, order;
        checkObjects, checkRoots, order, owner :=
          DropFieldsWaiting(heap, currentObject, checkObjects, checkRoots, h0, C0, C, X, ext, order, owner, P);
        PutDown(h0, h1, heap.objs, C0, C, X, ext, order1, order, owner, P, releaseObjects, currentObject,
                h1[currentObject].fields);
        if checkObjects == [] {
          break;
        }
        currentObject := checkObjects[|checkObjects| - 1];
        assert checkObjects == checkObjects[..|checkObjects| - 1] + [currentObject];
        checkObjects := checkObjects[..|checkObjects| - 1];
      }
      ghost var h2 := heap.objs;
      OpenedRefs(h0, h2, C, order, releaseObjects);
      StoreStates(heap, releaseObjects, WaitingForGc);
      RoundWaits(h0, h2, heap.objs, C0, C, X, ext, order, owner, releaseObjects);
      if checkRoots == [] {
        break;
      }
      StackedNextRoot(C, order, checkRoots);
      currentRoot := checkRoots[|checkRoots| - 1];
      checkRoots := checkRoots[..|checkRoots| - 1];
    }
    WaitingEnd(h0, heap.objs, C0, C, X, ext, order, owner);
  }

  // -------------------------------------------------- the cascade that kills

  /** The opened objects of a killing cascade, other than the one in hand, have settled. */
  ghost predicate Dying(h0: seq<Object>, h: seq<Object>, C: set<Ref>, order: seq<Ref>, o: Ref) {
    && |h| == |h0|
    && (forall x :: x in order && x !in C && x != o ==> IsRef(h, x) && Settled(h0[x], h[x]))
    && (forall x :: x in order && x in C && x != o ==> IsRef(h, x) && h[x].state == Live)
    && (o in order ==> IsRef(h, o) && o !in C && !h0[o].Candidate() && h[o] == h0[o].(count := 0) && h[o].state == Live)
    && Forest(h, WaitingOf(h, Elems(order)))
  }

  ghost predicate StackedPlain(h: seq<Object>, C: set<Ref>, order: seq<Ref>, stack: seq<Ref>) {
    && Stacked(C, order, stack, [])
    && (forall x :: x in stack ==> IsRef(h, x) && !h[x].Candidate())
  }

  /** A waiting cascade started from within another cascade becomes part of it. */
  lemma Absorb(h0: seq<Object>, h: seq<Object>, h': seq<Object>, C0: set<Ref>, C: set<Ref>, X: set<Ref>,
               ext0: multiset<Ref>, ext: multiset<Ref>, order: seq<Ref>, sub: seq<Ref>)
    requires sub != [] && sub[0] in C && order != []
    requires Cascading(h0, h, C0, C, X, ext0, ext, order + [sub[0]])
    requires Cascaded(h, h', C, X, ext, sub)
    ensures Cascading(h0, h', C0, C - Elems(sub), X, ext0, ext, order + sub)
  {
    hide Forest, Accounts, Grounded, Settled;
    var order', mid := order + sub, order + [sub[0]];
    AbsorbOrder(h0, h, h', C0, C, X, ext0, ext, order, sub);
    AbsorbRefs(h, h', C, X, ext, sub);
    assert forall x :: x in order' <==> x in order || x in sub;
    assert forall x :: x in mid <==> x in order || x == sub[0];
    forall x | x in sub ensures h'[x].count == 0 { AbsorbZero(h[x], h'[x]); }
  }

  lemma AbsorbZero(ob: Object, ob': Object)
    requires Settled(ob, ob')
    ensures ob'.count == 0
  {
  }

  lemma AbsorbRefs(h: seq<Object>, h': seq<Object>, C: set<Ref>, X: set<Ref>, ext: multiset<Ref>, sub: seq<Ref>)
    requires Cascaded(h, h', C, X, ext, sub)
    ensures forall x :: x in sub ==> IsRef(h, x) && x in C && x !in X
  {
    hide Forest, Accounts, Points;
  }

  lemma AbsorbOrder(h0: seq<Object>, h: seq<Object>, h': seq<Object>, C0: set<Ref>, C: set<Ref>, X: set<Ref>,
                    ext0: multiset<Ref>, ext: multiset<Ref>, order: seq<Ref>, sub: seq<Ref>)
    requires sub != [] && sub[0] in C && order != []
    requires Cascading(h0, h, C0, C, X, ext0, ext, order + [sub[0]])
    requires Cascaded(h, h', C, X, ext, sub)
    ensures Grounded(h0, C0, X, ext0, order + sub)
    ensures forall k :: 1 <= k < |order + sub| ==> h0[(order + sub)[k]].count > 0
  {
    hide Forest, Accounts, Cascaded, Cascading;
    forall j | 0 <= j < |sub| {
      AbsorbMember(h0, h, h', C0, C, X, ext0, ext, order, sub, j);
    }
    assert Grounded(h0, C0, X, ext0, order + [sub[0]]) && NoDup(sub)
        && (forall k :: 1 <= k < |order + [sub[0]]| ==>
              IsRef(h0, (order + [sub[0]])[k]) && h0[(order + [sub[0]])[k]].count > 0) by {
      AbsorbBase(h0, h, h', C0, C, X, ext0, ext, order, sub);
    }
    GroundedAppend(h0, C0, X, ext0, order, sub);
    forall k | 1 <= k < |order + sub| ensures h0[(order + sub)[k]].count > 0 {
      if k < |order| {
        assert (order + sub)[k] == (order + [sub[0]])[k];
      } else {
        assert (order + sub)[k] == sub[k - |order|];
      }
    }
  }

  lemma AbsorbBase(h0: seq<Object>, h: seq<Object>, h': seq<Object>, C0: set<Ref>, C: set<Ref>, X: set<Ref>,
                   ext0: multiset<Ref>, ext: multiset<Ref>, order: seq<Ref>, sub: seq<Ref>)
    requires sub != []
    requires Cascading(h0, h, C0, C, X, ext0, ext, order + [sub[0]])
    requires Cascaded(h, h', C, X, ext, sub)
    ensures Grounded(h0, C0, X, ext0, order + [sub[0]]) && NoDup(sub)
    ensures forall k :: 1 <= k < |order + [sub[0]]| ==>
          IsRef(h0, (order + [sub[0]])[k]) && h0[(order + [sub[0]])[k]].count > 0
  {
    hide Forest, Accounts, Points;
  }

  lemma AbsorbMember(h0: seq<Object>, h: seq<Object>, h': seq<Object>, C0: set<Ref>, C: set<Ref>, X: set<Ref>,
                     ext0: multiset<Ref>, ext: multiset<Ref>, order: seq<Ref>, sub: seq<Ref>, j: nat)
    requires sub != [] && sub[0] in C && order != [] && j < |sub|
    requires Cascading(h0, h, C0, C, X, ext0, ext, order + [sub[0]])
    requires Cascaded(h, h', C, X, ext, sub)
    ensures IsRef(h0, sub[j]) && sub[j] in C0 && sub[j] !in X && ext0[sub[j]] == 0 && sub[j] !in order
    ensures h0[sub[j]].count > 0
    ensures forall o :: o in C0 && Points(h0, o, sub[j]) ==> o in order + sub[..j]
  {
    hide Forest, Accounts;
    var mid, n := order + [sub[0]], |order|;
    assert mid[n] == sub[0];
    assert forall x :: x in order ==> x in mid;
    if j == 0 {
      forall k | 0 <= k < n ensures order[k] != sub[0] { assert mid[k] == order[k]; }
      assert h0[mid[n]].count > 0;
    } else {
      assert h[sub[j]].count > 0;
    }
    forall o | o in C0 && Points(h0, o, sub[j]) ensures o in order + sub[..j] {
      if o in C {
        assert h[o].fields == h0[o].fields;
        assert Points(h, o, sub[j]);
      } else {
        assert o in mid && o != sub[0];
      }
    }
  }

  lemma GroundedAppend(h: seq<Object>, C: set<Ref>, X: set<Ref>, ext: multiset<Ref>, order: seq<Ref>, sub: seq<Ref>)
    requires sub != [] && Grounded(h, C, X, ext, order + [sub[0]]) && NoDup(sub)
    requires forall j :: 0 <= j < |sub| ==>
               && IsRef(h, sub[j]) && sub[j] in C && sub[j] !in X && ext[sub[j]] == 0 && sub[j] !in order
               && (forall o :: o in C && Points(h, o, sub[j]) ==> o in order + sub[..j])
    ensures Grounded(h, C, X, ext, order + sub)
  {
    hide Points;
    var mid, all, n := order + [sub[0]], order + sub, |order|;
    forall k | 0 <= k < |all|
      ensures IsRef(h, all[k]) && all[k] in C && all[k] !in X && ext[all[k]] == 0
      ensures forall o :: o in C && Points(h, o, all[k]) ==> o in all[..k]
    {
      if k < n {
        assert all[k] == mid[k] && all[..k] == mid[..k];
      } else {
        assert all[k] == sub[k - n] && all[..k] == order + sub[..k - n];
      }
    }
    forall i, j | 0 <= i < j < |all| ensures all[i] != all[j] {
      if j < n {
        assert all[i] == mid[i] && all[j] == mid[j];
      } else if i < n {
        assert sub[j - n] !in order;
      }
    }
  }

  /** Counts other than those of settled objects do not matter to `Dying`. */
  lemma DyingDecrement(h0: seq<Object>, h: seq<Object>, C: set<Ref>, order: seq<Ref>, o: Ref, f: Ref)
    requires Dying(h0, h, C, order, o) && WellFormed(h)
    requires IsRef(h, f) && f in C && f !in order && f != o && h[f].count > 0 && h[f].state == Live
    ensures var h' := h[f := h[f].(count := h[f].count - 1)];
            Dying(h0, h', C, order, o) && Dying(h0, h', C, order + [f], o)
  {
    hide Forest, WellFormed;
    var h' := h[f := h[f].(count := h[f].count - 1)];
    var W := WaitingOf(h, Elems(order));
    assert W == WaitingOf(h', Elems(order));
    assert W == WaitingOf(h', Elems(order + [f]));
    ForestFrame(h, h', W);
  }

  lemma AbsorbDying(h0: seq<Object>, h: seq<Object>, h': seq<Object>, C0: set<Ref>, C: set<Ref>, X: set<Ref>,
                    ext0: multiset<Ref>, ext: multiset<Ref>, order: seq<Ref>, sub: seq<Ref>, o: Ref)
    requires sub != [] && sub[0] in C && order != [] && o in order
    requires Cascading(h0, h, C0, C, X, ext0, ext, order + [sub[0]])
    requires Cascaded(h, h', C, X, ext, sub)
    requires Dying(h0, h, C, order, o)
    ensures Dying(h0, h', C - Elems(sub), order + sub, o)
  {
    hide Forest, Grounded, Accounts, Settled;
    var all, mid := order + sub, order + [sub[0]];
    assert forall x :: x in all <==> x in order || x in sub;
    assert forall x :: x in order ==> x in mid;
    assert WellFormed(h) by { AccountsWellFormed(h, C, X, ext); }
    forall j | 0 <= j < |sub| ensures sub[j] in C && sub[j] !in order {
      AbsorbMember(h0, h, h', C0, C, X, ext0, ext, order, sub, j);
      GroundedInC(h, C, X, ext, sub, j);
    }
    var V, W := WaitingOf(h, Elems(order)), WaitingOf(h', Elems(sub));
    assert V == WaitingOf(h', Elems(order));
    assert WaitingOf(h', Elems(all)) == V + W;
    ForestFrame(h, h', V);
    ForestUnion(h', V, W);
    forall x | x in sub ensures IsRef(h', x) && Settled(h0[x], h'[x]) {
      var j :| 0 <= j < |sub| && sub[j] == x;
      SettledCount(h0[x], h[x], h'[x]);
    }
  }

  lemma SettledCount(ob0: Object, ob: Object, ob': Object)
    requires Settled(ob, ob') && ob == ob0.(count := ob.count)
    ensures Settled(ob0, ob')
  {
  }

  lemma GroundedInC(h: seq<Object>, C: set<Ref>, X: set<Ref>, ext: multiset<Ref>, order: seq<Ref>, j: nat)
    requires Grounded(h, C, X, ext, order) && j < |order|
    ensures order[j] in C
  {
  }

  lemma AccountsWellFormed(h: seq<Object>, C: set<Ref>, X: set<Ref>, ext: multiset<Ref>)
    requires Accounts(h, C, X, ext)
    ensures WellFormed(h)
  {
  }

  lemma AbsorbStack(h0: seq<Object>, h: seq<Object>, h': seq<Object>, C0: set<Ref>, C: set<Ref>, X: set<Ref>,
                    ext0: multiset<Ref>, ext: multiset<Ref>, order: seq<Ref>, sub: seq<Ref>, stack: seq<Ref>)
    requires sub != [] && sub[0] in C && order != []
    requires Cascading(h0, h, C0, C, X, ext0, ext, order + [sub[0]])
    requires Cascaded(h, h', C, X, ext, sub)
    requires StackedPlain(h, C, order, stack)
    ensures StackedPlain(h', C - Elems(sub), order + sub, stack)
  {
    hide Forest, Grounded, Accounts, Cascading, Settled;
    forall j | 0 <= j < |sub| ensures sub[j] !in order {
      AbsorbMember(h0, h, h', C0, C, X, ext0, ext, order, sub, j);
    }
    forall x | x in stack ensures IsRef(h', x) && !h'[x].Candidate() && x !in sub {
      assert x in order;
    }
  }

  lemma StackedPlainPush(h: seq<Object>, h': seq<Object>, C: set<Ref>, order: seq<Ref>, stack: seq<Ref>, f: Ref)
    requires StackedPlain(h, C, order, stack)
    requires IsRef(h, f) && f in C && f !in order && |h'| == |h|
    requires forall x :: IsRef(h, x) ==> h'[x].Candidate() == h[x].Candidate()
    ensures StackedPlain(h', C, order, stack)
    ensures !h[f].Candidate() ==> StackedPlain(h', C, order + [f], stack + [f])
  {
    StackedPush(C, order, stack, [], f);
  }

  /** State of the field loop of the killing cascade before slot `i` of `o`. */
  ghost predicate Killing(h0: seq<Object>, h: seq<Object>, C0: set<Ref>, C: set<Ref>, X: set<Ref>, ext0: multiset<Ref>,
                          order: seq<Ref>, stack: seq<Ref>, o: Ref, fields: seq<Ref>, i: nat) {
    && IsRef(h, o) && h[o].fields == fields && i <= |fields| && o in order && order != []
    && (forall f :: f in fields ==> f !in X && (f == NULL || IsRef(h, f)))
    && Cascading(h0, h, C0, C, X, ext0, ext0 + multiset(fields[i..]), order)
    && Dying(h0, h, C, order, o)
    && StackedPlain(h, C, order, stack)
  }

  lemma KillNull(h0: seq<Object>, h: seq<Object>, C0: set<Ref>, C: set<Ref>, X: set<Ref>, ext0: multiset<Ref>,
                 order: seq<Ref>, stack: seq<Ref>, o: Ref, fields: seq<Ref>, i: nat)
    requires Killing(h0, h, C0, C, X, ext0, order, stack, o, fields, i) && i < |fields| && fields[i] == NULL
    ensures Killing(h0, h, C0, C, X, ext0, order, stack, o, fields, i + 1)
  {
    hide Cascading, Dying, StackedPlain;
    NextLoose(ext0, fields, i);
    assert ext0 + multiset(fields[i..]) == ext0 + multiset(fields[i + 1..]) + multiset{NULL};
    CascadingNull(h0, h, C0, C, X, ext0, ext0 + multiset(fields[i + 1..]), order);
  }

  /** After the decrement of slot `i`; the zeroed `f` is not yet stacked. */
  lemma KillDecrement(h0: seq<Object>, h: seq<Object>, C0: set<Ref>, C: set<Ref>, X: set<Ref>, ext0: multiset<Ref>,
                      order: seq<Ref>, stack: seq<Ref>, o: Ref, fields: seq<Ref>, i: nat)
    requires Killing(h0, h, C0, C, X, ext0, order, stack, o, fields, i) && i < |fields| && fields[i] != NULL
    ensures var f := fields[i];
            && IsRef(h, f) && f in C && f !in X && f != o && f !in order && h[f].count > 0
            && var h', ext := h[f := h[f].(count := h[f].count - 1)], ext0 + multiset(fields[i + 1..]);
               && (h'[f].count > 0 ==> Killing(h0, h', C0, C, X, ext0, order, stack, o, fields, i + 1))
               && (h'[f].count == 0 && !h[f].Candidate() ==>
                     Killing(h0, h', C0, C, X, ext0, order + [f], stack + [f], o, fields, i + 1))
               && (h'[f].count == 0 ==>
                     && Cascading(h0, h', C0, C, X, ext0, ext, order + [f])
                     && Accounts(h', C, X, ext)
                     && Dying(h0, h', C, order, o) && StackedPlain(h', C, order, stack))
  {
    hide Cascading, Dying, StackedPlain, Accounts;
    var f := fields[i];
    assert f in fields;
    NextLoose(ext0, fields, i);
    DecrementStep(h0, h, C0, C, X, ext0, ext0 + multiset(fields[i..]), order, f);
    CascadingFacts(h0, h, C0, C, X, ext0, ext0 + multiset(fields[i..]), order, o);
    AccountsWellFormed(h, C, X, ext0 + multiset(fields[i..]));
    DyingDecrement(h0, h, C, order, o, f);
    var h' := h[f := h[f].(count := h[f].count - 1)];
    StackedPlainPush(h, h', C, order, stack, f);
    if h'[f].count == 0 {
      CascadingFacts(h0, h', C0, C, X, ext0, ext0 + multiset(fields[i + 1..]), order + [f], f);
    }
  }

  lemma KillAbsorb(h0: seq<Object>, h: seq<Object>, h': seq<Object>, C0: set<Ref>, C: set<Ref>, X: set<Ref>,
                   ext0: multiset<Ref>,
                   order: seq<Ref>, sub: seq<Ref>, stack: seq<Ref>, o: Ref, fields: seq<Ref>, i: nat)
    requires sub != [] && sub[0] in C && order != [] && o in order && i < |fields|
    requires IsRef(h, o) && h[o].fields == fields && (forall f :: f in fields ==> f !in X && (f == NULL || IsRef(h, f)))
    requires Cascading(h0, h, C0, C, X, ext0, ext0 + multiset(fields[i + 1..]), order + [sub[0]])
    requires Cascaded(h, h', C, X, ext0 + multiset(fields[i + 1..]), sub)
    requires Dying(h0, h, C, order, o) && StackedPlain(h, C, order, stack)
    ensures Killing(h0, h', C0, C - Elems(sub), X, ext0, order + sub, stack, o, fields, i + 1)
  {
    hide Cascading, Cascaded, Dying, StackedPlain;
    var ext := ext0 + multiset(fields[i + 1..]);
    Absorb(h0, h, h', C0, C, X, ext0, ext, order, sub);
    AbsorbDying(h0, h, h', C0, C, X, ext0, ext, order, sub, o);
    AbsorbStack(h0, h, h', C0, C, X, ext0, ext, order, sub, stack);
    DyingInHand(h0, h, C, order, o);
    DyingInHand(h0, h', C - Elems(sub), order + sub, o);
  }

  lemma DyingInHand(h0: seq<Object>, h: seq<Object>, C: set<Ref>, order: seq<Ref>, o: Ref)
    requires Dying(h0, h, C, order, o) && o in order
    ensures |h| == |h0| && IsRef(h, o) && o !in C && !h0[o].Candidate() && h[o] == h0[o].(count := 0)
    ensures h[o].state == Live
  {
  }

  /** A member that does not wait references `x`. */
  ghost predicate KilledBy(h0: seq<Object>, h: seq<Object>, order: seq<Ref>, x: Ref) {
    exists o :: o in order && IsRef(h, o) && h[o].state != WaitingForGc && Points(h0, o, x)
  }

  /** Whatever ran out after the first and does not wait was referenced by a member that does not wait. */
  ghost predicate Killers(h0: seq<Object>, h: seq<Object>, order: seq<Ref>) {
    forall k :: 1 <= k < |order| && IsRef(h, order[k]) && h[order[k]].state != WaitingForGc ==>
      KilledBy(h0, h, order, order[k])
  }

  lemma KillersFrame(h0: seq<Object>, h: seq<Object>, h': seq<Object>, order: seq<Ref>)
    requires Killers(h0, h, order) && |h'| == |h|
    requires forall x :: x in order && IsRef(h, x) ==> (h'[x].state == WaitingForGc <==> h[x].state == WaitingForGc)
    ensures Killers(h0, h', order)
  {
    forall k | 1 <= k < |order| && IsRef(h', order[k]) && h'[order[k]].state != WaitingForGc
      ensures KilledBy(h0, h', order, order[k])
    {
      assert order[k] in order;
      assert KilledBy(h0, h, order, order[k]);
    }
  }

  /** The last reference to `f` came from the object in hand. */
  lemma KillersPush(h0: seq<Object>, h: seq<Object>, C: set<Ref>, order: seq<Ref>, o: Ref, f: Ref)
    requires Killers(h0, h, order) && Dying(h0, h, C, order, o) && o in order && IsRef(h, f) && f in h[o].fields
    ensures Killers(h0, h, order + [f])
  {
    hide Forest;
    var order' := order + [f];
    assert o in order' && Points(h0, o, f);
    forall k | 1 <= k < |order'| && IsRef(h, order'[k]) && h[order'[k]].state != WaitingForGc
      ensures KilledBy(h0, h, order', order'[k])
    {
      if k < |order| {
        assert order'[k] == order[k];
        var p :| p in order && IsRef(h, p) && h[p].state != WaitingForGc && Points(h0, p, order[k]);
        assert p in order';
      } else {
        assert KilledBy(h0, h, order', f);
      }
    }
  }

  /** Members that wait need no killer. */
  lemma KillersAbsorb(h0: seq<Object>, h: seq<Object>, h': seq<Object>, order: seq<Ref>, sub: seq<Ref>)
    requires Killers(h0, h, order) && |h'| == |h|
    requires forall x :: x in sub && IsRef(h', x) ==> h'[x].state == WaitingForGc
    requires forall x :: x in order && IsRef(h, x) ==> h'[x].state == h[x].state
    ensures Killers(h0, h', order + sub)
  {
    var order' := order + sub;
    forall k | 1 <= k < |order'| && IsRef(h', order'[k]) && h'[order'[k]].state != WaitingForGc
      ensures KilledBy(h0, h', order', order'[k])
    {
      if k < |order| {
        assert order'[k] == order[k] && order[k] in order;
        var p :| p in order && IsRef(h, p) && h[p].state != WaitingForGc && Points(h0, p, order[k]);
        assert p in order';
      }
    }
  }

  lemma KillersWait(h0: seq<Object>, h: seq<Object>, order: seq<Ref>)
    requires forall x :: x in order && IsRef(h, x) ==> h[x].state == WaitingForGc
    ensures Killers(h0, h, order)
  {
    assert forall k :: 0 <= k < |order| ==> order[k] in order;
  }

  /** An absorbed cascade leaves the states of the other members alone. */
  lemma AbsorbStates(h0: seq<Object>, h: seq<Object>, h': seq<Object>, C0: set<Ref>, C: set<Ref>, X: set<Ref>,
                     ext0: multiset<Ref>, ext: multiset<Ref>, order: seq<Ref>, sub: seq<Ref>)
    requires sub != [] && sub[0] in C && order != []
    requires Cascading(h0, h, C0, C, X, ext0, ext, order + [sub[0]])
    requires Cascaded(h, h', C, X, ext, sub)
    ensures |h'| == |h| && forall x :: x in order && IsRef(h, x) ==> h'[x].state == h[x].state
  {
    hide Forest, Accounts, Cascading, Grounded, Settled;
    forall x | x in order && IsRef(h, x) ensures h'[x].state == h[x].state {
      if x in sub {
        var j :| 0 <= j < |sub| && sub[j] == x;
        AbsorbMember(h0, h, h', C0, C, X, ext0, ext, order, sub, j);
      }
    }
  }

  /** The field loop at src/gc/GC.h:127-146 on the opened object `o`. */
  method DropFields(heap: Heap, o: Ref, stack0: seq<Ref>, ghost h0: seq<Object>, ghost C0: set<Ref>, ghost C1: set<Ref>,
                    ghost X: set<Ref>, ghost ext0: multiset<Ref>, ghost order0: seq<Ref>)
    returns (stack: seq<Ref>, ghost C: set<Ref>, ghost order: seq<Ref>)
    requires IsRef(heap.objs, o)
    requires Killing(h0, heap.objs, C0, C1, X, ext0, order0, stack0, o, heap.objs[o].fields, 0)
    requires Killers(h0, heap.objs, order0)
    modifies heap`objs
    ensures C <= C1 && order0 <= order
    ensures IsRef(heap.objs, o)
    ensures Killing(h0, heap.objs, C0, C, X, ext0, order, stack, o, heap.objs[o].fields, |heap.objs[o].fields|)
    ensures Killers(h0, heap.objs, order)
  {
    hide Cascading, Cascaded, Dying, StackedPlain, Accounts, Stacked, Killers;
    stack, C, order := stack0, C1, order0;
    ghost var fields := heap.objs[o].fields;
    var i := 0;
    while i < |heap.objs[o].fields|
      invariant 0 <= i <= |fields|
      invariant C <= C1 && order0 <= order
      invariant Killing(h0, heap.objs, C0, C, X, ext0, order, stack, o, fields, i)
      invariant Killers(h0, heap.objs, order)
    {
      var f := heap.objs[o].fields[i];
      if f != NULL {
        KillDecrement(h0, heap.objs, C0, C, X, ext0, order, stack, o, fields, i);
        KillersFrame(h0, heap.objs, heap.objs[f := heap.objs[f].(count := heap.objs[f].count - 1)], order);
        var previous := heap.objs[f].count;
        heap.objs := heap.objs[f := heap.objs[f].(count := previous - 1)];
        if previous == 1 {
          if heap.objs[f].isCyclicType && heap.objs[f].asyncRelease {
            ghost var h, ext := heap.objs, ext0 + multiset(fields[i + 1..]);
            ghost var sub := DecrementWaiting(heap, f, C, X, ext);
            KillAbsorb(h0, h, heap.objs, C0, C, X, ext0, order, sub, stack, o, fields, i);
            AbsorbStates(h0, h, heap.objs, C0, C, X, ext0, ext, order, sub);
            KillersAbsorb(h0, h, heap.objs, order, sub);
            C, order := C - Elems(sub), order + sub;
          } else {
            KillersPush(h0, heap.objs, C, order, o, f);
            stack, order := stack + [f], order + [f];
          }
        }
      } else {
        KillNull(h0, heap.objs, C0, C, X, ext0, order, stack, o, fields, i);
      }
      i := i + 1;
    }
  }

  lemma KillOpen(h0: seq<Object>, h: seq<Object>, C0: set<Ref>, C: set<Ref>, X: set<Ref>, ext0: multiset<Ref>,
                 order: seq<Ref>, stack: seq<Ref>, o: Ref)
    requires Cascading(h0, h, C0, C, X, ext0, ext0, order) && order != []
    requires Dying(h0, h, C, order, NULL) && StackedPlain(h, C, order, stack + [o])
    ensures IsRef(h, o) && o in C
    ensures Killing(h0, h, C0, C - {o}, X, ext0, order, stack, o, h[o].fields, 0)
  {
    hide Cascading, Accounts, Stacked, Forest;
    assert (stack + [o])[|stack|] == o;
    StackedPop(C, order, stack, [], o);
    CascadingFacts(h0, h, C0, C, X, ext0, ext0, order, o);
    FieldsOutside(h, C, X, ext0, o);
    FieldsAreRefs(h, C, X, ext0, o);
    OpenStep(h0, h, C0, C, X, ext0, order, o);
    assert h[o].fields[0..] == h[o].fields;
    assert NULL !in order by { CascadingRefs(h0, h, C0, C, X, ext0, ext0, order); }
    assert !h[o].Candidate();
  }

  lemma FieldsAreRefs(h: seq<Object>, C: set<Ref>, X: set<Ref>, ext: multiset<Ref>, o: Ref)
    requires Accounts(h, C, X, ext) && IsRef(h, o)
    ensures forall f :: f in h[o].fields ==> f == NULL || IsRef(h, f)
  {
  }

  lemma CascadingRefs(h0: seq<Object>, h: seq<Object>, C0: set<Ref>, C: set<Ref>, X: set<Ref>,
                      ext0: multiset<Ref>, ext: multiset<Ref>, order: seq<Ref>)
    requires Cascading(h0, h, C0, C, X, ext0, ext, order)
    ensures forall x :: x in order ==> IsRef(h, x)
  {
  }

  lemma KillDone(h0: seq<Object>, h: seq<Object>, C0: set<Ref>, C: set<Ref>, X: set<Ref>, ext0: multiset<Ref>,
                 order: seq<Ref>, stack: seq<Ref>, o: Ref)
    requires IsRef(h, o) && Killing(h0, h, C0, C, X, ext0, order, stack, o, h[o].fields, |h[o].fields|)
    ensures var h' := h[o := h[o].(state := Dead)];
            && Cascading(h0, h', C0, C, X, ext0, ext0, order)
            && Dying(h0, h', C, order, NULL) && StackedPlain(h', C, order, stack)
  {
    hide Cascading, Stacked, Forest, Accounts, WellFormed;
    var fields := h[o].fields;
    assert fields[|fields|..] == [];
    assert ext0 + multiset(fields[|fields|..]) == ext0;
    CascadingFacts(h0, h, C0, C, X, ext0, ext0, order, o);
    FieldsAreRefs(h, C, X, ext0, o);
    CascadingRefs(h0, h, C0, C, X, ext0, ext0, order);
    var ob := h[o].(state := Dead);
    forall i | 0 <= i < |ob.fields| ensures ob.fields[i] == NULL || IsRef(h, ob.fields[i]) {
      assert ob.fields[i] in h[o].fields;
    }
    RewriteStep(h0, h, C0, C, X, ext0, ext0, order, o, ob);
    var h' := h[o := ob];
    assert WaitingOf(h, Elems(order)) == WaitingOf(h', Elems(order));
    AccountsWellFormed(h, C, X, ext0);
    ForestFrame(h, h', WaitingOf(h, Elems(order)));
  }

  /** A cascade stops only when the zeroed set is closed. */
  lemma CascadeComplete(h: seq<Object>, h': seq<Object>, C: set<Ref>, X: set<Ref>, ext: multiset<Ref>, order: seq<Ref>)
    requires Cascaded(h, h', C, X, ext, order)
    requires forall x :: x in C && x !in X && x !in order && IsRef(h, x) ==> h[x].count > 0
    requires forall x :: x in C ==> IsRef(h, x)
    ensures DropClosed(h, C, X, ext, Elems(order))
    ensures forall x :: x in C && x !in X && x !in order ==> h'[x].count > 0
  {
    hide Forest, Grounded;
    var Z := Elems(order);
    forall x | x in C && x !in X && ext[x] == 0 && (forall o :: o in C && Points(h, o, x) ==> o in Z) ensures x in Z {
      SlotsZero(h', C - Z, x);
      forall o | o in C - Z ensures !Points(h', o, x) {
        assert h'[o].fields == h[o].fields;
        assert Points(h', o, x) <==> Points(h, o, x);
      }
    }
  }

  /** What dropping one reference to `x` does to memory; `order` lists what it zeroes. */
  ghost predicate Dropped(h: seq<Object>, h': seq<Object>, C: set<Ref>, X: set<Ref>, ext: multiset<Ref>, x: Ref,
                          order: seq<Ref>) {
    && IsRef(h, x) && x !in X && ext[x] > 0 && h[x].count > 0
    && var h1 := h[x := h[x].(count := h[x].count - 1)];
       && Cascaded(h1, h', C, X, ext - multiset{x}, order)
       && DropClosed(h1, C, X, ext - multiset{x}, Elems(order))
       && (order != [] <==> h[x].count == 1) && (order != [] ==> order[0] == x)
       && Killers(h1, h', order)
       && (forall y :: y in C && y !in X && y !in order ==> IsRef(h', y) && h'[y].count > 0)
  }

  /** A slot of a waiting member that still holds `y`. */
  ghost predicate KeptIn(h': seq<Object>, order: seq<Ref>, o: Ref, i: int, y: Ref) {
    && o in order && IsRef(h', o) && h'[o].state == WaitingForGc
    && 0 <= i < |h'[o].fields| && h'[o].fields[i] == y
  }

  /** A zeroed object below no candidate does not wait. */
  lemma WaitingIsKept(h: seq<Object>, h': seq<Object>, C: set<Ref>, X: set<Ref>, ext: multiset<Ref>, order: seq<Ref>,
                      y: Ref)
    requires Cascaded(h, h', C, X, ext, order)
    requires y in order && IsRef(h, y) && h'[y].state == WaitingForGc && !h[y].Candidate()
    ensures exists o, i :: KeptIn(h', order, o, i, y) && IsRef(h, o) && i < |h[o].fields| && h[o].fields[i] == y
    ensures forall o, i, p, j :: KeptIn(h', order, o, i, y) && KeptIn(h', order, p, j, y) ==> o == p && i == j
  {
    hide Grounded, Reach;
    var W := WaitingOf(h', Elems(order));
    AccountsWellFormed(h', C - Elems(order), X, ext);
    ForestClosed(h', W);
    assert y in Elems(order) && y in W && Settled(h[y], h'[y]);
    ReachLeast(h', Candidates(h', W), W);
    ReachPred(h', Candidates(h', W), y);
    var o :| o in Reach(h', Candidates(h', W)) && Points(h', o, y);
    var i :| 0 <= i < |h'[o].fields| && h'[o].fields[i] == y;
    assert o in order && Settled(h[o], h'[o]);
    assert KeptIn(h', order, o, i, y);
    assert forall p, j :: KeptIn(h', order, p, j, y) ==> p in W;
  }

  lemma FirstUnreferenced(h: seq<Object>, C: set<Ref>, X: set<Ref>, ext: multiset<Ref>, order: seq<Ref>, o: Ref)
    requires Grounded(h, C, X, ext, order) && order != [] && o in order && IsRef(h, o)
    ensures !Points(h, o, order[0])
  {
    var k :| 0 <= k < |order| && order[k] == o;
    assert o in C;
    assert order[..0] == [];
  }

  /** Which zeroed objects wait and which die: a candidate waits; of the others, the one that was dropped
      dies, one referenced by waiting members only waits, one referenced by dying members only dies. One
      that waits is kept by exactly one slot, which held it before. */
  lemma WhoWaits(h: seq<Object>, h': seq<Object>, C: set<Ref>, X: set<Ref>, ext: multiset<Ref>, x: Ref,
                 order: seq<Ref>, y: Ref)
    requires Dropped(h, h', C, X, ext, x, order) && y in order && IsRef(h, y)
    ensures h[y].Candidate() ==> h'[y].state == WaitingForGc
    ensures !h[y].Candidate() && y == x ==> h'[y].state == Dead
    ensures var allWait := forall o :: o in order && Points(h, o, y) ==> h'[o].state == WaitingForGc;
            !h[y].Candidate() && y != x && allWait ==> h'[y].state == WaitingForGc
    ensures var allDie := forall o :: o in order && Points(h, o, y) ==> h'[o].state == Dead;
            !h[y].Candidate() && allDie ==> h'[y].state == Dead
    ensures !h[y].Candidate() && h'[y].state == WaitingForGc ==>
              && (exists o, i :: KeptIn(h', order, o, i, y) && IsRef(h, o) && i < |h[o].fields| && h[o].fields[i] == y)
              && (forall o, i, p, j :: KeptIn(h', order, o, i, y) && KeptIn(h', order, p, j, y) ==> o == p && i == j)
  {
    hide Accounts, Forest, DropClosed, Grounded;
    var h1 := h[x := h[x].(count := h[x].count - 1)];
    assert Settled(h1[y], h'[y]);
    var k :| 0 <= k < |order| && order[k] == y;
    if !h[y].Candidate() {
      if h'[y].state == WaitingForGc {
        WaitingIsKept(h1, h', C, X, ext - multiset{x}, order, y);
        var o, i :| KeptIn(h', order, o, i, y) && IsRef(h1, o) && i < |h1[o].fields| && h1[o].fields[i] == y;
        assert Points(h, o, y) && Points(h1, o, y);
        FirstUnreferenced(h1, C, X, ext - multiset{x}, order, o);
      } else if y != x {
        assert KilledBy(h1, h', order, order[k]);
        var o :| o in order && IsRef(h', o) && h'[o].state != WaitingForGc && Points(h1, o, y);
        assert Points(h, o, y);
      }
    }
  }

  lemma DropNothing(h: seq<Object>, C: set<Ref>, X: set<Ref>, ext: multiset<Ref>)
    requires Accounts(h, C, X, ext)
    ensures Cascaded(h, h, C, X, ext, [])
  {
    assert C - Elems([]) == C;
    assert WaitingOf(h, Elems([])) == {};
  }

  /** `decrement_reference_count` (src/gc/GC.h:109-155). */
  method DecrementReferenceCount(heap: Heap, x: Ref, ghost C0: set<Ref>, ghost X: set<Ref>, ghost ext: multiset<Ref>)
    returns (ghost order: seq<Ref>)
    requires Accounts(heap.objs, C0, X, ext)
    requires IsRef(heap.objs, x) && x !in X && ext[x] > 0
    requires forall y :: y in C0 && y !in X && IsRef(heap.objs, y) ==> heap.objs[y].count > 0
    modifies heap`objs
    ensures Dropped(old(heap.objs), heap.objs, C0, X, ext, x, order)
  {
    hide Accounts, Cascading, Cascaded, Dying, StackedPlain, Killing, DropClosed, Killers;
    LooseIsCounted(heap.objs, C0, X, ext, x);
    DropLoose(heap.objs, C0, X, ext, x);
    AccountsInMemory(heap.objs, C0, X, ext);
    ghost var ext0 := ext - multiset{x};
    var previous := heap.objs[x].count;
    heap.objs := heap.objs[x := heap.objs[x].(count := previous - 1)];
    ghost var h0 := heap.objs;
    order := [];
    if previous == 1 {
      if heap.objs[x].isCyclicType && heap.objs[x].asyncRelease {
        order := DecrementWaiting(heap, x, C0, X, ext0);
        KillersWait(h0, heap.objs, order);
        CascadeComplete(h0, heap.objs, C0, X, ext0, order);
        CascadedLength(h0, heap.objs, C0, X, ext0, order);
        return;
      }
    } else {
      DropNothing(h0, C0, X, ext0);
      KillersWait(h0, h0, []);
      CascadeComplete(h0, heap.objs, C0, X, ext0, []);
      return;
    }

    ghost var C := C0;
    CascadeStart(h0, C0, X, ext0, x);
    order := [x];
    KillStart(h0, C0, x);
    assert Killers(h0, h0, [x]) by { KillersFirst(h0, x); }
    var checkObjects: seq<Ref> := [];
    var currentObject := x;
    assert checkObjects + [currentObject] == [x];
    while true
      invariant Cascading(h0, heap.objs, C0, C, X, ext0, ext0, order)
      invariant Dying(h0, heap.objs, C, order, NULL)
      invariant StackedPlain(heap.objs, C, order, checkObjects + [currentObject])
      invariant Killers(h0, heap.objs, order)
      invariant order != [] && order[0] == x
      decreases C
    {
      KillOpen(h0, heap.objs, C0, C, X, ext0, order, checkObjects, currentObject);
      C := C - {currentObject};
      checkObjects, C, order := DropFields(heap, currentObject, checkObjects, h0, C0, C, X, ext0, order);
      KillDone(h0, heap.objs, C0, C, X, ext0, order, checkObjects, currentObject);
      KillInHand(h0, heap.objs, C, order, currentObject, C0, X, ext0, checkObjects);
      KillersFrame(h0, heap.objs, heap.objs[currentObject := heap.objs[currentObject].(state := Dead)], order);
      heap.objs := heap.objs[currentObject := heap.objs[currentObject].(state := Dead)];
      if checkObjects == [] {
        break;
      }
      currentObject := checkObjects[|checkObjects| - 1];
      assert checkObjects == checkObjects[..|checkObjects| - 1] + [currentObject];
      checkObjects := checkObjects[..|checkObjects| - 1];
    }
    KillEnd(h0, heap.objs, C0, C, X, ext0, order);
    CascadeComplete(h0, heap.objs, C0, X, ext0, order);
    CascadedLength(h0, heap.objs, C0, X, ext0, order);
  }

  lemma KillersFirst(h: seq<Object>, x: Ref)
    ensures Killers(h, h, [x])
  {
  }

  lemma KillInHand(h0: seq<Object>, h: seq<Object>, C: set<Ref>, order: seq<Ref>, o: Ref, C0: set<Ref>, X: set<Ref>,
                   ext0: multiset<Ref>, stack: seq<Ref>)
    requires IsRef(h, o) && Killing(h0, h, C0, C, X, ext0, order, stack, o, h[o].fields, |h[o].fields|)
    ensures h[o].state == Live
  {
    hide Cascading, StackedPlain, Forest;
  }

  lemma AccountsInMemory(h: seq<Object>, C: set<Ref>, X: set<Ref>, ext: multiset<Ref>)
    requires Accounts(h, C, X, ext)
    ensures forall x :: x in C || x in X ==> IsRef(h, x)
  {
  }

  lemma CascadedLength(h: seq<Object>, h': seq<Object>, C: set<Ref>, X: set<Ref>, ext: multiset<Ref>, order: seq<Ref>)
    requires Cascaded(h, h', C, X, ext, order)
    ensures |h| == |h'|
  {
  }

  lemma KillStart(h: seq<Object>, C: set<Ref>, o: Ref)
    requires o in C && IsRef(h, o) && !h[o].Candidate() && h[o].state == Live
    ensures Dying(h, h, C, [o], NULL) && StackedPlain(h, C, [o], [o])
  {
    StackedStart(C, o);
    assert WaitingOf(h, Elems([o])) == {};
  }

  lemma KillEnd(h0: seq<Object>, h: seq<Object>, C0: set<Ref>, C: set<Ref>, X: set<Ref>, ext: multiset<Ref>,
                order: seq<Ref>)
    requires Cascading(h0, h, C0, C, X, ext, ext, order)
    requires Dying(h0, h, C, order, NULL) && StackedPlain(h, C, order, [])
    ensures Cascaded(h0, h, C0, X, ext, order)
  {
    hide Cascading, Forest;
    CascadingRefs(h0, h, C0, C, X, ext, ext, order);
    CascadeEnd(h0, h, C0, C, X, ext, order);
  }

  // -------------------------------------------------------------- increments

  class CycleCollector {
    /** The suspected list. */
    var suspected: set<Ref>

    constructor ()
      ensures suspected == {}
    {
      suspected := {};
    }

    /** `add_suspected_object` (src/gc/GC.h:34-38). */
    method AddSuspected(x: Ref)
      modifies this
      ensures suspected == old(suspected) + {x}
    {
      suspected := suspected + {x};
    }
  }

  /** An object with one more reference: it is registered when its count leaves one. */
  function Incremented(ob: Object): Object {
    ob.(count := ob.count + 1, asyncRelease := ob.asyncRelease || (ob.count == 1 && ob.isCyclicType))
  }

  /** `increment_reference_count` (src/gc/GC.h:46-54). */
  method IncrementReferenceCount(heap: Heap, collector: CycleCollector, x: Ref)
    requires IsRef(heap.objs, x)
    modifies heap`objs, collector
    ensures heap.objs == old(heap.objs)[x := Incremented(old(heap.objs[x]))]
    ensures collector.suspected == old(collector.suspected)
              + if heap.objs[x].asyncRelease && !old(heap.objs[x].asyncRelease) then {x} else {}
  {
    var previous := heap.objs[x].count;
    heap.objs := heap.objs[x := heap.objs[x].(count := previous + 1)];
    if previous == 1 && heap.objs[x].isCyclicType {
      if !heap.objs[x].asyncRelease {
        heap.objs := heap.objs[x := heap.objs[x].(asyncRelease := true)];
        collector.AddSuspected(x);
      }
    }
  }
}
