/** What running threads do to object fields: src/CatLa.cpp:120-188.

    Each method is one completed call. The thread's references live in `heap.held`; a method
    that returns a reference hands it to the caller, a method that takes one by move takes it
    out of the caller's hands. */
module Mutator {
  import opened Memory
  import opened RefCount
  import opened Consistency

  ghost predicate Valid(heap: Heap, collector: CycleCollector)
    reads heap, collector
  {
    Consistent(heap.objs, collector.suspected, heap.held)
  }

  /** A dead cell is handed out as a fresh object (src/heap/HeapAllocator.cpp:149-158). */
  method Allocate(heap: Heap, collector: CycleCollector, cell: Ref, fieldLength: nat, isCyclicType: bool)
    requires Valid(heap, collector)
    requires IsRef(heap.objs, cell) && heap.objs[cell].state == Dead
    modifies heap`objs, heap`held
    ensures Valid(heap, collector)
    ensures |heap.objs| == |old(heap.objs)|
    ensures forall y :: IsRef(heap.objs, y) && y != cell ==> heap.objs[y] == old(heap.objs)[y]
    ensures var ob := heap.objs[cell];
            && ob.count == 1 && ob.state == Live && !ob.asyncRelease && ob.isCyclicType == isCyclicType
            && |ob.fields| == fieldLength && forall i :: 0 <= i < fieldLength ==> ob.fields[i] == NULL
    ensures heap.objs == old(heap.objs)[cell := Fresh(fieldLength, isCyclicType)]
    ensures heap.held == old(heap.held) + multiset{cell}
  {
    hide Consistent;
    AllocKeeps(heap.objs, collector.suspected, heap.held, cell, fieldLength, isCyclicType);
    heap.objs := heap.objs[cell := heap.objs[cell].(fields := seq(fieldLength, _ => NULL))];
    heap.objs := heap.objs[cell := heap.objs[cell].(asyncRelease := false)];
    heap.objs := heap.objs[cell := heap.objs[cell].(state := Live)];
    heap.objs := heap.objs[cell := heap.objs[cell].(isCyclicType := isCyclicType)];
    heap.objs := heap.objs[cell := heap.objs[cell].(count := 1)];
    heap.held := heap.held + multiset{cell};
    assert heap.objs[cell].fields == Fresh(fieldLength, isCyclicType).fields;
    assert heap.objs == old(heap.objs)[cell := Fresh(fieldLength, isCyclicType)];
  }

  /** A thread copies a reference it holds. */
  method Clone(heap: Heap, collector: CycleCollector, x: Ref)
    requires Valid(heap, collector)
    requires IsRef(heap.objs, x) && heap.objs[x].state == Live
    modifies heap`objs, heap`held, collector
    ensures Valid(heap, collector)
    ensures heap.objs == old(heap.objs)[x := Incremented(old(heap.objs[x]))]
    ensures var ob, ob' := old(heap.objs[x]), heap.objs[x];
            && ob'.count == ob.count + 1 && ob'.state == ob.state && ob'.fields == ob.fields
            && ob'.isCyclicType == ob.isCyclicType
            && (ob'.asyncRelease <==> ob.asyncRelease || (ob.count == 1 && ob.isCyclicType))
    ensures heap.held == old(heap.held) + multiset{x}
  {
    hide Accounts, Forest, Acyclic, Flagged;
    IncrementKeeps(heap.objs, collector.suspected, heap.held, x);
    ghost var suspected := collector.suspected;
    IncrementReferenceCount(heap, collector, x);
    heap.held := heap.held + multiset{x};
    assert collector.suspected == if heap.objs[x].Candidate() then suspected + {x} else suspected;
  }

  /** A thread gives up a reference it holds; `order` lists the objects that die or wait. */
  method Drop(heap: Heap, collector: CycleCollector, x: Ref) returns (ghost order: seq<Ref>)
    requires Valid(heap, collector)
    requires x in heap.held
    modifies heap`objs, heap`held
    ensures Valid(heap, collector)
    ensures heap.held == old(heap.held) - multiset{x}
    ensures Dropped(old(heap.objs), heap.objs, LiveSet(old(heap.objs)), {}, old(heap.held), x, order)
    ensures forall y :: y in Reach(old(heap.objs), HeldSet(heap.held)) ==>
              && y !in order && IsRef(heap.objs, y) && heap.objs[y].count > 0
              && heap.objs[y] == old(heap.objs[y]).(count := heap.objs[y].count)
  {
    hide Accounts, Forest, Acyclic, Dropped;
    ghost var h, held := heap.objs, heap.held;
    order := DecrementReferenceCount(heap, x, LiveSet(h), {}, held);
    DropKeeps(h, heap.objs, collector.suspected, held, x, order);
    DropSafe(h, heap.objs, collector.suspected, held, x, order);
    DropParts(h, heap.objs, LiveSet(h), {}, held, x, order);
    heap.held := heap.held - multiset{x};
  }

  /** Slot `index` of `parent` holds `x`, all its other slots and its header are as they were. */
  ghost predicate Stored(ob: Object, ob': Object, index: nat, x: Ref) {
    && |ob'.fields| == |ob.fields| && index < |ob.fields| && ob'.fields[index] == x
    && (forall i :: 0 <= i < |ob.fields| && i != index ==> ob'.fields[i] == ob.fields[i])
    && ob'.state == ob.state && ob'.asyncRelease == ob.asyncRelease && ob'.isCyclicType == ob.isCyclicType
  }

  /** Apart from `parent` and the objects of `order`, only counts have changed. */
  ghost predicate Elsewhere(h: seq<Object>, h': seq<Object>, parent: Ref, order: seq<Ref>) {
    |h'| == |h| && forall y :: IsRef(h, y) && y != parent && y !in order ==> h'[y] == h[y].(count := h'[y].count)
  }

  /** A store and then changes of counts. */
  lemma StoredThrough(h: seq<Object>, h1: seq<Object>, h': seq<Object>, parent: Ref, index: nat, x: Ref,
                      order: seq<Ref>)
    requires |h1| == |h| == |h'| && IsRef(h, parent) && parent !in order && Stored(h[parent], h1[parent], index, x)
    requires forall y :: IsRef(h, y) && y != parent ==> h1[y] == h[y]
    requires forall y :: IsRef(h1, y) && y !in order ==> h'[y] == h1[y].(count := h'[y].count)
    ensures Stored(h[parent], h'[parent], index, x) && Elsewhere(h, h', parent, order)
  {
  }

  /** Lock the parent, store a held reference (or null) in a slot, unlock; the old content is
      handed to the thread. */
  method Exchange(heap: Heap, collector: CycleCollector, parent: Ref, index: nat, x: Ref) returns (previous: Ref)
    requires Valid(heap, collector) && parent !in heap.locked
    requires parent in heap.held && IsRef(heap.objs, parent) && index < |heap.objs[parent].fields|
    requires x == NULL || (x in heap.held && (x == parent ==> heap.held[x] >= 2))
    modifies heap
    ensures Valid(heap, collector) && heap.locked == old(heap.locked)
    ensures previous == old(heap.objs[parent].fields[index])
    ensures |heap.objs| == |old(heap.objs)|
    ensures Stored(old(heap.objs[parent]), heap.objs[parent], index, x)
    ensures heap.objs[parent].count == old(heap.objs[parent].count)
    ensures forall y :: IsRef(heap.objs, y) && y != parent ==> heap.objs[y] == old(heap.objs)[y]
    ensures heap.objs == Written(old(heap.objs), parent, index, x)
    ensures heap.held == old(heap.held) - multiset{x} + Reference(previous)
  {
    hide Consistent, Accounts, Forest, Acyclic;
    WriteKeeps(heap.objs, collector.suspected, heap.held, parent, index, x);
    heap.locked := heap.locked + {parent};
    previous := heap.objs[parent].fields[index];
    heap.objs := heap.objs[parent := heap.objs[parent].(fields := heap.objs[parent].fields[index := x])];
    heap.held := heap.held - multiset{x} + Reference(previous);
    heap.locked := heap.locked - {parent};
  }

  lemma ConsistentFacts(h: seq<Object>, suspected: set<Ref>, held: multiset<Ref>)
    requires Consistent(h, suspected, held)
    ensures forall x :: x in held ==> IsRef(h, x) && h[x].state == Live
    ensures forall p, i :: p in held && 0 <= i < |h[p].fields| && h[p].fields[i] != NULL ==>
              IsRef(h, h[p].fields[i]) && h[h[p].fields[i]].state == Live
  {
    hide Accounts, Forest, Acyclic, Flagged;
    LiveClosed(h, suspected, held);
    forall p, i | p in held && 0 <= i < |h[p].fields| && h[p].fields[i] != NULL
      ensures IsRef(h, h[p].fields[i]) && h[h[p].fields[i]].state == Live
    {
      FieldsAreRefs(h, LiveSet(h), {}, held, p);
      assert h[p].fields[i] in h[p].fields;
      assert Points(h, p, h[p].fields[i]);
    }
  }

  /** The memory and the old content when a slot is overwritten and its content dropped. */
  ghost predicate Replaced(h: seq<Object>, held: multiset<Ref>, h': seq<Object>, parent: Ref, index: nat, x: Ref,
                           order: seq<Ref>) {
    && IsRef(h, parent) && index < |h[parent].fields|
    && var previous, h1 := h[parent].fields[index], Written(h, parent, index, x);
       if previous == NULL then h' == h1 && order == []
       else Dropped(h1, h', LiveSet(h1), {}, held - multiset{x} + multiset{previous}, previous, order)
  }

  lemma HeldReached(h: seq<Object>, held: multiset<Ref>, x: Ref)
    requires x in held && IsRef(h, x)
    ensures x in Reach(h, HeldSet(held))
  {
    ReachClosed(h, HeldSet(held));
  }

  /** A drop changes nothing but counts outside of `order`. */
  lemma DroppedCells(h: seq<Object>, h': seq<Object>, C: set<Ref>, X: set<Ref>, ext: multiset<Ref>, x: Ref,
                     order: seq<Ref>)
    requires Dropped(h, h', C, X, ext, x, order)
    ensures |h'| == |h| && forall y :: IsRef(h, y) && y !in order ==> h'[y] == h[y].(count := h'[y].count)
  {
    hide Accounts, Forest, Grounded, DropClosed;
  }

  lemma ReplacedIntro(h: seq<Object>, held: multiset<Ref>, h': seq<Object>, parent: Ref, index: nat, x: Ref,
                      order: seq<Ref>)
    requires IsRef(h, parent) && index < |h[parent].fields|
    requires var previous, h1 := h[parent].fields[index], Written(h, parent, index, x);
             if previous == NULL then h' == h1 && order == []
             else Dropped(h1, h', LiveSet(h1), {}, held - multiset{x} + multiset{previous}, previous, order)
    ensures Replaced(h, held, h', parent, index, x, order)
  {
  }

  /** `set_move_object_field` (src/CatLa.cpp:155-171): the caller's reference `x`, or null,
      moves into the slot. */
  method SetMove(heap: Heap, collector: CycleCollector, parent: Ref, index: nat, x: Ref) returns (ghost order: seq<Ref>)
    requires Valid(heap, collector) && parent !in heap.locked
    requires parent in heap.held && IsRef(heap.objs, parent) && index < |heap.objs[parent].fields|
    requires x == NULL || (x in heap.held && (x == parent ==> heap.held[x] >= 2))
    modifies heap
    ensures Valid(heap, collector) && heap.locked == old(heap.locked)
    ensures heap.held == old(heap.held) - multiset{x}
    ensures parent !in order && Elsewhere(old(heap.objs), heap.objs, parent, order)
    ensures Stored(old(heap.objs[parent]), heap.objs[parent], index, x)
    ensures Replaced(old(heap.objs), old(heap.held), heap.objs, parent, index, x, order)
  {
    hide Consistent, Dropped, Reach, LiveSet, HeldSet, Written, Replaced, Stored, Elsewhere;
    ghost var h, held := heap.objs, heap.held;
    order := [];
    var previous := Exchange(heap, collector, parent, index, x);
    ghost var h1 := heap.objs;
    if previous != NULL {
      order := Drop(heap, collector, previous);
      HeldReached(h1, heap.held, parent);
      DroppedCells(h1, heap.objs, LiveSet(h1), {}, held - multiset{x} + multiset{previous}, previous, order);
      assert held - multiset{x} + multiset{previous} - multiset{previous} == held - multiset{x};
    }
    StoredThrough(h, h1, heap.objs, parent, index, x, order);
    ReplacedIntro(h, held, heap.objs, parent, index, x, order);
  }

  /** `set_clone_object_field` (src/CatLa.cpp:120-137): the slot gets a reference of its own. */
  method SetClone(heap: Heap, collector: CycleCollector, parent: Ref, index: nat,
                  x: Ref) returns (ghost order: seq<Ref>)
    requires Valid(heap, collector) && parent !in heap.locked
    requires parent in heap.held && IsRef(heap.objs, parent) && index < |heap.objs[parent].fields|
    requires x in heap.held && IsRef(heap.objs, x)
    modifies heap, collector
    ensures Valid(heap, collector) && heap.locked == old(heap.locked)
    ensures heap.held == old(heap.held)
    ensures parent !in order && |heap.objs| == |old(heap.objs)|
    ensures |heap.objs[parent].fields| == |old(heap.objs[parent]).fields| && heap.objs[parent].fields[index] == x
    ensures forall i :: 0 <= i < |heap.objs[parent].fields| && i != index ==>
              heap.objs[parent].fields[i] == old(heap.objs[parent]).fields[i]
    ensures forall y :: IsRef(heap.objs, y) && y != parent && y !in order ==>
          heap.objs[y].fields == old(heap.objs)[y].fields
    ensures var h := old(heap.objs)[x := Incremented(old(heap.objs[x]))];
            Replaced(h, old(heap.held) + multiset{x}, heap.objs, parent, index, x, order)
  {
    hide Consistent, Dropped;
    ConsistentFacts(heap.objs, collector.suspected, heap.held);
    Clone(heap, collector, x);
    order := SetMove(heap, collector, parent, index, x);
  }

  /** `get_clone_object_field` (src/CatLa.cpp:139-153). */
  method GetClone(heap: Heap, collector: CycleCollector, parent: Ref, index: nat) returns (x: Ref)
    requires Valid(heap, collector) && parent !in heap.locked
    requires parent in heap.held && IsRef(heap.objs, parent) && index < |heap.objs[parent].fields|
    modifies heap, collector
    ensures Valid(heap, collector) && heap.locked == old(heap.locked)
    ensures x == old(heap.objs[parent].fields[index])
    ensures heap.held == old(heap.held) + Reference(x)
    ensures x == NULL ==> heap.objs == old(heap.objs) && collector.suspected == old(collector.suspected)
    ensures x != NULL ==> IsRef(old(heap.objs), x) && heap.objs == old(heap.objs)[x := Incremented(old(heap.objs)[x])]
  {
    hide Consistent;
    ConsistentFacts(heap.objs, collector.suspected, heap.held);
    heap.locked := heap.locked + {parent};
    x := heap.objs[parent].fields[index];
    if x != NULL {
      Clone(heap, collector, x);
    }
    heap.locked := heap.locked - {parent};
  }

  /** `get_move_object_field` (src/CatLa.cpp:173-188). */
  method GetMove(heap: Heap, collector: CycleCollector, parent: Ref, index: nat) returns (x: Ref)
    requires Valid(heap, collector) && parent !in heap.locked
    requires parent in heap.held && IsRef(heap.objs, parent) && index < |heap.objs[parent].fields|
    modifies heap
    ensures Valid(heap, collector) && heap.locked == old(heap.locked)
    ensures x == old(heap.objs[parent].fields[index])
    ensures |heap.objs| == |old(heap.objs)| && Stored(old(heap.objs[parent]), heap.objs[parent], index, NULL)
    ensures forall y :: IsRef(heap.objs, y) && y != parent ==> heap.objs[y] == old(heap.objs)[y]
    ensures heap.objs == Written(old(heap.objs), parent, index, NULL)
    ensures heap.held == old(heap.held) + Reference(x)
  {
    hide Consistent;
    x := Exchange(heap, collector, parent, index, NULL);
    assert NULL !in old(heap.held) by { ConsistentFacts(old(heap.objs), collector.suspected, old(heap.held)); }
  }
}
