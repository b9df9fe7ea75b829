/** The size-class heap allocator: src/heap/HeapAllocator.cpp:26-318, one caller at a time.

    A chunk is memory with addresses from zero; what is modelled of its contents is the header
    found at an address. Memory that was never written is zero, which reads as a dead header. */
module Allocator {
  import opened MachineWord
  import opened SizeClasses
  import M = Memory

  datatype Header = Header(count: nat, state: M.State, asyncRelease: bool, isCyclicType: bool, fieldLength: nat)

  function StateAt(headers: map<int, Header>, a: int): M.State {
    if a in headers then headers[a].state else M.Dead
  }

  function FreshHeader(fieldLength: nat, isCyclicType: bool): Header {
    Header(1, M.Live, false, isCyclicType, fieldLength)
  }

  /** `a` is the address of a cell of block `b`. */
  ghost predicate InBlock(cells: nat, b: nat, a: int) {
    b < NUMBER_OF_BLOCKS && exists c: nat :: c < cells && a == CellAddress(cells, b, c)
  }

  /** The object at `a` fits its cell. */
  ghost predicate Fits(cells: nat, headers: map<int, Header>, a: int) {
    a in headers && exists b: nat :: InBlock(cells, b, a) && Extent(headers[a].fieldLength) <= Class(b)
  }

  ghost predicate AllFit(cells: nat, headers: map<int, Header>) {
    forall a :: a in headers && headers[a].state != M.Dead ==> Fits(cells, headers, a)
  }

  /** Objects that are not dead do not overlap and end below the table of block infos. */
  ghost predicate Disjoint(cells: nat, headers: map<int, Header>) {
    && (forall a, a' :: a in headers && headers[a].state != M.Dead && a' in headers && headers[a'].state != M.Dead &&
                        a < a' ==>
          a + Extent(headers[a].fieldLength) <= a')
    && (forall a :: a in headers && headers[a].state != M.Dead ==>
          0 <= a && a + Extent(headers[a].fieldLength) <= cells * BLOCKS_SIZE)
  }

  lemma NoOverlap(cells: nat, headers: map<int, Header>)
    requires AllFit(cells, headers)
    ensures Disjoint(cells, headers)
  {
    forall a | a in headers && headers[a].state != M.Dead
      ensures 0 <= a && a + Extent(headers[a].fieldLength) <= cells * BLOCKS_SIZE
    {
      FitsApart(cells, headers, a, a);
    }
    forall a, a' | a in headers && a' in headers && headers[a].state != M.Dead && headers[a'].state != M.Dead && a < a'
      ensures a + Extent(headers[a].fieldLength) <= a'
    {
      FitsApart(cells, headers, a, a');
    }
  }

  lemma FitsApart(cells: nat, headers: map<int, Header>, a: int, a': int)
    requires Fits(cells, headers, a) && Fits(cells, headers, a')
    ensures 0 <= a && a + Extent(headers[a].fieldLength) <= cells * BLOCKS_SIZE
    ensures a < a' ==> a + Extent(headers[a].fieldLength) <= a'
  {
    var b: nat :| InBlock(cells, b, a) && Extent(headers[a].fieldLength) <= Class(b);
    var c: nat :| c < cells && a == CellAddress(cells, b, c);
    var b': nat :| InBlock(cells, b', a') && Extent(headers[a'].fieldLength) <= Class(b');
    var c': nat :| c' < cells && a' == CellAddress(cells, b', c');
    CellsDisjoint(cells, b, c, b', c');
    CellsDisjoint(cells, b', c', b, c);
  }

  /** The cell that a search from `start` tries in step `i`. */
  function Rotated(start: nat, i: nat, cells: nat): nat {
    if start + i < cells then start + i else start + i - cells
  }

  /** Some cell of the block is dead. */
  ghost predicate HasDead(cells: nat, headers: map<int, Header>, b: nat)
    requires b < NUMBER_OF_BLOCKS
  {
    exists c: nat :: c < cells && StateAt(headers, CellAddress(cells, b, c)) == M.Dead
  }

  /** `k` is the first dead cell on the way round from `start`. */
  ghost predicate FirstDead(cells: nat, headers: map<int, Header>, b: nat, start: nat, k: nat)
    requires b < NUMBER_OF_BLOCKS && start < cells
  {
    exists i: nat ::
      && i < cells && k == Rotated(start, i, cells)
      && StateAt(headers, CellAddress(cells, b, k)) == M.Dead
      && forall j: nat :: j < i ==> StateAt(headers, CellAddress(cells, b, Rotated(start, j, cells))) != M.Dead
  }

  /** The block is tried and has a dead cell. */
  ghost predicate Usable(cells: nat, empty: seq<bool>, headers: map<int, Header>, b: nat) {
    b < NUMBER_OF_BLOCKS && b < |empty| && empty[b] && HasDead(cells, headers, b)
  }

  ghost predicate NoneUsable(cells: nat, empty: seq<bool>, headers: map<int, Header>, from: nat, to: nat) {
    forall b: nat :: from <= b < to ==> !Usable(cells, empty, headers, b)
  }

  /** What a chunk holds: the block infos and the headers found at the addresses of cells. */
  datatype ChunkState = ChunkState(empty: seq<bool>, location: seq<nat>, headers: map<int, Header>)

  ghost predicate NoneIn(cells: nat, s: ChunkState, index: nat) {
    NoneUsable(cells, s.empty, s.headers, index, NUMBER_OF_BLOCKS)
  }

  /** No block from `index` on was usable. They are flagged, nothing else has changed. */
  ghost predicate Missed(cells: nat, s: ChunkState, s': ChunkState, index: nat) {
    && NoneIn(cells, s, index)
    && s'.headers == s.headers && s'.location == s.location
    && |s'.empty| == |s.empty| == NUMBER_OF_BLOCKS
    && (forall b :: 0 <= b < NUMBER_OF_BLOCKS ==> (s'.empty[b] <==> s.empty[b] && b < index))
  }

  /** Block `b` is the first usable one from `index` on, and `address` is its first dead cell on the way round
      from the current location. The location moves to the cell after it, the blocks passed over are flagged,
      the cell has the new header, and nothing else has changed. */
  ghost predicate TakenFrom(cells: nat, s: ChunkState, s': ChunkState, index: nat, b: nat, k: nat, address: int,
                            header: Header) {
    && |s'.empty| == |s.empty| == |s.location| == NUMBER_OF_BLOCKS && index <= b < NUMBER_OF_BLOCKS
    && Usable(cells, s.empty, s.headers, b) && NoneUsable(cells, s.empty, s.headers, index, b)
    && k < cells && s.location[b] < cells && FirstDead(cells, s.headers, b, s.location[b], k)
    && address == CellAddress(cells, b, k)
    && s'.location == s.location[b := if k + 1 == cells then 0 else k + 1]
    && (forall d :: 0 <= d < NUMBER_OF_BLOCKS ==> (s'.empty[d] <==> s.empty[d] && !(index <= d < b)))
    && s'.headers == s.headers[address := header]
  }

  ghost predicate Hit(cells: nat, s: ChunkState, s': ChunkState, index: nat, address: int, header: Header) {
    exists b: nat, k: nat :: TakenFrom(cells, s, s', index, b, k, address, header)
  }

  /** Whether hit or missed, a block that could be used stays open. */
  lemma StaysOpen(cells: nat, s: ChunkState, s': ChunkState, index: nat, address: int, header: Header, d: nat)
    requires Missed(cells, s, s', index) || Hit(cells, s, s', index, address, header)
    requires Usable(cells, s.empty, s.headers, d)
    ensures d < |s'.empty| && s'.empty[d]
  {
  }

  /** The search goes round from `start`. */
  lemma RotatedIs(start: nat, i: nat, cells: nat)
    requires start < cells && i < cells
    ensures Rotated(start, i, cells) == (start + i) % cells
  {
    Remainder(start + i, cells, if start + i < cells then 0 else 1);
  }

  lemma Remainder(x: nat, n: nat, q: nat)
    requires n > 0 && q <= 1 && q * n <= x < q * n + n
    ensures x % n == x - q * n
  {
    if q == 1 { assert (x - n) % n == x % n; }
  }

  /** The search comes to every cell. */
  lemma RotatedMeets(start: nat, c: nat, cells: nat)
    requires start < cells && c < cells
    ensures exists j: nat :: j < cells && Rotated(start, j, cells) == c
  {
    var j := if c >= start then c - start else c + cells - start;
    assert Rotated(start, j, cells) == c;
  }

  lemma NoneToTry(cells: nat, empty: seq<bool>, headers: map<int, Header>, index: nat)
    ensures NoneUsable(cells, empty, headers, index, index)
  {
  }

  lemma UsableMeans(cells: nat, empty: seq<bool>, headers: map<int, Header>, from: nat, index: nat)
    requires from <= index < NUMBER_OF_BLOCKS == |empty| && NoneUsable(cells, empty, headers, from, index)
    ensures Usable(cells, empty, headers, index) <==> empty[index] && HasDead(cells, headers, index)
    ensures !Usable(cells, empty, headers, index) ==> NoneUsable(cells, empty, headers, from, index + 1)
    ensures Usable(cells, empty, headers, index) ==> !NoneUsable(cells, empty, headers, from, NUMBER_OF_BLOCKS)
  {
    hide HasDead;
  }

  lemma CellIs(cells: nat, b: nat, c: nat)
    requires b < NUMBER_OF_BLOCKS && c < cells
    ensures CellAddress(cells, b, c) == Position(cells, b) + c * Class(b) >= 0
    ensures InBlock(cells, b, CellAddress(cells, b, c))
  {
  }

  lemma CellFormula(cells: nat, b: nat, c: nat)
    requires b < NUMBER_OF_BLOCKS
    ensures CellAddress(cells, b, c) == Position(cells, b) + c * Class(b)
    ensures CellAddress(cells, b, c + 1) == CellAddress(cells, b, c) + Class(b)
  {
    assert (c + 1) * Class(b) == c * Class(b) + Class(b);
  }

  lemma ClassBound(b: nat)
    requires b < NUMBER_OF_BLOCKS
    ensures Class(b) <= 512
  {
  }

  class HeapChunk {
    var cellsSize: nat
    // the table of block infos
    var entryPosition: seq<nat>
    var empty: seq<bool>
    var currentLocation: seq<nat>
    // the cells
    var headers: map<int, Header>

    ghost predicate Valid() reads this {
      && |entryPosition| == |empty| == |currentLocation| == NUMBER_OF_BLOCKS
      && (forall b :: 0 <= b < NUMBER_OF_BLOCKS ==> entryPosition[b] == Position(cellsSize, b))
      && (forall b :: 0 <= b < NUMBER_OF_BLOCKS ==>
            currentLocation[b] < cellsSize || currentLocation[b] == cellsSize == 0)
    }

    constructor (cells: nat)
      ensures Valid() && cellsSize == cells && headers == map[]
      ensures forall b :: 0 <= b < NUMBER_OF_BLOCKS ==> empty[b] && currentLocation[b] == 0
    {
      var position1 := 32 * cells;
      var position2 := position1 + 40 * cells;
      var position3 := position2 + 48 * cells;
      var position4 := position3 + 56 * cells;
      var position5 := position4 + 64 * cells;
      var position6 := position5 + 72 * cells;
      var position7 := position6 + 80 * cells;
      var position8 := position7 + 88 * cells;
      var position9 := position8 + 96 * cells;
      var position10 := position9 + 128 * cells;
      var position11 := position10 + 256 * cells;
      var position12 := position11 + 384 * cells;
      cellsSize := cells;
      entryPosition := [0, position1, position2, position3, position4, position5, position6, position7, position8,
                        position9, position10, position11, position12];
      empty := seq(NUMBER_OF_BLOCKS, _ => true);
      currentLocation := seq(NUMBER_OF_BLOCKS, _ => 0);
      headers := map[];
      new;
      forall b | 0 <= b < NUMBER_OF_BLOCKS - 1 ensures Position(cells, b + 1) == Position(cells, b) + cells * Class(b) {
        NextPosition(cells, b);
      }
      Chain(cells, entryPosition);
    }

    ghost function State(): ChunkState reads this { ChunkState(empty, currentLocation, headers) }

    /** The inner loop: tries every cell of the block once, from the current location on and around. */
    method FindDead(index: nat, blockSize: nat) returns (found: bool, k: nat)
      requires Valid() && index < NUMBER_OF_BLOCKS && blockSize == Class(index)
      ensures found <==> HasDead(cellsSize, headers, index)
      ensures found ==> k < cellsSize && StateAt(headers, CellAddress(cellsSize, index, k)) == M.Dead
      ensures found ==> FirstDead(cellsSize, headers, index, currentLocation[index], k)
      ensures !found ==> k == currentLocation[index]
    {
      hide Position, Class, CellAddress;
      var start, blockEntry := currentLocation[index], entryPosition[index];
      CellFormula(cellsSize, index, 0);
      CellFormula(cellsSize, index, start);
      k := start;
      var entry := blockEntry + k * blockSize;
      var i := 0;
      while i < cellsSize
        invariant i <= cellsSize && (cellsSize > 0 ==> k < cellsSize)
        invariant k == if i < cellsSize then Rotated(start, i, cellsSize) else start
        invariant cellsSize > 0 ==> entry == CellAddress(cellsSize, index, k)
        invariant forall j: nat :: j < i ==>
              StateAt(headers, CellAddress(cellsSize, index, Rotated(start, j, cellsSize))) != M.Dead
      {
        if StateAt(headers, entry) != M.Dead {
          CellFormula(cellsSize, index, k);
          entry := entry + blockSize;
          k := k + 1;
          if k == cellsSize {
            entry := blockEntry;
            k := 0;
          }
          i := i + 1;
          continue;
        }
        return true, k;
      }
      found := false;
      forall c: nat | c < cellsSize ensures StateAt(headers, CellAddress(cellsSize, index, c)) != M.Dead {
        var j := if c >= start then c - start else c + cellsSize - start;
        assert Rotated(start, j, cellsSize) == c;
      }
    }

    /** HeapChunk::malloc. `index` and `blockSize` name the first class tried; a block that has no dead
        cell is flagged and never tried again, and the search falls through to larger classes. */
    method Malloc(index0: nat, blockSize0: nat, fieldLength: nat, isCyclicType: bool) returns (address: int)
      requires Valid() && index0 < NUMBER_OF_BLOCKS && blockSize0 == Class(index0)
      modifies this
      ensures Valid() && cellsSize == old(cellsSize) && entryPosition == old(entryPosition)
      ensures address == NULL <==> NoneIn(cellsSize, old(State()), index0)
      ensures address == NULL ==> Missed(cellsSize, old(State()), State(), index0)
      ensures address != NULL ==> address !in old(headers) || old(headers)[address].state == M.Dead
      ensures address != NULL ==>
            Hit(cellsSize, old(State()), State(), index0, address, Header(1, M.Live, false, isCyclicType, fieldLength))
    {
      hide HasDead, FirstDead, CellAddress, Position, InBlock, Usable, NoneUsable, Class, NextSize;
      var index, blockSize := index0, blockSize0;
      NoneToTry(cellsSize, empty, headers, index);
      while true
        invariant Valid() && cellsSize == old(cellsSize) && headers == old(headers)
        invariant currentLocation == old(currentLocation) && entryPosition == old(entryPosition)
        invariant index0 <= index < NUMBER_OF_BLOCKS && blockSize == Class(index)
        invariant NoneUsable(cellsSize, old(empty), headers, index0, index)
        invariant forall b :: 0 <= b < NUMBER_OF_BLOCKS ==> (empty[b] <==> old(empty)[b] && !(index0 <= b < index))
        decreases NUMBER_OF_BLOCKS - index
      {
        UsableMeans(cellsSize, old(empty), headers, index0, index);
        if empty[index] {
          var found, k := FindDead(index, blockSize);
          if found {
            address := entryPosition[index] + k * blockSize;
            CellIs(cellsSize, index, k);
            currentLocation := currentLocation[index := if k + 1 == cellsSize then 0 else k + 1];
            headers := headers[address := FreshHeader(fieldLength, isCyclicType)];
            assert TakenFrom(cellsSize, old(State()), State(), index0, index, k, address,
                             Header(1, M.Live, false, isCyclicType, fieldLength));
            return;
          }
          currentLocation := currentLocation[index := k];
          empty := empty[index := false];
        }
        ClassBound(index);
        if index + 1 < NUMBER_OF_BLOCKS { ClassSteps(index); }
        index := index + 1;
        blockSize := NextSize(blockSize);
        if index == NUMBER_OF_BLOCKS {
          return NULL;
        }
      }
    }

    /** The reference counter or the collector sets the state of an object to dead. */
    method Kill(address: int)
      requires Valid() && address in headers
      modifies this`headers
      ensures Valid() && headers == old(headers)[address := old(headers)[address].(state := M.Dead)]
      ensures AllFit(cellsSize, old(headers)) ==> AllFit(cellsSize, headers)
    {
      headers := headers[address := headers[address].(state := M.Dead)];
      forall a | AllFit(cellsSize, old(headers)) && a in headers && headers[a].state != M.Dead
        ensures Fits(cellsSize, headers, a)
      {
        assert Fits(cellsSize, old(headers), a);
      }
    }
  }

  // ------------------------------------------------------------ all chunks

  /** A new object fits exactly if it is no larger than the cell it was given. */
  lemma FreshFits(cells: nat, headers: map<int, Header>, b: nat, address: int, fieldLength: nat, isCyclicType: bool)
    requires AllFit(cells, headers) && InBlock(cells, b, address)
    ensures AllFit(cells, headers[address := FreshHeader(fieldLength, isCyclicType)]) <==>
          Extent(fieldLength) <= Class(b)
  {
    var headers' := headers[address := FreshHeader(fieldLength, isCyclicType)];
    if Extent(fieldLength) <= Class(b) {
      forall a | a in headers' && headers'[a].state != M.Dead ensures Fits(cells, headers', a) {
        if a == address { assert InBlock(cells, b, a); } else { assert Fits(cells, headers, a); }
      }
    } else if Fits(cells, headers', address) {
      var d: nat :| InBlock(cells, d, address) && Extent(fieldLength) <= Class(d);
      OneBlock(cells, b, d, address);
    }
  }

  lemma OneBlock(cells: nat, b: nat, d: nat, address: int)
    requires InBlock(cells, b, address) && InBlock(cells, d, address)
    ensures b == d
  {
    var c: nat :| c < cells && address == CellAddress(cells, b, c);
    var e: nat :| e < cells && address == CellAddress(cells, d, e);
    CellsDisjoint(cells, b, c, d, e);
    CellsDisjoint(cells, d, e, b, c);
  }

  lemma LargerClass(b: nat, d: nat)
    requires b <= d < NUMBER_OF_BLOCKS
    ensures Class(b) <= Class(d)
  {
  }

  class HeapAllocator {
    var chunks: seq<HeapChunk>
    var chunksCellsSize: nat

    ghost predicate Valid() reads this, chunks {
      && (forall i, j :: 0 <= i < j < |chunks| ==> chunks[i] != chunks[j])
      && (forall i :: 0 <= i < |chunks| ==> chunks[i].Valid() && chunks[i].cellsSize == chunksCellsSize)
    }

    constructor (cells: nat, numberOfChunks: nat)
      ensures Valid() && |chunks| == numberOfChunks && chunksCellsSize == cells
      ensures forall i :: 0 <= i < |chunks| ==> fresh(chunks[i]) && chunks[i].State() == NewChunk()
    {
      chunks := [];
      chunksCellsSize := cells;
      new;
      for i := 0 to numberOfChunks
        invariant Valid() && |chunks| == i && chunksCellsSize == cells
        invariant forall j :: 0 <= j < i ==> fresh(chunks[j]) && chunks[j].State() == NewChunk()
      {
        var chunk := new HeapChunk(cells);
        assert chunk.State() == NewChunk();
        chunks := chunks + [chunk];
      }
    }

    /** HeapAllocator::create_new_chunk (lines 297-318). */
    method CreateNewChunk()
      requires Valid()
      modifies this`chunks
      ensures Valid() && |chunks| == old(|chunks|) + 1 && chunks[..old(|chunks|)] == old(chunks)
      ensures fresh(chunks[old(|chunks|)]) && States() == old(States()) + [NewChunk()]
    {
      var chunk := new HeapChunk(chunksCellsSize);
      assert chunk.State() == NewChunk();
      chunks := chunks + [chunk];
      assert States() == old(States()) + [NewChunk()];
    }

    /** What all chunks hold. */
    ghost function States(): (s: seq<ChunkState>) reads this, chunks
      ensures |s| == |chunks| && forall i :: 0 <= i < |chunks| ==> s[i] == chunks[i].State()
    {
      seq(|chunks|, i requires 0 <= i < |chunks| reads this, chunks => chunks[i].State())
    }

    /** One chunk is tried. */
    method TryChunk(k: nat, index: nat, blockSize: nat, fieldLength: nat, isCyclicType: bool) returns (address: int)
      requires Valid() && k < |chunks| && index < NUMBER_OF_BLOCKS && blockSize == Class(index)
      modifies chunks[k]
      ensures Valid() && States() == old(States())[k := States()[k]]
      ensures address == NULL <==> NoneIn(chunksCellsSize, old(States()[k]), index)
      ensures address == NULL ==> Missed(chunksCellsSize, old(States()[k]), States()[k], index)
      ensures address != NULL ==>
            Hit(chunksCellsSize, old(States()[k]), States()[k], index, address,
                Header(1, M.Live, false, isCyclicType, fieldLength))
    {
      hide NoneIn, Missed, Hit;
      address := chunks[k].Malloc(index, blockSize, fieldLength, isCyclicType);
      assert forall i :: 0 <= i < |chunks| && i != k ==> chunks[i].State() == old(chunks[i].State());
      assert States() == old(States())[k := States()[k]];
    }

    /** One round over all chunks from `start` on and around (lines 259-291 without the growth). */
    method Round(index: nat, blockSize: nat, fieldLength: nat, isCyclicType: bool, start: nat)
      returns (address: int, current: nat)
      requires Valid() && index < NUMBER_OF_BLOCKS && blockSize == Class(index)
      requires start < |chunks| || |chunks| == start == 0
      modifies chunks
      ensures Valid()
      ensures address == NULL <==> NoneLeft(chunksCellsSize, old(States()), index)
      ensures address == NULL ==> current == start && AllMissed(chunksCellsSize, old(States()), States(), index)
      ensures address != NULL ==>
            FoundAt(chunksCellsSize, old(States()), States(), index, start, current, address,
                    Header(1, M.Live, false, isCyclicType, fieldLength))
    {
      hide NoneIn, NoneLeft, AllMissed, Missed, Hit, FoundAt, Tried, HeapAllocator.Valid, Rotated;
      current := start;
      ghost var before := States();
      var cs, i := |chunks|, 0;
      TriedStart(chunksCellsSize, before, index, start);
      while i < cs
        invariant i <= cs && Valid()
        invariant current == if i < cs then Rotated(start, i, cs) else start
        invariant Tried(chunksCellsSize, before, States(), index, start, i)
      {
        TriedFacts(chunksCellsSize, before, States(), index, start, i);
        ghost var now := States();
        address := TryChunk(current, index, blockSize, fieldLength, isCyclicType);
        if address != NULL {
          TriedFound(chunksCellsSize, before, now, States(), index, start, i, address,
                     Header(1, M.Live, false, isCyclicType, fieldLength));
          return;
        }
        TriedNext(chunksCellsSize, before, now, States(), index, start, i);
        current := current + 1;
        if current == cs { current := 0; }
        i := i + 1;
      }
      address := NULL;
      TriedAll(chunksCellsSize, before, States(), index, start);
    }

    /** HeapAllocator::malloc. `start` is the caller's search index. */
    method Malloc(fieldLength: nat, isCyclicType: bool, start: nat) returns (address: int, chunk: nat)
      requires Valid() && chunksCellsSize > 0 && fieldLength < WORD
      requires start < |chunks| || |chunks| == start == 0
      modifies this`chunks, chunks
      ensures Valid() && chunksCellsSize == old(chunksCellsSize)
      ensures address == NULL <==> ByteSize(fieldLength) > 512
      ensures address == NULL ==> chunks == old(chunks) && States() == old(States()) && chunk == start
      ensures address != NULL ==>
                var index := ClassIndex(ByteSize(fieldLength));
                var header := Header(1, M.Live, false, isCyclicType, fieldLength);
                if NoneLeft(chunksCellsSize, old(States()), index)
                then
                  && |chunks| == old(|chunks|) + 1 && chunks[..old(|chunks|)] == old(chunks) && chunk == old(|chunks|)
                  && AllMissed(chunksCellsSize, old(States()), States()[..old(|chunks|)], index)
                  && Hit(chunksCellsSize, NewChunk(), States()[chunk], index, address, header)
                else
                  && chunks == old(chunks)
                  && FoundAt(chunksCellsSize, old(States()), States(), index, start, chunk, address, header)
    {
      hide NoneIn, NoneLeft, AllMissed, Missed, Hit, FoundAt, ClassIndex, ClassSize, HeapChunk.Valid,
           HeapAllocator.Valid;
      var byteSize := ByteSize(fieldLength);
      if byteSize > 512 {
        return NULL, start;
      }
      ClassFits(byteSize);
      var index, blockSize := ClassIndex(byteSize), ClassSize(byteSize);
      chunk := start;
      ghost var before, grown := States(), false;
      while true
        invariant Valid() && chunksCellsSize == old(chunksCellsSize) && chunk == start
        invariant !grown ==> chunks == old(chunks) && States() == before
        invariant grown ==> |chunks| == old(|chunks|) + 1 && chunks[..old(|chunks|)] == old(chunks)
        invariant grown ==> fresh(chunks[old(|chunks|)]) && NoneLeft(chunksCellsSize, before, index)
        invariant grown ==> Grown(chunksCellsSize, before, States(), index)
        decreases !grown
      {
        ghost var now := States();
        address, chunk := Round(index, blockSize, fieldLength, isCyclicType, chunk);
        if grown { GrownHits(chunksCellsSize, before, now, index); }
        if address != NULL {
          if grown {
            GrownFound(chunksCellsSize, before, now, States(), index, start, chunk, address,
                       Header(1, M.Live, false, isCyclicType, fieldLength));
          } else {
            FoundIsLeft(chunksCellsSize, before, States(), index, start, chunk, address,
                        Header(1, M.Live, false, isCyclicType, fieldLength));
          }
          return;
        }
        ghost var missed := States();
        CreateNewChunk();
        assert States()[..old(|chunks|)] == missed;
        grown := true;
      }
    }
  }

  /** A chunk nothing has been allocated from. */
  ghost function NewChunk(): ChunkState {
    ChunkState(seq(NUMBER_OF_BLOCKS, _ => true), seq(NUMBER_OF_BLOCKS, _ => 0), map[])
  }

  ghost predicate NoneLeft(cells: nat, s: seq<ChunkState>, index: nat) {
    forall i :: 0 <= i < |s| ==> NoneIn(cells, s[i], index)
  }

  ghost predicate AllMissed(cells: nat, s: seq<ChunkState>, s': seq<ChunkState>, index: nat) {
    |s'| == |s| && forall i :: 0 <= i < |s| ==> Missed(cells, s[i], s'[i], index)
  }

  /** `k` is the first chunk with a usable block on the way round from `start`, and is hit; the ones before it
      are missed, the others stay as they are. */
  ghost predicate FoundAt(cells: nat, s: seq<ChunkState>, s': seq<ChunkState>, index: nat, start: nat, k: nat,
                          address: int, header: Header) {
    && |s'| == |s| && start < |s| && k < |s| && Hit(cells, s[k], s'[k], index, address, header)
    && exists i: nat ::
         && i < |s| && k == Rotated(start, i, |s|)
         && (forall j: nat :: j < i ==> Missed(cells, s[Rotated(start, j, |s|)], s'[Rotated(start, j, |s|)], index))
         && (forall j: nat :: i < j < |s| ==> s'[Rotated(start, j, |s|)] == s[Rotated(start, j, |s|)])
  }

  /** `i` chunks from `start` on have been tried in vain, the others are as before. */
  ghost predicate Tried(cells: nat, s0: seq<ChunkState>, s: seq<ChunkState>, index: nat, start: nat, i: nat) {
    && |s0| == |s| && i <= |s| && (start < |s| || |s| == start == 0)
    && (forall m: nat :: m < i ==> Missed(cells, s0[Rotated(start, m, |s|)], s[Rotated(start, m, |s|)], index))
    && (forall m: nat :: i <= m < |s| ==> s[Rotated(start, m, |s|)] == s0[Rotated(start, m, |s|)])
  }

  lemma TriedStart(cells: nat, s: seq<ChunkState>, index: nat, start: nat)
    requires start < |s| || |s| == start == 0
    ensures Tried(cells, s, s, index, start, 0)
    ensures |s| > 0 ==> Rotated(start, 0, |s|) == start
  {
  }

  lemma TriedFacts(cells: nat, s0: seq<ChunkState>, s: seq<ChunkState>, index: nat, start: nat, i: nat)
    requires Tried(cells, s0, s, index, start, i) && i < |s|
    ensures var k := Rotated(start, i, |s|);
            && k < |s| && s[k] == s0[k]
            && (!NoneIn(cells, s0[k], index) ==> !NoneLeft(cells, s0, index))
            && (if i + 1 < |s| then Rotated(start, i + 1, |s|) else start) == if k + 1 == |s| then 0 else k + 1
  {
    hide Missed, NoneIn;
  }

  lemma TriedNext(cells: nat, s0: seq<ChunkState>, s: seq<ChunkState>, s': seq<ChunkState>, index: nat, start: nat,
                  i: nat)
    requires Tried(cells, s0, s, index, start, i) && i < |s| == |s'|
    requires var k := Rotated(start, i, |s|); s' == s[k := s'[k]] && Missed(cells, s[k], s'[k], index)
    ensures Tried(cells, s0, s', index, start, i + 1)
  {
    hide Missed;
    forall m: nat | m < |s| && m != i ensures Rotated(start, m, |s|) != Rotated(start, i, |s|) {}
  }

  lemma TriedFound(cells: nat, s0: seq<ChunkState>, s: seq<ChunkState>, s': seq<ChunkState>, index: nat, start: nat,
                   i: nat, address: int, header: Header)
    requires Tried(cells, s0, s, index, start, i) && i < |s| == |s'|
    requires var k := Rotated(start, i, |s|); s' == s[k := s'[k]] && Hit(cells, s[k], s'[k], index, address, header)
    ensures FoundAt(cells, s0, s', index, start, Rotated(start, i, |s|), address, header)
  {
    hide Missed, Hit;
    forall m: nat | m < |s| && m != i ensures Rotated(start, m, |s|) != Rotated(start, i, |s|) {}
  }

  lemma TriedAll(cells: nat, s0: seq<ChunkState>, s: seq<ChunkState>, index: nat, start: nat)
    requires Tried(cells, s0, s, index, start, |s|)
    ensures AllMissed(cells, s0, s, index) && NoneLeft(cells, s0, index)
  {
    hide NoneIn;
    forall j | 0 <= j < |s| ensures Missed(cells, s0[j], s[j], index) {
      var m := if j >= start then j - start else j + |s| - start;
      assert Rotated(start, m, |s|) == j;
    }
  }

  /** A chunk was hit, so some chunk had a usable block. */
  lemma FoundIsLeft(cells: nat, s: seq<ChunkState>, s': seq<ChunkState>, index: nat, start: nat, k: nat, address: int,
                    header: Header)
    requires FoundAt(cells, s, s', index, start, k, address, header)
    ensures !NoneLeft(cells, s, index)
  {
    HitIsUsable(cells, s[k], s'[k], index, address, header);
  }

  lemma HitIsUsable(cells: nat, s: ChunkState, s': ChunkState, index: nat, address: int, header: Header)
    requires Hit(cells, s, s', index, address, header)
    ensures !NoneIn(cells, s, index)
  {
  }

  /** All chunks were missed, and a new one has been added. */
  ghost predicate Grown(cells: nat, s0: seq<ChunkState>, s: seq<ChunkState>, index: nat) {
    && |s| == |s0| + 1 && s[|s0|] == NewChunk() && AllMissed(cells, s0, s[..|s0|], index)
    && cells > 0 && index < NUMBER_OF_BLOCKS
  }

  /** The new chunk has a usable block. */
  lemma GrownHits(cells: nat, s0: seq<ChunkState>, s: seq<ChunkState>, index: nat)
    requires Grown(cells, s0, s, index)
    ensures !NoneLeft(cells, s, index)
  {
    hide AllMissed;
    var c := NewChunk();
    assert StateAt(c.headers, CellAddress(cells, index, 0)) == M.Dead;
    assert Usable(cells, c.empty, c.headers, index);
    assert !NoneIn(cells, s[|s0|], index);
  }

  /** Missing a chunk twice is missing it once. */
  lemma MissedAgain(cells: nat, s0: ChunkState, s: ChunkState, s': ChunkState, index: nat)
    requires Missed(cells, s0, s, index) && (Missed(cells, s, s', index) || s' == s)
    ensures Missed(cells, s0, s', index) && NoneIn(cells, s, index)
  {
  }

  /** After growing, the new chunk is hit. */
  lemma GrownFound(cells: nat, s0: seq<ChunkState>, s: seq<ChunkState>, s': seq<ChunkState>, index: nat, start: nat,
                   k: nat, address: int, header: Header)
    requires Grown(cells, s0, s, index) && FoundAt(cells, s, s', index, start, k, address, header)
    ensures k == |s0| && AllMissed(cells, s0, s'[..|s0|], index)
    ensures Hit(cells, NewChunk(), s'[k], index, address, header)
  {
    hide Hit, Missed, NoneIn;
    HitIsUsable(cells, s[k], s'[k], index, address, header);
    var i: nat :|
      && i < |s| && k == Rotated(start, i, |s|)
      && (forall j: nat :: j < i ==> Missed(cells, s[Rotated(start, j, |s|)], s'[Rotated(start, j, |s|)], index))
      && (forall j: nat :: i < j < |s| ==> s'[Rotated(start, j, |s|)] == s[Rotated(start, j, |s|)]);
    forall c | 0 <= c < |s0| ensures c != k && Missed(cells, s0[c], s'[c], index) {
      assert Missed(cells, s0[c], s[..|s0|][c], index);
      MissedAgain(cells, s0[c], s[c], s[c], index);
      var j := if c >= start then c - start else c + |s| - start;
      assert Rotated(start, j, |s|) == c;
      MissedAgain(cells, s0[c], s[c], s'[c], index);
    }
  }

  ghost function Headers(s: seq<ChunkState>): (m: seq<map<int, Header>>)
    ensures |m| == |s|
  {
    seq(|s|, i requires 0 <= i < |s| => s[i].headers)
  }

  /** In terms of headers, a hit places one fresh object in a dead cell. */
  lemma HitPlaces(cells: nat, s: seq<ChunkState>, s': seq<ChunkState>, index: nat, k: nat, address: int,
                  fieldLength: nat, isCyclicType: bool)
    requires |s'| == |s| && k < |s| && (forall i :: 0 <= i < |s| && i != k ==> s'[i].headers == s[i].headers)
    requires Hit(cells, s[k], s'[k], index, address, Header(1, M.Live, false, isCyclicType, fieldLength))
    ensures Placed(cells, Headers(s), Headers(s'), k, address, index, fieldLength, isCyclicType)
  {
    hide HasDead, Usable, NoneUsable;
    var header := Header(1, M.Live, false, isCyclicType, fieldLength);
    var b: nat, c: nat :| TakenFrom(cells, s[k], s'[k], index, b, c, address, header);
    CellIs(cells, b, c);
    assert Headers(s') == Headers(s)[k := Headers(s)[k][address := header]];
  }

  /** So does every allocation, where a new chunk counts as empty memory. */
  lemma FoundPlaces(cells: nat, s: seq<ChunkState>, s': seq<ChunkState>, index: nat, start: nat, k: nat, address: int,
                    fieldLength: nat, isCyclicType: bool)
    requires FoundAt(cells, s, s', index, start, k, address, Header(1, M.Live, false, isCyclicType, fieldLength))
    ensures Placed(cells, Headers(s), Headers(s'), k, address, index, fieldLength, isCyclicType)
  {
    hide Hit, NoneIn;
    var i: nat :|
      && i < |s| && k == Rotated(start, i, |s|)
      && (forall j: nat :: j < i ==> Missed(cells, s[Rotated(start, j, |s|)], s'[Rotated(start, j, |s|)], index))
      && (forall j: nat :: i < j < |s| ==> s'[Rotated(start, j, |s|)] == s[Rotated(start, j, |s|)]);
    forall c | 0 <= c < |s| && c != k ensures s'[c].headers == s[c].headers {
      var j := if c >= start then c - start else c + |s| - start;
      assert Rotated(start, j, |s|) == c;
    }
    HitPlaces(cells, s, s', index, k, address, fieldLength, isCyclicType);
  }

  lemma GrownPlaces(cells: nat, s: seq<ChunkState>, s': seq<ChunkState>, index: nat, address: int, fieldLength: nat,
                    isCyclicType: bool)
    requires |s'| == |s| + 1 && AllMissed(cells, s, s'[..|s|], index)
    requires Hit(cells, NewChunk(), s'[|s|], index, address, Header(1, M.Live, false, isCyclicType, fieldLength))
    ensures Placed(cells, Headers(s) + [map[]], Headers(s'), |s|, address, index, fieldLength, isCyclicType)
  {
    hide Hit, NoneIn;
    var s1 := s + [NewChunk()];
    forall i | 0 <= i < |s| ensures s'[i].headers == s1[i].headers {
      assert Missed(cells, s[i], s'[..|s|][i], index);
    }
    HitPlaces(cells, s1, s', index, |s|, address, fieldLength, isCyclicType);
    assert Headers(s1) == Headers(s) + [map[]];
  }

  /** A cell of chunk `k`, dead before, in a block of the class asked for or a larger one, is now a
      fresh object, and nothing else has changed. */
  ghost predicate Placed(cells: nat, mem: seq<map<int, Header>>, mem': seq<map<int, Header>>, k: nat, address: int,
                         index: nat, fieldLength: nat, isCyclicType: bool) {
    && k < |mem|
    && StateAt(mem[k], address) == M.Dead
    && (exists b: nat :: index <= b && InBlock(cells, b, address))
    && mem' == mem[k := mem[k][address := FreshHeader(fieldLength, isCyclicType)]]
  }

  ghost predicate EverywhereFit(cells: nat, mem: seq<map<int, Header>>) {
    forall i :: 0 <= i < |mem| ==> AllFit(cells, mem[i])
  }

  /** After a successful allocation all objects fit their cells exactly if the object has no more than
      59 fields. */
  lemma PlacedFits(cells: nat, mem: seq<map<int, Header>>, mem': seq<map<int, Header>>, k: nat, address: int,
                   fieldLength: nat, isCyclicType: bool)
    requires EverywhereFit(cells, mem) && ByteSize(fieldLength) <= 512
    requires Placed(cells, mem, mem', k, address, ClassIndex(ByteSize(fieldLength)), fieldLength, isCyclicType)
    ensures EverywhereFit(cells, mem') <==> fieldLength <= 59
  {
    hide AllFit, InBlock;
    var index := ClassIndex(ByteSize(fieldLength));
    var b: nat :| index <= b && InBlock(cells, b, address);
    BlockInRange(cells, b, address);
    ClassFits(ByteSize(fieldLength));
    LargerClass(index, b);
    FreshFits(cells, mem[k], b, address, fieldLength, isCyclicType);
    if fieldLength <= 59 {
      SmallFits(fieldLength);
    } else {
      assert Extent(fieldLength) > 512 >= Class(b);
      assert !AllFit(cells, mem'[k]);
    }
  }

  lemma BlockInRange(cells: nat, b: nat, address: int)
    requires InBlock(cells, b, address)
    ensures b < NUMBER_OF_BLOCKS
  {
  }

  // ------------------------------------------------------------- histories

  /** An allocation, the growth by a chunk, or a change to the header of an object by the reference
      counter or the collector, which neither revives an object nor changes its number of fields. */
  ghost predicate MemoryStep(cells: nat, mem: seq<map<int, Header>>, mem': seq<map<int, Header>>) {
    || mem' == mem + [map[]]
    || (exists k: nat, address: int, n: nat, cyclic: bool :: Allocates(cells, mem, mem', k, address, n, cyclic))
    || (exists k: nat, address: int, header: Header :: Touches(mem, mem', k, address, header))
  }

  ghost predicate Allocates(cells: nat, mem: seq<map<int, Header>>, mem': seq<map<int, Header>>, k: nat, address: int,
                            n: nat, cyclic: bool) {
    && n < 0x1FFF_FFFF_FFFF_FFFB && ByteSize(n) <= 512
    && Placed(cells, mem, mem', k, address, ClassIndex(ByteSize(n)), n, cyclic)
  }

  ghost predicate Touches(mem: seq<map<int, Header>>, mem': seq<map<int, Header>>, k: nat, address: int,
                          header: Header) {
    && k < |mem| && address in mem[k]
    && header.fieldLength == mem[k][address].fieldLength
    && (mem[k][address].state == M.Dead ==> header.state == M.Dead)
    && mem' == mem[k := mem[k][address := header]]
  }

  ghost predicate IsHistory(cells: nat, history: seq<seq<map<int, Header>>>) {
    && history != [] && history[0] == []
    && forall i :: 0 <= i < |history| - 1 ==> MemoryStep(cells, history[i], history[i + 1])
  }

  lemma StepFits(cells: nat, mem: seq<map<int, Header>>, mem': seq<map<int, Header>>)
    requires EverywhereFit(cells, mem) && MemoryStep(cells, mem, mem')
    ensures EverywhereFit(cells, mem')
  {
    if k: nat, address: int, n: nat, cyclic: bool :| Allocates(cells, mem, mem', k, address, n, cyclic) {
      WhenRefused(n);
      PlacedFits(cells, mem, mem', k, address, n, cyclic);
    } else if k: nat, address: int, header: Header :| Touches(mem, mem', k, address, header) {
      TouchFits(cells, mem[k], address, header);
    }
  }

  lemma TouchFits(cells: nat, headers: map<int, Header>, address: int, header: Header)
    requires AllFit(cells, headers) && address in headers && header.fieldLength == headers[address].fieldLength
    requires headers[address].state == M.Dead ==> header.state == M.Dead
    ensures AllFit(cells, headers[address := header])
  {
    var headers' := headers[address := header];
    forall a | a in headers' && headers'[a].state != M.Dead ensures Fits(cells, headers', a) {
      assert Fits(cells, headers, a);
    }
  }

  /** Over every history of allocations and deaths, objects of a chunk that are not dead do not overlap
      and lie below the table of block infos. */
  lemma {:induction false} NeverOverlap(cells: nat, history: seq<seq<map<int, Header>>>, i: nat)
    requires IsHistory(cells, history) && i < |history|
    ensures EverywhereFit(cells, history[i])
    ensures forall k :: 0 <= k < |history[i]| ==> Disjoint(cells, history[i][k])
  {
    hide AllFit, MemoryStep;
    if i > 0 {
      NeverOverlap(cells, history, i - 1);
      assert MemoryStep(cells, history[i - 1], history[i - 1 + 1]);
      StepFits(cells, history[i - 1], history[i]);
    }
    forall k | 0 <= k < |history[i]| ensures Disjoint(cells, history[i][k]) {
      NoOverlap(cells, history[i][k]);
    }
  }

  lemma Chain(cells: nat, positions: seq<nat>)
    requires |positions| == NUMBER_OF_BLOCKS && positions[0] == 0
    requires forall b :: 0 <= b < NUMBER_OF_BLOCKS - 1 ==> positions[b + 1] == positions[b] + cells * Class(b)
    ensures forall b :: 0 <= b < NUMBER_OF_BLOCKS ==> positions[b] == Position(cells, b)
  {
    var b := 0;
    while b < NUMBER_OF_BLOCKS - 1
      invariant b < NUMBER_OF_BLOCKS && forall d :: 0 <= d <= b ==> positions[d] == Position(cells, d)
    {
      NextPosition(cells, b);
      assert positions[b + 1] == positions[b] + cells * Class(b);
      b := b + 1;
    }
  }
}
