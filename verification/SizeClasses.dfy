/** Size classes and the layout of a chunk: src/heap/HeapAllocator.cpp:7-65 and 209-242. */
module SizeClasses {
  import opened MachineWord

  const NULL: int := -1
  const HEADER: nat := 40           // sizeof(HeapObject)
  const NUMBER_OF_BLOCKS: nat := 13
  const BLOCKS_SIZE: nat := 1856

  /** BLOCK_SIZE0 to BLOCK_SIZE12. */
  function Class(b: nat): nat
    requires b < NUMBER_OF_BLOCKS
  {
    if b <= 8 then 32 + 8 * b else 128 * (b - 8)
  }

  /** The size of the next larger class as the search computes it (HeapAllocator.cpp:88-96, 166-174). */
  function NextSize(blockSize: nat): nat
    requires blockSize <= 512
  {
    if blockSize < 96 then blockSize + 8 else if blockSize == 96 then 128 else blockSize + 128
  }

  /** Bytes that the program computes for an object: size_t arithmetic wraps around (line 210). */
  function ByteSize(fieldLength: nat): nat { (HEADER + (fieldLength * 8) % WORD) % WORD }

  /** Bytes that the object occupies. */
  function Extent(fieldLength: nat): nat { HEADER + 8 * fieldLength }

  /** The class for a number of bytes, or NULL (lines 214-242). */
  function ClassIndex(byteSize: nat): int {
    if byteSize < 96 then
      (if byteSize <= 32 then 0
       else if (byteSize - 32) % 8 == 0 then (byteSize - 32) / 8 else (byteSize - 32) / 8 + 1)
    else if byteSize <= 512 then
      9 + (if byteSize <= 128 then 0
           else if (byteSize - 128) % 128 == 0 then (byteSize - 128) / 128 else (byteSize - 128) / 128 + 1)
    else NULL
  }

  /** The block size that goes with it (lines 225 and 238). */
  function ClassSize(byteSize: nat): nat
    requires byteSize <= 512
  {
    var index := ClassIndex(byteSize);
    if byteSize < 96 then 32 + 8 * index else 128 + 128 * (index - 9)
  }

  lemma ClassSteps(b: nat)
    requires b + 1 < NUMBER_OF_BLOCKS
    ensures Class(b + 1) == NextSize(Class(b)) > Class(b)
  {
  }

  /** The chosen class holds the bytes, its size is the computed one, and it is the smallest class that
      does, except that exactly 96 bytes go to the class of 128. */
  lemma ClassFits(byteSize: nat)
    requires byteSize <= 512
    ensures 0 <= ClassIndex(byteSize) < NUMBER_OF_BLOCKS
    ensures ClassSize(byteSize) == Class(ClassIndex(byteSize)) >= byteSize
    ensures (forall b: nat :: b < ClassIndex(byteSize) ==> Class(b) < byteSize) <==> byteSize != 96
  {
    var index := ClassIndex(byteSize);
    assert Class(8) == 96;
    if index > 0 {
      assert byteSize != 96 ==> Class(index - 1) < byteSize;
      forall b: nat | b < index ensures Class(b) <= Class(index - 1) {}
    }
  }

  /** With at most 59 fields the bytes are those of the object and a class is found. */
  lemma SmallFits(fieldLength: nat)
    requires fieldLength <= 59
    ensures ByteSize(fieldLength) == Extent(fieldLength) <= 512
  {
  }

  /** A class is found exactly for up to 59 fields, unless the size wraps around: with 2^61 fields it
      comes to that of an object without any. */
  lemma WhenRefused(fieldLength: nat)
    requires fieldLength < WORD
    ensures var low := fieldLength % 0x2000_0000_0000_0000;
            ByteSize(fieldLength) <= 512 <==> low <= 59 || low >= 0x1FFF_FFFF_FFFF_FFFB
    ensures fieldLength < 0x1FFF_FFFF_FFFF_FFFB ==> (ByteSize(fieldLength) <= 512 <==> fieldLength <= 59)
    ensures ByteSize(0x2000_0000_0000_0000) == HEADER
  {
    var M := 0x2000_0000_0000_0000;
    var low, q := fieldLength % M, fieldLength / M;
    assert fieldLength == q * M + low && q < 8;
    assert fieldLength * 8 == q * WORD + low * 8;
    WrapUnique(fieldLength * 8, q, low * 8);
  }

  lemma WrapUnique(x: nat, q: nat, r: nat)
    requires x == q * WORD + r && r < WORD && q < 8
    ensures x % WORD == r
  {
  }

  // ---------------------------------------------------------------- layout

  /** Bytes per cell in the blocks before `b`. */
  function Before(b: nat): nat
    requires b <= NUMBER_OF_BLOCKS
  {
    if b == 0 then 0 else Before(b - 1) + Class(b - 1)
  }

  function Position(cells: nat, b: nat): nat
    requires b <= NUMBER_OF_BLOCKS
  {
    cells * Before(b)
  }

  function CellAddress(cells: nat, b: nat, c: nat): nat
    requires b < NUMBER_OF_BLOCKS
  {
    Position(cells, b) + c * Class(b)
  }

  lemma BlocksSum()
    ensures Before(NUMBER_OF_BLOCKS) == BLOCKS_SIZE
  {
    assert Before(4) == 176 && Before(8) == 480 && Before(12) == 1344;
  }

  lemma NextPosition(cells: nat, b: nat)
    requires b < NUMBER_OF_BLOCKS
    ensures Position(cells, b + 1) == Position(cells, b) + cells * Class(b)
  {
    assert cells * (Before(b) + Class(b)) == cells * Before(b) + cells * Class(b);
  }

  lemma {:induction false} PositionMono(cells: nat, b: nat, b': nat)
    requires b <= b' <= NUMBER_OF_BLOCKS
    ensures Position(cells, b) <= Position(cells, b')
  {
    if b < b' {
      PositionMono(cells, b, b' - 1);
      NextPosition(cells, b' - 1);
    }
  }

  lemma Product(a: nat, b: nat, k: nat)
    requires a <= b
    ensures a * k <= b * k && (a + 1) * k == a * k + k
  {
  }

  /** A cell lies within its block. */
  lemma CellInBlock(cells: nat, b: nat, c: nat)
    requires b < NUMBER_OF_BLOCKS && c < cells
    ensures Position(cells, b) <= CellAddress(cells, b, c)
    ensures CellAddress(cells, b, c) + Class(b) <= Position(cells, b + 1)
  {
    NextPosition(cells, b);
    Product(c + 1, cells, Class(b));
    Product(c, c, Class(b));
  }

  /** Cells lie below the table of block infos and do not overlap. */
  lemma CellsDisjoint(cells: nat, b: nat, c: nat, b': nat, c': nat)
    requires b < NUMBER_OF_BLOCKS && b' < NUMBER_OF_BLOCKS && c < cells && c' < cells
    ensures CellAddress(cells, b, c) + Class(b) <= cells * BLOCKS_SIZE
    ensures b < b' || (b == b' && c < c') ==> CellAddress(cells, b, c) + Class(b) <= CellAddress(cells, b', c')
  {
    CellInBlock(cells, b, c);
    CellInBlock(cells, b', c');
    PositionMono(cells, b + 1, NUMBER_OF_BLOCKS);
    BlocksSum();
    if b < b' { PositionMono(cells, b + 1, b'); }
    if b == b' && c < c' {
      Product(c + 1, c', Class(b));
      Product(c, c, Class(b));
    }
  }
}
