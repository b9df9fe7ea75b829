/** Flags packed into bytes: src/vm/modules/util/BitSet.h:6-19. */
module BitSet {
  function Mask(k: nat): bv8
    requires k < 8
  {
    1 << k
  }

  predicate Bit(byte: bv8, k: nat)
    requires k < 8
  {
    byte & Mask(k) != 0
  }

  /** get_flag */
  predicate GetFlag(bytes: seq<bv8>, index: nat)
    requires index / 8 < |bytes|
  {
    Bit(bytes[index / 8], index % 8)
  }

  /** Position `k` is the bit of value two to the `k`. */
  lemma MaskValues()
    ensures Mask(0) == 0x01 && Mask(1) == 0x02 && Mask(2) == 0x04 && Mask(3) == 0x08
    ensures Mask(4) == 0x10 && Mask(5) == 0x20 && Mask(6) == 0x40 && Mask(7) == 0x80
  {
  }

  lemma MasksApart(j: nat, k: nat)
    requires j < 8 && k < 8
    ensures Mask(j) & Mask(k) != 0 <==> j == k
  {
    assert Mask(0) == 1 && Mask(1) == 2 && Mask(2) == 4 && Mask(3) == 8;
    assert Mask(4) == 16 && Mask(5) == 32 && Mask(6) == 64 && Mask(7) == 128;
  }

  lemma Distribute(b: bv8, m: bv8, n: bv8)
    ensures (b | m) & n != 0 <==> b & n != 0 || m & n != 0
  {
  }

  /** create_bitset */
  method CreateBitset(length: nat) returns (bytes: array<bv8>)
    ensures fresh(bytes) && bytes.Length == length / 8 + 1
    ensures forall i: nat :: i / 8 < bytes.Length ==> !GetFlag(bytes[..], i)
  {
    bytes := new bv8[length / 8 + 1](_ => 0);
  }

  /** set_flag: a flag once set is never taken back. */
  method SetFlag(bytes: array<bv8>, index: nat, value: bool)
    requires index / 8 < bytes.Length
    modifies bytes
    ensures forall i: nat :: i / 8 < bytes.Length ==>
          (GetFlag(bytes[..], i) <==> GetFlag(old(bytes[..]), i) || (i == index && value))
  {
    var byte := bytes[index / 8];
    ghost var before := bytes[..];
    var bits: bv8 := if value then Mask(index % 8) else 0;
    bytes[index / 8] := byte | bits;
    forall i: nat | i / 8 < bytes.Length
      ensures GetFlag(bytes[..], i) <==> GetFlag(before, i) || (i == index && value)
    {
      SetBit(before, index, value, i);
      assert bytes[..] == before[index / 8 := byte | bits];
    }
  }

  lemma SetBit(bytes: seq<bv8>, index: nat, value: bool, i: nat)
    requires index / 8 < |bytes| && i / 8 < |bytes|
    ensures var after := bytes[index / 8 := bytes[index / 8] | (if value then Mask(index % 8) else 0)];
            GetFlag(after, i) <==> GetFlag(bytes, i) || (i == index && value)
  {
    hide Mask, Bit;
    SetInByte(bytes[index / 8], index % 8, value, i % 8);
    Apart(index, i);
  }

  lemma Apart(i: nat, j: nat)
    ensures i == j <==> i / 8 == j / 8 && i % 8 == j % 8
  {
  }

  lemma SetInByte(byte: bv8, k: nat, value: bool, j: nat)
    requires k < 8 && j < 8
    ensures Bit(byte | (if value then Mask(k) else 0), j) <==> Bit(byte, j) || (j == k && value)
  {
    hide Mask;
    if value {
      MasksApart(k, j);
      Distribute(byte, Mask(k), Mask(j));
    } else {
      OrNothing(byte);
    }
  }

  lemma OrNothing(byte: bv8)
    ensures byte | 0 == byte
  {
  }
}
