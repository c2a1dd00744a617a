/**
  Bytes and the bits inside them, most significant bit first, as the bit cursor in
  h264bitstream/bs.h addresses them.
*/
module Bits {

  type byte = bv8

  /** Bit `k` of a byte; bit 7 is the most significant one. */
  predicate TestBit(x: byte, k: nat)
    requires k < 8
  {
    (x >> k) & 0x01 == 1
  }

  /** `(x >> k) & 1` */
  function BitInt(x: byte, k: nat): (n: int)
    requires k < 8
    ensures n == if TestBit(x, k) then 1 else 0
  {
    ((x >> k) & 0x01) as int
  }

  /** The byte with bit `k` cleared and then set to `v`. */
  function SetBit(x: byte, k: nat, v: bool): (y: byte)
    requires k < 8
  {
    (x & !((1 as byte) << k)) | ((if v then 1 else 0) << k)
  }

  lemma SetBitTest(x: byte, k: nat, v: bool, j: nat)
    requires k < 8 && j < 8
    ensures TestBit(SetBit(x, k, v), j) == if j == k then v else TestBit(x, j)
  {
    match k { case 0 => case 1 => case 2 => case 3 => case 4 => case 5 => case 6 => case _ => }
    match j { case 0 => case 1 => case 2 => case 3 => case 4 => case 5 => case 6 => case _ => }
  }

  function BitValue(b: bool): (n: nat)
    ensures n < 2
  {
    if b then 1 else 0
  }

  lemma ByteValue(x: byte)
    ensures x as int == 128 * BitValue(TestBit(x, 7)) + 64 * BitValue(TestBit(x, 6))
                        + 32 * BitValue(TestBit(x, 5)) + 16 * BitValue(TestBit(x, 4))
                        + 8 * BitValue(TestBit(x, 3)) + 4 * BitValue(TestBit(x, 2))
                        + 2 * BitValue(TestBit(x, 1)) + BitValue(TestBit(x, 0))
  {
  }

  /** The bits of a byte string in reading order. */
  function BitsOf(s: seq<byte>): (bits: seq<bool>)
    ensures |bits| == 8 * |s|
    ensures forall k :: 0 <= k < |bits| ==> bits[k] == TestBit(s[k / 8], 7 - k % 8)
  {
    seq(8 * |s|, k requires 0 <= k < 8 * |s| => TestBit(s[k / 8], 7 - k % 8))
  }

  /** A byte string is determined by its bits. */
  lemma BitsOfInjective(a: seq<byte>, b: seq<byte>)
    requires BitsOf(a) == BitsOf(b)
    ensures a == b
  {
    assert |a| == |b|;
    forall i | 0 <= i < |a|
      ensures a[i] == b[i]
    {
      SameByte(a, b, i);
    }
  }

  lemma SameBit(a: seq<byte>, b: seq<byte>, i: nat, k: nat)
    requires BitsOf(a) == BitsOf(b) && i < |a| && i < |b| && k < 8
    ensures TestBit(a[i], k) == TestBit(b[i], k)
  {
    hide TestBit;
    var j := 8 * i + (7 - k);
    assert j / 8 == i && j % 8 == 7 - k;
    assert BitsOf(a)[j] == BitsOf(b)[j];
  }

  lemma SameByte(a: seq<byte>, b: seq<byte>, i: nat)
    requires BitsOf(a) == BitsOf(b) && i < |a| && i < |b|
    ensures a[i] == b[i]
  {
    SameBit(a, b, i, 0);
    SameBit(a, b, i, 1);
    SameBit(a, b, i, 2);
    SameBit(a, b, i, 3);
    SameBit(a, b, i, 4);
    SameBit(a, b, i, 5);
    SameBit(a, b, i, 6);
    SameBit(a, b, i, 7);
    hide TestBit;
    ByteValue(a[i]);
    ByteValue(b[i]);
  }

  /** Storing one bit through its byte changes that bit of the buffer and no other. */
  lemma SetBitInBuffer(s: seq<byte>, pos: nat, v: bool)
    requires pos < 8 * |s|
    ensures BitsOf(s[pos / 8 := SetBit(s[pos / 8], 7 - pos % 8, v)]) == BitsOf(s)[pos := v]
  {
    hide TestBit, SetBit;
    var s' := s[pos / 8 := SetBit(s[pos / 8], 7 - pos % 8, v)];
    forall k | 0 <= k < 8 * |s|
      ensures BitsOf(s')[k] == BitsOf(s)[pos := v][k]
    {
      if k / 8 == pos / 8 {
        SetBitTest(s[pos / 8], 7 - pos % 8, v, 7 - k % 8);
        assert k % 8 == pos % 8 ==> k == pos;
      }
    }
  }

  /** The byte string with the given bits. */
  function Pack(bits: seq<bool>): (s: seq<byte>)
    requires |bits| % 8 == 0
    ensures BitsOf(s) == bits
    decreases |bits|
  {
    if bits == [] then
      []
    else
      var front := Pack(bits[..|bits| - 8]);
      PackByteBits(front, bits);
      front + [PackByte(bits[|bits| - 8..])]
  }

  function PackByte(bits: seq<bool>): (x: byte)
    requires |bits| == 8
    ensures forall k :: 0 <= k < 8 ==> TestBit(x, 7 - k) == bits[k]
  {
    var x0 := SetBit(0, 7, bits[0]);
    var x1 := SetBit(x0, 6, bits[1]);
    var x2 := SetBit(x1, 5, bits[2]);
    var x3 := SetBit(x2, 4, bits[3]);
    var x4 := SetBit(x3, 3, bits[4]);
    var x5 := SetBit(x4, 2, bits[5]);
    var x6 := SetBit(x5, 1, bits[6]);
    SetBit(x6, 0, bits[7])
  }

  lemma PackByteBits(front: seq<byte>, bits: seq<bool>)
    requires |bits| >= 8 && |bits| % 8 == 0 && BitsOf(front) == bits[..|bits| - 8]
    ensures BitsOf(front + [PackByte(bits[|bits| - 8..])]) == bits
  {
    hide PackByte;
    var n := |bits| - 8;
    var last := bits[n..];
    var s := front + [PackByte(last)];
    assert |BitsOf(s)| == |bits|;
    forall k | 0 <= k < |bits|
      ensures BitsOf(s)[k] == bits[k]
    {
      if k < n {
        assert BitsOf(s)[k] == BitsOf(front)[k];
      } else {
        assert k / 8 == n / 8 && k % 8 == k - n;
        assert bits[k] == last[k - n];
      }
    }
  }

  /** Packing the bits of a byte string gives the byte string back. */
  lemma PackBitsOf(s: seq<byte>)
    ensures Pack(BitsOf(s)) == s
  {
    hide Pack;
    BitsOfInjective(Pack(BitsOf(s)), s);
  }
}
