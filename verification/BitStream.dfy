/**
  The bit cursor `bs_t` of h264bitstream/bs.h over a byte buffer, updated in place.
*/
module BitStreams {
  import opened Bits
  import opened BitCodes

  /** `trace` laid over the first bits of `initial`; what does not fit is dropped. */
  function Overlay(initial: seq<bool>, trace: seq<bool>): (bits: seq<bool>)
    ensures |bits| == |initial|
    ensures forall k :: 0 <= k < |bits| ==> bits[k] == if k < |trace| then trace[k] else initial[k]
  {
    if |trace| >= |initial| then trace[..|initial|] else trace + initial[|trace|..]
  }

  lemma OverlayStep(initial: seq<bool>, trace: seq<bool>, v: bool)
    ensures Overlay(initial, trace + [v])
         == if |trace| < |initial| then Overlay(initial, trace)[|trace| := v] else Overlay(initial, trace)
  {
  }

  /** Passing over a bit leaves the buffer as it is. */
  lemma OverlayRead(initial: seq<bool>, trace: seq<bool>)
    ensures var bits := Overlay(initial, trace);
            Overlay(initial, trace + [BitAt(bits, |trace|) == 1]) == bits
  {
  }

  lemma BitOfByte(s: seq<byte>, i: nat, k: nat)
    requires i < |s| && k < 8
    ensures BitAt(BitsOf(s), 8 * i + k) == BitValue(TestBit(s[i], 7 - k))
  {
    hide TestBit;
    assert (8 * i + k) / 8 == i && (8 * i + k) % 8 == k;
  }

  lemma UAtEight(bits: seq<bool>, pos: nat)
    ensures UAt(bits, pos, 8)
         == 128 * BitAt(bits, pos) + 64 * BitAt(bits, pos + 1) + 32 * BitAt(bits, pos + 2)
            + 16 * BitAt(bits, pos + 3) + 8 * BitAt(bits, pos + 4) + 4 * BitAt(bits, pos + 5)
            + 2 * BitAt(bits, pos + 6) + BitAt(bits, pos + 7)
  {
    hide UAt, BitAt;
    UAtEmpty(bits, pos);
    UAtStep(bits, pos, 0);
    UAtStep(bits, pos, 1);
    UAtStep(bits, pos, 2);
    UAtStep(bits, pos, 3);
    UAtStep(bits, pos, 4);
    UAtStep(bits, pos, 5);
    UAtStep(bits, pos, 6);
    UAtStep(bits, pos, 7);
  }

  /** Reading a whole byte is reading its eight bits. */
  lemma ByteIsItsBits(s: seq<byte>, i: nat)
    requires i < |s|
    ensures UAt(BitsOf(s), 8 * i, 8) == s[i] as int
  {
    hide *;
    var bits, pos, x := BitsOf(s), 8 * i, s[i];
    assert BitAt(bits, pos) == BitValue(TestBit(x, 7)) && BitAt(bits, pos + 1) == BitValue(TestBit(x, 6)) by {
      BitOfByte(s, i, 0);
      BitOfByte(s, i, 1);
    }
    assert BitAt(bits, pos + 2) == BitValue(TestBit(x, 5)) && BitAt(bits, pos + 3) == BitValue(TestBit(x, 4)) by {
      BitOfByte(s, i, 2);
      BitOfByte(s, i, 3);
    }
    assert BitAt(bits, pos + 4) == BitValue(TestBit(x, 3)) && BitAt(bits, pos + 5) == BitValue(TestBit(x, 2)) by {
      BitOfByte(s, i, 4);
      BitOfByte(s, i, 5);
    }
    assert BitAt(bits, pos + 6) == BitValue(TestBit(x, 1)) && BitAt(bits, pos + 7) == BitValue(TestBit(x, 0)) by {
      BitOfByte(s, i, 6);
      BitOfByte(s, i, 7);
    }
    ByteValue(x);
    UAtEight(bits, pos);
  }

  lemma UAtEmpty(bits: seq<bool>, pos: nat)
    ensures UAt(bits, pos, 0) == 0
  {
  }

  /** The byte `b->p[0] = v` stores: the low eight bits of the value. */
  function LowByte(v: int): (x: byte)
  {
    PackByte(PutBits([], 8, v))
  }

  lemma BitsOfPacked(bits: seq<bool>)
    requires |bits| == 8
    ensures BitsOf([PackByte(bits)]) == bits
  {
    hide PackByte, TestBit;
    forall k | 0 <= k < 8
      ensures BitsOf([PackByte(bits)])[k] == bits[k]
    {
      assert k / 8 == 0 && k % 8 == k;
    }
  }

  lemma {:induction false} PutBitsAppends(t: seq<bool>, n: nat, v: int)
    ensures PutBits(t, n, v) == t + PutBits([], n, v)
    decreases n
  {
    if n > 0 {
      PutBitsStep(t, n, v);
      PutBitsStep([], n, v);
      hide PutBits;
      PutBitsAppends(t, n - 1, v / 2);
    }
  }

  /** Appending the bits of the stored byte is appending the low eight bits of the value. */
  lemma LowByteBits(t: seq<bool>, v: int)
    ensures PutBits(t, 8, v) == t + BitsOf([LowByte(v)])
  {
    hide PackByte, PutBits, TestBit;
    PutBitsAppends(t, 8, v);
    PutBitsLength([], 8, v);
    BitsOfPacked(PutBits([], 8, v));
  }

  lemma BitOfStored(s: seq<byte>, i: nat, x: byte, k: nat)
    requires i < |s| && k < 8 * |s|
    ensures BitsOf(s[i := x])[k] == if k / 8 == i then BitsOf([x])[k - 8 * i] else BitsOf(s)[k]
  {
    hide TestBit;
    if k / 8 == i {
      assert (k - 8 * i) / 8 == 0 && (k - 8 * i) % 8 == k % 8;
    }
  }

  /** Storing a byte at an aligned cursor lays its eight bits over the buffer. */
  lemma StoreByte(s: seq<byte>, initial: seq<bool>, trace: seq<bool>, i: nat, x: byte)
    requires i < |s| && |trace| == 8 * i && BitsOf(s) == Overlay(initial, trace)
    ensures BitsOf(s[i := x]) == Overlay(initial, trace + BitsOf([x]))
  {
    hide BitsOf, Overlay;
    forall k | 0 <= k < 8 * |s|
      ensures BitsOf(s[i := x])[k] == Overlay(initial, trace + BitsOf([x]))[k]
    {
      BitOfStored(s, i, x, k);
      assert BitsOf(s)[k] == Overlay(initial, trace)[k];
    }
  }

  lemma PositionParts(pos: nat, p: nat, bitsLeft: int)
    requires 1 <= bitsLeft <= 8 && pos == 8 * p + (8 - bitsLeft)
    ensures pos / 8 == p && 7 - pos % 8 == bitsLeft - 1
  {
  }

  /** One more bit put, in the byte that holds it or, past the end, nowhere. */
  lemma StoreBit(s: seq<byte>, initial: seq<bool>, trace: seq<bool>, v: bool)
    requires |initial| == 8 * |s| && BitsOf(s) == Overlay(initial, trace)
    ensures var i, k := |trace| / 8, 7 - |trace| % 8;
            BitsOf(if i < |s| then s[i := SetBit(s[i], k, v)] else s) == Overlay(initial, trace + [v])
  {
    hide TestBit, SetBit, BitsOf, Overlay;
    OverlayStep(initial, trace, v);
    var pos, i := |trace|, |trace| / 8;
    if i < |s| {
      SetBitInBuffer(s, pos, v);
      assert BitsOf(s[i := SetBit(s[i], 7 - pos % 8, v)]) == BitsOf(s)[pos := v];
    } else {
      assert pos >= 8 * |s|;
    }
  }

  class BitStream {
    const buf: array<byte>
    const end: nat
    var p: nat
    var bitsLeft: int

    /** The buffer bits up to `end`, and the bytes from `end` on, when the cursor was set up. */
    ghost const initial: seq<bool>
    ghost const beyond: seq<byte>
    /** The bits the cursor has passed since then: bits written, and bits read over. */
    ghost var trace: seq<bool>

    ghost predicate Valid()
      reads this, buf
    {
      && end <= buf.Length
      && 1 <= bitsLeft <= 8
      && |trace| == 8 * p + (8 - bitsLeft)
      && |initial| == 8 * end
      && Bits() == Overlay(initial, trace)
      && buf[end..] == beyond
    }

    /** The cursor as a bit position, which `Valid` ties to `p` and `bitsLeft`. */
    ghost function Pos(): (pos: nat)
      reads this`trace
    {
      |trace|
    }

    /** The bits of the buffer up to `end`. */
    ghost function Bits(): (bits: seq<bool>)
      reads buf
    {
      if end <= buf.Length then BitsOf(buf[..end]) else []
    }

    constructor (buf: array<byte>, size: nat)
      requires size <= buf.Length
      ensures Valid() && Pos() == 0 && trace == []
      ensures this.buf == buf && this.end == size
      ensures initial == Bits() == BitsOf(buf[..size]) && beyond == buf[size..]
    {
      this.buf := buf;
      this.p := 0;
      this.end := size;
      this.bitsLeft := 8;
      this.initial := BitsOf(buf[..size]);
      this.beyond := buf[size..];
      this.trace := [];
    }

    predicate ByteAligned()
      reads this
    {
      bitsLeft == 8
    }

    predicate Eof()
      reads this
    {
      p >= end
    }

    predicate Overrun()
      reads this
    {
      p > end
    }

    lemma EofIsEndOfBits()
      requires Valid()
      ensures Eof() <==> Pos() >= |Bits()|
    {
    }

    lemma AlignedIsWholeBytes()
      requires Valid()
      ensures ByteAligned() <==> |trace| % 8 == 0
      ensures p == |trace| / 8
    {
      hide Bits, Overlay;
      assert |trace| == 8 * (p + 1) - bitsLeft;
    }

    lemma BitsCoverBuffer()
      requires Valid()
      ensures |Bits()| == 8 * end
    {
    }

    /** bs_pos: the byte position, held at the end of the buffer. */
    function BytePos(): (n: nat)
      reads this
      ensures n <= end
    {
      if p > end then end else p
    }

    // ---------------------------------------------------------------- reading

    lemma BitUnderCursor()
      requires Valid()
      ensures BitAt(Bits(), Pos()) == if Eof() then 0 else BitInt(buf[p], bitsLeft - 1)
    {
      hide TestBit, Overlay;
      assert Pos() / 8 == p && 7 - Pos() % 8 == bitsLeft - 1;
      if !Eof() {
        assert Bits()[Pos()] == TestBit(buf[..end][p], bitsLeft - 1);
      }
    }

    method ReadU1() returns (r: int)
      requires Valid()
      modifies this`p, this`bitsLeft, this`trace
      ensures Valid() && Bits() == old(Bits())
      ensures r == BitAt(Bits(), old(Pos())) && Pos() == old(Pos()) + 1
      ensures trace == old(trace) + [r == 1]
    {
      hide TestBit, BitsOf, BitInt, Overlay, BitAt;
      BitUnderCursor();
      OverlayRead(initial, trace);
      r := 0;
      bitsLeft := bitsLeft - 1;
      if !Eof() {
        r := BitInt(buf[p], bitsLeft);
      }
      if bitsLeft == 0 {
        p := p + 1;
        bitsLeft := 8;
      }
      trace := trace + [r == 1];
    }

    method SkipU1()
      requires Valid()
      modifies this`p, this`bitsLeft, this`trace
      ensures Valid() && Bits() == old(Bits())
      ensures Pos() == old(Pos()) + 1
    {
      OverlayStep(initial, trace, BitAt(Bits(), Pos()) == 1);
      trace := trace + [BitAt(Bits(), Pos()) == 1];
      bitsLeft := bitsLeft - 1;
      if bitsLeft == 0 {
        p := p + 1;
        bitsLeft := 8;
      }
    }

    /** `n` bits, as the C `int` the callers store them in. */
    method ReadU(n: nat) returns (r: int)
      requires Valid() && n <= 32
      modifies this`p, this`bitsLeft, this`trace
      ensures Valid() && Bits() == old(Bits())
      ensures r == IntAt(Bits(), old(Pos()), n) && Pos() == old(Pos()) + n
    {
      hide UAt, BitsOf, Overlay;
      ghost var bits, pos := Bits(), Pos();
      UAtEmpty(bits, pos);
      var u := 0;
      for i := 0 to n
        invariant Valid() && Pos() == pos + i
        invariant u == UAt(bits, pos, i) * Pow2(n - i)
      {
        var bit := ReadU1();
        // No bit below n - i is set in `u` yet, so or-ing the new bit in is adding it.
        ShiftIn(UAt(bits, pos, i), bit, n - i);
        UAtStep(bits, pos, i);
        u := u + bit * Pow2(n - i - 1);
      }
      assert u == UAt(bits, pos, n) by {
        assert Pow2(0) == 1;
      }
      UAtFits(bits, pos, n);
      r := ToI32(u);
    }

    static lemma ShiftIn(u: int, bit: int, k: nat)
      requires k > 0
      ensures u * Pow2(k) + bit * Pow2(k - 1) == (2 * u + bit) * Pow2(k - 1)
    {
    }

    method SkipU(n: nat)
      requires Valid()
      modifies this`p, this`bitsLeft, this`trace
      ensures Valid() && Bits() == old(Bits())
      ensures Pos() == old(Pos()) + n
    {
      for i := 0 to n
        invariant Valid() && Pos() == old(Pos()) + i
      {
        SkipU1();
      }
    }

    /** Takes a whole byte when the cursor is aligned and inside the buffer. */
    method ReadU8() returns (r: int)
      requires Valid()
      modifies this`p, this`bitsLeft, this`trace
      ensures Valid() && Bits() == old(Bits())
      ensures r == IntAt(Bits(), old(Pos()), 8) && Pos() == old(Pos()) + 8
    {
      if bitsLeft == 8 && !Eof() {
        r := buf[p] as int;
        ByteIsItsBits(buf[..end], p);
        var x := buf[p];
        StoreByte(buf[..end], initial, trace, p, x);
        assert buf[..end][p := x] == buf[..end];
        trace := trace + BitsOf([x]);
        p := p + 1;
        return;
      }
      r := ReadU(8);
    }

    method ReadUe() returns (r: int)
      requires Valid()
      modifies this`p, this`bitsLeft, this`trace
      ensures Valid() && Bits() == old(Bits())
      ensures Got(r, Pos()) == BitCodes.ReadUe(Bits(), old(Pos()))
    {
      hide UAt, Valid, Bits;
      ghost var bits, pos := Bits(), Pos();
      var i := 0;
      var one := false;
      while !Eof() && i < 32 && !one
        invariant Valid() && i <= 32
        invariant !one ==> Pos() == pos + i && ScanZeros(bits, pos, pos) == ScanZeros(bits, pos, pos + i)
        invariant one ==> ScanZeros(bits, pos, pos) == Got(i, Pos()) && i < 32
        decreases 32 - i, !one
      {
        EofIsEndOfBits();
        var bit := ReadU1();
        if bit == 0 {
          i := i + 1;
        } else {
          one := true;
        }
      }
      EofIsEndOfBits();
      assert ScanZeros(bits, pos, pos) == Got(i, Pos());
      if i >= 32 {
        return 0;
      }
      UAtFits(bits, Pos(), i);
      r := ReadU(i);
      r := ToI32(r + (UeBase(i) - 1));
    }

    method ReadSe() returns (r: int)
      requires Valid()
      modifies this`p, this`bitsLeft, this`trace
      ensures Valid() && Bits() == old(Bits())
      ensures Got(r, Pos()) == BitCodes.ReadSe(Bits(), old(Pos()))
    {
      hide BitsOf, Overlay, BitCodes.ReadUe;
      r := ReadUe();
      if r % 2 == 1 {
        r := TruncHalf(Successor(r));
      } else {
        r := -TruncHalf(r);
      }
    }

    // ---------------------------------------------------------------- writing

    method WriteU1(v: int)
      requires Valid()
      modifies this`p, this`bitsLeft, this`trace, buf
      ensures Valid()
      ensures trace == PutFlag(old(trace), v)
    {
      hide TestBit, SetBit, BitsOf, Overlay;
      ghost var s, bit := buf[..end], v % 2 == 1;
      StoreBit(s, initial, trace, bit);
      PositionParts(|trace|, p, bitsLeft);
      bitsLeft := bitsLeft - 1;
      if !Eof() {
        buf[p] := SetBit(buf[p], bitsLeft, v % 2 == 1);
        assert buf[..end] == s[p := SetBit(s[p], bitsLeft, bit)];
        assert buf[end..] == beyond;
      }
      assert Bits() == Overlay(initial, trace + [bit]);
      hide BitStream.Bits;
      if bitsLeft == 0 {
        p := p + 1;
        bitsLeft := 8;
      }
      trace := trace + [bit];
    }

    method WriteU(n: nat, v: int)
      requires Valid() && n <= 32
      modifies this`p, this`bitsLeft, this`trace, buf
      ensures Valid()
      ensures trace == PutBits(old(trace), n, v)
    {
      hide Valid, Bits, PutBits, ToU32;
      var w := ToU32(v);
      PutNoBits(trace, Shr(w, n));
      assert Shr(w, 0) == w;
      hide Shr;
      for i := 0 to n
        invariant Valid()
        invariant trace == PutBits(old(trace), i, Shr(w, n - i))
      {
        ShrStep(w, n - i - 1);
        PutBitsStep(old(trace), i + 1, Shr(w, n - i - 1));
        WriteU1(Shr(w, n - i - 1) % 2);
      }
      PutBitsOfU32(old(trace), n, v);
    }

    method WriteU8(v: int)
      requires Valid()
      modifies this`p, this`bitsLeft, this`trace, buf
      ensures Valid()
      ensures trace == PutBits(old(trace), 8, v)
    {
      if bitsLeft == 8 && !Eof() {
        ghost var s := buf[..end];
        var x := LowByte(v);
        buf[p] := x;
        assert buf[..end] == s[p := x];
        assert buf[end..] == beyond;
        StoreByte(s, initial, trace, p, x);
        LowByteBits(trace, v);
        trace := PutBits(trace, 8, v);
        p := p + 1;
        return;
      }
      WriteU(8, v);
    }

    method WriteUe(v: int)
      requires Valid() && UeDomain(v)
      modifies this`p, this`bitsLeft, this`trace, buf
      ensures Valid()
      ensures trace == PutUe(old(trace), v)
    {
      hide Valid, Bits, BitsOf, Overlay, PutBits, TableLen, BitLen;
      if v == 0 {
        WriteU1(1);
      } else {
        var w := v + 1;
        var len := TableLen(w);
        TableLenExact(w);
        BitLenInDomain(v);
        WriteU(2 * len - 1, w);
      }
    }

    method WriteSe(v: int)
      requires Valid() && SeDomain(v)
      modifies this`p, this`bitsLeft, this`trace, buf
      ensures Valid()
      ensures trace == PutSe(old(trace), v)
    {
      if v <= 0 {
        WriteUe(-v * 2);
      } else {
        WriteUe(v * 2 - 1);
      }
    }
  }
}
