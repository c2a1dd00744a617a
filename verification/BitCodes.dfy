/**
  The codes of h264bitstream/bs.h on plain bit strings: fixed-width integers and the
  unsigned and signed Exp-Golomb codes of sections 9.1 and 9.1.1 of ITU-T H.264.

  A `Put` function appends a code to the bits written so far. A `Read` function takes a
  whole bit string and a position, and yields the value read and the position after it.
  A law ties the two: whatever a bit string continues with, reading where a code was
  put gives back the value and stops where the code ends.
*/
module BitCodes {

  /** A value read, and the position of the cursor after reading it. */
  datatype Got<+T> = Got(val: T, pos: nat)

  function Pow2(n: nat): (p: nat)
    ensures p >= 1
  {
    if n == 0 then 1 else 2 * Pow2(n - 1)
  }

  const TWO_TO_THE_31: int := 0x8000_0000
  const TWO_TO_THE_32: int := 0x1_0000_0000

  /** Conversion to `uint32_t`. */
  function ToU32(v: int): (r: int)
    ensures 0 <= r < TWO_TO_THE_32
  {
    v % TWO_TO_THE_32
  }

  /** Conversion of a `uint32_t` to a C `int`, keeping the bit pattern. */
  function ToI32(v: int): (r: int)
    requires 0 <= v < TWO_TO_THE_32
    ensures -TWO_TO_THE_31 <= r < TWO_TO_THE_31
    ensures ToU32(r) == v
  {
    if v < TWO_TO_THE_31 then v else v - TWO_TO_THE_32
  }

  // ---------------------------------------------------------------- fixed width

  /** The bit under the cursor; 0 once the cursor is past the end. */
  function BitAt(bits: seq<bool>, pos: nat): (b: nat)
    ensures b < 2
  {
    if pos < |bits| && bits[pos] then 1 else 0
  }

  /** The `n` bits from `pos` on as an unsigned integer. */
  function UAt(bits: seq<bool>, pos: nat, n: nat): (r: nat)
  {
    UTo(bits, pos, pos + n)
  }

  /** The bits in `pos..end` as an unsigned integer. */
  function UTo(bits: seq<bool>, pos: nat, end: nat): (r: nat)
    requires pos <= end
    decreases end
  {
    if end == pos then 0 else 2 * UTo(bits, pos, end - 1) + BitAt(bits, end - 1)
  }

  lemma {:induction false} UAtBound(bits: seq<bool>, pos: nat, n: nat)
    ensures UAt(bits, pos, n) < Pow2(n)
  {
    if n > 0 {
      UAtBound(bits, pos, n - 1);
    }
  }

  /** Appends the low bit of `v`. */
  function PutFlag(t: seq<bool>, v: int): (r: seq<bool>)
  {
    t + [v % 2 == 1]
  }

  /** Appends the low `n` bits of the two's complement of `v`, high bit first. */
  function PutBits(t: seq<bool>, n: nat, v: int): (r: seq<bool>)
  {
    PutTo(t, |t| + n, v)
  }

  /** Appends low bits of `v` up to the length `len`. */
  function PutTo(t: seq<bool>, len: nat, v: int): (r: seq<bool>)
    requires |t| <= len
    ensures |r| == len
    decreases len
  {
    if len == |t| then t else PutTo(t, len - 1, v / 2) + [v % 2 == 1]
  }

  lemma PutBitsStep(t: seq<bool>, n: nat, v: int)
    requires n > 0
    ensures PutBits(t, n, v) == PutBits(t, n - 1, v / 2) + [v % 2 == 1]
  {
  }

  lemma PutNoBits(t: seq<bool>, v: int)
    ensures PutBits(t, 0, v) == t
  {
  }

  lemma PutOneBit(t: seq<bool>, v: int)
    ensures PutBits(t, 1, v) == t + [v % 2 == 1]
  {
    assert PutBits(t, 0, v / 2) == t;
  }

  lemma UAtStep(bits: seq<bool>, pos: nat, n: nat)
    ensures UAt(bits, pos, n + 1) == 2 * UAt(bits, pos, n) + BitAt(bits, pos + n)
  {
  }

  /** `v >> k` on an unsigned integer. */
  function Shr(v: int, k: nat): (r: int)
    decreases k
  {
    if k == 0 then v else Shr(v / 2, k - 1)
  }

  lemma {:induction false} ShrStep(v: int, k: nat)
    ensures Shr(v, k) / 2 == Shr(v, k + 1)
    decreases k
  {
    if k > 0 {
      ShrStep(v / 2, k - 1);
    }
  }

  /** Shifting out all bits but the top one leaves 1. */
  lemma {:induction false} ShrToTop(v: int, k: nat)
    requires Pow2(k) <= v < Pow2(k + 1)
    ensures Shr(v, k) == 1
    decreases k
  {
    if k > 0 {
      ShrToTop(v / 2, k - 1);
    }
  }

  /** The low `n` bits of the two's complement of `v`, as an unsigned integer. */
  function Low(v: int, n: nat): (r: nat)
    decreases n
  {
    if n == 0 then 0 else 2 * Low(v / 2, n - 1) + v % 2
  }

  /** The low bits are what a division by 2^n leaves. */
  lemma {:induction false} LowSplit(v: int, n: nat)
    ensures v == Low(v, n) + Pow2(n) * Shr(v, n) && Low(v, n) < Pow2(n)
    decreases n
  {
    if n > 0 {
      LowSplit(v / 2, n - 1);
      assert Pow2(n) * Shr(v, n) == 2 * (Pow2(n - 1) * Shr(v / 2, n - 1));
    }
  }

  lemma PutBitsLength(t: seq<bool>, n: nat, v: int)
    ensures |PutBits(t, n, v)| == |t| + n
  {
  }

  /** What is put in `n` bits is read back, up to the bits above the `n` low ones. */
  lemma {:induction false} BitsLaw(t: seq<bool>, n: nat, v: int, bits: seq<bool>)
    requires PutBits(t, n, v) <= bits
    ensures t <= bits
    ensures UAt(bits, |t|, n) == Low(v, n)
    decreases n
  {
    if n > 0 {
      var front := PutBits(t, n - 1, v / 2);
      assert PutBits(t, n, v) == front + [v % 2 == 1];
      assert front <= bits;
      BitsLaw(t, n - 1, v / 2, bits);
      assert bits[|front|] == (v % 2 == 1);
    }
  }

  /** A value that fits is its own low bits. */
  lemma {:induction false} LowOfSmall(v: int, n: nat)
    requires 0 <= v < Pow2(n)
    ensures Low(v, n) == v
    decreases n
  {
    if n > 0 {
      LowOfSmall(v / 2, n - 1);
    }
  }

  lemma {:induction false} LowBelowTop(v: int, n: nat)
    requires Pow2(n) <= v < Pow2(n + 1)
    ensures Low(v, n) == v - Pow2(n)
    decreases n
  {
    if n > 0 {
      LowBelowTop(v / 2, n - 1);
    }
  }

  lemma {:induction false} PutBitsAddMultiple(t: seq<bool>, n: nat, v: int, m: int, k: nat)
    requires n <= k
    ensures PutBits(t, n, v + m * Pow2(k)) == PutBits(t, n, v)
    ensures Low(v + m * Pow2(k), n) == Low(v, n)
    decreases n
  {
    if n > 0 {
      var x := m * Pow2(k - 1);
      assert m * Pow2(k) == 2 * x;
      assert (v + 2 * x) / 2 == v / 2 + x && (v + 2 * x) % 2 == v % 2;
      PutBitsStep(t, n, v);
      PutBitsStep(t, n, v + 2 * x);
      hide PutBits;
      PutBitsAddMultiple(t, n - 1, v / 2, m, k - 1);
    }
  }

  /** Converting to `uint32_t` first changes none of the bits that can be written. */
  lemma PutBitsOfU32(t: seq<bool>, n: nat, v: int)
    requires n <= 32
    ensures PutBits(t, n, ToU32(v)) == PutBits(t, n, v)
    ensures Low(ToU32(v), n) == Low(v, n)
  {
    hide PutBits, Low;
    assert Pow2(32) == TWO_TO_THE_32 by {
      PowersOfTwo();
    }
    hide Pow2;
    PutBitsAddMultiple(t, n, ToU32(v), v / TWO_TO_THE_32, 32);
  }

  lemma PowersOfTwo()
    ensures Pow2(1) == 2 && Pow2(2) == 4 && Pow2(3) == 8 && Pow2(4) == 16 && Pow2(5) == 32
    ensures Pow2(8) == 256 && Pow2(16) == 65536
    ensures Pow2(31) == TWO_TO_THE_31 && Pow2(32) == TWO_TO_THE_32
  {
    Pow2Plus8(0);
    Pow2Plus8(8);
    Pow2Plus8(16);
    Pow2Plus8(24);
    assert Pow2(32) == 2 * Pow2(31);
  }

  lemma Pow2Plus8(n: nat)
    ensures Pow2(n + 8) == 256 * Pow2(n)
  {
    assert Pow2(n + 2) == 4 * Pow2(n);
    assert Pow2(n + 4) == 4 * Pow2(n + 2);
    assert Pow2(n + 6) == 4 * Pow2(n + 4);
    assert Pow2(n + 8) == 4 * Pow2(n + 6);
  }

  lemma {:induction false} Pow2Monotone(a: nat, b: nat)
    requires a <= b
    ensures Pow2(a) <= Pow2(b)
    decreases b
  {
    if a < b {
      Pow2Monotone(a, b - 1);
    }
  }

  /** Appending `m + n` bits is appending the high `m` and then the low `n`. */
  lemma {:induction false} PutBitsSplit(t: seq<bool>, m: nat, n: nat, v: int)
    ensures PutBits(t, m + n, v) == PutBits(PutBits(t, m, Shr(v, n)), n, v)
    decreases n
  {
    if n > 0 {
      PutBitsSplit(t, m, n - 1, v / 2);
    }
  }

  lemma {:induction false} PutZeros(t: seq<bool>, n: nat, k: nat)
    requires k < n
    ensures PutBits(t, n, 0)[|t| + k] == false
    decreases n
  {
    if k < n - 1 {
      PutZeros(t, n - 1, k);
    }
  }

  // ---------------------------------------------------------------- Exp-Golomb

  /** The number of binary digits of `w`. */
  function BitLen(w: nat): (len: nat)
    requires w > 0
    ensures len >= 1 && Pow2(len - 1) <= w < Pow2(len)
    decreases w
  {
    if w == 1 then 1 else 1 + BitLen(w / 2)
  }

  lemma {:induction false} BitLenUnique(w: nat, len: nat)
    requires len >= 1 && Pow2(len - 1) <= w < Pow2(len)
    ensures len == BitLen(w)
    decreases w
  {
    if w > 1 {
      BitLenUnique(w / 2, len - 1);
    }
  }

  /** The 256-entry length table of bs_write_ue, by its runs of equal entries. */
  function LenTable(i: nat): (len: nat)
    requires i < 256
    ensures 1 <= len <= 8
    ensures i > 0 ==> Pow2(len - 1) <= i < Pow2(len)
  {
    if i < 2 then 1
    else if i < 4 then 2
    else if i < 8 then 3
    else if i < 16 then 4
    else if i < 32 then 5
    else if i < 64 then 6
    else if i < 128 then 7
    else 8
  }

  /** The bit length bs_write_ue computes for `w`, the value plus one, byte slice by byte slice. */
  function TableLen(w: nat): (len: nat)
    requires 0 < w < TWO_TO_THE_32
  {
    if w >= 0x0100_0000 then 24 + LenTable(w / 0x0100_0000)
    else if w >= 0x0001_0000 then 16 + LenTable(w / 0x0001_0000)
    else if w >= 0x0000_0100 then 8 + LenTable(w / 0x0000_0100)
    else LenTable(w)
  }

  /** The table lookup finds the exact bit length, over the whole unsigned range. */
  lemma TableLenExact(w: nat)
    requires 0 < w < TWO_TO_THE_32
    ensures TableLen(w) == BitLen(w)
  {
    if w >= 0x0100_0000 {
      ByteSlice(w / 0x0001_0000, LenTable(w / 0x0100_0000));
      ByteSlice(w / 0x0000_0100, 8 + LenTable(w / 0x0100_0000));
      ByteSlice(w, 16 + LenTable(w / 0x0100_0000));
    } else if w >= 0x0001_0000 {
      ByteSlice(w / 0x0000_0100, LenTable(w / 0x0001_0000));
      ByteSlice(w, 8 + LenTable(w / 0x0001_0000));
    } else if w >= 0x0000_0100 {
      ByteSlice(w, LenTable(w / 0x0000_0100));
    }
    BitLenUnique(w, TableLen(w));
  }

  /** Dropping the low byte shortens a number by eight digits. */
  lemma ByteSlice(w: nat, len: nat)
    requires len >= 1 && Pow2(len - 1) <= w / 256 < Pow2(len)
    ensures Pow2(len + 7) <= w < Pow2(len + 8)
  {
    Pow2Plus8(len);
    Pow2Plus8(len - 1);
  }

  /**
    The values bs_write_ue can code: it shifts a `uint32_t` by up to 2 * len - 2 places,
    which C defines only below 32, so the value plus one must fit in 16 bits.
  */
  predicate UeDomain(v: int)
  {
    0 <= v <= 65534
  }

  predicate SeDomain(v: int)
  {
    -32767 <= v <= 32767
  }

  lemma BitLenInDomain(v: int)
    requires UeDomain(v)
    ensures BitLen(v + 1) <= 16
  {
    if BitLen(v + 1) > 16 {
      Pow2Monotone(16, BitLen(v + 1) - 1);
      PowersOfTwo();
      assert false;
    }
  }

  function PutUe(t: seq<bool>, v: int): (r: seq<bool>)
    requires UeDomain(v)
  {
    if v == 0 then PutFlag(t, 1) else PutBits(t, 2 * BitLen(v + 1) - 1, v + 1)
  }

  /** The unsigned value that carries the signed value `v`. */
  function SeToUe(v: int): (u: int)
    ensures SeDomain(v) <==> UeDomain(u)
  {
    if v <= 0 then -v * 2 else v * 2 - 1
  }

  function PutSe(t: seq<bool>, v: int): (r: seq<bool>)
    requires SeDomain(v)
  {
    PutUe(t, SeToUe(v))
  }

  /**
    The prefix scan of bs_read_ue, begun at `start` and now at `pos`: stops at the end of the
    buffer, after 32 zero bits, or just behind the first one bit. Yields the number of zeros.
  */
  function ScanZeros(bits: seq<bool>, start: nat, pos: nat): (g: Got<nat>)
    requires start <= pos <= start + 32
    ensures g.val <= 32 && pos <= g.pos
    decreases start + 32 - pos
  {
    if pos >= |bits| || pos - start >= 32 then Got(pos - start, pos)
    else if BitAt(bits, pos) == 1 then Got(pos - start, pos + 1)
    else ScanZeros(bits, start, pos + 1)
  }

  function ReadUeU32(bits: seq<bool>, pos: nat): (g: Got<nat>)
    ensures g.val < TWO_TO_THE_32 && pos <= g.pos
  {
    var z := ScanZeros(bits, pos, pos);
    if z.val >= 32 then Got(0, z.pos)
    else
      UAtBound(bits, z.pos, z.val);
      Got(UAt(bits, z.pos, z.val) + (UeBase(z.val) - 1), z.pos + z.val)
  }

  /** `1U << i`. */
  function UeBase(i: nat): (p: nat)
    requires i < 32
    ensures p == Pow2(i) && 1 <= p <= TWO_TO_THE_31
  {
    PowersOfTwo();
    Pow2Monotone(i, 31);
    Pow2(i)
  }

  /** bs_read_ue with its result stored in a C `int` field. */
  function ReadUe(bits: seq<bool>, pos: nat): (g: Got<int>)
    ensures pos <= g.pos && -TWO_TO_THE_31 <= g.val < TWO_TO_THE_31
  {
    var u := ReadUeU32(bits, pos);
    Got(ToI32(u.val), u.pos)
  }

  /** C division by two, which truncates toward zero. */
  function TruncHalf(v: int): (r: int)
    ensures v >= 0 ==> r == v / 2
    ensures v < 0 ==> r == -(-v / 2)
  {
    if v >= 0 then v / 2 else -(-v / 2)
  }

  /** `r + 1` in a C `int`, which wraps at the top. */
  function Successor(r: int): (s: int)
    requires -TWO_TO_THE_31 <= r < TWO_TO_THE_31
    ensures -TWO_TO_THE_31 <= s < TWO_TO_THE_31
  {
    if r + 1 == TWO_TO_THE_31 then -TWO_TO_THE_31 else r + 1
  }

  /** The signed value bs_read_se makes of the code number `r`, held in a C `int`. */
  function SeOfCode(r: int): (v: int)
    requires -TWO_TO_THE_31 <= r < TWO_TO_THE_31
    ensures -0x4000_0000 <= v <= 0x4000_0000
  {
    if r % 2 == 1 then TruncHalf(Successor(r)) else -TruncHalf(r)
  }

  function ReadSe(bits: seq<bool>, pos: nat): (g: Got<int>)
    ensures pos <= g.pos && -0x4000_0000 <= g.val <= 0x4000_0000
  {
    var u := ReadUe(bits, pos);
    Got(SeOfCode(u.val), u.pos)
  }

  lemma {:induction false} ScanFindsOne(bits: seq<bool>, start: nat, pos: nat, one: nat)
    requires start <= pos <= one < |bits| && one - start < 32
    requires bits[one] && forall k :: pos <= k < one ==> !bits[k]
    ensures ScanZeros(bits, start, pos) == Got(one - start, one + 1)
    decreases one - pos
  {
    if pos < one {
      ScanFindsOne(bits, start, pos + 1, one);
    }
  }

  /** The first `len` bits of a code of length 2 * len - 1: zeros, then the top bit of `w`. */
  lemma UeHead(t: seq<bool>, w: int, len: nat)
    requires len >= 1 && Pow2(len - 1) <= w < Pow2(len)
    ensures var head := PutBits(t, len, Shr(w, len - 1));
            && PutBits(t, 2 * len - 1, w) == PutBits(head, len - 1, w)
            && (forall k :: |t| <= k < |t| + len - 1 ==> !head[k])
            && head[|t| + len - 1]
  {
    PutBitsSplit(t, len, len - 1, w);
    ShrToTop(w, len - 1);
    var zeros := PutBits(t, len - 1, 0);
    assert PutBits(t, len, 1) == zeros + [true];
    forall k | |t| <= k < |t| + len - 1
      ensures !(zeros + [true])[k]
    {
      PutZeros(t, len - 1, k - |t|);
    }
  }

  /** The scan stops right behind the zeros and the top bit that end `head`. */
  lemma ScanHead(pos: nat, head: seq<bool>, len: nat, bits: seq<bool>)
    requires 1 <= len <= 16 && |head| == pos + len && head <= bits
    requires head[pos + len - 1]
    requires forall k :: pos <= k < pos + len - 1 ==> !head[k]
    ensures ScanZeros(bits, pos, pos) == Got(len - 1, |head|)
  {
    assert forall k :: pos <= k < pos + len ==> bits[k] == head[k];
    ScanFindsOne(bits, pos, pos, pos + len - 1);
  }

  lemma ReadUeAfterScan(bits: seq<bool>, pos: nat, n: nat, from: nat)
    requires n < 32 && ScanZeros(bits, pos, pos) == Got(n, from)
    ensures ReadUeU32(bits, pos) == Got(UAt(bits, from, n) + Pow2(n) - 1, from + n)
  {
  }

  /** Reading back a code of length 2 * len - 1 whose zeros and top bit end `head`. */
  lemma UeReadBack(pos: nat, head: seq<bool>, w: int, len: nat, bits: seq<bool>)
    requires 1 <= len <= 16 && Pow2(len - 1) <= w < Pow2(len)
    requires |head| == pos + len && head[pos + len - 1]
    requires forall k :: pos <= k < pos + len - 1 ==> !head[k]
    requires PutBits(head, len - 1, w) <= bits
    ensures ReadUeU32(bits, pos) == Got(w - 1, pos + 2 * len - 1)
  {
    hide PutBits, UAt, Low, ScanZeros, ReadUeU32;
    BitsLaw(head, len - 1, w, bits);
    ScanHead(pos, head, len, bits);
    LowBelowTop(w, len - 1);
    ReadUeAfterScan(bits, pos, len - 1, |head|);
  }

  /** Exp-Golomb coding is lossless and self-delimiting. */
  lemma UeLaw(t: seq<bool>, v: int, bits: seq<bool>)
    requires UeDomain(v) && PutUe(t, v) <= bits
    ensures t <= bits
    ensures ReadUe(bits, |t|) == Got(v, |PutUe(t, v)|)
    ensures |PutUe(t, v)| == |t| + 2 * BitLen(v + 1) - 1
  {
    hide ScanZeros, UAt, Low, PutBits;
    if v == 0 {
      ZeroUeLaw(t, bits);
    } else {
      hide ReadUeU32;
      BitLenInDomain(v);
      PutBitsLength(t, 2 * BitLen(v + 1) - 1, v + 1);
      PositiveUeLaw(t, v + 1, BitLen(v + 1), bits);
    }
  }

  lemma ZeroUeLaw(t: seq<bool>, bits: seq<bool>)
    requires PutFlag(t, 1) <= bits
    ensures ReadUeU32(bits, |t|) == Got(0, |t| + 1) && BitLen(1) == 1
  {
    assert bits[|t|] == PutFlag(t, 1)[|t|];
    assert ScanZeros(bits, |t|, |t|) == Got(0, |t| + 1);
  }

  lemma PositiveUeLaw(t: seq<bool>, w: int, len: nat, bits: seq<bool>)
    requires 1 <= len <= 16 && Pow2(len - 1) <= w < Pow2(len)
    requires PutBits(t, 2 * len - 1, w) <= bits
    ensures t <= bits
    ensures ReadUeU32(bits, |t|) == Got(w - 1, |t| + 2 * len - 1)
  {
    hide UAt, ScanZeros, ReadUeU32, Low;
    UeHead(t, w, len);
    BitsLaw(t, 2 * len - 1, w, bits);
    UeReadBack(|t|, PutBits(t, len, Shr(w, len - 1)), w, len, bits);
  }

  /** The zigzag mapping of signed values is undone by the reader. */
  lemma SeOfCodeInverts(v: int)
    requires SeDomain(v)
    ensures SeOfCode(SeToUe(v)) == v
  {
    if v > 0 {
      assert SeToUe(v) % 2 == 1;
      assert SeToUe(v) + 1 == 2 * v;
    } else {
      assert SeToUe(v) == 2 * -v;
    }
  }

  lemma SeLaw(t: seq<bool>, v: int, bits: seq<bool>)
    requires SeDomain(v) && PutSe(t, v) <= bits
    ensures t <= bits
    ensures ReadSe(bits, |t|) == Got(v, |PutSe(t, v)|)
  {
    UeLaw(t, SeToUe(v), bits);
    SeOfCodeInverts(v);
  }

  /** The length of an Exp-Golomb code. */
  lemma PutUeLength(t: seq<bool>, v: int)
    requires UeDomain(v)
    ensures |PutUe(t, v)| == |t| + 2 * BitLen(v + 1) - 1
  {
    UeLaw(t, v, PutUe(t, v));
  }

  // ---------------------------------------------------------------- conditional elements

  /*
    A syntax element that is present only when `c` holds. An absent element writes nothing
    and leaves the reader's field at zero.
  */

  function PutFlagIf(c: bool, t: seq<bool>, v: int): (r: seq<bool>)
  {
    if c then PutFlag(t, v) else t
  }

  function PutBitsIf(c: bool, t: seq<bool>, n: nat, v: int): (r: seq<bool>)
  {
    if c then PutBits(t, n, v) else t
  }

  function PutUeIf(c: bool, t: seq<bool>, v: int): (r: seq<bool>)
    requires c ==> UeDomain(v)
  {
    if c then PutUe(t, v) else t
  }

  function PutSeIf(c: bool, t: seq<bool>, v: int): (r: seq<bool>)
    requires c ==> SeDomain(v)
  {
    if c then PutSe(t, v) else t
  }

  function ReadFlagIf(c: bool, bits: seq<bool>, pos: nat): (g: Got<int>)
    ensures g.pos >= pos && 0 <= g.val <= 1
  {
    if c then Got(BitAt(bits, pos), pos + 1) else Got(0, pos)
  }

  /** bs_read_u stored in a C `int` field. */
  function ReadBitsIf(c: bool, bits: seq<bool>, pos: nat, n: nat): (g: Got<int>)
    requires n <= 32
    ensures g.pos >= pos
  {
    if c then Got(IntAt(bits, pos, n), pos + n) else Got(0, pos)
  }

  function ReadUeIf(c: bool, bits: seq<bool>, pos: nat): (g: Got<int>)
    ensures g.pos >= pos
  {
    if c then ReadUe(bits, pos) else Got(0, pos)
  }

  function ReadSeIf(c: bool, bits: seq<bool>, pos: nat): (g: Got<int>)
    ensures g.pos >= pos
  {
    if c then ReadSe(bits, pos) else Got(0, pos)
  }

  /** `n` bits held in a C `int`. */
  function IntAt(bits: seq<bool>, pos: nat, n: nat): (v: int)
    requires n <= 32
    ensures -TWO_TO_THE_31 <= v < TWO_TO_THE_31
    ensures n < 32 ==> v == UAt(bits, pos, n)
  {
    UAtFits(bits, pos, n);
    ToI32(UAt(bits, pos, n))
  }

  lemma UAtFits(bits: seq<bool>, pos: nat, n: nat)
    requires n <= 32
    ensures UAt(bits, pos, n) < TWO_TO_THE_32
    ensures n < 32 ==> UAt(bits, pos, n) < TWO_TO_THE_31
  {
    PowersOfTwo();
    UAtBound(bits, pos, n);
    Pow2Monotone(n, 32);
    if n < 32 {
      Pow2Monotone(n, 31);
    }
  }

  predicate IsFlag(v: int)
  {
    0 <= v <= 1
  }

  /** The values an `n`-bit field of C type `int` carries without loss. */
  predicate BitsDomain(n: nat, v: int)
  {
    if n < 32 then 0 <= v < Pow2(n) else -TWO_TO_THE_31 <= v < TWO_TO_THE_31
  }

  lemma WordLaw(t: seq<bool>, v: int, bits: seq<bool>)
    requires BitsDomain(32, v) && PutBits(t, 32, v) <= bits
    ensures IntAt(bits, |t|, 32) == v
  {
    hide PutBits, UAt, Low;
    BitsLaw(t, 32, v, bits);
    PutBitsOfU32(t, 32, v);
    assert ToU32(v) < Pow2(32) by {
      PowersOfTwo();
    }
    LowOfSmall(ToU32(v), 32);
    assert UAt(bits, |t|, 32) == ToU32(v);
  }

  lemma IntLaw(t: seq<bool>, n: nat, v: int, bits: seq<bool>)
    requires n <= 32 && BitsDomain(n, v) && PutBits(t, n, v) <= bits
    ensures t <= bits && IntAt(bits, |t|, n) == v
  {
    BitsLaw(t, n, v, bits);
    if n < 32 {
      LowOfSmall(v, n);
    } else {
      WordLaw(t, v, bits);
    }
  }

  /** When the element is absent, its field is held at zero. */
  function Opt(c: bool, v: int): (r: int)
  {
    if c then v else 0
  }

  /** All conditional elements can be read back from any continuation of what was put. */
  lemma ElementLaws(bits: seq<bool>)
    ensures forall c, t, v {:trigger PutFlagIf(c, t, v)} ::
              (c ==> IsFlag(v)) && PutFlagIf(c, t, v) <= bits ==>
                t <= bits && ReadFlagIf(c, bits, |t|) == Got(Opt(c, v), |PutFlagIf(c, t, v)|)
    ensures forall c, t, n: nat, v {:trigger PutBitsIf(c, t, n, v)} ::
              n <= 32 && (c ==> BitsDomain(n, v)) && PutBitsIf(c, t, n, v) <= bits ==>
                t <= bits && ReadBitsIf(c, bits, |t|, n) == Got(Opt(c, v), |PutBitsIf(c, t, n, v)|)
    ensures forall c, t, v {:trigger PutUeIf(c, t, v)} ::
              (c ==> UeDomain(v)) && PutUeIf(c, t, v) <= bits ==>
                t <= bits && ReadUeIf(c, bits, |t|) == Got(Opt(c, v), |PutUeIf(c, t, v)|)
    ensures forall c, t, v {:trigger PutSeIf(c, t, v)} ::
              (c ==> SeDomain(v)) && PutSeIf(c, t, v) <= bits ==>
                t <= bits && ReadSeIf(c, bits, |t|) == Got(Opt(c, v), |PutSeIf(c, t, v)|)
  {
    forall c, t, v | (c ==> IsFlag(v)) && PutFlagIf(c, t, v) <= bits
      ensures t <= bits && ReadFlagIf(c, bits, |t|) == Got(Opt(c, v), |PutFlagIf(c, t, v)|)
    {
      assert c ==> bits[|t|] == PutFlag(t, v)[|t|];
    }
    forall c, t, n: nat, v | n <= 32 && (c ==> BitsDomain(n, v)) && PutBitsIf(c, t, n, v) <= bits
      ensures t <= bits && ReadBitsIf(c, bits, |t|, n) == Got(Opt(c, v), |PutBitsIf(c, t, n, v)|)
    {
      if c {
        IntLaw(t, n, v, bits);
      }
    }
    forall c, t, v | (c ==> UeDomain(v)) && PutUeIf(c, t, v) <= bits
      ensures t <= bits && ReadUeIf(c, bits, |t|) == Got(Opt(c, v), |PutUeIf(c, t, v)|)
    {
      if c {
        UeLaw(t, v, bits);
      }
    }
    forall c, t, v | (c ==> SeDomain(v)) && PutSeIf(c, t, v) <= bits
      ensures t <= bits && ReadSeIf(c, bits, |t|) == Got(Opt(c, v), |PutSeIf(c, t, v)|)
    {
      if c {
        SeLaw(t, v, bits);
      }
    }
  }

  function UeSize(v: int): (n: nat)
    requires UeDomain(v)
  {
    2 * BitLen(v + 1) - 1
  }

  /** How much each conditional element adds, whatever is there before. */
  lemma ElementSizes()
    ensures forall c, t, v {:trigger PutFlagIf(c, t, v)} :: |PutFlagIf(c, t, v)| == |t| + if c then 1 else 0
    ensures forall c, t, n: nat, v {:trigger PutBitsIf(c, t, n, v)} ::
              |PutBitsIf(c, t, n, v)| == |t| + if c then n else 0
    ensures forall c, t, v {:trigger PutUeIf(c, t, v)} :: (c ==> UeDomain(v)) ==>
              |PutUeIf(c, t, v)| == |t| + if c then UeSize(v) else 0
  {
    forall c, t, n: nat, v ensures |PutBitsIf(c, t, n, v)| == |t| + if c then n else 0 {
      PutBitsLength(t, n, v);
    }
    forall c, t, v | c ==> UeDomain(v) ensures |PutUeIf(c, t, v)| == |t| + if c then UeSize(v) else 0 {
      if c {
        PutUeLength(t, v);
      }
    }
  }
}
