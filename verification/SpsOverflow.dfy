/**
  A parameter set of 61 bytes whose rewrite needs one byte more than the room reserved for it:
  its bits are shifted by two, and sixteen runs of zero bits that started inside a byte then
  fill whole ones (app/streaming/video/ffmpeg.cpp:61, 1839-1878).
*/
module SpsOverflow {
  import opened Bits
  import opened BitCodes
  import opened BitStreams
  import opened SpsSyntax
  import opened SpsCodec
  import opened SpsSize
  import opened Nal
  import opened NalUnit
  import opened SpsFixup

  // ---------------------------------------------------------------- codes given by their bits

  /** The number some bits spell. */
  function Val(w: seq<bool>): (v: nat)
  {
    if w == [] then 0 else 2 * Val(w[..|w| - 1]) + BitValue(w[|w| - 1])
  }

  lemma {:induction false} PutBitsOf(t: seq<bool>, w: seq<bool>)
    ensures PutBits(t, |w|, Val(w)) == t + w
    decreases |w|
  {
    if w == [] {
      PutNoBits(t, 0);
    } else {
      var n := |w| - 1;
      PutBitsOf(t, w[..n]);
      PutBitsStep(t, |w|, Val(w));
      assert Val(w) / 2 == Val(w[..n]);
      assert t + w == t + w[..n] + [w[n]];
    }
  }

  /** Behind `k` zero bits, a one bit decides the size of the number. */
  lemma {:induction false} ValRange(w: seq<bool>, k: nat)
    requires k < |w| && w[k] && forall i :: 0 <= i < k ==> !w[i]
    ensures Pow2(|w| - k - 1) <= Val(w) < Pow2(|w| - k)
    decreases |w|
  {
    var n := |w| - 1;
    if k < n {
      ValRange(w[..n], k);
    } else {
      ValZeros(w[..n]);
    }
  }

  lemma {:induction false} ValZeros(w: seq<bool>)
    requires forall i :: 0 <= i < |w| ==> !w[i]
    ensures Val(w) == 0
    decreases |w|
  {
    if w != [] {
      ValZeros(w[..|w| - 1]);
    }
  }

  predicate IsCode(w: seq<bool>, len: nat)
  {
    1 <= len <= 16 && |w| == 2 * len - 1 && w[len - 1] && forall i :: 0 <= i < len - 1 ==> !w[i]
  }

  /** The value coded by `w`. */
  function Code(w: seq<bool>): (v: int)
  {
    Val(w) - 1
  }

  lemma CodeRange(w: seq<bool>, len: nat)
    requires IsCode(w, len)
    ensures UeDomain(Code(w)) && BitLen(Val(w)) == len
    ensures Val(w) == 1 ==> w == [true]
  {
    hide Val;
    ValRange(w, len - 1);
    assert |w| - (len - 1) - 1 == len - 1;
    PowersOfTwo();
    Pow2Monotone(len, 16);
    BitLenUnique(Val(w), len);
    if len > 1 {
      Pow2Monotone(1, len - 1);
    }
  }

  /** Zeros, a one bit, and as many bits again are an Exp-Golomb code. */
  lemma CodeIsPut(t: seq<bool>, w: seq<bool>, len: nat)
    requires IsCode(w, len)
    ensures UeDomain(Code(w)) && PutUe(t, Code(w)) == t + w
  {
    hide Val, PutBits, BitLen, IsCode;
    CodeRange(w, len);
    CodeLength(w, len);
    PutBitsOf(t, w);
  }

  lemma CodeLength(w: seq<bool>, len: nat)
    requires IsCode(w, len)
    ensures |w| == 2 * len - 1
  {
  }

  // ---------------------------------------------------------------- what escaping adds

  /** Behind two zero bytes, a byte below 4. */
  predicate Imitates(t: seq<byte>, x: byte)
  {
    var n := |t|;
    n >= 2 && t[n - 2] == 0 && t[n - 1] == 0 && x & 0xFC == 0
  }

  lemma PutPlain(e: EscapeState, x: byte)
    requires CountsZeros(e)
    requires !Imitates(e.out, x)
    ensures EscapeByte(e, x).out == e.out + [x]
  {
  }

  /** No two zero bytes before a byte below 4. */
  predicate Plain(s: seq<byte>)
  {
    forall i :: 0 <= i < |s| - 2 ==> !(s[i] == 0 && s[i + 1] == 0 && s[i + 2] & 0xFC == 0)
  }

  lemma PlainPrefix(s: seq<byte>, n: nat)
    requires Plain(s) && n == |s| - 1
    ensures Plain(s[..n])
    ensures !Imitates(s[..n], s[n])
  {
    assert n >= 2 ==> !(s[n - 2] == 0 && s[n - 2 + 1] == 0 && s[n - 2 + 2] & 0xFC == 0);
  }

  /** Then nothing is escaped. */
  lemma {:induction false} NothingEscaped(s: seq<byte>)
    requires Plain(s)
    ensures Escape(s) == s
    decreases |s|
  {
    if s != [] {
      var t, x := s[..|s| - 1], s[|s| - 1];
      PlainPrefix(s, |s| - 1);
      assert s == t + [x];
      NothingEscaped(t);
      OneMorePlain(t, x);
    }
  }

  lemma OneMorePlain(t: seq<byte>, x: byte)
    requires Escape(t) == t && !Imitates(t, x)
    ensures Escape(t + [x]) == t + [x]
  {
    hide EscapeAll, EscapeByte, CountsZeros, NoStartCode, Imitates;
    EscapeHasNoStartCode(t);
    PutPlain(EscapeAll(t), x);
    EscapeAppend(t, x);
  }

  /** A byte other than zero, two zero bytes and a byte below 4. */
  predicate EscapedAt(s: seq<byte>, i: nat)
  {
    i + 3 < |s| && s[i] != 0 && s[i + 1] == 0 && s[i + 2] == 0 && s[i + 3] & 0xFC == 0
  }

  /** The last three of them are put as four. */
  lemma OneMoreEscaped(s: seq<byte>, i: nat)
    requires EscapedAt(s, i)
    ensures |Escape(s[..i + 4])| >= |Escape(s[..i + 1])| + 4
  {
    EscapeStep(s, i);
    EscapeStep(s, i + 1);
    EscapeStep(s, i + 2);
    EscapeStep(s, i + 3);
  }

  lemma {:induction false} EscapeNoShorter(s: seq<byte>, i: nat, j: nat)
    requires i <= j <= |s|
    ensures |Escape(s[..j])| >= |Escape(s[..i])| + j - i
    decreases j
  {
    if i < j {
      EscapeNoShorter(s, i, j - 1);
      EscapeStep(s, j - 1);
    }
  }

  /** Patterns three bytes apart each cost a byte. */
  lemma {:induction false} ManyEscaped(s: seq<byte>, from: nat, n: nat)
    requires forall k :: 0 <= k < n ==> EscapedAt(s, from + 3 * k)
    requires from + 3 * n < |s|
    ensures |Escape(s[..from + 3 * n + 1])| >= from + 4 * n + 1
    decreases n
  {
    if n == 0 {
      assert s[..0] == [];
      EscapeNoShorter(s, 0, from + 1);
    } else {
      ManyEscaped(s, from, n - 1);
      OneMoreEscaped(s, from + 3 * (n - 1));
    }
  }

  // ---------------------------------------------------------------- bytes by their bits

  lemma ZeroByte(x: byte)
    ensures x == 0 <==> forall k :: 0 <= k < 8 ==> !TestBit(x, k)
  {
    if forall k :: 0 <= k < 8 ==> !TestBit(x, k) {
      ByteValue(x);
    }
    if x == 0 {
      forall k | 0 <= k < 8 ensures !TestBit(x, k) {
        NoBitInZero(k);
      }
    }
  }

  lemma SmallByte(x: byte)
    ensures x & 0xFC == 0 <==> forall k :: 2 <= k < 8 ==> !TestBit(x, k)
  {
    if forall k :: 2 <= k < 8 ==> !TestBit(x, k) {
      assert !TestBit(x, 2) && !TestBit(x, 3) && !TestBit(x, 4) && !TestBit(x, 5) && !TestBit(x, 6) && !TestBit(x, 7);
    }
    if x & 0xFC == 0 {
      forall k | 2 <= k < 8 ensures !TestBit(x, k) {
        match k { case 2 => case 3 => case 4 => case 5 => case 6 => case _ => }
      }
    }
  }

  /** Bits `i..j` of a payload are all zero. */
  predicate ZeroBits(bits: seq<bool>, i: nat, j: nat)
  {
    forall k :: i <= k < j && k < |bits| ==> !bits[k]
  }

  lemma BitInByte(s: seq<byte>, i: nat, k: nat)
    requires i < |s| && k < 8
    ensures BitsOf(s)[8 * i + k] == TestBit(s[i], 7 - k)
  {
    hide TestBit;
    assert (8 * i + k) / 8 == i && (8 * i + k) % 8 == k;
  }

  /** The first `n` bits of a byte. */
  lemma HighBits(s: seq<byte>, i: nat, n: nat)
    requires i < |s| && n <= 8
    ensures ZeroBits(BitsOf(s), 8 * i, 8 * i + n) <==> forall k :: 8 - n <= k < 8 ==> !TestBit(s[i], k)
  {
    hide TestBit, BitsOf;
    if ZeroBits(BitsOf(s), 8 * i, 8 * i + n) {
      forall k | 8 - n <= k < 8 ensures !TestBit(s[i], k) {
        BitInByte(s, i, 7 - k);
      }
    }
    if forall k :: 8 - n <= k < 8 ==> !TestBit(s[i], k) {
      forall k | 8 * i <= k < 8 * i + n && k < |BitsOf(s)| ensures !BitsOf(s)[k] {
        BitInByte(s, i, k - 8 * i);
      }
    }
  }

  lemma ByteBits(s: seq<byte>, i: nat)
    requires i < |s|
    ensures s[i] == 0 <==> ZeroBits(BitsOf(s), 8 * i, 8 * i + 8)
    ensures s[i] & 0xFC == 0 <==> ZeroBits(BitsOf(s), 8 * i, 8 * i + 6)
  {
    hide TestBit, BitsOf, ZeroBits;
    ZeroByte(s[i]);
    SmallByte(s[i]);
    HighBits(s, i, 8);
    HighBits(s, i, 6);
  }

  // ---------------------------------------------------------------- the parameter set

  /** The bits of eight rows of the CPB table: two one bits, and 22 zero bits to the next two. */
  function Stripes(): (bits: seq<bool>)
    ensures |bits| == 392 && forall i :: 0 <= i < 392 ==> bits[i] == (i % 24 == 15 || i % 24 == 16)
  {
    seq(392, i => i % 24 == 15 || i % 24 == 16)
  }

  function FirstCode(i: nat): (bits: seq<bool>)
    requires i < 8
  {
    Stripes()[49 * i..49 * i + 31 - 2 * i]
  }

  function SecondCode(i: nat): (bits: seq<bool>)
    requires i < 8
  {
    Stripes()[49 * i + 31 - 2 * i..49 * i + 48]
  }

  /** A row is a code that gets shorter, a code that gets longer, and a zero flag. */
  function Row(i: nat): (c: Cpb)
    requires i < 8
  {
    Cpb(Code(FirstCode(i)), Code(SecondCode(i)), 0)
  }

  lemma StripesAreCodes(i: nat)
    requires i < 8
    ensures IsCode(FirstCode(i), 16 - i) && IsCode(SecondCode(i), 9 + i) && !Stripes()[49 * i + 48]
  {
    hide Stripes;
    forall r | 0 <= r < 16 - i ensures FirstCode(i)[r] == (r == 15 - i) {
      StripeAt(2 * i, i + r);
    }
    forall r | 0 <= r < 9 + i ensures SecondCode(i)[r] == (r == 8 + i) {
      StripeAt(2 * i + 1, 7 - i + r);
    }
    StripeAt(2 * i + 2, i);
  }

  lemma StripeAt(n: nat, r: nat)
    requires 24 * n + r < 392 && r < 24
    ensures Stripes()[24 * n + r] == (r == 15 || r == 16)
  {
    assert (24 * n + r) % 24 == r;
  }

  lemma RowIsPut(t: seq<bool>, i: nat)
    requires i < 8
    ensures Row(i).InRange() && Row(i).Writable()
    ensures Row(i).Put(t + Stripes()[..49 * i]) == t + Stripes()[..49 * i + 49]
  {
    hide PutUe, Code, UeDomain, IsCode, FirstCode, SecondCode;
    var p, t0 := Stripes(), t + Stripes()[..49 * i];
    StripesAreCodes(i);
    CodeIsPut(t0, FirstCode(i), 16 - i);
    CodeIsPut(t0 + FirstCode(i), SecondCode(i), 9 + i);
    RowBits(t, i);
  }

  lemma RowBits(t: seq<bool>, i: nat)
    requires i < 8
    ensures t + Stripes()[..49 * i] + FirstCode(i) + SecondCode(i) + [false] == t + Stripes()[..49 * i + 49]
  {
    hide IsCode;
    StripesAreCodes(i);
    var p := Stripes();
    assert p[..49 * i] + FirstCode(i) == p[..49 * i + 31 - 2 * i];
    assert p[..49 * i + 31 - 2 * i] + SecondCode(i) == p[..49 * i + 48];
    assert p[..49 * i + 48] + [p[49 * i + 48]] == p[..49 * i + 49];
  }

  function Rows(): (cpbs: seq<Cpb>)
    ensures |cpbs| == MAX_CPB_COUNT
  {
    seq(MAX_CPB_COUNT, i requires 0 <= i => if i < 8 then Row(i) else NO_CPB)
  }

  lemma RowsInRange()
    ensures forall i :: 0 <= i < 8 ==> Rows()[i].InRange() && Rows()[i].Writable()
  {
    hide Cpb.InRange, Cpb.Writable, Row;
    forall i | 0 <= i < 8 ensures Rows()[i].InRange() && Rows()[i].Writable() {
      RowIsPut([], i);
    }
  }

  lemma {:induction false} RowsArePut(t: seq<bool>, n: nat)
    requires n <= 8
    ensures forall i :: 0 <= i < n ==> Rows()[..n][i].Writable()
    ensures PutCpbs(t, Rows()[..n]) == t + Stripes()[..49 * n]
    decreases n
  {
    hide Cpb.Put, Cpb.InRange, Cpb.Writable, Row, Stripes;
    RowsInRange();
    if n > 0 {
      RowsArePut(t, n - 1);
      assert Rows()[..n][..n - 1] == Rows()[..n - 1];
      RowIsPut(t, n - 1);
    } else {
      assert Rows()[..0] == [];
      assert t + Stripes()[..0] == t;
    }
  }

  function SampleHrd(): (h: Hrd)
  {
    Hrd(7, 0, 0, Rows(), 31, 31, 31, 31)
  }

  /** The set, and with `1, 1` the set the rewrite makes of it. */
  function Sample(refs: int, frames: int): (s: Sps)
  {
    Sps(Header(66, 1, 0, 0, 0, 0, 0, 0, 40, 0),
        NoHighPart(),
        PicOrder(0, 2, 0, 0, 0, 0, 0, Zeros(MAX_REF_FRAMES_IN_CYCLE)),
        Frame(refs, 0, 1, 0, 1, 0, 0, 0, 0, 0, 0, 0),
        1,
        Vui(VuiVideo(0, 0, 0, 0, 1, 0, 0, 0, 0, 0, 0, 0, 0), VuiTiming(0, 0, 0, 0, 0, 0, 0),
            1, SampleHrd(), 0, NoHrd(), 0, 0, VuiRestriction(0, 0, 0, 0, 0, 0, 0, frames)))
  }

  lemma HrdInRange()
    ensures SampleHrd().Shape() && SampleHrd().InRange() && SampleHrd().Writable()
    ensures SampleHrd().Canonical() == SampleHrd()
  {
    hide Cpb.InRange, Cpb.Writable, Rows;
    RowsInRange();
    PowersOfTwo();
    assert FirstN(Rows(), 8, NO_CPB) == Rows();
  }

  lemma SampleInRange(refs: int, frames: int)
    requires 0 <= refs <= 1 && 0 <= frames <= 1
    ensures Sample(refs, frames).InRange() && Sample(refs, frames).Writable()
    ensures frames == 0 ==> Sample(refs, frames).Canonical() == Sample(refs, frames)
  {
    hide Hrd.InRange, Hrd.Writable, Hrd.Canonical, SampleHrd, NoHrd, NoHighPart, Pow2;
    hide Header.InRange, Header.Writable, PicOrder.InRange, PicOrder.Writable, PicOrder.Canonical;
    HrdInRange();
    FrontInRange();
  }

  lemma FrontInRange()
    ensures NoHighPart().Shape()
    ensures var h := Sample(0, 0).header; h.InRange() && h.Writable() && h.Canonical() == h && !h.HighProfile()
    ensures var o := Sample(0, 0).order; o.Shape() && o.Writable() && o.InRange() && o.Canonical() == o
  {
    PowersOfTwo();
    assert FirstN(Zeros(MAX_REF_FRAMES_IN_CYCLE), 0, 0) == Zeros(MAX_REF_FRAMES_IN_CYCLE);
  }

  // ---------------------------------------------------------------- its bits

  /** Everything before the CPB rows. */
  function Head(h: NalHeader, refs: int): (bits: seq<bool>)
    requires 0 <= refs <= 1
  {
    var s := Sample(refs, 0);
    SampleInRange(refs, 0);
    HrdInRange();
    var t := PutFlagIf(true, s.frame.Put(s.order.Put(s.header.Put(PutNalHeader(h)))), 1);
    SampleHrd().PutScales(PutFlagIf(true, s.vui.timing.Put(s.vui.video.Put(t)), 1))
  }

  /** Everything behind them. */
  function Behind(t: seq<bool>): (bits: seq<bool>)
  {
    var t := PutFlagIf(true, SampleHrd().PutLengths(t), 0);
    var t := PutFlagIf(true, PutFlagIf(true, t, 0), 0);
    PutFlagIf(true, t, 0)
  }

  lemma SampleBits(h: NalHeader, refs: int, frames: int)
    requires 0 <= refs <= 1 && 0 <= frames <= 1
    ensures Sample(refs, frames).Writable()
    ensures Sample(refs, frames).Put(PutNalHeader(h)) == Behind(Head(h, refs) + Stripes())
  {
    hide PutNalHeader, PutFlagIf, PutBitsIf, PutUeIf, Header.Put, PicOrder.Put, Frame.Put, VuiVideo.Put, VuiTiming.Put;
    hide Hrd.Writable, Hrd.PutScales, Hrd.PutLengths, PutCpbs, Rows, Stripes;
    SampleInRange(refs, frames);
    SampleInRange(refs, 0);
    HrdInRange();
    RowsArePut(Head(h, refs), 8);
    assert Stripes()[..392] == Stripes();
    AbsentElements();
  }

  lemma AbsentElements()
    ensures forall t, v {:trigger PutFlagIf(false, t, v)} :: PutFlagIf(false, t, v) == t
    ensures forall t, v {:trigger PutUeIf(false, t, v)} :: PutUeIf(false, t, v) == t
  {
  }

  /** Putting an element keeps what was put before. */
  lemma ElementsAppend()
    ensures forall c, t, v {:trigger PutFlagIf(c, t, v)} :: t <= PutFlagIf(c, t, v)
    ensures forall c, t, n: nat, v {:trigger PutBitsIf(c, t, n, v)} :: t <= PutBitsIf(c, t, n, v)
    ensures forall c, t, v {:trigger PutUeIf(c, t, v)} :: (c ==> UeDomain(v)) ==> t <= PutUeIf(c, t, v)
  {
    hide PutUe;
    forall c, t, n: nat, v ensures t <= PutBitsIf(c, t, n, v) {
      PutBitsAppends(t, n, v);
    }
    forall c, t, v | c ==> UeDomain(v) ensures t <= PutUeIf(c, t, v) {
      if c {
        UeLaw(t, v, PutUe(t, v));
      }
    }
  }

  lemma CodeSizes()
    ensures UeSize(0) == 1 && UeSize(1) == 3 && UeSize(2) == 3
  {
    assert BitLen(1) == 1 && BitLen(2) == 2 && BitLen(3) == 2;
  }

  lemma HeaderBits(t: seq<bool>)
    requires |t| == 8
    ensures var r := Sample(0, 0).header.Put(t); t <= r && |r| == 33 && r[16] && r[32]
  {
    hide PutBitsIf;
    ElementSizes();
    ElementsAppend();
    CodeSizes();
    var h := Sample(0, 0).header;
    var t1 := PutBitsIf(true, t, 8, 66);
    var t2 := PutFlagIf(true, t1, 1);
    assert t2[16];
    assert h.Put(t)[32];
  }

  lemma MiddleBits(t: seq<bool>, refs: int)
    requires 0 <= refs <= 1
    ensures var s := Sample(refs, 0);
            && s.order.Writable() && s.frame.Writable()
            && var r := s.frame.Put(s.order.Put(t));
               t <= r && |r| == |t| + 12 + UeSize(refs)
  {
    hide PutFlagIf, PutBitsIf, PutUeIf, UeSize;
    SampleInRange(refs, 0);
    ElementSizes();
    ElementsAppend();
    CodeSizes();
    assert Sample(refs, 0).order.offsetForRefFrame[..0] == [];
  }

  lemma VuiHeadBits(t: seq<bool>)
    ensures var v := Sample(0, 0).vui;
            && v.timing.Writable()
            && var r := v.timing.Put(v.video.Put(t));
               t <= r && |r| == |t| + 6
  {
    hide PutFlagIf, PutBitsIf, PutUeIf, UeSize;
    ElementSizes();
    ElementsAppend();
  }

  /** 31 in five bits is all ones. */
  lemma OnesBits(t: seq<bool>)
    ensures PutBits(t, 5, 31) == t + [true, true, true, true, true]
  {
    var w := [true, true, true, true];
    assert w[..3] == [true, true, true] && w[..3][..2] == [true, true];
    assert w[..3][..2][..1] == [true] && w[..1][..0] == [];
    assert Val([true]) == 1 && Val([true, true]) == 3 && Val([true, true, true]) == 7 && Val(w) == 15;
    var x := w + [true];
    assert x[..4] == w && Val(x) == 31;
    PutBitsOf(t, x);
  }

  lemma ZeroBitsPut(t: seq<bool>)
    ensures PutBits(t, 4, 0) == t + [false, false, false, false]
  {
    ValZeros([false, false, false, false]);
    PutBitsOf(t, [false, false, false, false]);
  }

  lemma CountBits(t: seq<bool>)
    ensures UeDomain(7) && PutUe(t, 7) == t + [false, false, false, true, false, false, false]
  {
    var w := [false, false, false, true, false, false, false];
    ValZeros(w[..3]);
    assert w[..4] == w[..3] + [true] && w[..5] == w[..4] + [false] && w[..6] == w[..5] + [false]
      && w == w[..6] + [false];
    assert w[..4][..3] == w[..3] && w[..5][..4] == w[..4] && w[..6][..5] == w[..5];
    assert Val(w[..4]) == 1 && Val(w[..5]) == 2 && Val(w[..6]) == 4 && Val(w) == 8;
    CodeIsPut(t, w, 4);
  }

  lemma ScalesBits(t: seq<bool>)
    ensures SampleHrd().Writable()
    ensures var r := SampleHrd().PutScales(t);
            t <= r && |r| == |t| + 15 && r[|t| + 3] && forall k :: |t| + 7 <= k < |t| + 15 ==> !r[k]
  {
    hide PutUe, PutBits, Hrd.Writable, Rows;
    HrdInRange();
    CountBits(t);
    var t1 := t + [false, false, false, true, false, false, false];
    var zeros := [false, false, false, false];
    ZeroBitsPut(t1);
    ZeroBitsPut(t1 + zeros);
    assert SampleHrd().PutScales(t) == t1 + zeros + zeros;
  }

  /** Up to the flag that announces the VUI. */
  lemma FrontBits(h: NalHeader, refs: int)
    requires 0 <= refs <= 1
    ensures var s := Sample(refs, 0);
            && s.header.Writable() && s.order.Writable() && s.frame.Writable()
            && var b := s.frame.Put(s.order.Put(s.header.Put(PutNalHeader(h))));
               |b| == 45 + UeSize(refs) && b[16] && b[32]
  {
    hide PutNalHeader, UeSize, Header.Put, PicOrder.Put, Frame.Put;
    NalHeaderLength(h);
    HeaderBits(PutNalHeader(h));
    MiddleBits(Sample(refs, 0).header.Put(PutNalHeader(h)), refs);
  }

  lemma HeadBits(h: NalHeader, refs: int)
    requires 0 <= refs <= 1
    ensures var b := Head(h, refs);
            && |b| == 68 + UeSize(refs)
            && b[16] && b[32] && b[|b| - 16] && b[|b| - 12]
            && forall k :: |b| - 8 <= k < |b| ==> !b[k]
  {
    hide PutNalHeader, UeSize, Header.Put, PicOrder.Put, Frame.Put, VuiVideo.Put, VuiTiming.Put, Hrd.PutScales;
    hide Hrd.Writable;
    hide Header.Writable, PicOrder.Writable, Frame.Writable, SampleHrd;
    CodeSizes();
    FrontBits(h, refs);
    var s := Sample(refs, 0);
    HrdInRange();
    var t2 := s.frame.Put(s.order.Put(s.header.Put(PutNalHeader(h))));
    var t3 := t2 + [true];
    assert PutFlagIf(true, t2, 1) == t3;
    VuiHeadBits(t3);
    var t4 := s.vui.timing.Put(s.vui.video.Put(t3));
    ScalesBits(t4 + [true]);
    assert PutFlagIf(true, t4, 1) == t4 + [true];
  }

  lemma BehindBits(t: seq<bool>)
    ensures |Behind(t)| == |t| + 24 && t <= Behind(t)
    ensures forall k :: |t| <= k < |t| + 20 ==> Behind(t)[k]
  {
    hide PutBits;
    var ones: seq<bool> := [true, true, true, true, true];
    OnesBits(t);
    OnesBits(t + ones);
    OnesBits(t + ones + ones);
    OnesBits(t + ones + ones + ones);
    assert SampleHrd().PutLengths(t) == t + ones + ones + ones + ones;
  }

  // ---------------------------------------------------------------- its bytes

  function Payload(h: NalHeader, refs: int, frames: int): (rbsp: seq<byte>)
    requires 0 <= refs <= 1 && 0 <= frames <= 1
  {
    hide Sps.Writable;
    SampleInRange(refs, frames);
    Rbsp(h, Sample(refs, frames))
  }

  /** The rows from bit `start` on, and 20 one bits behind them. */
  predicate LaidOut(bits: seq<bool>, start: nat)
  {
    && |bits| == 488 && start <= 71
    && (forall k :: 0 <= k < 392 ==> bits[start + k] == Stripes()[k])
    && (forall k :: start + 392 <= k < start + 412 ==> bits[k])
  }

  lemma PayloadBits(h: NalHeader, refs: int, frames: int)
    requires 0 <= refs <= 1 && 0 <= frames <= 1
    ensures LaidOut(BitsOf(Payload(h, refs, frames)), if refs == 0 then 69 else 71)
    ensures Head(h, refs) <= BitsOf(Payload(h, refs, frames))
  {
    hide Sample, PutNalHeader, Sps.Put, Sps.Writable, Pack, Head, Behind, Stripes, UeSize, LaidOut;
    SampleBits(h, refs, frames);
    HeadBits(h, refs);
    CodeSizes();
    var head := Head(h, refs);
    var body := head + Stripes();
    BehindBits(body);
    PayloadBytes(h, Sample(refs, frames));
    var bits := BitsOf(Payload(h, refs, frames));
    assert Behind(body) <= bits;
    RowsLaidOut(head, Behind(body), bits);
  }

  lemma RowsLaidOut(head: seq<bool>, whole: seq<bool>, bits: seq<bool>)
    requires head + Stripes() <= whole <= bits && |bits| == 488 && |head| <= 71 && |whole| == |head| + 416
    requires forall k :: |head| + 392 <= k < |head| + 412 ==> whole[k]
    ensures LaidOut(bits, |head|) && head <= bits
  {
    hide Stripes;
    var body := head + Stripes();
    forall k | 0 <= k < 392 ensures bits[|head| + k] == Stripes()[k] {
      assert bits[|head| + k] == body[|head| + k] == Stripes()[k];
    }
  }

  /** What the bits of the set as received look like. */
  predicate Received(bits: seq<bool>)
  {
    LaidOut(bits, 69) && bits[16] && bits[32] && bits[53] && bits[57]
  }

  /** A one bit is never far away in them. */
  lemma OneBitNear(bits: seq<bool>, i: nat) returns (j: nat)
    requires Received(bits) && i < 59
    ensures 8 * i <= j < 8 * i + 22 && bits[j]
  {
    if i <= 2 {
      j := 16;
    } else if i <= 4 {
      j := 32;
    } else if i <= 6 {
      j := 53;
    } else if i == 7 {
      j := 57;
    } else if i <= 55 {
      var m := if i <= 10 then 0 else (8 * i - 61) / 24;
      j := 84 + 24 * m;
      assert (15 + 24 * m) % 24 == 15;
      assert bits[69 + (15 + 24 * m)] == Stripes()[15 + 24 * m];
    } else {
      j := if 8 * i < 461 then 461 else 8 * i;
    }
  }

  lemma NotEscapedAt(rbsp: seq<byte>, i: nat)
    requires Received(BitsOf(rbsp)) && i < |rbsp| - 2
    ensures !(rbsp[i] == 0 && rbsp[i + 1] == 0 && rbsp[i + 2] & 0xFC == 0)
  {
    hide BitsOf, Received;
    ByteBits(rbsp, i);
    ByteBits(rbsp, i + 1);
    ByteBits(rbsp, i + 2);
    assert |BitsOf(rbsp)| == 488 && |rbsp| == 61 by {
      ReceivedSize(rbsp);
    }
    var j := OneBitNear(BitsOf(rbsp), i);
  }

  lemma ReceivedSize(rbsp: seq<byte>)
    requires Received(BitsOf(rbsp))
    ensures |BitsOf(rbsp)| == 488 && |rbsp| == 61
  {
  }

  lemma ReceivedNotEscaped(h: NalHeader)
    ensures Escape(Payload(h, 0, 0)) == Payload(h, 0, 0) && |Payload(h, 0, 0)| == 61
  {
    hide Payload, Head, Stripes, BitsOf, UeSize, Escape;
    PayloadBits(h, 0, 0);
    HeadBits(h, 0);
    CodeSizes();
    var rbsp := Payload(h, 0, 0);
    assert Received(BitsOf(rbsp));
    hide Received;
    forall i | 0 <= i < |rbsp| - 2 ensures !(rbsp[i] == 0 && rbsp[i + 1] == 0 && rbsp[i + 2] & 0xFC == 0) {
      NotEscapedAt(rbsp, i);
    }
    NothingEscaped(rbsp);
  }

  /** What the bits of the rewritten set look like. */
  predicate AfterRewrite(bits: seq<bool>)
  {
    LaidOut(bits, 71) && bits[59] && forall k :: 63 <= k < 71 ==> !bits[k]
  }

  /** Every 24 bits, 22 zero bits fill whole bytes. */
  lemma ZeroRun(bits: seq<bool>, n: nat)
    requires AfterRewrite(bits) && n < 16
    ensures |bits| == 488 && ZeroBits(bits, 64 + 24 * n, 86 + 24 * n)
    ensures !ZeroBits(bits, 56 + 24 * n, 64 + 24 * n)
  {
    forall k | 64 + 24 * n <= k < 86 + 24 * n ensures !bits[k] {
      if k >= 71 {
        assert bits[71 + (k - 71)] == Stripes()[k - 71];
        assert (k - 71) % 24 < 15 || (k - 71) % 24 > 16 by {
          if k >= 71 + 24 * n {
            assert k - 71 == 24 * n + (k - 71 - 24 * n);
          } else {
            assert k - 71 == 24 * (n - 1) + (k - 47 - 24 * n);
          }
        }
      }
    }
    if n == 0 {
      assert bits[59];
    } else {
      assert (24 * (n - 1) + 15) % 24 == 15;
      assert bits[71 + (24 * (n - 1) + 15)] == Stripes()[24 * (n - 1) + 15];
      assert bits[62 + 24 * n];
    }
  }

  lemma RunIsEscaped(rbsp: seq<byte>, n: nat)
    requires AfterRewrite(BitsOf(rbsp)) && n < 16
    ensures EscapedAt(rbsp, 7 + 3 * n)
  {
    hide BitsOf, AfterRewrite;
    var i := 7 + 3 * n;
    ZeroRun(BitsOf(rbsp), n);
    assert |rbsp| == 61;
    ByteBits(rbsp, i);
    ByteBits(rbsp, i + 1);
    ByteBits(rbsp, i + 2);
    ByteBits(rbsp, i + 3);
  }

  lemma RewrittenEscaped(h: NalHeader)
    ensures |Escape(Payload(h, 1, 1))| >= 77
  {
    hide Payload, Head, Stripes, BitsOf, UeSize, Escape;
    PayloadBits(h, 1, 1);
    HeadBits(h, 1);
    CodeSizes();
    var rbsp := Payload(h, 1, 1);
    assert AfterRewrite(BitsOf(rbsp));
    hide AfterRewrite, EscapedAt;
    assert |rbsp| == 61 by {
      RewrittenSize(rbsp);
    }
    forall n | 0 <= n < 16 ensures EscapedAt(rbsp, 7 + 3 * n) {
      RunIsEscaped(rbsp, n);
    }
    ManyEscaped(rbsp, 7, 16);
    EscapeNoShorter(rbsp, 56, 61);
    assert rbsp[..61] == rbsp;
  }

  lemma RewrittenSize(rbsp: seq<byte>)
    requires AfterRewrite(BitsOf(rbsp))
    ensures |rbsp| == 61
  {
  }

  /**
    The spare bytes are not always enough: a set of 61 bytes without any emulation prevention
    is rewritten to 77, and the zero byte in front is one more than there is room for.
  */
  lemma LongSetDoesNotFit(h: NalHeader)
    ensures var s := Sample(0, 0);
            && s.InRange() && s.Writable() && |Rbsp(h, s)| == 61
            && Fixed(s.Canonical()) == Sample(1, 1) && Sample(1, 1).Writable()
            && !WriteSucceeds(h, Sample(1, 1), MAX_SPS_EXTRA_SIZE + |EncodedNal(h, s)|)
  {
    hide Rbsp, Sps.InRange, Sps.Writable, Sps.Canonical, Escape;
    SampleInRange(0, 0);
    SampleInRange(1, 1);
    ReceivedNotEscaped(h);
    RewrittenEscaped(h);
  }
}
