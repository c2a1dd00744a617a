/**
  Emulation prevention and start codes, from h264bitstream/h264_nal.c: sections 7.3.1 and
  7.4.1 and Annex B of ITU-T H.264.
*/
module Nal {
  import opened Bits

  // ---------------------------------------------------------------- escaping

  /** Output of the escaper so far, and its count of zero bytes in a row. */
  datatype EscapeState = EscapeState(out: seq<byte>, count: nat)

  /** After two zero bytes, a byte below 4 gets 0x03 put before it. */
  predicate NeedsEscape(e: EscapeState, x: byte)
  {
    e.count == 2 && x & 0xFC == 0
  }

  function EscapeByte(e: EscapeState, x: byte): (e': EscapeState)
  {
    if NeedsEscape(e, x) then EscapeState(e.out + [3] + [x], if x == 0 then 1 else 0)
    else EscapeState(e.out + [x], if x == 0 then e.count + 1 else 0)
  }

  function EscapeAll(s: seq<byte>): (e: EscapeState)
    ensures e.count <= 2
  {
    if s == [] then EscapeState([], 0) else EscapeByte(EscapeAll(s[..|s| - 1]), s[|s| - 1])
  }

  function Escape(s: seq<byte>): (nal: seq<byte>)
  {
    EscapeAll(s).out
  }

  lemma EscapeStep(s: seq<byte>, i: nat)
    requires i < |s|
    ensures EscapeAll(s[..i + 1]) == EscapeByte(EscapeAll(s[..i]), s[i])
  {
    assert s[..i + 1][..i] == s[..i];
  }

  lemma EscapeAppend(s: seq<byte>, x: byte)
    ensures EscapeAll(s + [x]) == EscapeByte(EscapeAll(s), x)
  {
    assert (s + [x])[..|s|] == s;
  }

  lemma {:induction false} EscapePrefix(s: seq<byte>, i: nat)
    requires i <= |s|
    ensures Escape(s[..i]) <= Escape(s)
    decreases |s| - i
  {
    if i < |s| {
      EscapePrefix(s, i + 1);
      EscapeStep(s, i);
    } else {
      assert s[..i] == s;
    }
  }

  /** The zeros that end the output are counted, up to two. */
  predicate CountsZeros(e: EscapeState)
  {
    var n := |e.out|;
    && (e.count >= 1 <==> n >= 1 && e.out[n - 1] == 0)
    && (e.count == 2 <==> n >= 2 && e.out[n - 2] == 0 && e.out[n - 1] == 0)
    && e.count <= 2
  }

  /** Two zero bytes are never followed by 0, 1 or 2. */
  predicate NoStartCode(s: seq<byte>)
  {
    forall i :: 0 <= i < |s| - 2 ==> !(s[i] == 0 && s[i + 1] == 0 && s[i + 2] < 3)
  }

  /** The output imitates no start code; this is what escaping is for. */
  lemma {:induction false} EscapeHasNoStartCode(s: seq<byte>)
    ensures NoStartCode(Escape(s)) && CountsZeros(EscapeAll(s))
    decreases |s|
  {
    if s != [] {
      var n := |s| - 1;
      EscapeHasNoStartCode(s[..n]);
      EscapeByteKeeps(EscapeAll(s[..n]), s[n]);
    }
  }

  lemma EscapeByteKeeps(e: EscapeState, x: byte)
    requires NoStartCode(e.out) && CountsZeros(e)
    ensures NoStartCode(EscapeByte(e, x).out) && CountsZeros(EscapeByte(e, x))
  {
    var e' := EscapeByte(e, x);
    forall i | 0 <= i < |e'.out| - 2
      ensures !(e'.out[i] == 0 && e'.out[i + 1] == 0 && e'.out[i + 2] < 3)
    {
      if i < |e.out| - 2 {
        assert e'.out[i] == e.out[i] && e'.out[i + 1] == e.out[i + 1] && e'.out[i + 2] == e.out[i + 2];
      }
    }
  }

  /** A last byte that is not zero stays the last byte. */
  lemma EscapeLast(s: seq<byte>)
    requires s != []
    ensures Escape(s) != [] && Escape(s)[|Escape(s)| - 1] == s[|s| - 1]
  {
  }

  // ---------------------------------------------------------------- the size of the output

  /** Half of the input, rounded down, bounds what escaping adds. */
  lemma {:induction false} EscapeBound(s: seq<byte>)
    ensures |s| <= |Escape(s)|
    ensures 2 * (|Escape(s)| - |s|) + EscapeAll(s).count <= |s|
    ensures s != [] ==> |Escape(s)| <= |s| + (|s| - 1) / 2
    decreases |s|
  {
    if s != [] {
      EscapeBound(s[..|s| - 1]);
    }
  }

  /** The bound is reached by the all-zero string of every length. */
  lemma {:induction false} EscapeBoundTight(n: nat)
    requires n > 0
    ensures var e := EscapeAll(seq(n, _ => 0));
            |e.out| == n + (n - 1) / 2 && e.count == if n % 2 == 1 then 1 else 2
    decreases n
  {
    var s, t: seq<byte> := seq(n, _ => 0), seq(n - 1, _ => 0);
    assert s == t + [0];
    hide EscapeByte;
    EscapeAppend(t, 0);
    EscapeZero(EscapeAll(t));
    if n > 1 {
      hide EscapeAll;
      EscapeBoundTight(n - 1);
    } else {
      assert t == [];
    }
  }

  /** A zero byte is put alone twice, and then behind a 0x03. */
  lemma EscapeZero(e: EscapeState)
    ensures var e' := EscapeByte(e, 0);
            && |e'.out| == |e.out| + (if e.count == 2 then 2 else 1)
            && e'.count == if e.count == 2 then 1 else e.count + 1
  {
  }

  // ---------------------------------------------------------------- unescaping

  /** How a NAL is taken: the bytes consumed and the RBSP, or a rejection. */
  datatype Unescaped = Accepted(consumed: nat, rbsp: seq<byte>) | Rejected

  /** The unescaper at byte `i`, with its zero count and its output so far. */
  function UnescapeFrom(nal: seq<byte>, i: nat, count: nat, out: seq<byte>): (r: Unescaped)
    requires i <= |nal|
    decreases |nal| - i
  {
    if i == |nal| then Accepted(i, out)
    else if count == 2 && nal[i] < 3 then Rejected
    else if count == 2 && nal[i] == 3 then
      if i == |nal| - 1 then Accepted(i, out)
      else if nal[i + 1] > 3 then Rejected
      else UnescapeFrom(nal, i + 2, if nal[i + 1] == 0 then 1 else 0, out + [nal[i + 1]])
    else UnescapeFrom(nal, i + 1, if nal[i] == 0 then count + 1 else 0, out + [nal[i]])
  }

  function Unescape(nal: seq<byte>): (r: Unescaped)
  {
    UnescapeFrom(nal, 0, 0, [])
  }

  /** The unescaper takes together what the escaper put for one byte. */
  lemma UnescapeByte(nal: seq<byte>, e: EscapeState, x: byte, before: seq<byte>)
    requires e.count <= 2 && EscapeByte(e, x).out <= nal
    ensures |e.out| <= |EscapeByte(e, x).out|
    ensures UnescapeFrom(nal, |e.out|, e.count, before)
         == UnescapeFrom(nal, |EscapeByte(e, x).out|, EscapeByte(e, x).count, before + [x])
  {
    var e' := EscapeByte(e, x);
    assert forall k :: |e.out| <= k < |e'.out| ==> nal[k] == e'.out[k];
    if NeedsEscape(e, x) {
      assert nal[|e.out|] == 3 && nal[|e.out| + 1] == x && x <= 3;
    } else {
      assert nal[|e.out|] == x && (e.count == 2 ==> x > 3);
    }
  }

  /** While reading escaped bytes, the unescaper is where the escaper was. */
  lemma {:induction false} UnescapeFollows(nal: seq<byte>, s: seq<byte>, i: nat)
    requires i <= |s| && Escape(s) <= nal
    ensures Escape(s[..i]) <= Escape(s)
    ensures Unescape(nal) == UnescapeFrom(nal, |Escape(s[..i])|, EscapeAll(s[..i]).count, s[..i])
    decreases i
  {
    EscapePrefix(s, i);
    if i > 0 {
      hide EscapeAll, EscapeByte;
      UnescapeFollows(nal, s, i - 1);
      EscapeStep(s, i - 1);
      UnescapeByte(nal, EscapeAll(s[..i - 1]), s[i - 1], s[..i - 1]);
      assert s[..i] == s[..i - 1] + [s[i - 1]];
    } else {
      assert s[..0] == [];
    }
  }

  /** Unescaping undoes escaping, for every byte string. */
  lemma UnescapeEscape(s: seq<byte>)
    ensures Unescape(Escape(s)) == Accepted(|Escape(s)|, s)
  {
    UnescapeFollows(Escape(s), s, |s|);
    assert s[..|s|] == s;
  }

  predicate EndsInTwoZeros(s: seq<byte>)
  {
    |s| >= 2 && s[|s| - 2] == 0 == s[|s| - 1]
  }

  /** Sections 7.3.1 and 7.4.1: behind two zero bytes, a byte up to 3 is put with a 0x03 before it. */
  lemma EscapeAppends(s: seq<byte>, x: byte)
    ensures Escape([]) == []
    ensures Escape(s + [x]) == Escape(s) + if EndsInTwoZeros(Escape(s)) && x <= 3 then [3, x] else [x]
  {
    EscapeAppend(s, x);
    EscapeHasNoStartCode(s);
    SmallNeedsEscape(x);
    assert Escape(s) + [3] + [x] == Escape(s) + [3, x];
  }

  /** A 0x03 left at the very end is dropped. */
  lemma DroppedAtEnd(s: seq<byte>)
    requires EndsInTwoZeros(Escape(s))
    ensures Unescape(Escape(s) + [3]) == Accepted(|Escape(s)|, s)
  {
    UnescapeFollows(Escape(s) + [3], s, |s|);
    EscapeHasNoStartCode(s);
    assert s[..|s|] == s;
  }

  lemma SmallNeedsEscape(x: byte)
    ensures x & 0xFC == 0 <==> x <= 3
  {
  }

  lemma {:induction false} EscapeFollows(nal: seq<byte>, i: nat, count: nat, out: seq<byte>)
    requires i <= |nal| && EscapeAll(out) == EscapeState(nal[..i], count)
    ensures var r := UnescapeFrom(nal, i, count, out);
            r.Accepted? ==>
              && i <= r.consumed <= |nal| && Escape(r.rbsp) == nal[..r.consumed]
              && (r.consumed == |nal|
                  || (r.consumed == |nal| - 1 && nal[r.consumed] == 3 && EndsInTwoZeros(nal[..r.consumed])))
    decreases |nal| - i
  {
    hide EscapeAll;
    if i < |nal| {
      if count == 2 && nal[i] < 3 {
      } else if count == 2 && nal[i] == 3 {
        if i == |nal| - 1 {
          EscapeHasNoStartCode(out);
        } else if nal[i + 1] <= 3 {
          var x := nal[i + 1];
          EscapeAppend(out, x);
          SmallNeedsEscape(x);
          assert nal[..i + 2] == nal[..i] + [3] + [x];
          EscapeFollows(nal, i + 2, if x == 0 then 1 else 0, out + [x]);
        }
      } else {
        var x := nal[i];
        EscapeAppend(out, x);
        SmallNeedsEscape(x);
        assert nal[..i + 1] == nal[..i] + [x];
        EscapeFollows(nal, i + 1, if x == 0 then count + 1 else 0, out + [x]);
      }
    }
  }

  /**
    Whatever NAL is accepted, escaping its RBSP gives back the bytes reported as consumed:
    all of them, or all but a dropped trailing 0x03.
  */
  lemma EscapeUnescape(nal: seq<byte>)
    ensures var r := Unescape(nal);
            r.Accepted? ==>
              && r.consumed <= |nal| && Escape(r.rbsp) == nal[..r.consumed]
              && (r.consumed == |nal|
                  || (r.consumed == |nal| - 1 && nal[r.consumed] == 3 && EndsInTwoZeros(nal[..r.consumed])))
  {
    EscapeFollows(nal, 0, 0, []);
  }

  /** The NALs accepted are the escaped strings, and those that end in two zero bytes with a 0x03 behind. */
  lemma UnescapeAcceptsExactly(nal: seq<byte>, s: seq<byte>)
    ensures Unescape(nal) == Accepted(|Escape(s)|, s) <==>
              nal == Escape(s) || (EndsInTwoZeros(Escape(s)) && nal == Escape(s) + [3])
  {
    hide Escape;
    if nal == Escape(s) {
      UnescapeEscape(s);
    } else if EndsInTwoZeros(Escape(s)) && nal == Escape(s) + [3] {
      DroppedAtEnd(s);
    } else if Unescape(nal) == Accepted(|Escape(s)|, s) {
      EscapeUnescape(nal);
    }
  }

  /** The RBSP is no longer than the NAL, so a buffer of the NAL's size always holds it. */
  lemma UnescapeFits(nal: seq<byte>)
    ensures var r := Unescape(nal); r.Accepted? ==> |r.rbsp| <= r.consumed <= |nal|
  {
    EscapeUnescape(nal);
    var r := Unescape(nal);
    if r.Accepted? {
      EscapeBound(r.rbsp);
    }
  }

  // ---------------------------------------------------------------- start codes

  /** 00 00 01 at `i`. */
  predicate StartCodeAt(s: seq<byte>, i: nat)
  {
    i + 2 < |s| && s[i] == 0 && s[i + 1] == 0 && s[i + 2] == 1
  }

  /** 00 00 00 or 00 00 01 at `i`: where a NAL unit ends. */
  predicate EndCodeAt(s: seq<byte>, i: nat)
  {
    i + 2 < |s| && s[i] == 0 && s[i + 1] == 0 && s[i + 2] <= 1
  }

  /** `start..end` is the first NAL unit of a byte stream. */
  predicate NalSpan(s: seq<byte>, start: nat, end: nat)
  {
    && 3 <= start <= end <= |s|
    && StartCodeAt(s, start - 3)
    && (forall k :: 0 <= k < start - 3 ==> !StartCodeAt(s, k))
    && (forall k :: start <= k < end ==> !EndCodeAt(s, k))
    && (end == |s| || EndCodeAt(s, end))
  }

  /** A byte stream has at most one first NAL unit. */
  lemma NalSpanUnique(s: seq<byte>, start: nat, end: nat, start': nat, end': nat)
    requires NalSpan(s, start, end) && NalSpan(s, start', end')
    ensures start == start' && end == end'
  {
    assert StartCodeAt(s, start - 3) && StartCodeAt(s, start' - 3);
    assert start == start';
    assert end < |s| ==> EndCodeAt(s, end);
    assert end' < |s| ==> EndCodeAt(s, end');
  }

  /** What may follow a NAL unit in a byte stream. */
  predicate FollowsNal(suffix: seq<byte>)
  {
    suffix == [] || [0, 0, 1] <= suffix || [0, 0, 0, 1] <= suffix
  }

  /**
    Framing is unambiguous: an escaped RBSP that ends in a non-zero byte, behind the first
    start code and before the next one or the end of the stream, is exactly the first NAL.
  */
  lemma FramingUnambiguous(prefix: seq<byte>, rbsp: seq<byte>, suffix: seq<byte>)
    requires rbsp != [] && rbsp[|rbsp| - 1] != 0 && FollowsNal(suffix)
    requires forall k :: 0 <= k < |prefix| ==> !StartCodeAt(prefix + [0, 0, 1], k)
    ensures var start := |prefix| + 3;
            NalSpan(prefix + [0, 0, 1] + Escape(rbsp) + suffix, start, start + |Escape(rbsp)|)
  {
    EscapeHasNoStartCode(rbsp);
    EscapeLast(rbsp);
    hide Escape;
    FramedSpan(prefix, Escape(rbsp), suffix);
  }

  lemma FramedSpan(prefix: seq<byte>, nal: seq<byte>, suffix: seq<byte>)
    requires nal != [] && nal[|nal| - 1] != 0 && NoStartCode(nal) && FollowsNal(suffix)
    requires forall k :: 0 <= k < |prefix| ==> !StartCodeAt(prefix + [0, 0, 1], k)
    ensures NalSpan(prefix + [0, 0, 1] + nal + suffix, |prefix| + 3, |prefix| + 3 + |nal|)
  {
    var head := prefix + [0, 0, 1];
    var s := head + nal + suffix;
    forall k | 0 <= k < |prefix|
      ensures !StartCodeAt(s, k)
    {
      assert !StartCodeAt(head, k);
      assert s[k] == head[k] && s[k + 1] == head[k + 1] && s[k + 2] == head[k + 2];
    }
    FramedEnd(head, nal, suffix);
  }

  lemma FramedEnd(head: seq<byte>, nal: seq<byte>, suffix: seq<byte>)
    requires nal != [] && nal[|nal| - 1] != 0 && NoStartCode(nal) && FollowsNal(suffix)
    ensures var s, start, end := head + nal + suffix, |head|, |head| + |nal|;
            && (forall k :: start <= k < end ==> !EndCodeAt(s, k))
            && (end == |s| || EndCodeAt(s, end))
  {
    var s, start, end := head + nal + suffix, |head|, |head| + |nal|;
    forall k | start <= k < end
      ensures !EndCodeAt(s, k)
    {
      assert s[end - 1] == nal[|nal| - 1];
      if k + 2 < end {
        var i := k - start;
        assert s[k] == nal[i] && s[k + 1] == nal[i + 1] && s[k + 2] == nal[i + 2];
      }
    }
    if suffix != [] {
      assert s[end] == suffix[0] && s[end + 1] == suffix[1] && s[end + 2] == suffix[2];
    }
  }

  // ---------------------------------------------------------------- the code

  /**
    Where the escaper is: bytes before `i` are put as `out`, and `marked` tells whether the
    0x03 for byte `i` is put already.
  */
  predicate Escaping(rbsp: seq<byte>, i: nat, count: int, marked: bool, out: seq<byte>)
  {
    && i <= |rbsp|
    && var e := EscapeAll(rbsp[..i]);
       if marked then i < |rbsp| && count == 0 && NeedsEscape(e, rbsp[i]) && out == e.out + [3]
       else count == e.count && out == e.out
  }

  lemma EscapingStarts(rbsp: seq<byte>)
    ensures Escaping(rbsp, 0, 0, false, [])
  {
    assert rbsp[..0] == [];
  }

  lemma EscapingMarks(rbsp: seq<byte>, i: nat, count: int, marked: bool, out: seq<byte>)
    requires Escaping(rbsp, i, count, marked, out) && i < |rbsp| && count == 2 && rbsp[i] & 0xFC == 0
    ensures !marked && Escaping(rbsp, i, 0, true, out + [3])
  {
    hide EscapeAll;
  }

  lemma EscapingTakes(rbsp: seq<byte>, i: nat, count: int, marked: bool, out: seq<byte>)
    requires Escaping(rbsp, i, count, marked, out) && i < |rbsp| && !(count == 2 && rbsp[i] & 0xFC == 0)
    ensures Escaping(rbsp, i + 1, if rbsp[i] == 0 then count + 1 else 0, false, out + [rbsp[i]])
  {
    hide EscapeAll;
    EscapeStep(rbsp, i);
  }

  /** With bytes left, more is to come than was put. */
  lemma EscapingLeft(rbsp: seq<byte>, i: nat, count: int, marked: bool, out: seq<byte>)
    requires Escaping(rbsp, i, count, marked, out) && i < |rbsp|
    ensures |out| < |Escape(rbsp)|
  {
    EscapePrefix(rbsp, i + 1);
    hide EscapeAll;
    EscapeStep(rbsp, i);
  }

  lemma EscapingEnds(rbsp: seq<byte>, count: int, marked: bool, out: seq<byte>)
    requires Escaping(rbsp, |rbsp|, count, marked, out)
    ensures out == Escape(rbsp)
  {
    assert rbsp[..|rbsp|] == rbsp;
  }

  /**
    rbsp_to_nal into the `nalSize` bytes from `start` on. The output gets a zero byte in front.
    Running out of room is reported only while bytes are left to put: an empty RBSP is
    accepted whatever the capacity.
  */
  method RbspToNal(rbspBuf: array<byte>, rbspSize: nat, nalBuf: array<byte>, start: nat, nalSize: nat)
    returns (rc: int, nalSize': nat)
    requires rbspSize <= rbspBuf.Length && start + nalSize <= nalBuf.Length && rbspBuf != nalBuf
    modifies nalBuf
    ensures var nal := Escape(rbspBuf[..rbspSize]);
            if rbspSize == 0 || 1 + |nal| <= nalSize then
              && rc == nalSize' == 1 + |nal|
              && (nalSize > 0 ==> nalBuf[start..start + rc] == [0] + nal)
            else
              rc == -1 && nalSize' == nalSize
    ensures forall k :: 0 <= k < nalBuf.Length && !(start <= k < start + nalSize) ==> nalBuf[k] == old(nalBuf[k])
  {
    hide Escape, Escaping;
    var i, j, count := 0, 1, 0;
    if nalSize > 0 {
      nalBuf[start] := 0x00;
    }
    ghost var rbsp := rbspBuf[..rbspSize];
    ghost var marked, out := false, [];
    EscapingStarts(rbsp);
    while i < rbspSize
      invariant 0 <= i <= rbspSize && Escaping(rbsp, i, count, marked, out)
      invariant j == 1 + |out|
      invariant nalSize == 0 ==> i == 0 && !marked
      invariant nalSize > 0 ==> j <= nalSize && nalBuf[start..start + j] == [0] + out
      invariant forall k :: 0 <= k < nalBuf.Length && !(start <= k < start + nalSize) ==> nalBuf[k] == old(nalBuf[k])
      decreases rbspSize - i, !marked
    {
      EscapingLeft(rbsp, i, count, marked, out);
      if j >= nalSize {
        return -1, nalSize;
      }
      if count == 2 && rbspBuf[i] & 0xFC == 0 {
        EscapingMarks(rbsp, i, count, marked, out);
        nalBuf[start + j] := 0x03;
        out := out + [3];
        j := j + 1;
        count := 0;
        marked := true;
        continue;
      }
      EscapingTakes(rbsp, i, count, marked, out);
      nalBuf[start + j] := rbspBuf[i];
      out := out + [rbsp[i]];
      if rbspBuf[i] == 0x00 {
        count := count + 1;
      } else {
        count := 0;
      }
      marked := false;
      i := i + 1;
      j := j + 1;
    }
    EscapingEnds(rbsp, count, marked, out);
    rc, nalSize' := j, j;
  }

  /** nal_to_rbsp on the `nalSize` bytes from `start` on. */
  method NalToRbsp(nalBuf: array<byte>, start: nat, nalSize: nat, rbspBuf: array<byte>, rbspSize: nat)
    returns (rc: int, nalSize': nat, rbspSize': nat)
    requires start + nalSize <= nalBuf.Length && rbspSize <= rbspBuf.Length && nalBuf != rbspBuf
    modifies rbspBuf
    ensures var r := Unescape(nalBuf[start..start + nalSize]);
            if r.Accepted? && |r.rbsp| <= rbspSize then
              && rc == rbspSize' == |r.rbsp| && nalSize' == r.consumed
              && rbspBuf[..rc] == r.rbsp
            else
              rc == -1 && nalSize' == nalSize && rbspSize' == rbspSize
    ensures rbspBuf[rbspSize..] == old(rbspBuf[rbspSize..])
  {
    var i, j, count := 0, 0, 0;
    ghost var nal := nalBuf[start..start + nalSize];
    while i < nalSize
      invariant 0 <= i <= nalSize && 0 <= j <= rbspSize && 0 <= count
      invariant nalBuf[start..start + nalSize] == nal
      invariant Unescape(nal) == UnescapeFrom(nal, i, count, rbspBuf[..j])
      invariant rbspBuf[rbspSize..] == old(rbspBuf[rbspSize..])
    {
      UnescapeGrows(nal, i, count, rbspBuf[..j]);
      if count == 2 && nalBuf[start + i] < 0x03 {
        return -1, nalSize, rbspSize;
      }
      if count == 2 && nalBuf[start + i] == 0x03 {
        if i < nalSize - 1 && nalBuf[start + i + 1] > 0x03 {
          return -1, nalSize, rbspSize;
        }
        if i == nalSize - 1 {
          break;
        }
        i := i + 1;
        count := 0;
      }
      if j >= rbspSize {
        return -1, nalSize, rbspSize;
      }
      ghost var before := rbspBuf[..j];
      rbspBuf[j] := nalBuf[start + i];
      assert rbspBuf[..j + 1] == before + [nal[i]];
      if nalBuf[start + i] == 0x00 {
        count := count + 1;
      } else {
        count := 0;
      }
      j := j + 1;
      i := i + 1;
    }
    rc, nalSize', rbspSize' := j, i, j;
  }

  /** Output is only added to, and at least one byte when bytes are left to take. */
  lemma {:induction false} UnescapeGrows(nal: seq<byte>, i: nat, count: nat, out: seq<byte>)
    requires i <= |nal|
    ensures var r := UnescapeFrom(nal, i, count, out);
            r.Accepted? ==>
              && |out| <= |r.rbsp|
              && (i < |nal| && !(count == 2 && nal[i] == 3 && i == |nal| - 1) ==> |out| < |r.rbsp|)
    decreases |nal| - i
  {
    if i < |nal| && !(count == 2 && nal[i] < 3) {
      if count == 2 && nal[i] == 3 {
        if i < |nal| - 1 && nal[i + 1] <= 3 {
          UnescapeGrows(nal, i + 2, if nal[i + 1] == 0 then 1 else 0, out + [nal[i + 1]]);
        }
      } else {
        UnescapeGrows(nal, i + 1, if nal[i] == 0 then count + 1 else 0, out + [nal[i]]);
      }
    }
  }

  /** find_nal_unit: the first NAL unit of a byte stream, or an empty span at 0. */
  method FindNalUnit(buf: array<byte>, size: nat) returns (rc: nat, nalStart: nat, nalEnd: nat)
    requires size <= buf.Length
    ensures rc == nalEnd - nalStart
    ensures if exists k :: 0 <= k < size && StartCodeAt(buf[..size], k)
            then NalSpan(buf[..size], nalStart, nalEnd)
            else nalStart == nalEnd == 0
  {
    ghost var s := buf[..size];
    rc, nalStart, nalEnd := 0, 0, 0;
    var i := 0;
    while i + 2 < size && (buf[i] != 0 || buf[i + 1] != 0 || buf[i + 2] != 0x01)
          && (i + 3 >= size || buf[i] != 0 || buf[i + 1] != 0 || buf[i + 2] != 0 || buf[i + 3] != 0x01)
      invariant forall k :: 0 <= k < i ==> !StartCodeAt(s, k)
    {
      i := i + 1;
    }
    if i + 2 >= size {
      return;
    }
    if buf[i] != 0 || buf[i + 1] != 0 || buf[i + 2] != 0x01 {
      i := i + 1;
    }
    if i + 2 >= size || buf[i] != 0 || buf[i + 1] != 0 || buf[i + 2] != 0x01 {
      return;
    }
    assert StartCodeAt(s, i);
    i := i + 3;
    nalStart := i;
    while i + 2 < size && (buf[i] != 0 || buf[i + 1] != 0 || buf[i + 2] != 0)
          && (buf[i] != 0 || buf[i + 1] != 0 || buf[i + 2] != 0x01)
      invariant nalStart <= i <= size
      invariant forall k :: nalStart <= k < i ==> !EndCodeAt(s, k)
    {
      i := i + 1;
    }
    if i + 2 >= size {
      nalEnd := size;
      return nalEnd - nalStart, nalStart, nalEnd;
    }
    nalEnd := i;
    rc := nalEnd - nalStart;
  }
}
