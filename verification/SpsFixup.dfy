/**
  The parameter set rewrite of `writeBuffer` in app/streaming/video/ffmpeg.cpp: find the NAL
  unit, read it, change two fields, write it back over the last byte of its start code, and
  restore the start code.
*/
module SpsFixup {
  import opened Bits
  import opened BitCodes
  import opened SpsSyntax
  import opened SpsSize
  import opened SpsCodec
  import opened Nal
  import opened NalUnit

  const MAX_SPS_EXTRA_SIZE := 16

  /** The parameter set the decoder is given: one reference frame, one buffered frame. */
  function Fixed(s: Sps): (s': Sps)
  {
    s.(frame := s.frame.(numRefFrames := 1),
    vui := s.vui.(restriction := s.vui.restriction.(maxDecFrameBuffering := 1)))
  }

  /** The new values are in range, so the change does not hurt coding. */
  lemma FixedInRange(s: Sps)
    requires s.InRange()
    ensures Fixed(s).InRange()
  {
    hide HighPart.InRange, PicOrder.InRange, Header.InRange, HighPart.Writable, PicOrder.Writable, Header.Writable;
    hide Hrd.InRange, Hrd.Writable, VuiVideo.InRange, VuiTiming.InRange, VuiTiming.Writable;
  }

  /** A 3- or 4-byte start code. */
  predicate StartCode(s: seq<byte>)
  {
    s == [0, 0, 1] || s == [0, 0, 0, 1]
  }

  lemma StartCodeFrames(startCode: seq<byte>, rbsp: seq<byte>)
    requires StartCode(startCode) && rbsp != [] && rbsp[|rbsp| - 1] != 0
    ensures var s := startCode + Escape(rbsp); NalSpan(s, |startCode|, |s|)
  {
    var prefix := startCode[..|startCode| - 3];
    assert prefix + [0, 0, 1] == startCode;
    FramingUnambiguous(prefix, rbsp, []);
    assert startCode + Escape(rbsp) + [] == startCode + Escape(rbsp);
  }

  /** What writeBuffer makes of the NAL unit it found: the structures it writes back. */
  function Rewritten(nal: seq<byte>): (r: (NalHeader, Sps))
  {
    var r := ReadNal(nal, NalHeader(0, 0), ZeroSps());
    (r.nal, Fixed(r.sps))
  }

  /**
    writeBuffer for a parameter set. `entry` is one NAL unit behind a 3- or 4-byte start code,
    as the asserts of the code demand, and `decodeBuffer` has the extra room the caller
    reserves. The result is the same start code in front of the changed parameter set; when
    that does not fit or the unit is of another type, the offset still moves, by two less than
    the start code.
  */
  method WriteBuffer(entry: array<byte>, decodeBuffer: array<byte>, offset: nat, ghost start: nat)
    returns (offset': nat)
    requires entry != decodeBuffer
    requires 3 <= start <= 4 && NalSpan(entry[..], start, entry.Length)
    requires offset + entry.Length + MAX_SPS_EXTRA_SIZE <= decodeBuffer.Length
    requires var (h, s) := Rewritten(entry[start..]);
             h.nalUnitType == NAL_UNIT_TYPE_SPS ==> s.Writable()
    modifies decodeBuffer
    ensures var (h, s) := Rewritten(entry[start..]);
            if h.nalUnitType == NAL_UNIT_TYPE_SPS
               && WriteSucceeds(h, s, MAX_SPS_EXTRA_SIZE + entry.Length - start) then
              && offset' == offset + start + |EncodedNal(h, s)| <= decodeBuffer.Length
              && decodeBuffer[offset..offset'] == entry[..start] + EncodedNal(h, s)
            else
              offset' == offset + start - 2
    ensures decodeBuffer[..offset] == old(decodeBuffer[..offset])
  {
    hide EncodedNal, Sps.Writable, H264Stream.SpsValue, NalSpan, ReadNal, Fixed, ZeroSps;
    var stream := new H264Stream();
    var rc, nalStart, nalEnd := FindNalUnit(entry, entry.Length);
    assert entry[..entry.Length] == entry[..];
    FoundSpan(entry[..], start, nalStart, nalEnd);
    assert entry[nalStart..nalEnd] == entry[start..];
    rc := ReadNalUnit(stream, entry, nalStart, nalEnd - nalStart);
    ApplyFixup(stream);
    hide NalUnit.WriteSucceeds;
    offset' := WriteBack(stream, entry, decodeBuffer, offset, nalStart);
  }

  /** The second half of writeBuffer: write over the last start code byte, then restore it. */
  method WriteBack(stream: H264Stream, entry: array<byte>, decodeBuffer: array<byte>, initialOffset: nat, nalStart: nat)
    returns (offset': nat)
    requires entry != decodeBuffer && 3 <= nalStart <= entry.Length
    requires initialOffset + entry.Length + MAX_SPS_EXTRA_SIZE <= decodeBuffer.Length
    requires stream.nal.nalUnitType == NAL_UNIT_TYPE_SPS ==> stream.SpsValue().Writable()
    modifies decodeBuffer
    ensures if stream.nal.nalUnitType == NAL_UNIT_TYPE_SPS
               && WriteSucceeds(stream.nal, stream.SpsValue(), MAX_SPS_EXTRA_SIZE + entry.Length - nalStart) then
              var nal := EncodedNal(stream.nal, stream.SpsValue());
              && offset' == initialOffset + nalStart + |nal| <= decodeBuffer.Length
              && decodeBuffer[initialOffset..offset'] == entry[..nalStart] + nal
            else
              offset' == initialOffset + nalStart - 2
    ensures decodeBuffer[..initialOffset] == old(decodeBuffer[..initialOffset])
  {
    hide EncodedNal, Sps.Writable, H264Stream.SpsValue;
    var written := WriteNalUnit(stream, decodeBuffer, initialOffset + nalStart - 1,
                                MAX_SPS_EXTRA_SIZE + entry.Length - nalStart);
    assert decodeBuffer[..initialOffset] == old(decodeBuffer[..initialOffset]);
    ghost var stored := decodeBuffer[..];
    CopyPrefix(entry, decodeBuffer, initialOffset, nalStart);
    offset' := initialOffset + (written - 1) + nalStart;
    if written >= 0 {
      ghost var nal, m := EncodedNal(stream.nal, stream.SpsValue()), initialOffset + nalStart;
      assert stored[m - 1..m - 1 + written] == [0] + nal;
      assert stored[m..] == decodeBuffer[..][m..];
      Spliced(stored, decodeBuffer[..], initialOffset, entry[..nalStart], nal);
      assert decodeBuffer[..][initialOffset..offset'] == decodeBuffer[initialOffset..offset'];
    }
  }

  /** The start code over the leading zero, then the bytes behind it. */
  lemma Spliced(stored: seq<byte>, final: seq<byte>, offset: nat, prefix: seq<byte>, nal: seq<byte>)
    requires |final| == |stored| && prefix != [] && offset + |prefix| + |nal| <= |stored|
    requires stored[offset + |prefix| - 1..offset + |prefix| + |nal|] == [0] + nal
    requires final[offset..offset + |prefix|] == prefix
    requires final[offset + |prefix|..] == stored[offset + |prefix|..]
    ensures final[offset..offset + |prefix| + |nal|] == prefix + nal
  {
    var m := offset + |prefix|;
    assert final[m..][..|nal|] == final[m..m + |nal|];
    assert stored[m..][..|nal|] == stored[m..m + |nal|];
    assert stored[m..m + |nal|] == stored[m - 1..m + |nal|][1..] == nal;
    assert final[offset..m + |nal|] == final[offset..m] + final[m..m + |nal|];
  }

  /** The memcpy that restores the start code over the zero byte the writer put there. */
  method CopyPrefix(entry: array<byte>, decodeBuffer: array<byte>, offset: nat, n: nat)
    requires entry != decodeBuffer && n <= entry.Length && offset + n <= decodeBuffer.Length
    modifies decodeBuffer
    ensures decodeBuffer[offset..offset + n] == entry[..n]
    ensures decodeBuffer[..offset] == old(decodeBuffer[..offset])
    ensures decodeBuffer[offset + n..] == old(decodeBuffer[offset + n..])
  {
    for i := 0 to n
      invariant decodeBuffer[offset..offset + i] == entry[..i]
      invariant decodeBuffer[..offset] == old(decodeBuffer[..offset])
      invariant decodeBuffer[offset + n..] == old(decodeBuffer[offset + n..])
    {
      decodeBuffer[offset + i] := entry[i];
    }
  }

  method ApplyFixup(stream: H264Stream)
    modifies stream
    ensures stream.nal == old(stream.nal) && stream.SpsValue() == Fixed(old(stream.SpsValue()))
  {
    stream.frame := stream.frame.(numRefFrames := 1);
    stream.vui := stream.vui.(restriction := stream.vui.restriction.(maxDecFrameBuffering := 1));
  }

  lemma FoundSpan(s: seq<byte>, start: nat, nalStart: nat, nalEnd: nat)
    requires NalSpan(s, start, |s|)
    requires if exists k :: 0 <= k < |s| && StartCodeAt(s, k)
             then NalSpan(s, nalStart, nalEnd)
             else nalStart == nalEnd == 0
    ensures nalStart == start && nalEnd == |s|
  {
    assert StartCodeAt(s, start - 3);
    NalSpanUnique(s, start, |s|, nalStart, nalEnd);
  }

  /** The bytes of a buffer that holds one parameter set behind a start code. */
  function SpsBuffer(startCode: seq<byte>, h: NalHeader, s: Sps): (bytes: seq<byte>)
    requires s.Writable()
  {
    startCode + EncodedNal(h, s)
  }

  /** Such a buffer is one NAL unit, from the start code to its end. */
  lemma SpsBufferIsOneNal(startCode: seq<byte>, h: NalHeader, s: Sps)
    requires StartCode(startCode) && s.Writable()
    ensures var bytes := SpsBuffer(startCode, h, s);
            NalSpan(bytes, |startCode|, |bytes|) && bytes[|startCode|..] == EncodedNal(h, s)
  {
    hide Escape, Rbsp, NalSpan, Sps.Writable;
    RbspEndsInStopBit(h, s);
    StartCodeFrames(startCode, Rbsp(h, s));
  }

  /**
    The rewrite of a buffer with a parameter set in range is the buffer with the changed set,
    and that reads back as the changed set in canonical form.
  */
  lemma FixupMeaning(startCode: seq<byte>, h: NalHeader, s: Sps, oldNal: NalHeader, oldSps: Sps)
    requires StartCode(startCode) && s.InRange()
    requires BitsDomain(2, h.nalRefIdc) && h.nalUnitType == NAL_UNIT_TYPE_SPS
    ensures var s' := Fixed(s.Canonical());
            && s'.InRange()
            && Rewritten(SpsBuffer(startCode, h, s)[|startCode|..]) == (h, s')
            && ReadNal(EncodedNal(h, s'), oldNal, oldSps)
               == ReadResult(|EncodedNal(h, s')|, h, s'.Canonical())
  {
    hide EncodedNal, Sps.InRange, Sps.Writable, Sps.Canonical, Fixed, ReadNal;
    assert s.Writable() by {
      InRangeWritable(s);
    }
    SpsBufferIsOneNal(startCode, h, s);
    NalRoundTrip(h, s, NalHeader(0, 0), ZeroSps());
    CanonicalIdempotent(s);
    FixedInRange(s.Canonical());
    NalRoundTrip(h, Fixed(s.Canonical()), oldNal, oldSps);
  }

  lemma InRangeWritable(s: Sps)
    requires s.InRange()
    ensures s.Writable()
  {
  }

  /**
    What the decoder sees after the change: one reference frame always, one buffered frame
    exactly when the set carried a bitstream restriction, and no other difference.
  */
  lemma FixupEffect(s: Sps)
    requires s.InRange()
    ensures var c := s.Canonical(); var r := Fixed(c).Canonical();
            && r.frame.numRefFrames == 1
            && (r.vui.restriction.maxDecFrameBuffering == 1 <==>
                  c.vuiParametersPresentFlag != 0 && c.vui.restriction.bitstreamRestrictionFlag != 0)
            && r.(frame := r.frame.(numRefFrames := c.frame.numRefFrames),
                  vui := r.vui.(restriction := r.vui.restriction.(
                    maxDecFrameBuffering := c.vui.restriction.maxDecFrameBuffering))) == c
  {
    CanonicalIdempotent(s);
    FixedInRange(s.Canonical());
    hide HighPart.Canonical, PicOrder.Canonical, VuiVideo.Canonical, VuiTiming.Canonical, Hrd.Canonical;
    hide HighPart.InRange, PicOrder.InRange, Header.InRange, Frame.InRange, Vui.InRange;
    hide HighPart.Writable, PicOrder.Writable, Header.Writable, Frame.Writable;
    hide NoHighPart, NoHrd, BitsDomain;
  }

  /** The payload of the rewritten set is at most one byte longer. */
  lemma FixedPayload(h: NalHeader, s: Sps)
    requires s.InRange()
    ensures s.Writable() && Fixed(s.Canonical()).Writable()
    ensures |Rbsp(h, Fixed(s.Canonical()))| <= |Rbsp(h, s)| + 1
  {
    hide Sps.InRange, Sps.Writable, Sps.Canonical, Sps.Put, PutNalHeader;
    InRangeWritable(s);
    CanonicalIdempotent(s);
    InRangeWritable(s.Canonical());
    FixedInRange(s.Canonical());
    InRangeWritable(Fixed(s.Canonical()));
    PutCanonical(PutNalHeader(h), s);
    FixedBits(PutNalHeader(h), s.Canonical(), Fixed(s.Canonical()));
    PayloadBytes(h, s);
    PayloadBytes(h, Fixed(s.Canonical()));
  }

  lemma PayloadBytes(h: NalHeader, s: Sps)
    requires s.Writable()
    ensures |Rbsp(h, s)| == |s.Put(PutNalHeader(h))| / 8 + 1
  {
    hide Sps.Put, PutNalHeader, Sps.Writable, Pack;
    var bits := PutTrailing(s.Put(PutNalHeader(h)));
    assert BitsOf(Rbsp(h, s)) == bits;
  }

  /** A size to check before the rewrite: up to 29 bytes of payload, the spare bytes are enough. */
  lemma ShortSetsFit(h: NalHeader, s: Sps)
    requires s.InRange() && |Rbsp(h, s)| <= 29
    ensures s.Writable() && Fixed(s.Canonical()).Writable()
    ensures WriteSucceeds(h, Fixed(s.Canonical()), MAX_SPS_EXTRA_SIZE + |EncodedNal(h, s)|)
  {
    hide Sps.InRange, Sps.Writable, Sps.Canonical, Rbsp, Fixed;
    FixedPayload(h, s);
    EscapeBound(Rbsp(h, s));
    EscapeBound(Rbsp(h, Fixed(s.Canonical())));
  }
}
