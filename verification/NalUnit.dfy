/**
  `write_nal_unit` and `read_nal_unit` of h264bitstream/h264_stream.c: the parameter set
  through all layers, bits, trailing bits, bytes and emulation prevention, and back.
*/
module NalUnit {
  import opened Bits
  import opened BitCodes
  import opened BitStreams
  import opened SpsSyntax
  import opened SpsCodec
  import opened Nal

  // ---------------------------------------------------------------- the encoded unit

  /** The NAL header byte: forbidden bit, reference indication, type. */
  function PutNalHeader(h: NalHeader): (t: seq<bool>)
  {
    var t := PutBitsIf(true, [], 1, 0);
    var t := PutBitsIf(true, t, 2, h.nalRefIdc);
    PutBitsIf(true, t, 5, h.nalUnitType)
  }

  lemma NalHeaderLength(h: NalHeader)
    ensures |PutNalHeader(h)| == 8
  {
  }

  /** The raw byte sequence payload of a parameter set, header byte included. */
  function Rbsp(h: NalHeader, s: Sps): (rbsp: seq<byte>)
    requires s.Writable()
  {
    Pack(PutTrailing(s.Put(PutNalHeader(h))))
  }

  /** The bytes `write_nal_unit` stores behind the leading zero. */
  function EncodedNal(h: NalHeader, s: Sps): (nal: seq<byte>)
    requires s.Writable()
  {
    Escape(Rbsp(h, s))
  }

  predicate WriteSucceeds(h: NalHeader, s: Sps, size: nat)
    requires s.Writable()
  {
    1 + |EncodedNal(h, s)| <= size
  }

  /** The stop bit makes the last byte non-zero. */
  lemma RbspEndsInStopBit(h: NalHeader, s: Sps)
    requires s.Writable()
    ensures Rbsp(h, s) != [] && Rbsp(h, s)[|Rbsp(h, s)| - 1] != 0
  {
    hide Sps.Put, PutNalHeader, Sps.Writable, Pack;
    LastByteOfTrailing(s.Put(PutNalHeader(h)), Rbsp(h, s));
  }

  lemma LastByteOfTrailing(t: seq<bool>, rbsp: seq<byte>)
    requires BitsOf(rbsp) == PutTrailing(t)
    ensures rbsp != [] && rbsp[|rbsp| - 1] != 0
  {
    hide PutTrailing;
    var n := |t|;
    assert n / 8 == |rbsp| - 1;
    assert BitsOf(rbsp)[n];
    assert TestBit(rbsp[n / 8], 7 - n % 8);
    if rbsp[n / 8] == 0 {
      NoBitInZero(7 - n % 8);
      assert false;
    }
  }

  lemma NoBitInZero(k: nat)
    requires k < 8
    ensures !TestBit(0, k)
  {
    match k { case 0 => case 1 => case 2 => case 3 => case 4 => case 5 => case 6 => case _ => }
  }

  // ---------------------------------------------------------------- reading back

  /** What `read_nal_unit` leaves behind: its return value and the two structures. */
  datatype ReadResult = ReadResult(rc: int, nal: NalHeader, sps: Sps)

  function NalHeaderOf(bits: seq<bool>): (h: NalHeader)
  {
    NalHeader(IntAt(bits, 1, 2), IntAt(bits, 3, 5))
  }

  /** Reading the bits of a payload; `rc` is what to return when all goes well. */
  function ReadPayload(bits: seq<bool>, rc: nat, oldNal: NalHeader, oldSps: Sps): (r: ReadResult)
  {
    hide ReadSps, IntAt;
    var h := NalHeaderOf(bits);
    if h.nalUnitType != NAL_UNIT_TYPE_SPS then ReadResult(-1, h, oldSps)
    else
      var sps := ReadSps(bits, 8);
      // The cursor behind the trailing bits must not be past the last byte.
      ReadResult(if sps.pos / 8 + 1 > |bits| / 8 then -1 else rc, h, sps.val)
  }

  /** `read_nal_unit` on the bytes of a NAL, given what the structures held before. */
  function ReadNal(nal: seq<byte>, oldNal: NalHeader, oldSps: Sps): (r: ReadResult)
  {
    var u := Unescape(nal);
    if u.Rejected? then ReadResult(-1, oldNal, oldSps)
    else ReadPayload(BitsOf(u.rbsp), u.consumed, oldNal, oldSps)
  }

  lemma NalHeaderLaw(h: NalHeader, bits: seq<bool>)
    requires BitsDomain(2, h.nalRefIdc) && BitsDomain(5, h.nalUnitType)
    requires PutNalHeader(h) <= bits
    ensures NalHeaderOf(bits) == h && BitAt(bits, 0) == 0
  {
    var t1 := PutBits([], 1, 0);
    var t3 := PutBits(t1, 2, h.nalRefIdc);
    IntLaw(t3, 5, h.nalUnitType, bits);
    IntLaw(t1, 2, h.nalRefIdc, bits);
    PutOneBit([], 0);
    assert t1 == [false];
  }

  /**
    The first byte of a payload is a zero bit, the two bits of nal_ref_idc and the five of
    nal_unit_type, and a payload of any type but 7 is refused.
  */
  lemma HeaderByte(rbsp: seq<byte>, rc: nat, oldNal: NalHeader, oldSps: Sps)
    requires rbsp != []
    ensures var r := ReadPayload(BitsOf(rbsp), rc, oldNal, oldSps);
            && r.nal == NalHeader(rbsp[0] as int / 32 % 4, rbsp[0] as int % 32)
            && (rbsp[0] as int % 32 == 7 ==> r.sps == ReadSps(BitsOf(rbsp), 8).val)
            && (rbsp[0] as int % 32 != 7 ==> r.rc == -1 && r.sps == oldSps)
  {
    hide ReadSps, IntAt, TestBit;
    FirstByte(rbsp);
  }

  lemma FirstByte(s: seq<byte>)
    requires s != []
    ensures BitAt(BitsOf(s), 0) == s[0] as int / 128
    ensures IntAt(BitsOf(s), 1, 2) == s[0] as int / 32 % 4
    ensures IntAt(BitsOf(s), 3, 5) == s[0] as int % 32
  {
    hide TestBit, UAt, IntAt, BitAt;
    var b := BitsOf(s);
    ByteValue(s[0]);
    assert forall k :: 0 <= k < 8 ==> BitAt(b, k) == BitValue(TestBit(s[0], 7 - k)) by {
      FirstBits(s);
    }
    TwoBits(b, 1);
    FiveBits(b, 3);
    ByteParts(s[0] as int, BitAt(b, 0), UAt(b, 1, 2), UAt(b, 3, 5));
    SmallIntAt(b, 1, 2);
    SmallIntAt(b, 3, 5);
  }

  lemma FirstBits(s: seq<byte>)
    requires s != []
    ensures forall k :: 0 <= k < 8 ==> BitAt(BitsOf(s), k) == BitValue(TestBit(s[0], 7 - k))
  {
    hide TestBit;
  }

  lemma SmallIntAt(bits: seq<bool>, pos: nat, n: nat)
    requires n < 32
    ensures IntAt(bits, pos, n) == UAt(bits, pos, n)
  {
  }

  lemma TwoBits(bits: seq<bool>, pos: nat)
    ensures UAt(bits, pos, 2) == 2 * BitAt(bits, pos) + BitAt(bits, pos + 1)
  {
    hide BitAt;
    UAtStep(bits, pos, 0);
    UAtStep(bits, pos, 1);
  }

  lemma FiveBits(bits: seq<bool>, pos: nat)
    ensures UAt(bits, pos, 5)
         == 16 * BitAt(bits, pos) + 8 * BitAt(bits, pos + 1) + 4 * BitAt(bits, pos + 2)
          + 2 * BitAt(bits, pos + 3) + BitAt(bits, pos + 4)
  {
    hide UAt, BitAt;
    TwoBits(bits, pos);
    UAtStep(bits, pos, 2);
    UAtStep(bits, pos, 3);
    UAtStep(bits, pos, 4);
  }

  lemma ByteParts(x: int, top: nat, reference: nat, kind: nat)
    requires top < 2 && reference < 4 && kind < 32 && x == 128 * top + 32 * reference + kind
    ensures x / 128 == top && x / 32 % 4 == reference && x % 32 == kind
  {
  }

  /** What the writer puts there for a header in range. */
  lemma HeaderByteWritten(h: NalHeader, s: Sps)
    requires s.InRange() && s.Writable() && 0 <= h.nalRefIdc < 4 && 0 <= h.nalUnitType < 32
    ensures Rbsp(h, s) != [] && Rbsp(h, s)[0] as int == 32 * h.nalRefIdc + h.nalUnitType
  {
    hide Rbsp, Sps.Writable, Sps.InRange, PutNalHeader, IntAt, BitAt, BitsOf;
    var rbsp := Rbsp(h, s);
    PayloadBegins(h, s);
    SmallDomains(h);
    NalHeaderLaw(h, BitsOf(rbsp));
    FirstByte(rbsp);
    ByteOfParts(rbsp[0] as int, h.nalRefIdc, h.nalUnitType);
  }

  lemma SmallDomains(h: NalHeader)
    requires 0 <= h.nalRefIdc < 4 && 0 <= h.nalUnitType < 32
    ensures BitsDomain(2, h.nalRefIdc) && BitsDomain(5, h.nalUnitType)
  {
  }

  lemma ByteOfParts(x: int, reference: int, kind: int)
    requires 0 <= x < 256 && x / 128 == 0 && x / 32 % 4 == reference && x % 32 == kind
    ensures x == 32 * reference + kind
  {
  }

  lemma PayloadBegins(h: NalHeader, s: Sps)
    requires s.InRange() && s.Writable()
    ensures Rbsp(h, s) != [] && PutNalHeader(h) <= BitsOf(Rbsp(h, s))
  {
    hide Sps.Put, Pack, Sps.Writable, Sps.InRange, PutNalHeader, Sps.Canonical, ReadSps, BitsOf;
    RbspEndsInStopBit(h, s);
    SpsLaw(PutNalHeader(h), s, BitsOf(Rbsp(h, s)));
  }

  /**
    End to end: a parameter set in range, encoded through all layers and read back, is
    recovered in canonical form with its NAL header, and every byte is consumed.
  */
  lemma NalRoundTrip(h: NalHeader, s: Sps, oldNal: NalHeader, oldSps: Sps)
    requires s.InRange() && BitsDomain(2, h.nalRefIdc) && h.nalUnitType == NAL_UNIT_TYPE_SPS
    ensures ReadNal(EncodedNal(h, s), oldNal, oldSps)
         == ReadResult(|EncodedNal(h, s)|, h, s.Canonical())
  {
    hide Sps.Put, PutNalHeader, Sps.Writable, Sps.Canonical, Pack, PutTrailing, ReadSps, Unescape, Escape;
    var rbsp := Rbsp(h, s);
    UnescapeEscape(rbsp);
    var header := PutNalHeader(h);
    var body := s.Put(header);
    var bits := PutTrailing(body);
    assert BitsOf(rbsp) == bits;
    NalHeaderLength(h);
    SpsLaw(header, s, bits);
    assert BitsDomain(5, h.nalUnitType) by {
      PowersOfTwo();
    }
    NalHeaderLaw(h, bits);
  }

  /** As the caller sees it: read behind the leading zero, the unit comes back whole. */
  lemma WrittenReadsBack(h: NalHeader, s: Sps, stored: seq<byte>, rc: nat, oldNal: NalHeader, oldSps: Sps)
    requires s.InRange() && BitsDomain(2, h.nalRefIdc) && h.nalUnitType == NAL_UNIT_TYPE_SPS
    requires rc <= |stored| && stored[..rc] == [0] + EncodedNal(h, s)
    ensures rc > 0 && ReadNal(stored[1..rc], oldNal, oldSps) == ReadResult(rc - 1, h, s.Canonical())
  {
    hide EncodedNal, ReadNal, Sps.Writable, Sps.Canonical;
    assert stored[1..rc] == stored[..rc][1..] == EncodedNal(h, s);
    NalRoundTrip(h, s, oldNal, oldSps);
  }

  /** Half as much room again as the payload takes is always enough. */
  lemma RoomSuffices(h: NalHeader, s: Sps, size: nat)
    requires s.Writable()
    requires var n := |Rbsp(h, s)|; size >= 1 + n + (n - 1) / 2
    ensures WriteSucceeds(h, s, size)
  {
    hide Rbsp, Sps.Writable;
    RbspEndsInStopBit(h, s);
    EscapeBound(Rbsp(h, s));
  }

  // ---------------------------------------------------------------- the code

  lemma PackedPrefix(s: seq<byte>, initial: seq<bool>, bits: seq<bool>)
    requires |bits| % 8 == 0 && |bits| <= 8 * |s| && BitsOf(s) == Overlay(initial, bits)
    ensures s[..|bits| / 8] == Pack(bits)
  {
    hide TestBit, Pack, Overlay;
    var front := s[..|bits| / 8];
    forall k | 0 <= k < |bits|
      ensures BitsOf(front)[k] == bits[k]
    {
      assert BitsOf(s)[k] == Overlay(initial, bits)[k];
    }
    assert BitsOf(front) == bits;
    PackBitsOf(front);
  }

  /**
    write_nal_unit into the `size` bytes from `start` on. It succeeds exactly when the zero
    byte and the escaped payload fit; on success it has stored just that.
  */
  method WriteNalUnit(h: H264Stream, buf: array<byte>, start: nat, size: nat) returns (rc: int)
    requires start + size <= buf.Length
    requires h.nal.nalUnitType == NAL_UNIT_TYPE_SPS ==> h.SpsValue().Writable()
    modifies buf
    ensures if h.nal.nalUnitType == NAL_UNIT_TYPE_SPS && WriteSucceeds(h.nal, h.SpsValue(), size) then
              && rc == 1 + |EncodedNal(h.nal, h.SpsValue())|
              && buf[start..start + rc] == [0] + EncodedNal(h.nal, h.SpsValue())
            else
              rc == -1
    ensures forall k :: 0 <= k < buf.Length && !(start <= k < start + size) ==> buf[k] == old(buf[k])
  {
    hide Sps.Put, Sps.Writable, PutBits, PutTrailing, Pack, Escape, BitsOf, Overlay;
    hide BitStream.Valid, BitStream.Bits, H264Stream.SpsValue;
    var rbspBuf := new byte[size](_ => 0);
    var b := new BitStream(rbspBuf, size);
    b.WriteU(1, 0);
    b.WriteU(2, h.nal.nalRefIdc);
    b.WriteU(5, h.nal.nalUnitType);
    if h.nal.nalUnitType != NAL_UNIT_TYPE_SPS {
      return -1;
    }
    h.WriteSeqParameterSet(b);
    H264Stream.WriteTrailingBits(b);
    WrittenBytes(b);
    EscapeBound(Pack(b.trace));
    if b.Overrun() {
      return -1;
    }
    var rbspSize := b.BytePos();
    var nalSize;
    rc, nalSize := RbspToNal(rbspBuf, rbspSize, buf, start, size);
    if rc < 0 {
      return -1;
    }
    return nalSize;
  }

  /** An aligned cursor inside the buffer has stored exactly the bits it was given. */
  lemma WrittenBytes(b: BitStream)
    requires b.Valid() && |b.trace| % 8 == 0
    ensures b.Overrun() <==> |Pack(b.trace)| > b.end
    ensures b.end <= b.buf.Length
    ensures !b.Overrun() ==> b.buf[..b.BytePos()] == Pack(b.trace)
  {
    hide Pack, BitsOf, Overlay;
    b.AlignedIsWholeBytes();
    if !b.Overrun() {
      PackedPrefix(b.buf[..b.end], b.initial, b.trace);
      assert b.buf[..b.end][..b.p] == b.buf[..b.p];
    }
  }

  /** read_nal_unit on the `size` bytes from `start` on, which it leaves as they are. */
  method ReadNalUnit(h: H264Stream, buf: array<byte>, start: nat, size: nat) returns (rc: int)
    requires start + size <= buf.Length
    modifies h
    ensures ReadResult(rc, h.nal, h.SpsValue())
         == ReadNal(buf[start..start + size], old(h.nal), old(h.SpsValue()))
  {
    hide BitStream.Valid, BitStream.Bits, UnescapeFrom, BitsOf, H264Stream.SpsValue, ReadPayload;
    UnescapeFits(buf[start..start + size]);
    var rbspBuf := new byte[size](_ => 0);
    var nalSize, rbspSize;
    rc, nalSize, rbspSize := NalToRbsp(buf, start, size, rbspBuf, size);
    if rc < 0 {
      return -1;
    }
    var b := new BitStream(rbspBuf, rbspSize);
    rc := ReadPayloadBits(h, b, nalSize);
  }

  /** The part of read_nal_unit behind the unescaping. */
  method ReadPayloadBits(h: H264Stream, b: BitStream, nalSize: nat) returns (rc: int)
    requires b.Valid() && b.Pos() == 0
    modifies h, b`p, b`bitsLeft, b`trace
    ensures ReadResult(rc, h.nal, h.SpsValue())
         == ReadPayload(old(b.Bits()), nalSize, old(h.nal), old(h.SpsValue()))
  {
    hide BitStream.Valid, BitStream.Bits, ReadSps, IntAt, H264Stream.SpsValue;
    ghost var bits := b.Bits();
    b.SkipU(1);
    var v := b.ReadU(2);
    h.nal := h.nal.(nalRefIdc := v);
    v := b.ReadU(5);
    h.nal := h.nal.(nalUnitType := v);
    if h.nal.nalUnitType == NAL_UNIT_TYPE_SPS {
      h.ReadSeqParameterSet(b);
      H264Stream.ReadTrailingBits(b);
    } else {
      return -1;
    }
    b.AlignedIsWholeBytes();
    b.BitsCoverBuffer();
    if b.Overrun() {
      return -1;
    }
    return nalSize;
  }
}
