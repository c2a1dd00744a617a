/**
  The parameter set reader and writer of h264bitstream/h264_stream.c: statement by statement
  over the bit cursor, with the structure filled in place, proved against the syntax in
  SpsSyntax.
*/
module SpsCodec {
  import opened Bits
  import opened BitCodes
  import opened BitStreams
  import opened SpsSyntax

  lemma EmptyLists(bits: seq<bool>, pos: nat)
    ensures ReadLists(bits, pos, NoLists()[..0]) == Got([], pos) && [] + NoLists()[0..] == NoLists()
  {
  }

  lemma ListsGrow(bits: seq<bool>, pos: nat, slots: seq<ScalingEntry>, i: nat)
    requires i < |slots|
    ensures var front := ReadLists(bits, pos, slots[..i]);
            var e := ReadEntry(bits, front.pos, slots[i].list);
            ReadLists(bits, pos, slots[..i + 1]) == Got(front.val + [e.val], e.pos)
  {
    hide ReadEntry;
    assert slots[..i + 1][..i] == slots[..i];
  }

  lemma EmptyCpbs(bits: seq<bool>, pos: nat)
    ensures ReadCpbs(bits, pos, NoCpbs()[..0]) == Got([], pos) && [] + NoCpbs()[0..] == NoCpbs()
  {
  }

  lemma CpbsGrow(bits: seq<bool>, pos: nat, slots: seq<Cpb>, i: nat)
    requires i < |slots|
    ensures var front := ReadCpbs(bits, pos, slots[..i]);
            var c := ReadCpb(bits, front.pos);
            ReadCpbs(bits, pos, slots[..i + 1]) == Got(front.val + [c.val], c.pos)
  {
    hide ReadCpb;
    assert slots[..i + 1][..i] == slots[..i];
  }

  /** The parts of a parameter set, each read where the one before it ended. */
  lemma SpsInParts(bits: seq<bool>, start: nat, s: Sps, headerEnd: nat, highEnd: nat, orderEnd: nat, frameEnd: nat,
      end: nat)
    requires Got(s.header, headerEnd) == ReadHeader(bits, start)
    requires Got(s.high, highEnd)
          == if s.header.HighProfile() then ReadHigh(bits, headerEnd) else Got(NoHighPart(), headerEnd)
    requires Got(s.order, orderEnd) == ReadPicOrder(bits, highEnd)
    requires Got(s.frame, frameEnd) == ReadFrame(bits, orderEnd)
    requires s.vuiParametersPresentFlag == BitAt(bits, frameEnd)
    requires Got(s.vui, end)
          == if s.vuiParametersPresentFlag != 0 then ReadVui(bits, frameEnd + 1) else Got(NoVui(), frameEnd + 1)
    ensures Got(s, end) == ReadSps(bits, start)
  {
    hide ReadHeader, ReadHigh, ReadPicOrder, ReadFrame, ReadVui, Header.HighProfile, NoHighPart, NoVui;
  }

  lemma EmptyOffsets(bits: seq<bool>, pos: nat)
    ensures ReadSes(bits, pos, Zeros(MAX_REF_FRAMES_IN_CYCLE)[..0]) == Got([], pos)
    ensures [] + Zeros(MAX_REF_FRAMES_IN_CYCLE)[0..] == Zeros(MAX_REF_FRAMES_IN_CYCLE)
  {
  }

  function ZeroSps(): (s: Sps)
  {
    Sps(NoHeader(), NoHighPart().(chromaFormatIdc := 0), NoPicOrder(), NoFrame(), 0, NoVui())
  }

  /** `nal_t`. */
  datatype NalHeader = NalHeader(nalRefIdc: int, nalUnitType: int)

  /**
    `h264_stream_t`: the NAL header and the parameter set, the latter as the groups of
    SpsSyntax, which together are the fields of `sps_t`.
  */
  class H264Stream {
    var nal: NalHeader
    var header: Header
    var high: HighPart
    var order: PicOrder
    var frame: Frame
    var vuiParametersPresentFlag: int
    var vui: Vui

    /** h264_new: all fields zero. */
    constructor ()
      ensures nal == NalHeader(0, 0) && SpsValue() == ZeroSps()
    {
      nal := NalHeader(0, 0);
      header := NoHeader();
      high := NoHighPart().(chromaFormatIdc := 0);
      order := NoPicOrder();
      frame := NoFrame();
      vuiParametersPresentFlag := 0;
      vui := NoVui();
    }

    /** The parameter set the fields hold. */
    function SpsValue(): (s: Sps)
      reads this`header, this`high, this`order, this`frame, this`vuiParametersPresentFlag, this`vui
    {
      Sps(header, high, order, frame, vuiParametersPresentFlag, vui)
    }

    // ---------------------------------------------------------------- reading

    /** The memset and the default chroma format at the start of the reader. */
    method Reset()
      modifies this
      ensures nal == old(nal)
      ensures header == NoHeader() && high == NoHighPart() && order == NoPicOrder() && frame == NoFrame()
      ensures vuiParametersPresentFlag == 0 && vui == NoVui()
    {
      header := NoHeader();
      high := NoHighPart();
      order := NoPicOrder();
      frame := NoFrame();
      vuiParametersPresentFlag := 0;
      vui := NoVui();
    }

    method ReadSeqParameterSet(b: BitStream)
      requires b.Valid()
      modifies this, b`p, b`bitsLeft, b`trace
      ensures b.Valid() && nal == old(nal)
      ensures Got(SpsValue(), b.Pos()) == ReadSps(b.Bits(), old(b.Pos()))
    {
      hide SpsSyntax.ReadHeader, SpsSyntax.ReadHigh, SpsSyntax.ReadPicOrder, SpsSyntax.ReadFrame, SpsSyntax.ReadVui;
      hide BitStream.Valid, BitStream.Bits, NoHeader, NoHighPart, NoPicOrder, NoFrame, NoVui;
      hide Header.HighProfile, ReadSps;
      ghost var bits, start := b.Bits(), b.Pos();
      Reset();
      ghost var headerEnd, highEnd, orderEnd := ReadBeforeVui(b);
      ghost var frameEnd := b.Pos();
      vuiParametersPresentFlag := b.ReadU1();
      if vuiParametersPresentFlag != 0 {
        vui := ReadVui(b, vui);
      }
      SpsInParts(bits, start, SpsValue(), headerEnd, highEnd, orderEnd, frameEnd, b.Pos());
    }

    /** The parameter set up to the flag that announces the VUI. */
    method ReadBeforeVui(b: BitStream) returns (ghost headerEnd: nat, ghost highEnd: nat, ghost orderEnd: nat)
      requires b.Valid()
      requires header == NoHeader() && high == NoHighPart() && order == NoPicOrder() && frame == NoFrame()
      modifies this`header, this`high, this`order, this`frame, b`p, b`bitsLeft, b`trace
      ensures b.Valid() && b.Bits() == old(b.Bits())
      ensures Got(header, headerEnd) == SpsSyntax.ReadHeader(b.Bits(), old(b.Pos()))
      ensures Got(high, highEnd)
           == if header.HighProfile() then SpsSyntax.ReadHigh(b.Bits(), headerEnd) else Got(NoHighPart(), headerEnd)
      ensures Got(order, orderEnd) == SpsSyntax.ReadPicOrder(b.Bits(), highEnd)
      ensures Got(frame, b.Pos()) == SpsSyntax.ReadFrame(b.Bits(), orderEnd)
    {
      hide SpsSyntax.ReadHeader, SpsSyntax.ReadHigh, SpsSyntax.ReadPicOrder, SpsSyntax.ReadFrame;
      hide BitStream.Valid, BitStream.Bits, NoHeader, NoHighPart, NoPicOrder, NoFrame, Header.HighProfile;
      header := ReadHeader(b, header);
      headerEnd := b.Pos();
      if header.HighProfile() {
        high := ReadHigh(b, high);
      }
      highEnd := b.Pos();
      order := ReadPicOrder(b, order);
      orderEnd := b.Pos();
      frame := ReadFrame(b, frame);
    }

    static method ReadHeader(b: BitStream, zeroed: Header) returns (header: Header)
      requires b.Valid() && zeroed == NoHeader()
      modifies b`p, b`bitsLeft, b`trace
      ensures b.Valid() && b.Bits() == old(b.Bits())
      ensures Got(header, b.Pos()) == SpsSyntax.ReadHeader(b.Bits(), old(b.Pos()))
    {
      hide BitStream.Valid, BitStream.Bits, UAt, IntAt, BitAt, BitCodes.ReadUe, BitCodes.ReadSe;
      var v;
      header := zeroed;
      v := b.ReadU8(); header := header.(profileIdc := v);
      v := b.ReadU1(); header := header.(constraintSet0Flag := v);
      v := b.ReadU1(); header := header.(constraintSet1Flag := v);
      v := b.ReadU1(); header := header.(constraintSet2Flag := v);
      v := b.ReadU1(); header := header.(constraintSet3Flag := v);
      v := b.ReadU1(); header := header.(constraintSet4Flag := v);
      v := b.ReadU1(); header := header.(constraintSet5Flag := v);
      b.SkipU(2);
      v := b.ReadU8(); header := header.(levelIdc := v);
      v := b.ReadUe(); header := header.(seqParameterSetId := v);
    }

    static method ReadHigh(b: BitStream, zeroed: HighPart) returns (high: HighPart)
      requires b.Valid() && zeroed == NoHighPart()
      modifies b`p, b`bitsLeft, b`trace
      ensures b.Valid() && b.Bits() == old(b.Bits())
      ensures Got(high, b.Pos()) == SpsSyntax.ReadHigh(b.Bits(), old(b.Pos()))
    {
      hide BitStream.Valid, BitStream.Bits, UAt, IntAt, BitAt, BitCodes.ReadUe, BitCodes.ReadSe;
      hide ReadLists, NoLists, ListCount;
      var v;
      high := zeroed;
      v := b.ReadUe(); high := high.(chromaFormatIdc := v);
      if high.chromaFormatIdc == 3 {
        v := b.ReadU1(); high := high.(residualColourTransformFlag := v);
      }
      v := b.ReadUe(); high := high.(bitDepthLumaMinus8 := v);
      v := b.ReadUe(); high := high.(bitDepthChromaMinus8 := v);
      v := b.ReadU1(); high := high.(qpprimeYZeroTransformBypassFlag := v);
      v := b.ReadU1(); high := high.(seqScalingMatrixPresentFlag := v);
      EmptyLists(b.Bits(), b.Pos());
      if high.seqScalingMatrixPresentFlag != 0 {
        var lists := ReadScalingLists(b, high.chromaFormatIdc, high.lists); high := high.(lists := lists);
      }
    }

    static method ReadScalingLists(b: BitStream, chromaFormatIdc: int, slots: seq<ScalingEntry>)
        returns (lists: seq<ScalingEntry>)
      requires b.Valid() && slots == NoLists()
      modifies b`p, b`bitsLeft, b`trace
      ensures b.Valid() && b.Bits() == old(b.Bits())
      ensures var n := ListCount(chromaFormatIdc);
              var g := ReadLists(b.Bits(), old(b.Pos()), slots[..n]);
              lists == g.val + slots[n..] && b.Pos() == g.pos
    {
      hide BitStream.Valid, BitStream.Bits, ReadList, ReadLists;
      ghost var bits, pos := b.Bits(), b.Pos();
      lists := slots;
      EmptyLists(bits, pos);
      for i := 0 to ListCount(chromaFormatIdc)
        invariant b.Valid() && b.Bits() == bits && |lists| == SCALING_LISTS
        invariant Got(lists[..i], b.Pos()) == ReadLists(bits, pos, slots[..i])
        invariant lists[i..] == slots[i..]
      {
        ListsGrow(bits, pos, slots, i);
        ghost var before := lists;
        var entry := lists[i];
        assert entry == NoList(i);
        var present := b.ReadU1();
        entry := entry.(present := present);
        if entry.present != 0 {
          var list, useDefault := ReadScalingList(b, entry.list);
          entry := entry.(list := list, useDefault := useDefault);
        }
        lists := lists[i := entry];
        assert lists[..i + 1] == before[..i] + [entry];
        assert lists[i + 1..] == before[i..][1..] == slots[i..][1..];
      }
    }

    /** Fills the list it is given; the flag tells whether the default matrix was signalled. */
    static method ReadScalingList(b: BitStream, slots: seq<int>) returns (scalingList: seq<int>, useDefault: int)
      requires b.Valid()
      modifies b`p, b`bitsLeft, b`trace
      ensures b.Valid() && b.Bits() == old(b.Bits())
      ensures var r := ReadList(b.Bits(), old(b.Pos()), slots);
              scalingList == r.list && useDefault == r.useDefault && b.Pos() == r.pos
    {
      hide BitStream.Valid, BitStream.Bits, BitCodes.ReadSe;
      ghost var bits, pos := b.Bits(), b.Pos();
      var lastScale, nextScale := 8, 8;
      scalingList, useDefault := slots, 0;
      for j := 0 to |slots|
        invariant b.Valid() && b.Bits() == bits && |scalingList| == |slots|
        invariant ListState(scalingList[..j], nextScale, useDefault, b.Pos()) == ReadList(bits, pos, slots[..j])
        invariant lastScale == if j == 0 then 8 else scalingList[j - 1]
      {
        assert slots[..j + 1][..j] == slots[..j];
        ghost var before := scalingList;
        if nextScale != 0 {
          var deltaScale := b.ReadSe();
          nextScale := CRem(lastScale + deltaScale + 256, 256);
          useDefault := if j == 0 && nextScale == 0 then 1 else 0;
        }
        scalingList := scalingList[j := if nextScale == 0 then lastScale else nextScale];
        lastScale := scalingList[j];
        assert scalingList[..j + 1] == before[..j] + [lastScale];
      }
      assert slots[..|slots|] == slots && scalingList[..|slots|] == scalingList;
    }

    static method ReadPicOrder(b: BitStream, zeroed: PicOrder) returns (order: PicOrder)
      requires b.Valid() && zeroed == NoPicOrder()
      modifies b`p, b`bitsLeft, b`trace
      ensures b.Valid() && b.Bits() == old(b.Bits())
      ensures Got(order, b.Pos()) == SpsSyntax.ReadPicOrder(b.Bits(), old(b.Pos()))
    {
      hide BitStream.Valid, BitStream.Bits, UAt, IntAt, BitAt, BitCodes.ReadUe, BitCodes.ReadSe;
      var v;
      order := zeroed;
      v := b.ReadUe(); order := order.(log2MaxFrameNumMinus4 := v);
      v := b.ReadUe(); order := order.(picOrderCntType := v);
      if order.picOrderCntType == 0 {
        v := b.ReadUe(); order := order.(log2MaxPicOrderCntLsbMinus4 := v);
      } else if order.picOrderCntType == 1 {
        v := b.ReadU1(); order := order.(deltaPicOrderAlwaysZeroFlag := v);
        v := b.ReadSe(); order := order.(offsetForNonRefPic := v);
        v := b.ReadSe(); order := order.(offsetForTopToBottomField := v);
        v := b.ReadUe(); order := order.(numRefFramesInPicOrderCntCycle := v);
        if order.numRefFramesInPicOrderCntCycle > MAX_REF_FRAMES_IN_CYCLE {
          order := order.(numRefFramesInPicOrderCntCycle := MAX_REF_FRAMES_IN_CYCLE);
        }
        var offsets := ReadOffsets(b, order.numRefFramesInPicOrderCntCycle, order.offsetForRefFrame);
        order := order.(offsetForRefFrame := offsets);
      }
      EmptyOffsets(b.Bits(), b.Pos());
    }

    static method ReadOffsets(b: BitStream, n: int, slots: seq<int>) returns (offsets: seq<int>)
      requires b.Valid() && |slots| == MAX_REF_FRAMES_IN_CYCLE && n <= MAX_REF_FRAMES_IN_CYCLE
      modifies b`p, b`bitsLeft, b`trace
      ensures b.Valid() && b.Bits() == old(b.Bits())
      ensures var g := ReadSes(b.Bits(), old(b.Pos()), slots[..Count(n)]);
              offsets == g.val + slots[Count(n)..] && b.Pos() == g.pos
    {
      hide BitStream.Valid, BitStream.Bits, BitCodes.ReadSe;
      ghost var bits, pos := b.Bits(), b.Pos();
      offsets := slots;
      var i := 0;
      while i < n
        invariant b.Valid() && b.Bits() == bits && 0 <= i <= Count(n) && |offsets| == |slots|
        invariant Got(offsets[..i], b.Pos()) == ReadSes(bits, pos, slots[..i])
        invariant offsets[i..] == slots[i..]
      {
        assert slots[..i + 1][..i] == slots[..i];
        ghost var before := offsets;
        var v := b.ReadSe(); offsets := offsets[i := v];
        assert offsets[..i + 1] == before[..i] + [v];
        assert offsets[i + 1..] == before[i..][1..] == slots[i..][1..];
        i := i + 1;
      }
    }

    static method ReadFrame(b: BitStream, zeroed: Frame) returns (frame: Frame)
      requires b.Valid() && zeroed == NoFrame()
      modifies b`p, b`bitsLeft, b`trace
      ensures b.Valid() && b.Bits() == old(b.Bits())
      ensures Got(frame, b.Pos()) == SpsSyntax.ReadFrame(b.Bits(), old(b.Pos()))
    {
      frame := ReadFrameSize(b, zeroed);
      frame := ReadCropping(b, frame);
    }

    static method ReadFrameSize(b: BitStream, zeroed: Frame) returns (frame: Frame)
      requires b.Valid() && zeroed == NoFrame()
      modifies b`p, b`bitsLeft, b`trace
      ensures b.Valid() && b.Bits() == old(b.Bits())
      ensures Got(frame, b.Pos()) == SpsSyntax.ReadFrameSize(b.Bits(), old(b.Pos()))
    {
      hide BitStream.Valid, BitStream.Bits, UAt, IntAt, BitAt, BitCodes.ReadUe, BitCodes.ReadSe;
      var v;
      frame := zeroed;
      v := b.ReadUe(); frame := frame.(numRefFrames := v);
      v := b.ReadU1(); frame := frame.(gapsInFrameNumValueAllowedFlag := v);
      v := b.ReadUe(); frame := frame.(picWidthInMbsMinus1 := v);
      v := b.ReadUe(); frame := frame.(picHeightInMapUnitsMinus1 := v);
      v := b.ReadU1(); frame := frame.(frameMbsOnlyFlag := v);
      if frame.frameMbsOnlyFlag == 0 {
        v := b.ReadU1(); frame := frame.(mbAdaptiveFrameFieldFlag := v);
      }
      v := b.ReadU1(); frame := frame.(direct8x8InferenceFlag := v);
    }

    static method ReadCropping(b: BitStream, zeroed: Frame) returns (frame: Frame)
      requires b.Valid()
      requires zeroed == zeroed.(frameCroppingFlag := 0, frameCropLeftOffset := 0, frameCropRightOffset := 0,
        frameCropTopOffset := 0, frameCropBottomOffset := 0)
      modifies b`p, b`bitsLeft, b`trace
      ensures b.Valid() && b.Bits() == old(b.Bits())
      ensures Got(frame, b.Pos()) == SpsSyntax.ReadCropping(b.Bits(), old(b.Pos()), zeroed)
    {
      hide BitStream.Valid, BitStream.Bits, UAt, IntAt, BitAt, BitCodes.ReadUe, BitCodes.ReadSe;
      var v;
      frame := zeroed;
      v := b.ReadU1(); frame := frame.(frameCroppingFlag := v);
      if frame.frameCroppingFlag != 0 {
        v := b.ReadUe(); frame := frame.(frameCropLeftOffset := v);
        v := b.ReadUe(); frame := frame.(frameCropRightOffset := v);
        v := b.ReadUe(); frame := frame.(frameCropTopOffset := v);
        v := b.ReadUe(); frame := frame.(frameCropBottomOffset := v);
      }
    }

    static method ReadVui(b: BitStream, zeroed: Vui) returns (vui: Vui)
      requires b.Valid() && zeroed == NoVui()
      modifies b`p, b`bitsLeft, b`trace
      ensures b.Valid() && b.Bits() == old(b.Bits())
      ensures Got(vui, b.Pos()) == SpsSyntax.ReadVui(b.Bits(), old(b.Pos()))
    {
      hide BitStream.Valid, BitStream.Bits, SpsSyntax.ReadVuiVideo, SpsSyntax.ReadVuiTiming;
      hide SpsSyntax.ReadVuiRestriction, SpsSyntax.ReadHrdBlock, NoHrd;
      vui := zeroed;
      var video := ReadVuiVideo(b, vui.video); vui := vui.(video := video);
      var timing := ReadVuiTiming(b, vui.timing); vui := vui.(timing := timing);
      var v, hrd := ReadHrdBlock(b, vui.hrdNal); vui := vui.(nalHrdParametersPresentFlag := v, hrdNal := hrd);
      v, hrd := ReadHrdBlock(b, vui.hrdVcl); vui := vui.(vclHrdParametersPresentFlag := v, hrdVcl := hrd);
      if vui.nalHrdParametersPresentFlag != 0 || vui.vclHrdParametersPresentFlag != 0 {
        v := b.ReadU1(); vui := vui.(lowDelayHrdFlag := v);
      }
      v := b.ReadU1(); vui := vui.(picStructPresentFlag := v);
      var restriction := ReadVuiRestriction(b, vui.restriction); vui := vui.(restriction := restriction);
    }

    static method ReadVuiVideo(b: BitStream, zeroed: VuiVideo) returns (video: VuiVideo)
      requires b.Valid() && zeroed == NoVui().video
      modifies b`p, b`bitsLeft, b`trace
      ensures b.Valid() && b.Bits() == old(b.Bits())
      ensures Got(video, b.Pos()) == SpsSyntax.ReadVuiVideo(b.Bits(), old(b.Pos()))
    {
      video := ReadAspect(b, zeroed);
      video := ReadSignal(b, video);
    }

    static method ReadAspect(b: BitStream, zeroed: VuiVideo) returns (video: VuiVideo)
      requires b.Valid() && zeroed == NoVui().video
      modifies b`p, b`bitsLeft, b`trace
      ensures b.Valid() && b.Bits() == old(b.Bits())
      ensures Got(video, b.Pos()) == SpsSyntax.ReadAspect(b.Bits(), old(b.Pos()))
    {
      hide BitStream.Valid, BitStream.Bits, UAt, IntAt, BitAt, BitCodes.ReadUe, BitCodes.ReadSe;
      var v;
      video := zeroed;
      v := b.ReadU1(); video := video.(aspectRatioInfoPresentFlag := v);
      if video.aspectRatioInfoPresentFlag != 0 {
        v := b.ReadU8(); video := video.(aspectRatioIdc := v);
        if video.aspectRatioIdc == SAR_EXTENDED {
          v := b.ReadU(16); video := video.(sarWidth := v);
          v := b.ReadU(16); video := video.(sarHeight := v);
        }
      }
      v := b.ReadU1(); video := video.(overscanInfoPresentFlag := v);
      if video.overscanInfoPresentFlag != 0 {
        v := b.ReadU1(); video := video.(overscanAppropriateFlag := v);
      }
    }

    static method ReadSignal(b: BitStream, zeroed: VuiVideo) returns (video: VuiVideo)
      requires b.Valid()
      requires zeroed == zeroed.(videoSignalTypePresentFlag := 0, videoFormat := 0, videoFullRangeFlag := 0,
        colourDescriptionPresentFlag := 0, colourPrimaries := 0, transferCharacteristics := 0, matrixCoefficients := 0)
      modifies b`p, b`bitsLeft, b`trace
      ensures b.Valid() && b.Bits() == old(b.Bits())
      ensures Got(video, b.Pos()) == SpsSyntax.ReadSignal(b.Bits(), old(b.Pos()), zeroed)
    {
      hide BitStream.Valid, BitStream.Bits, UAt, IntAt, BitAt, BitCodes.ReadUe, BitCodes.ReadSe;
      var v;
      video := zeroed;
      v := b.ReadU1(); video := video.(videoSignalTypePresentFlag := v);
      if video.videoSignalTypePresentFlag != 0 {
        v := b.ReadU(3); video := video.(videoFormat := v);
        v := b.ReadU1(); video := video.(videoFullRangeFlag := v);
        v := b.ReadU1(); video := video.(colourDescriptionPresentFlag := v);
        if video.colourDescriptionPresentFlag != 0 {
          v := b.ReadU8(); video := video.(colourPrimaries := v);
          v := b.ReadU8(); video := video.(transferCharacteristics := v);
          v := b.ReadU8(); video := video.(matrixCoefficients := v);
        }
      }
    }

    static method ReadVuiTiming(b: BitStream, zeroed: VuiTiming) returns (timing: VuiTiming)
      requires b.Valid() && zeroed == NoVui().timing
      modifies b`p, b`bitsLeft, b`trace
      ensures b.Valid() && b.Bits() == old(b.Bits())
      ensures Got(timing, b.Pos()) == SpsSyntax.ReadVuiTiming(b.Bits(), old(b.Pos()))
    {
      hide BitStream.Valid, BitStream.Bits, UAt, IntAt, BitAt, BitCodes.ReadUe, BitCodes.ReadSe;
      var v;
      timing := zeroed;
      v := b.ReadU1(); timing := timing.(chromaLocInfoPresentFlag := v);
      if timing.chromaLocInfoPresentFlag != 0 {
        v := b.ReadUe(); timing := timing.(chromaSampleLocTypeTopField := v);
        v := b.ReadUe(); timing := timing.(chromaSampleLocTypeBottomField := v);
      }
      v := b.ReadU1(); timing := timing.(timingInfoPresentFlag := v);
      if timing.timingInfoPresentFlag != 0 {
        v := b.ReadU(32); timing := timing.(numUnitsInTick := v);
        v := b.ReadU(32); timing := timing.(timeScale := v);
        v := b.ReadU1(); timing := timing.(fixedFrameRateFlag := v);
      }
    }

    static method ReadVuiRestriction(b: BitStream, zeroed: VuiRestriction) returns (restriction: VuiRestriction)
      requires b.Valid() && zeroed == NoVui().restriction
      modifies b`p, b`bitsLeft, b`trace
      ensures b.Valid() && b.Bits() == old(b.Bits())
      ensures Got(restriction, b.Pos()) == SpsSyntax.ReadVuiRestriction(b.Bits(), old(b.Pos()))
    {
      hide BitStream.Valid, BitStream.Bits, UAt, IntAt, BitAt, BitCodes.ReadUe, BitCodes.ReadSe;
      var v;
      restriction := zeroed;
      v := b.ReadU1(); restriction := restriction.(bitstreamRestrictionFlag := v);
      if restriction.bitstreamRestrictionFlag != 0 {
        v := b.ReadU1(); restriction := restriction.(motionVectorsOverPicBoundariesFlag := v);
        v := b.ReadUe(); restriction := restriction.(maxBytesPerPicDenom := v);
        v := b.ReadUe(); restriction := restriction.(maxBitsPerMbDenom := v);
        v := b.ReadUe(); restriction := restriction.(log2MaxMvLengthHorizontal := v);
        v := b.ReadUe(); restriction := restriction.(log2MaxMvLengthVertical := v);
        v := b.ReadUe(); restriction := restriction.(numReorderFrames := v);
        v := b.ReadUe(); restriction := restriction.(maxDecFrameBuffering := v);
      }
    }

    /** One of the two present flags and the HRD structure it announces. */
    static method ReadHrdBlock(b: BitStream, zeroed: Hrd) returns (present: int, hrd: Hrd)
      requires b.Valid() && zeroed == NoHrd()
      modifies b`p, b`bitsLeft, b`trace
      ensures b.Valid() && b.Bits() == old(b.Bits())
      ensures Got((present, hrd), b.Pos()) == SpsSyntax.ReadHrdBlock(b.Bits(), old(b.Pos()))
    {
      hide BitStream.Valid, BitStream.Bits, SpsSyntax.ReadHrd, BitAt, NoHrd;
      hrd := zeroed;
      present := b.ReadU1();
      if present != 0 {
        hrd := ReadHrd(b, hrd);
      }
    }

    /** Fills an HRD structure, which the caller has zeroed. */
    static method ReadHrd(b: BitStream, zeroed: Hrd) returns (hrd: Hrd)
      requires b.Valid() && zeroed == NoHrd()
      modifies b`p, b`bitsLeft, b`trace
      ensures b.Valid() && b.Bits() == old(b.Bits())
      ensures Got(hrd, b.Pos()) == SpsSyntax.ReadHrd(b.Bits(), old(b.Pos()))
    {
      hide BitStream.Valid, BitStream.Bits, UAt, IntAt, BitAt, BitCodes.ReadUe, ReadCpbs, NoCpbs;
      var v;
      hrd := zeroed;
      v := b.ReadUe(); hrd := hrd.(cpbCntMinus1 := v);
      if hrd.cpbCntMinus1 > MAX_CPB_COUNT - 1 {
        hrd := hrd.(cpbCntMinus1 := MAX_CPB_COUNT - 1);
      }
      v := b.ReadU(4); hrd := hrd.(bitRateScale := v);
      v := b.ReadU(4); hrd := hrd.(cpbSizeScale := v);
      var cpbs := ReadCpbTable(b, hrd.cpbs, hrd.cpbCntMinus1);
      hrd := hrd.(cpbs := cpbs);
      v := b.ReadU(5); hrd := hrd.(initialCpbRemovalDelayLengthMinus1 := v);
      v := b.ReadU(5); hrd := hrd.(cpbRemovalDelayLengthMinus1 := v);
      v := b.ReadU(5); hrd := hrd.(dpbOutputDelayLengthMinus1 := v);
      v := b.ReadU(5); hrd := hrd.(timeOffsetLength := v);
    }

    static method ReadCpbTable(b: BitStream, slots: seq<Cpb>, cpbCntMinus1: int) returns (cpbs: seq<Cpb>)
      requires b.Valid() && slots == NoCpbs() && cpbCntMinus1 < MAX_CPB_COUNT
      modifies b`p, b`bitsLeft, b`trace
      ensures b.Valid() && b.Bits() == old(b.Bits())
      ensures var n := Count(cpbCntMinus1 + 1);
              var g := ReadCpbs(b.Bits(), old(b.Pos()), slots[..n]);
              cpbs == g.val + slots[n..] && b.Pos() == g.pos
    {
      hide BitStream.Valid, BitStream.Bits, BitCodes.ReadUe, ReadCpbs;
      ghost var bits, pos := b.Bits(), b.Pos();
      cpbs := slots;
      var i := 0;
      EmptyCpbs(bits, pos);
      while i <= cpbCntMinus1
        invariant b.Valid() && b.Bits() == bits && 0 <= i <= Count(cpbCntMinus1 + 1) && |cpbs| == MAX_CPB_COUNT
        invariant Got(cpbs[..i], b.Pos()) == ReadCpbs(bits, pos, slots[..i])
        invariant cpbs[i..] == slots[i..]
      {
        CpbsGrow(bits, pos, slots, i);
        ghost var before := cpbs;
        var v;
        v := b.ReadUe(); cpbs := cpbs[i := cpbs[i].(bitRateValueMinus1 := v)];
        v := b.ReadUe(); cpbs := cpbs[i := cpbs[i].(cpbSizeValueMinus1 := v)];
        v := b.ReadU1(); cpbs := cpbs[i := cpbs[i].(cbrFlag := v)];
        assert cpbs[..i + 1] == before[..i] + [cpbs[i]];
        assert cpbs[i + 1..] == before[i..][1..] == slots[i..][1..];
        i := i + 1;
      }
    }

    static method ReadTrailingBits(b: BitStream)
      requires b.Valid()
      modifies b`p, b`bitsLeft, b`trace
      ensures b.Valid() && b.Bits() == old(b.Bits())
      ensures b.Pos() == 8 * (old(b.Pos()) / 8 + 1)
    {
      hide BitStream.Bits, BitStream.Valid, BitStream.ByteAligned;
      ghost var end: nat := 8 * (b.Pos() / 8 + 1);
      assert b.Pos() < end <= b.Pos() + 8 && end % 8 == 0;
      b.SkipU(1);
      b.AlignedIsWholeBytes();
      while !b.ByteAligned()
        invariant b.Valid() && b.Bits() == old(b.Bits())
        invariant end - 8 < b.Pos() <= end
        invariant b.ByteAligned() <==> b.Pos() % 8 == 0
        decreases end - b.Pos()
      {
        b.SkipU(1);
        b.AlignedIsWholeBytes();
      }
    }

    // ---------------------------------------------------------------- writing

    method WriteSeqParameterSet(b: BitStream)
      requires b.Valid() && SpsValue().Writable()
      modifies b`p, b`bitsLeft, b`trace, b.buf
      ensures b.Valid() && b.trace == SpsValue().Put(old(b.trace))
    {
      hide BitStream.Valid, BitStream.Bits, PutBits, PutUe, PutSe;
      hide Header.Put, HighPart.Put, PicOrder.Put, Frame.Put, Vui.Put;
      hide Header.Writable, HighPart.Writable, PicOrder.Writable, Frame.Writable, Vui.Writable;
      WriteHeader(b, header);
      if header.HighProfile() {
        WriteHigh(b, high);
      }
      WritePicOrder(b, order);
      WriteFrame(b, frame);
      b.WriteU1(vuiParametersPresentFlag);
      if vuiParametersPresentFlag != 0 {
        WriteVui(b, vui);
      }
    }

    static method WriteHeader(b: BitStream, h: Header)
      requires b.Valid() && h.Writable()
      modifies b`p, b`bitsLeft, b`trace, b.buf
      ensures b.Valid() && b.trace == h.Put(old(b.trace))
    {
      hide BitStream.Valid, BitStream.Bits, PutBits, PutUe, PutSe;
      b.WriteU8(h.profileIdc);
      b.WriteU1(h.constraintSet0Flag);
      b.WriteU1(h.constraintSet1Flag);
      b.WriteU1(h.constraintSet2Flag);
      b.WriteU1(h.constraintSet3Flag);
      b.WriteU1(h.constraintSet4Flag);
      b.WriteU1(h.constraintSet5Flag);
      b.WriteU(2, 0);
      b.WriteU8(h.levelIdc);
      b.WriteUe(h.seqParameterSetId);
    }

    static method WriteHigh(b: BitStream, h: HighPart)
      requires b.Valid() && h.Writable()
      modifies b`p, b`bitsLeft, b`trace, b.buf
      ensures b.Valid() && b.trace == h.Put(old(b.trace))
    {
      hide BitStream.Valid, BitStream.Bits, PutBits, PutUe, PutSe;
      b.WriteUe(h.chromaFormatIdc);
      if h.chromaFormatIdc == 3 {
        b.WriteU1(h.residualColourTransformFlag);
      }
      b.WriteUe(h.bitDepthLumaMinus8);
      b.WriteUe(h.bitDepthChromaMinus8);
      b.WriteU1(h.qpprimeYZeroTransformBypassFlag);
      b.WriteU1(h.seqScalingMatrixPresentFlag);
      if h.seqScalingMatrixPresentFlag != 0 {
        WriteScalingLists(b, h.lists[..ListCount(h.chromaFormatIdc)]);
      }
    }

    static method WriteScalingLists(b: BitStream, lists: seq<ScalingEntry>)
      requires b.Valid() && forall i :: 0 <= i < |lists| ==> lists[i].Writable()
      modifies b`p, b`bitsLeft, b`trace, b.buf
      ensures b.Valid() && b.trace == PutLists(old(b.trace), lists)
    {
      hide BitStream.Valid, BitStream.Bits, ScalingEntry.ListWritable, ScalingEntry.PutList;
      for i := 0 to |lists|
        invariant b.Valid() && b.trace == PutLists(old(b.trace), lists[..i])
      {
        assert lists[..i + 1][..i] == lists[..i];
        var e := lists[i];
        b.WriteU1(e.present);
        if e.present != 0 {
          WriteScalingList(b, e);
        }
      }
      assert lists[..|lists|] == lists;
    }

    static method WriteScalingList(b: BitStream, e: ScalingEntry)
      requires b.Valid() && e.ListWritable()
      modifies b`p, b`bitsLeft, b`trace, b.buf
      ensures b.Valid() && b.trace == e.PutList(old(b.trace), |e.list|)
    {
      hide BitStream.Valid, BitStream.Bits, PutSe;
      var lastScale, nextScale := 8, 8;
      for j := 0 to |e.list|
        invariant b.Valid() && b.trace == e.PutList(old(b.trace), j)
        invariant nextScale != 0 <==> e.Coding(j)
        invariant lastScale == e.Last(j)
      {
        if nextScale != 0 {
          if e.useDefault != 0 {
            nextScale := 0;
          } else {
            nextScale := e.list[j];
            if j > 0 && nextScale == lastScale {
              var allSame := AllSame(e, j, lastScale);
              if allSame {
                nextScale := 0;
              }
            }
          }
          var deltaScale := nextScale - lastScale;
          if deltaScale < -128 {
            deltaScale := deltaScale + 256;
          } else if deltaScale > 127 {
            deltaScale := deltaScale - 256;
          }
          b.WriteSe(deltaScale);
        }
        lastScale := e.list[j];
      }
    }

    /** Whether all entries behind `j` equal `lastScale`, as entry `j` does. */
    static method AllSame(e: ScalingEntry, j: nat, lastScale: int) returns (allSame: bool)
      requires 0 < j < |e.list| && e.list[j] == lastScale == e.list[j - 1]
      ensures allSame <==> e.TailConstant(j)
    {
      allSame := true;
      var k := j + 1;
      while k < |e.list|
        invariant j < k <= |e.list| && e.list[k - 1] == lastScale
        invariant e.TailConstant(j) == e.TailConstant(k)
        invariant allSame
      {
        if e.list[k] != lastScale {
          return false;
        }
        k := k + 1;
      }
    }

    static method WritePicOrder(b: BitStream, o: PicOrder)
      requires b.Valid() && o.Writable()
      modifies b`p, b`bitsLeft, b`trace, b.buf
      ensures b.Valid() && b.trace == o.Put(old(b.trace))
    {
      hide BitStream.Valid, BitStream.Bits, PutBits, PutUe, PutSe;
      b.WriteUe(o.log2MaxFrameNumMinus4);
      b.WriteUe(o.picOrderCntType);
      if o.picOrderCntType == 0 {
        b.WriteUe(o.log2MaxPicOrderCntLsbMinus4);
      } else if o.picOrderCntType == 1 {
        b.WriteU1(o.deltaPicOrderAlwaysZeroFlag);
        b.WriteSe(o.offsetForNonRefPic);
        b.WriteSe(o.offsetForTopToBottomField);
        b.WriteUe(o.numRefFramesInPicOrderCntCycle);
        WriteOffsets(b, o.offsetForRefFrame[..o.numRefFramesInPicOrderCntCycle]);
      }
    }

    static method WriteOffsets(b: BitStream, offsets: seq<int>)
      requires b.Valid() && forall i :: 0 <= i < |offsets| ==> SeDomain(offsets[i])
      modifies b`p, b`bitsLeft, b`trace, b.buf
      ensures b.Valid() && b.trace == PutSes(old(b.trace), offsets)
    {
      hide BitStream.Valid, BitStream.Bits, PutSe;
      for i := 0 to |offsets|
        invariant b.Valid() && b.trace == PutSes(old(b.trace), offsets[..i])
      {
        assert offsets[..i + 1][..i] == offsets[..i];
        b.WriteSe(offsets[i]);
      }
      assert offsets[..|offsets|] == offsets;
    }

    static method WriteFrame(b: BitStream, f: Frame)
      requires b.Valid() && f.Writable()
      modifies b`p, b`bitsLeft, b`trace, b.buf
      ensures b.Valid() && b.trace == f.Put(old(b.trace))
    {
      hide BitStream.Valid, BitStream.Bits, PutBits, PutUe, PutSe;
      b.WriteUe(f.numRefFrames);
      b.WriteU1(f.gapsInFrameNumValueAllowedFlag);
      b.WriteUe(f.picWidthInMbsMinus1);
      b.WriteUe(f.picHeightInMapUnitsMinus1);
      b.WriteU1(f.frameMbsOnlyFlag);
      if f.frameMbsOnlyFlag == 0 {
        b.WriteU1(f.mbAdaptiveFrameFieldFlag);
      }
      b.WriteU1(f.direct8x8InferenceFlag);
      b.WriteU1(f.frameCroppingFlag);
      if f.frameCroppingFlag != 0 {
        b.WriteUe(f.frameCropLeftOffset);
        b.WriteUe(f.frameCropRightOffset);
        b.WriteUe(f.frameCropTopOffset);
        b.WriteUe(f.frameCropBottomOffset);
      }
    }

    static method WriteVui(b: BitStream, v: Vui)
      requires b.Valid() && v.Writable()
      modifies b`p, b`bitsLeft, b`trace, b.buf
      ensures b.Valid() && b.trace == v.Put(old(b.trace))
    {
      hide BitStream.Valid, BitStream.Bits, VuiVideo.Put, VuiTiming.Put, VuiRestriction.Put, Hrd.Put;
      WriteVuiVideo(b, v.video);
      WriteVuiTiming(b, v.timing);
      b.WriteU1(v.nalHrdParametersPresentFlag);
      if v.nalHrdParametersPresentFlag != 0 {
        WriteHrd(b, v.hrdNal);
      }
      b.WriteU1(v.vclHrdParametersPresentFlag);
      if v.vclHrdParametersPresentFlag != 0 {
        WriteHrd(b, v.hrdVcl);
      }
      if v.nalHrdParametersPresentFlag != 0 || v.vclHrdParametersPresentFlag != 0 {
        b.WriteU1(v.lowDelayHrdFlag);
      }
      b.WriteU1(v.picStructPresentFlag);
      WriteVuiRestriction(b, v.restriction);
    }

    static method WriteVuiVideo(b: BitStream, v: VuiVideo)
      requires b.Valid()
      modifies b`p, b`bitsLeft, b`trace, b.buf
      ensures b.Valid() && b.trace == v.Put(old(b.trace))
    {
      hide BitStream.Valid, BitStream.Bits, PutBits, PutUe, PutSe;
      b.WriteU1(v.aspectRatioInfoPresentFlag);
      if v.aspectRatioInfoPresentFlag != 0 {
        b.WriteU8(v.aspectRatioIdc);
        if v.aspectRatioIdc == SAR_EXTENDED {
          b.WriteU(16, v.sarWidth);
          b.WriteU(16, v.sarHeight);
        }
      }
      b.WriteU1(v.overscanInfoPresentFlag);
      if v.overscanInfoPresentFlag != 0 {
        b.WriteU1(v.overscanAppropriateFlag);
      }
      b.WriteU1(v.videoSignalTypePresentFlag);
      if v.videoSignalTypePresentFlag != 0 {
        b.WriteU(3, v.videoFormat);
        b.WriteU1(v.videoFullRangeFlag);
        b.WriteU1(v.colourDescriptionPresentFlag);
        if v.colourDescriptionPresentFlag != 0 {
          b.WriteU8(v.colourPrimaries);
          b.WriteU8(v.transferCharacteristics);
          b.WriteU8(v.matrixCoefficients);
        }
      }
    }

    static method WriteVuiTiming(b: BitStream, v: VuiTiming)
      requires b.Valid() && v.Writable()
      modifies b`p, b`bitsLeft, b`trace, b.buf
      ensures b.Valid() && b.trace == v.Put(old(b.trace))
    {
      hide BitStream.Valid, BitStream.Bits, PutBits, PutUe, PutSe;
      b.WriteU1(v.chromaLocInfoPresentFlag);
      if v.chromaLocInfoPresentFlag != 0 {
        b.WriteUe(v.chromaSampleLocTypeTopField);
        b.WriteUe(v.chromaSampleLocTypeBottomField);
      }
      b.WriteU1(v.timingInfoPresentFlag);
      if v.timingInfoPresentFlag != 0 {
        b.WriteU(32, v.numUnitsInTick);
        b.WriteU(32, v.timeScale);
        b.WriteU1(v.fixedFrameRateFlag);
      }
    }

    static method WriteVuiRestriction(b: BitStream, v: VuiRestriction)
      requires b.Valid() && v.Writable()
      modifies b`p, b`bitsLeft, b`trace, b.buf
      ensures b.Valid() && b.trace == v.Put(old(b.trace))
    {
      hide BitStream.Valid, BitStream.Bits, PutBits, PutUe, PutSe;
      b.WriteU1(v.bitstreamRestrictionFlag);
      if v.bitstreamRestrictionFlag != 0 {
        b.WriteU1(v.motionVectorsOverPicBoundariesFlag);
        b.WriteUe(v.maxBytesPerPicDenom);
        b.WriteUe(v.maxBitsPerMbDenom);
        b.WriteUe(v.log2MaxMvLengthHorizontal);
        b.WriteUe(v.log2MaxMvLengthVertical);
        b.WriteUe(v.numReorderFrames);
        b.WriteUe(v.maxDecFrameBuffering);
      }
    }

    static method WriteHrd(b: BitStream, h: Hrd)
      requires b.Valid() && h.Writable()
      modifies b`p, b`bitsLeft, b`trace, b.buf
      ensures b.Valid() && b.trace == h.Put(old(b.trace))
    {
      hide BitStream.Valid, BitStream.Bits, PutBits, PutUe, PutSe;
      b.WriteUe(h.cpbCntMinus1);
      b.WriteU(4, h.bitRateScale);
      b.WriteU(4, h.cpbSizeScale);
      WriteCpbTable(b, h.cpbs[..h.cpbCntMinus1 + 1]);
      b.WriteU(5, h.initialCpbRemovalDelayLengthMinus1);
      b.WriteU(5, h.cpbRemovalDelayLengthMinus1);
      b.WriteU(5, h.dpbOutputDelayLengthMinus1);
      b.WriteU(5, h.timeOffsetLength);
    }

    static method WriteCpbTable(b: BitStream, cpbs: seq<Cpb>)
      requires b.Valid() && forall i :: 0 <= i < |cpbs| ==> cpbs[i].Writable()
      modifies b`p, b`bitsLeft, b`trace, b.buf
      ensures b.Valid() && b.trace == PutCpbs(old(b.trace), cpbs)
    {
      hide BitStream.Valid, BitStream.Bits, PutUe;
      for i := 0 to |cpbs|
        invariant b.Valid() && b.trace == PutCpbs(old(b.trace), cpbs[..i])
      {
        assert cpbs[..i + 1][..i] == cpbs[..i];
        b.WriteUe(cpbs[i].bitRateValueMinus1);
        b.WriteUe(cpbs[i].cpbSizeValueMinus1);
        b.WriteU1(cpbs[i].cbrFlag);
      }
      assert cpbs[..|cpbs|] == cpbs;
    }

    /** The stop bit, then zeros up to the next byte boundary. */
    static method WriteTrailingBits(b: BitStream)
      requires b.Valid()
      modifies b`p, b`bitsLeft, b`trace, b.buf
      ensures b.Valid() && b.trace == PutTrailing(old(b.trace))
    {
      hide BitStream.Valid, BitStream.Bits, PutBits, PutZerosToByte;
      PutOneBit(b.trace, 1);
      b.WriteU(1, 1);
      while !b.ByteAligned()
        invariant b.Valid()
        invariant PutZerosToByte(b.trace) == PutTrailing(old(b.trace))
        decreases |PutTrailing(old(b.trace))| - |b.trace|
      {
        b.AlignedIsWholeBytes();
        PutOneBit(b.trace, 0);
        ZerosStep(b.trace);
        b.WriteU(1, 0);
      }
      b.AlignedIsWholeBytes();
      ZerosDone(b.trace);
    }
  }
}
