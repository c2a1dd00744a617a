/**
  The syntax tables of sections 7.3.2.1.1, E.1.1 and E.1.2 of ITU-T H.264, row by row in the
  order of the standard, and the proof that the writer and the reader of SpsSyntax follow them:
  the writer puts exactly these rows, and the reader, on any bits, takes exactly these rows.
*/
module SpsTable {
  import opened BitCodes
  import opened SpsSyntax

  /** A row of a syntax table; it is there only when `sent` holds. */
  datatype Row =
    | U(sent: bool, n: nat, value: int)
    | Flag(sent: bool, value: int)
    | Reserved(sent: bool, n: nat)
    | Ue(sent: bool, value: int)
    | Se(sent: bool, value: int)
      /** A number of rows to follow; the reader cuts it down to `max`. */
    | Number(sent: bool, value: int, max: int)
    | Scaling(sent: bool, entry: ScalingEntry)

  // ---------------------------------------------------------------- the tables

  /** The first `n` entries of a C table, as far as it goes; none for a negative `n`. */
  function Taken<T>(s: seq<T>, n: int): (r: seq<T>)
  {
    if n <= 0 then [] else if n <= |s| then s[..n] else s
  }

  function HeaderRows(rows: seq<Row>, h: Header): (r: seq<Row>)
  {
    rows
    + [U(true, 8, h.profileIdc)]
    + [Flag(true, h.constraintSet0Flag)]
    + [Flag(true, h.constraintSet1Flag)]
    + [Flag(true, h.constraintSet2Flag)]
    + [Flag(true, h.constraintSet3Flag)]
    + [Flag(true, h.constraintSet4Flag)]
    + [Flag(true, h.constraintSet5Flag)]
    + [Reserved(true, 2)]
    + [U(true, 8, h.levelIdc)]
    + [Ue(true, h.seqParameterSetId)]
  }

  function ListRows(rows: seq<Row>, lists: seq<ScalingEntry>): (r: seq<Row>)
  {
    if lists == [] then rows
    else
      var e := lists[|lists| - 1];
      ListRows(rows, lists[..|lists| - 1])
      + [Flag(true, e.present)]
      + [Scaling(e.present != 0, e)]
  }

  function HighFieldRows(rows: seq<Row>, h: HighPart): (r: seq<Row>)
  {
    rows
    + [Ue(true, h.chromaFormatIdc)]
    + [Flag(h.chromaFormatIdc == 3, h.residualColourTransformFlag)]
    + [Ue(true, h.bitDepthLumaMinus8)]
    + [Ue(true, h.bitDepthChromaMinus8)]
    + [Flag(true, h.qpprimeYZeroTransformBypassFlag)]
    + [Flag(true, h.seqScalingMatrixPresentFlag)]
  }

  function HighRows(rows: seq<Row>, h: HighPart): (r: seq<Row>)
  {
    var rows := HighFieldRows(rows, h);
    if h.seqScalingMatrixPresentFlag == 0 then rows
    else ListRows(rows, Taken(h.lists, if h.chromaFormatIdc == 3 then 12 else 8))
  }

  function OffsetRows(rows: seq<Row>, offsets: seq<int>): (r: seq<Row>)
  {
    if offsets == [] then rows
    else OffsetRows(rows, offsets[..|offsets| - 1]) + [Se(true, offsets[|offsets| - 1])]
  }

  function PicOrderFieldRows(rows: seq<Row>, o: PicOrder): (r: seq<Row>)
  {
    rows
    + [Ue(true, o.log2MaxFrameNumMinus4)]
    + [Ue(true, o.picOrderCntType)]
    + [Ue(o.picOrderCntType == 0, o.log2MaxPicOrderCntLsbMinus4)]
    + [Flag(o.picOrderCntType == 1, o.deltaPicOrderAlwaysZeroFlag)]
    + [Se(o.picOrderCntType == 1, o.offsetForNonRefPic)]
    + [Se(o.picOrderCntType == 1, o.offsetForTopToBottomField)]
    + [Number(o.picOrderCntType == 1, o.numRefFramesInPicOrderCntCycle, 256)]
  }

  function PicOrderRows(rows: seq<Row>, o: PicOrder): (r: seq<Row>)
  {
    var rows := PicOrderFieldRows(rows, o);
    if o.picOrderCntType != 1 then rows
    else OffsetRows(rows, Taken(o.offsetForRefFrame, o.numRefFramesInPicOrderCntCycle))
  }

  function SizeRows(rows: seq<Row>, f: Frame): (r: seq<Row>)
  {
    rows
    + [Ue(true, f.numRefFrames)]
    + [Flag(true, f.gapsInFrameNumValueAllowedFlag)]
    + [Ue(true, f.picWidthInMbsMinus1)]
    + [Ue(true, f.picHeightInMapUnitsMinus1)]
    + [Flag(true, f.frameMbsOnlyFlag)]
    + [Flag(f.frameMbsOnlyFlag == 0, f.mbAdaptiveFrameFieldFlag)]
    + [Flag(true, f.direct8x8InferenceFlag)]
  }

  function CroppingRows(rows: seq<Row>, f: Frame): (r: seq<Row>)
  {
    rows
    + [Flag(true, f.frameCroppingFlag)]
    + [Ue(f.frameCroppingFlag != 0, f.frameCropLeftOffset)]
    + [Ue(f.frameCroppingFlag != 0, f.frameCropRightOffset)]
    + [Ue(f.frameCroppingFlag != 0, f.frameCropTopOffset)]
    + [Ue(f.frameCroppingFlag != 0, f.frameCropBottomOffset)]
  }

  function CpbRows(rows: seq<Row>, cpbs: seq<Cpb>): (r: seq<Row>)
  {
    if cpbs == [] then rows
    else
      var c := cpbs[|cpbs| - 1];
      CpbRows(rows, cpbs[..|cpbs| - 1])
      + [Ue(true, c.bitRateValueMinus1)]
      + [Ue(true, c.cpbSizeValueMinus1)]
      + [Flag(true, c.cbrFlag)]
  }

  function ScaleRows(rows: seq<Row>, h: Hrd): (r: seq<Row>)
  {
    rows
    + [Number(true, h.cpbCntMinus1, 31)]
    + [U(true, 4, h.bitRateScale)]
    + [U(true, 4, h.cpbSizeScale)]
  }

  function LengthRows(rows: seq<Row>, h: Hrd): (r: seq<Row>)
  {
    rows
    + [U(true, 5, h.initialCpbRemovalDelayLengthMinus1)]
    + [U(true, 5, h.cpbRemovalDelayLengthMinus1)]
    + [U(true, 5, h.dpbOutputDelayLengthMinus1)]
    + [U(true, 5, h.timeOffsetLength)]
  }

  function HrdRows(rows: seq<Row>, h: Hrd): (r: seq<Row>)
  {
    LengthRows(CpbRows(ScaleRows(rows, h), Taken(h.cpbs, h.cpbCntMinus1 + 1)), h)
  }

  function AspectRows(rows: seq<Row>, v: VuiVideo): (r: seq<Row>)
  {
    var aspect := v.aspectRatioInfoPresentFlag != 0;
    rows
    + [Flag(true, v.aspectRatioInfoPresentFlag)]
    + [U(aspect, 8, v.aspectRatioIdc)]
    + [U(aspect && v.aspectRatioIdc == 255, 16, v.sarWidth)]
    + [U(aspect && v.aspectRatioIdc == 255, 16, v.sarHeight)]
    + [Flag(true, v.overscanInfoPresentFlag)]
    + [Flag(v.overscanInfoPresentFlag != 0, v.overscanAppropriateFlag)]
  }

  function SignalRows(rows: seq<Row>, v: VuiVideo): (r: seq<Row>)
  {
    var signal := v.videoSignalTypePresentFlag != 0;
    var colour := signal && v.colourDescriptionPresentFlag != 0;
    rows
    + [Flag(true, v.videoSignalTypePresentFlag)]
    + [U(signal, 3, v.videoFormat)]
    + [Flag(signal, v.videoFullRangeFlag)]
    + [Flag(signal, v.colourDescriptionPresentFlag)]
    + [U(colour, 8, v.colourPrimaries)]
    + [U(colour, 8, v.transferCharacteristics)]
    + [U(colour, 8, v.matrixCoefficients)]
  }

  function TimingRows(rows: seq<Row>, v: VuiTiming): (r: seq<Row>)
  {
    rows
    + [Flag(true, v.chromaLocInfoPresentFlag)]
    + [Ue(v.chromaLocInfoPresentFlag != 0, v.chromaSampleLocTypeTopField)]
    + [Ue(v.chromaLocInfoPresentFlag != 0, v.chromaSampleLocTypeBottomField)]
    + [Flag(true, v.timingInfoPresentFlag)]
    + [U(v.timingInfoPresentFlag != 0, 32, v.numUnitsInTick)]
    + [U(v.timingInfoPresentFlag != 0, 32, v.timeScale)]
    + [Flag(v.timingInfoPresentFlag != 0, v.fixedFrameRateFlag)]
  }

  function RestrictionRows(rows: seq<Row>, v: VuiRestriction): (r: seq<Row>)
  {
    rows
    + [Flag(true, v.bitstreamRestrictionFlag)]
    + [Flag(v.bitstreamRestrictionFlag != 0, v.motionVectorsOverPicBoundariesFlag)]
    + [Ue(v.bitstreamRestrictionFlag != 0, v.maxBytesPerPicDenom)]
    + [Ue(v.bitstreamRestrictionFlag != 0, v.maxBitsPerMbDenom)]
    + [Ue(v.bitstreamRestrictionFlag != 0, v.log2MaxMvLengthHorizontal)]
    + [Ue(v.bitstreamRestrictionFlag != 0, v.log2MaxMvLengthVertical)]
    + [Ue(v.bitstreamRestrictionFlag != 0, v.numReorderFrames)]
    + [Ue(v.bitstreamRestrictionFlag != 0, v.maxDecFrameBuffering)]
  }

  function HrdBlockRows(rows: seq<Row>, present: int, h: Hrd): (r: seq<Row>)
  {
    var rows := rows + [Flag(true, present)];
    if present == 0 then rows else HrdRows(rows, h)
  }

  function VuiRows(rows: seq<Row>, v: Vui): (r: seq<Row>)
  {
    var rows := TimingRows(SignalRows(AspectRows(rows, v.video), v.video), v.timing);
    var rows := HrdBlockRows(rows, v.nalHrdParametersPresentFlag, v.hrdNal);
    var rows := HrdBlockRows(rows, v.vclHrdParametersPresentFlag, v.hrdVcl)
      + [Flag(v.nalHrdParametersPresentFlag != 0 || v.vclHrdParametersPresentFlag != 0, v.lowDelayHrdFlag)]
      + [Flag(true, v.picStructPresentFlag)];
    RestrictionRows(rows, v.restriction)
  }

  /** Section 7.3.2.1.1. */
  function SpsRows(s: Sps): (r: seq<Row>)
  {
    var rows := HeaderRows([], s.header);
    var rows :=
      if s.header.profileIdc in {100, 110, 122, 244, 44, 83, 86, 118, 128, 138, 139, 134}
      then HighRows(rows, s.high) else rows;
    var rows := CroppingRows(SizeRows(PicOrderRows(rows, s.order), s.frame), s.frame)
      + [Flag(true, s.vuiParametersPresentFlag)];
    if s.vuiParametersPresentFlag == 0 then rows else VuiRows(rows, s.vui)
  }

  // ---------------------------------------------------------------- writing rows

  /** The bits of a row; a value that has no code adds none. */
  function PutRow(t: seq<bool>, row: Row): (r: seq<bool>)
  {
    if !row.sent then t
    else
      match row
      case U(_, n, v) => PutBits(t, n, v)
      case Flag(_, v) => PutFlag(t, v)
      case Reserved(_, n) => PutBits(t, n, 0)
      case Ue(_, v) => if UeDomain(v) then PutUe(t, v) else t
      case Se(_, v) => if SeDomain(v) then PutSe(t, v) else t
      case Number(_, v, _) => if UeDomain(v) then PutUe(t, v) else t
      case Scaling(_, e) => if e.ListWritable() then e.PutList(t, |e.list|) else t
  }

  function PutRows(t: seq<bool>, rows: seq<Row>): (r: seq<bool>)
  {
    if rows == [] then t else PutRow(PutRows(t, rows[..|rows| - 1]), rows[|rows| - 1])
  }

  lemma PutsAppend()
    ensures forall t, rows, row {:trigger PutRows(t, rows + [row])} ::
              PutRows(t, rows + [row]) == PutRow(PutRows(t, rows), row)
  {
    forall t, rows: seq<Row>, row ensures PutRows(t, rows + [row]) == PutRow(PutRows(t, rows), row) {
      assert (rows + [row])[..|rows|] == rows;
    }
  }

  lemma HeaderPuts(t: seq<bool>, rows: seq<Row>, h: Header)
    requires h.Writable()
    ensures PutRows(t, HeaderRows(rows, h)) == h.Put(PutRows(t, rows))
  {
    hide PutRows, PutBits, PutFlag, PutUe;
    PutsAppend();
  }

  lemma {:induction false} ListsPut(t: seq<bool>, rows: seq<Row>, lists: seq<ScalingEntry>)
    requires forall i :: 0 <= i < |lists| ==> lists[i].Writable()
    ensures PutRows(t, ListRows(rows, lists)) == PutLists(PutRows(t, rows), lists)
  {
    hide PutRows, PutFlag;
    PutsAppend();
    if lists != [] {
      ListsPut(t, rows, lists[..|lists| - 1]);
    }
  }

  lemma HighPuts(t: seq<bool>, rows: seq<Row>, h: HighPart)
    requires h.Writable()
    ensures PutRows(t, HighRows(rows, h)) == h.Put(PutRows(t, rows))
  {
    hide PutRows, PutFlag, PutUe, ListRows, HighFieldRows, HighPart.PutFields, ScalingEntry.Writable;
    HighFieldsPut(t, rows, h);
    ListsPut(t, HighFieldRows(rows, h), h.lists[..h.SentLists()]);
    assert h.lists[..0] == [];
  }

  lemma HighFieldsPut(t: seq<bool>, rows: seq<Row>, h: HighPart)
    requires h.Writable()
    ensures PutRows(t, HighFieldRows(rows, h)) == h.PutFields(PutRows(t, rows))
  {
    hide PutRows, PutFlag, PutUe, ScalingEntry.Writable;
    PutsAppend();
  }

  lemma {:induction false} OffsetsPut(t: seq<bool>, rows: seq<Row>, offsets: seq<int>)
    requires forall i :: 0 <= i < |offsets| ==> SeDomain(offsets[i])
    ensures PutRows(t, OffsetRows(rows, offsets)) == PutSes(PutRows(t, rows), offsets)
  {
    hide PutRows, PutSe;
    PutsAppend();
    if offsets != [] {
      OffsetsPut(t, rows, offsets[..|offsets| - 1]);
    }
  }

  lemma PicOrderPuts(t: seq<bool>, rows: seq<Row>, o: PicOrder)
    requires o.Writable()
    ensures PutRows(t, PicOrderRows(rows, o)) == o.Put(PutRows(t, rows))
  {
    hide PutRows, PutFlag, PutUe, PutSe, OffsetRows, PicOrderFieldRows, PicOrder.PutFields;
    PicOrderFieldsPut(t, rows, o);
    OffsetsPut(t, PicOrderFieldRows(rows, o), o.offsetForRefFrame[..o.SentOffsets()]);
    assert o.offsetForRefFrame[..0] == [];
  }

  lemma PicOrderFieldsPut(t: seq<bool>, rows: seq<Row>, o: PicOrder)
    requires o.Writable()
    ensures PutRows(t, PicOrderFieldRows(rows, o)) == o.PutFields(PutRows(t, rows))
  {
    hide PutRows, PutFlag, PutUe, PutSe;
    PutsAppend();
  }

  lemma FramePuts(t: seq<bool>, rows: seq<Row>, f: Frame)
    requires f.Writable()
    ensures PutRows(t, CroppingRows(SizeRows(rows, f), f)) == f.Put(PutRows(t, rows))
  {
    hide PutRows, PutFlag, PutUe, SizeRows, Frame.PutSize;
    SizePuts(t, rows, f);
    PutsAppend();
  }

  lemma SizePuts(t: seq<bool>, rows: seq<Row>, f: Frame)
    requires f.Writable()
    ensures PutRows(t, SizeRows(rows, f)) == f.PutSize(PutRows(t, rows))
  {
    hide PutRows, PutFlag, PutUe;
    PutsAppend();
  }

  lemma {:induction false} CpbsPut(t: seq<bool>, rows: seq<Row>, cpbs: seq<Cpb>)
    requires forall i :: 0 <= i < |cpbs| ==> cpbs[i].Writable()
    ensures PutRows(t, CpbRows(rows, cpbs)) == PutCpbs(PutRows(t, rows), cpbs)
  {
    hide PutRows, PutFlag, PutUe;
    PutsAppend();
    if cpbs != [] {
      CpbsPut(t, rows, cpbs[..|cpbs| - 1]);
    }
  }

  lemma HrdPuts(t: seq<bool>, rows: seq<Row>, h: Hrd)
    requires h.Writable()
    ensures PutRows(t, HrdRows(rows, h)) == h.Put(PutRows(t, rows))
  {
    hide PutRows, PutBits, PutUe, CpbRows, ScaleRows, Hrd.PutScales, Cpb.Writable;
    ScalesPut(t, rows, h);
    CpbsPut(t, ScaleRows(rows, h), h.cpbs[..h.cpbCntMinus1 + 1]);
    PutsAppend();
  }

  lemma ScalesPut(t: seq<bool>, rows: seq<Row>, h: Hrd)
    requires h.Writable()
    ensures PutRows(t, ScaleRows(rows, h)) == h.PutScales(PutRows(t, rows))
  {
    hide PutRows, PutBits, PutUe, Cpb.Writable;
    PutsAppend();
  }

  lemma VideoPuts(t: seq<bool>, rows: seq<Row>, v: VuiVideo)
    ensures PutRows(t, SignalRows(AspectRows(rows, v), v)) == v.Put(PutRows(t, rows))
  {
    hide PutRows, PutFlag, PutBits, AspectRows, VuiVideo.PutAspect;
    AspectPuts(t, rows, v);
    PutsAppend();
  }

  lemma AspectPuts(t: seq<bool>, rows: seq<Row>, v: VuiVideo)
    ensures PutRows(t, AspectRows(rows, v)) == v.PutAspect(PutRows(t, rows))
  {
    hide PutRows, PutFlag, PutBits;
    PutsAppend();
  }

  lemma TimingPuts(t: seq<bool>, rows: seq<Row>, v: VuiTiming)
    requires v.Writable()
    ensures PutRows(t, TimingRows(rows, v)) == v.Put(PutRows(t, rows))
  {
    hide PutRows, PutFlag, PutBits, PutUe;
    PutsAppend();
  }

  lemma RestrictionPuts(t: seq<bool>, rows: seq<Row>, v: VuiRestriction)
    requires v.Writable()
    ensures PutRows(t, RestrictionRows(rows, v)) == v.Put(PutRows(t, rows))
  {
    hide PutRows, PutFlag, PutUe;
    PutsAppend();
  }

  lemma HrdBlockPuts(t: seq<bool>, rows: seq<Row>, present: int, h: Hrd)
    requires present != 0 ==> h.Writable()
    ensures PutRows(t, HrdBlockRows(rows, present, h)) == PutHrdBlock(PutRows(t, rows), present, h)
  {
    hide PutRows, PutFlag, HrdRows, Hrd.Put, Hrd.Writable;
    PutsAppend();
    if present != 0 {
      HrdPuts(t, rows + [Flag(true, present)], h);
    }
  }

  lemma VuiPuts(t: seq<bool>, rows: seq<Row>, v: Vui)
    requires v.Writable()
    ensures PutRows(t, VuiRows(rows, v)) == v.Put(PutRows(t, rows))
  {
    hide PutRows, PutFlag, AspectRows, SignalRows, TimingRows, HrdBlockRows, RestrictionRows;
    hide VuiVideo.Put, VuiTiming.Put, VuiRestriction.Put, PutHrdBlock, Hrd.Writable;
    PutsAppend();
    VideoPuts(t, rows, v.video);
    var r1 := SignalRows(AspectRows(rows, v.video), v.video);
    TimingPuts(t, r1, v.timing);
    var r2 := TimingRows(r1, v.timing);
    HrdBlockPuts(t, r2, v.nalHrdParametersPresentFlag, v.hrdNal);
    var r3 := HrdBlockRows(r2, v.nalHrdParametersPresentFlag, v.hrdNal);
    HrdBlockPuts(t, r3, v.vclHrdParametersPresentFlag, v.hrdVcl);
    var r4 := HrdBlockRows(r3, v.vclHrdParametersPresentFlag, v.hrdVcl)
      + [Flag(v.nalHrdParametersPresentFlag != 0 || v.vclHrdParametersPresentFlag != 0, v.lowDelayHrdFlag)]
      + [Flag(true, v.picStructPresentFlag)];
    RestrictionPuts(t, r4, v.restriction);
  }

  /** The writer puts the rows of the standard, in their order and nothing else. */
  lemma WriterFollowsTable(t: seq<bool>, s: Sps)
    requires s.Writable()
    ensures s.Put(t) == PutRows(t, SpsRows(s))
  {
    hide PutRows, PutFlag, HeaderRows, HighRows, PicOrderRows, SizeRows, CroppingRows, VuiRows;
    hide Header.Put, HighPart.Put, PicOrder.Put, Frame.Put, Vui.Put;
    hide HighPart.Writable, PicOrder.Writable, Frame.Writable, Vui.Writable;
    PutsAppend();
    NoRows(t);
    HeaderPuts(t, [], s.header);
    var r1 := HeaderRows([], s.header);
    if s.header.HighProfile() {
      HighPuts(t, r1, s.high);
    }
    var r2 := if s.header.HighProfile() then HighRows(r1, s.high) else r1;
    PicOrderPuts(t, r2, s.order);
    FramePuts(t, PicOrderRows(r2, s.order), s.frame);
    if s.vuiParametersPresentFlag != 0 {
      var r3 := CroppingRows(SizeRows(PicOrderRows(r2, s.order), s.frame), s.frame);
      VuiPuts(t, r3 + [Flag(true, s.vuiParametersPresentFlag)], s.vui);
    }
  }

  lemma HighProfiles(h: Header)
    ensures h.HighProfile() <==> h.profileIdc in {100, 110, 122, 244, 44, 83, 86, 118, 128, 138, 139, 134}
  {
  }

  lemma NoRows(t: seq<bool>)
    ensures PutRows(t, []) == t
  {
  }

  // ---------------------------------------------------------------- the values that have a code

  /** A value its element can carry without loss. */
  predicate RowInRange(row: Row)
  {
    row.sent ==>
      match row
      case U(_, n, v) => if n < 32 then 0 <= v < Pow2(n) else -0x8000_0000 <= v <= 0x7FFF_FFFF
      case Flag(_, v) => v == 0 || v == 1
      case Reserved(_, _) => true
      case Ue(_, v) => 0 <= v <= 65534
      case Se(_, v) => -32767 <= v <= 32767
      case Number(_, v, max) => 0 <= v <= max
      case Scaling(_, e) =>
        e.useDefault == 1 || (e.useDefault == 0 && forall j :: 0 <= j < |e.list| ==> 1 <= e.list[j] <= 255)
  }

  predicate AllInRange(rows: seq<Row>)
  {
    rows == [] || (AllInRange(rows[..|rows| - 1]) && RowInRange(rows[|rows| - 1]))
  }

  lemma RangeAppends()
    ensures forall rows, row {:trigger AllInRange(rows + [row])} ::
              AllInRange(rows + [row]) <==> AllInRange(rows) && RowInRange(row)
  {
    forall rows: seq<Row>, row ensures AllInRange(rows + [row]) <==> AllInRange(rows) && RowInRange(row) {
      assert (rows + [row])[..|rows|] == rows;
    }
  }

  lemma HeaderRange(rows: seq<Row>, h: Header)
    ensures AllInRange(HeaderRows(rows, h)) <==> AllInRange(rows) && h.InRange()
  {
    hide AllInRange, Pow2;
    RangeAppends();
  }

  lemma EntryRange(rows: seq<Row>, e: ScalingEntry)
    ensures AllInRange(rows + [Flag(true, e.present)] + [Scaling(e.present != 0, e)]) <==>
              AllInRange(rows) && e.InRange()
    ensures e.InRange() ==> e.Writable()
  {
    hide AllInRange, ScalingEntry.ListWritable;
    RangeAppends();
    if e.present != 0 && e.ListInRange() {
      InRangeListWritable(e);
    }
  }

  lemma {:induction false} ListsRange(rows: seq<Row>, lists: seq<ScalingEntry>)
    ensures AllInRange(ListRows(rows, lists)) <==>
              AllInRange(rows) && forall i :: 0 <= i < |lists| ==> lists[i].InRange() && lists[i].Writable()
  {
    hide AllInRange, RowInRange, ScalingEntry.InRange, ScalingEntry.Writable;
    if lists != [] {
      var n := |lists| - 1;
      ListsRange(rows, lists[..n]);
      EntryRange(ListRows(rows, lists[..n]), lists[n]);
    }
  }

  lemma HighRange(rows: seq<Row>, h: HighPart)
    requires h.Shape()
    ensures AllInRange(HighRows(rows, h)) <==> AllInRange(rows) && h.InRange()
  {
    hide AllInRange, ListRows, ScalingEntry.InRange, ScalingEntry.Writable;
    RangeAppends();
    ListsRange(HighFieldRows(rows, h), h.lists[..ListCount(h.chromaFormatIdc)]);
  }

  lemma {:induction false} OffsetsRange(rows: seq<Row>, offsets: seq<int>)
    ensures AllInRange(OffsetRows(rows, offsets)) <==>
              AllInRange(rows) && forall i :: 0 <= i < |offsets| ==> SeDomain(offsets[i])
  {
    hide AllInRange;
    RangeAppends();
    if offsets != [] {
      OffsetsRange(rows, offsets[..|offsets| - 1]);
    }
  }

  lemma PicOrderRange(rows: seq<Row>, o: PicOrder)
    requires o.Shape()
    ensures AllInRange(PicOrderRows(rows, o)) <==> AllInRange(rows) && o.InRange()
  {
    hide AllInRange, OffsetRows, SeDomain;
    PicOrderFieldsRange(rows, o);
    OffsetsRange(PicOrderFieldRows(rows, o), Taken(o.offsetForRefFrame, o.numRefFramesInPicOrderCntCycle));
    if o.picOrderCntType == 1 && 0 < o.numRefFramesInPicOrderCntCycle <= 256 {
      assert Taken(o.offsetForRefFrame, o.numRefFramesInPicOrderCntCycle)
          == o.offsetForRefFrame[..o.numRefFramesInPicOrderCntCycle];
    }
  }

  lemma PicOrderFieldsRange(rows: seq<Row>, o: PicOrder)
    ensures AllInRange(PicOrderFieldRows(rows, o)) <==>
              && AllInRange(rows)
              && UeDomain(o.log2MaxFrameNumMinus4) && UeDomain(o.picOrderCntType)
              && (o.picOrderCntType == 0 ==> UeDomain(o.log2MaxPicOrderCntLsbMinus4))
              && (o.picOrderCntType == 1 ==>
                    && IsFlag(o.deltaPicOrderAlwaysZeroFlag)
                    && SeDomain(o.offsetForNonRefPic) && SeDomain(o.offsetForTopToBottomField)
                    && 0 <= o.numRefFramesInPicOrderCntCycle <= 256)
  {
    hide AllInRange;
    RangeAppends();
  }

  lemma FrameRange(rows: seq<Row>, f: Frame)
    ensures AllInRange(CroppingRows(SizeRows(rows, f), f)) <==> AllInRange(rows) && f.InRange()
  {
    hide AllInRange;
    RangeAppends();
  }

  lemma {:induction false} CpbsRange(rows: seq<Row>, cpbs: seq<Cpb>)
    ensures AllInRange(CpbRows(rows, cpbs)) <==>
              AllInRange(rows) && forall i :: 0 <= i < |cpbs| ==> cpbs[i].InRange()
  {
    hide AllInRange;
    RangeAppends();
    if cpbs != [] {
      CpbsRange(rows, cpbs[..|cpbs| - 1]);
    }
  }

  lemma HrdRange(rows: seq<Row>, h: Hrd)
    requires h.Shape()
    ensures AllInRange(HrdRows(rows, h)) <==> AllInRange(rows) && h.InRange()
  {
    hide AllInRange, CpbRows, Pow2;
    RangeAppends();
    var cpbs := Taken(h.cpbs, h.cpbCntMinus1 + 1);
    CpbsRange(ScaleRows(rows, h), cpbs);
    if 0 <= h.cpbCntMinus1 <= 31 {
      assert forall i :: 0 <= i <= h.cpbCntMinus1 ==> cpbs[i] == h.cpbs[i];
    }
  }

  lemma VideoRange(rows: seq<Row>, v: VuiVideo)
    ensures AllInRange(SignalRows(AspectRows(rows, v), v)) <==> AllInRange(rows) && v.InRange()
  {
    hide AllInRange, AspectRows, Pow2;
    AspectRange(rows, v);
    RangeAppends();
  }

  lemma AspectRange(rows: seq<Row>, v: VuiVideo)
    ensures AllInRange(AspectRows(rows, v)) <==>
              && AllInRange(rows)
              && IsFlag(v.aspectRatioInfoPresentFlag) && IsFlag(v.overscanInfoPresentFlag)
              && (v.aspectRatioInfoPresentFlag != 0 ==> BitsDomain(8, v.aspectRatioIdc))
              && (v.ExtendedSar() ==> BitsDomain(16, v.sarWidth) && BitsDomain(16, v.sarHeight))
              && (v.overscanInfoPresentFlag != 0 ==> IsFlag(v.overscanAppropriateFlag))
  {
    hide AllInRange, Pow2;
    RangeAppends();
  }

  lemma TimingRange(rows: seq<Row>, v: VuiTiming)
    ensures AllInRange(TimingRows(rows, v)) <==> AllInRange(rows) && v.InRange()
  {
    hide AllInRange;
    RangeAppends();
  }

  lemma RestrictionRange(rows: seq<Row>, v: VuiRestriction)
    ensures AllInRange(RestrictionRows(rows, v)) <==> AllInRange(rows) && v.InRange()
  {
    hide AllInRange;
    RangeAppends();
  }

  lemma HrdBlockRange(rows: seq<Row>, present: int, h: Hrd)
    requires h.Shape()
    ensures AllInRange(HrdBlockRows(rows, present, h)) <==>
              AllInRange(rows) && IsFlag(present) && (present != 0 ==> h.InRange())
  {
    hide AllInRange, HrdRows, Hrd.InRange;
    RangeAppends();
    if present != 0 {
      HrdRange(rows + [Flag(true, present)], h);
    }
  }

  lemma VuiRange(rows: seq<Row>, v: Vui)
    requires v.Shape()
    ensures AllInRange(VuiRows(rows, v)) <==> AllInRange(rows) && v.InRange()
  {
    hide AllInRange, AspectRows, SignalRows, TimingRows, HrdBlockRows, RestrictionRows;
    hide VuiVideo.InRange, VuiTiming.InRange, VuiRestriction.InRange, Hrd.InRange;
    RangeAppends();
    VideoRange(rows, v.video);
    var r1 := SignalRows(AspectRows(rows, v.video), v.video);
    TimingRange(r1, v.timing);
    var r2 := TimingRows(r1, v.timing);
    HrdBlockRange(r2, v.nalHrdParametersPresentFlag, v.hrdNal);
    var r3 := HrdBlockRows(r2, v.nalHrdParametersPresentFlag, v.hrdNal);
    HrdBlockRange(r3, v.vclHrdParametersPresentFlag, v.hrdVcl);
    var r4 := HrdBlockRows(r3, v.vclHrdParametersPresentFlag, v.hrdVcl)
      + [Flag(v.nalHrdParametersPresentFlag != 0 || v.vclHrdParametersPresentFlag != 0, v.lowDelayHrdFlag)]
      + [Flag(true, v.picStructPresentFlag)];
    RestrictionRange(r4, v.restriction);
    VuiPartsWritable(v);
  }

  lemma VuiPartsWritable(v: Vui)
    ensures v.timing.InRange() ==> v.timing.Writable()
    ensures v.restriction.InRange() ==> v.restriction.Writable()
    ensures v.hrdNal.InRange() ==> v.hrdNal.Writable()
    ensures v.hrdVcl.InRange() ==> v.hrdVcl.Writable()
  {
  }

  /**
    The sets the round trip is about are all those whose rows carry their values: no other
    condition is put on a parameter set, and none on a field that has no row.
  */
  lemma InRangeExactly(s: Sps)
    requires s.Shape()
    ensures s.InRange() <==> AllInRange(SpsRows(s))
  {
    hide AllInRange, HeaderRows, HighRows, PicOrderRows, SizeRows, CroppingRows, VuiRows;
    hide Header.InRange, HighPart.InRange, PicOrder.InRange, Frame.InRange, Vui.InRange;
    RangeAppends();
    HeaderRange([], s.header);
    var r1 := HeaderRows([], s.header);
    HighRange(r1, s.high);
    var r2 := if s.header.HighProfile() then HighRows(r1, s.high) else r1;
    PicOrderRange(r2, s.order);
    FrameRange(PicOrderRows(r2, s.order), s.frame);
    var r3 := CroppingRows(SizeRows(PicOrderRows(r2, s.order), s.frame), s.frame)
      + [Flag(true, s.vuiParametersPresentFlag)];
    VuiRange(r3, s.vui);
    SpsPartsWritable(s);
    assert AllInRange([]) by {
      NothingInRange();
    }
  }

  lemma NothingInRange()
    ensures AllInRange([])
  {
  }

  lemma SpsPartsWritable(s: Sps)
    ensures s.header.InRange() ==> s.header.Writable()
    ensures s.high.InRange() ==> s.high.Writable()
    ensures s.order.InRange() ==> s.order.Writable()
    ensures s.frame.InRange() ==> s.frame.Writable()
    ensures s.vui.InRange() ==> s.vui.Writable()
  {
    hide VuiVideo.InRange, VuiTiming.InRange, VuiRestriction.InRange, Hrd.InRange;
  }

  // ---------------------------------------------------------------- reading rows

  /** Where a row ends that begins at `pos`. */
  function After(bits: seq<bool>, pos: nat, row: Row): (p: nat)
  {
    if !row.sent then pos
    else
      match row
      case U(_, n, _) => pos + n
      case Flag(_, _) => pos + 1
      case Reserved(_, n) => pos + n
      case Ue(_, _) => ReadUe(bits, pos).pos
      case Se(_, _) => ReadSe(bits, pos).pos
      case Number(_, _, _) => ReadUe(bits, pos).pos
      case Scaling(_, e) => ReadList(bits, pos, e.list).pos
  }

  /** What a row holds is what stands at `pos`. */
  predicate StandsAt(bits: seq<bool>, pos: nat, row: Row)
  {
    row.sent ==>
      match row
      case U(_, n, v) => n <= 32 && v == IntAt(bits, pos, n)
      case Flag(_, v) => v == BitAt(bits, pos)
      case Reserved(_, _) => true
      case Ue(_, v) => v == ReadUe(bits, pos).val
      case Se(_, v) => v == ReadSe(bits, pos).val
      case Number(_, v, max) => var coded := ReadUe(bits, pos).val; v == if coded > max then max else coded
      case Scaling(_, e) => var r := ReadList(bits, pos, e.list); r.list == e.list && r.useDefault == e.useDefault
  }

  function End(bits: seq<bool>, pos: nat, rows: seq<Row>): (p: nat)
  {
    if rows == [] then pos else After(bits, End(bits, pos, rows[..|rows| - 1]), rows[|rows| - 1])
  }

  /** The rows stand one behind the other from `pos` on. */
  predicate Stand(bits: seq<bool>, pos: nat, rows: seq<Row>)
  {
    rows == [] ||
    (Stand(bits, pos, rows[..|rows| - 1]) && StandsAt(bits, End(bits, pos, rows[..|rows| - 1]), rows[|rows| - 1]))
  }

  lemma StandsAppend(bits: seq<bool>, pos: nat)
    ensures forall rows, row {:trigger End(bits, pos, rows + [row])} ::
              End(bits, pos, rows + [row]) == After(bits, End(bits, pos, rows), row)
    ensures forall rows, row {:trigger Stand(bits, pos, rows + [row])} ::
              Stand(bits, pos, rows + [row]) <==>
                Stand(bits, pos, rows) && StandsAt(bits, End(bits, pos, rows), row)
  {
    forall rows: seq<Row>, row
      ensures End(bits, pos, rows + [row]) == After(bits, End(bits, pos, rows), row)
      ensures Stand(bits, pos, rows + [row]) <==>
                Stand(bits, pos, rows) && StandsAt(bits, End(bits, pos, rows), row)
    {
      assert (rows + [row])[..|rows|] == rows;
    }
  }

  /** The rows stand, and the reader went on where they end. */
  predicate Walked(bits: seq<bool>, pos: nat, rows: seq<Row>, end: nat)
  {
    Stand(bits, pos, rows) && End(bits, pos, rows) == end
  }

  lemma HeaderWalked(bits: seq<bool>, pos: nat, rows: seq<Row>, from: nat)
    requires Walked(bits, pos, rows, from)
    ensures var g := ReadHeader(bits, from); Walked(bits, pos, HeaderRows(rows, g.val), g.pos)
  {
    hide Stand, End, ReadUe, IntAt, BitAt;
    StandsAppend(bits, pos);
  }

  /** Only the length of a table counts, not what it holds before. */
  lemma {:induction false} ReadListSlots(bits: seq<bool>, pos: nat, a: seq<int>, b: seq<int>)
    requires |a| == |b|
    ensures ReadList(bits, pos, a) == ReadList(bits, pos, b)
    decreases |a|
  {
    hide ReadNext, ReadSe;
    if a != [] {
      ReadListSlots(bits, pos, a[..|a| - 1], b[..|b| - 1]);
    }
  }

  lemma EntryWalked(bits: seq<bool>, pos: nat, rows: seq<Row>, from: nat, slots: seq<int>)
    requires Walked(bits, pos, rows, from)
    ensures var g := ReadEntry(bits, from, slots);
            Walked(bits, pos, rows + [Flag(true, g.val.present)] + [Scaling(g.val.present != 0, g.val)], g.pos)
  {
    hide Stand, End, ReadList, BitAt;
    StandsAppend(bits, pos);
    ReadListSlots(bits, from + 1, slots, ReadEntry(bits, from, slots).val.list);
  }

  lemma {:induction false} ListsWalked(bits: seq<bool>, pos: nat, rows: seq<Row>, from: nat, slots: seq<ScalingEntry>)
    requires Walked(bits, pos, rows, from)
    ensures var g := ReadLists(bits, from, slots); Walked(bits, pos, ListRows(rows, g.val), g.pos)
    decreases |slots|
  {
    hide Walked, ReadEntry;
    if slots != [] {
      var n := |slots| - 1;
      ListsWalked(bits, pos, rows, from, slots[..n]);
      var front, g := ReadLists(bits, from, slots[..n]), ReadLists(bits, from, slots);
      EntryWalked(bits, pos, ListRows(rows, front.val), front.pos, slots[n].list);
      assert g.val[..n] == front.val;
    }
  }

  /** The fields stand, and the reader takes the lists from where they end. */
  lemma HighFieldsWalked(bits: seq<bool>, pos: nat, rows: seq<Row>, from: nat) returns (at: nat)
    requires Walked(bits, pos, rows, from)
    ensures var g := ReadHigh(bits, from);
            var n := if g.val.seqScalingMatrixPresentFlag != 0 then ListCount(g.val.chromaFormatIdc) else 0;
            var lists := ReadLists(bits, at, NoLists()[..n]);
            && Walked(bits, pos, HighFieldRows(rows, g.val), at)
            && g.val.lists == lists.val + NoLists()[n..] && g.pos == lists.pos
  {
    hide Stand, End, ReadUe, BitAt, ReadLists, NoLists;
    StandsAppend(bits, pos);
    at := End(bits, pos, HighFieldRows(rows, ReadHigh(bits, from).val));
  }

  lemma HighWalked(bits: seq<bool>, pos: nat, rows: seq<Row>, from: nat)
    requires Walked(bits, pos, rows, from)
    ensures var g := ReadHigh(bits, from); Walked(bits, pos, HighRows(rows, g.val), g.pos)
  {
    hide Walked, ReadHigh, ReadLists, HighFieldRows, ListRows;
    var g := ReadHigh(bits, from).val;
    var at := HighFieldsWalked(bits, pos, rows, from);
    var n := if g.seqScalingMatrixPresentFlag != 0 then ListCount(g.chromaFormatIdc) else 0;
    ListsWalked(bits, pos, HighFieldRows(rows, g), at, NoLists()[..n]);
    assert g.lists[..n] == ReadLists(bits, at, NoLists()[..n]).val;
    assert NoLists()[..0] == [] && ListRows(HighFieldRows(rows, g), []) == HighFieldRows(rows, g) by {
      NoListRows(HighFieldRows(rows, g));
    }
  }

  lemma NoListRows(rows: seq<Row>)
    ensures ListRows(rows, []) == rows
  {
  }

  lemma {:induction false} OffsetsWalked(bits: seq<bool>, pos: nat, rows: seq<Row>, from: nat, slots: seq<int>)
    requires Walked(bits, pos, rows, from)
    ensures var g := ReadSes(bits, from, slots); Walked(bits, pos, OffsetRows(rows, g.val), g.pos)
    decreases |slots|
  {
    hide Stand, End, ReadSe;
    StandsAppend(bits, pos);
    if slots != [] {
      var n := |slots| - 1;
      OffsetsWalked(bits, pos, rows, from, slots[..n]);
      var front, g := ReadSes(bits, from, slots[..n]), ReadSes(bits, from, slots);
      assert g.val[..n] == front.val;
    }
  }

  lemma PicOrderFieldsWalked(bits: seq<bool>, pos: nat, rows: seq<Row>, from: nat) returns (at: nat)
    requires Walked(bits, pos, rows, from)
    ensures var g := ReadPicOrder(bits, from);
            var n := Count(g.val.numRefFramesInPicOrderCntCycle);
            && n <= 256
            && (g.val.picOrderCntType != 1 ==> n == 0)
            && var offsets := ReadSes(bits, at, Zeros(256)[..n]);
            && Walked(bits, pos, PicOrderFieldRows(rows, g.val), at)
            && g.val.offsetForRefFrame == offsets.val + Zeros(256)[n..] && g.pos == offsets.pos
  {
    hide Stand, End, ReadUe, ReadSe, BitAt, ReadSes, Zeros;
    StandsAppend(bits, pos);
    at := End(bits, pos, PicOrderFieldRows(rows, ReadPicOrder(bits, from).val));
  }

  lemma PicOrderWalked(bits: seq<bool>, pos: nat, rows: seq<Row>, from: nat)
    requires Walked(bits, pos, rows, from)
    ensures var g := ReadPicOrder(bits, from); Walked(bits, pos, PicOrderRows(rows, g.val), g.pos)
  {
    hide Walked, ReadPicOrder, ReadSes, PicOrderFieldRows, OffsetRows;
    var g := ReadPicOrder(bits, from).val;
    var at := PicOrderFieldsWalked(bits, pos, rows, from);
    var n := Count(g.numRefFramesInPicOrderCntCycle);
    OffsetsWalked(bits, pos, PicOrderFieldRows(rows, g), at, Zeros(256)[..n]);
    assert g.offsetForRefFrame[..n] == ReadSes(bits, at, Zeros(256)[..n]).val;
    assert OffsetRows(PicOrderFieldRows(rows, g), []) == PicOrderFieldRows(rows, g) by {
      NoOffsetRows(PicOrderFieldRows(rows, g));
    }
  }

  lemma NoOffsetRows(rows: seq<Row>)
    ensures OffsetRows(rows, []) == rows
  {
  }

  lemma FrameWalked(bits: seq<bool>, pos: nat, rows: seq<Row>, from: nat)
    requires Walked(bits, pos, rows, from)
    ensures var g := ReadFrame(bits, from); Walked(bits, pos, CroppingRows(SizeRows(rows, g.val), g.val), g.pos)
  {
    hide Stand, End, ReadUe, BitAt;
    SizeWalked(bits, pos, rows, from);
    StandsAppend(bits, pos);
    assert SizeRows(rows, ReadFrame(bits, from).val) == SizeRows(rows, ReadFrameSize(bits, from).val);
  }

  lemma SizeWalked(bits: seq<bool>, pos: nat, rows: seq<Row>, from: nat)
    requires Walked(bits, pos, rows, from)
    ensures var g := ReadFrameSize(bits, from); Walked(bits, pos, SizeRows(rows, g.val), g.pos)
  {
    hide Stand, End, ReadUe, BitAt;
    StandsAppend(bits, pos);
  }

  lemma {:induction false} CpbsWalked(bits: seq<bool>, pos: nat, rows: seq<Row>, from: nat, slots: seq<Cpb>)
    requires Walked(bits, pos, rows, from)
    ensures var g := ReadCpbs(bits, from, slots); Walked(bits, pos, CpbRows(rows, g.val), g.pos)
    decreases |slots|
  {
    hide Stand, End, ReadUe, BitAt;
    StandsAppend(bits, pos);
    if slots != [] {
      var n := |slots| - 1;
      CpbsWalked(bits, pos, rows, from, slots[..n]);
      var front, g := ReadCpbs(bits, from, slots[..n]), ReadCpbs(bits, from, slots);
      assert g.val[..n] == front.val;
    }
  }

  lemma ScalesWalked(bits: seq<bool>, pos: nat, rows: seq<Row>, from: nat) returns (at: nat)
    requires Walked(bits, pos, rows, from)
    ensures var g := ReadHrd(bits, from);
            var n := Count(g.val.cpbCntMinus1 + 1);
            && n <= 32
            && var cpbs := ReadCpbs(bits, at, NoCpbs()[..n]);
            && Walked(bits, pos, ScaleRows(rows, g.val), at)
            && g.val.cpbs == cpbs.val + NoCpbs()[n..] && g.pos == ReadLengths(bits, cpbs.pos).pos
            && LengthsOf(g.val) == ReadLengths(bits, cpbs.pos).val
  {
    hide Stand, End, ReadUe, IntAt, ReadCpbs, ReadLengths, NoCpbs;
    StandsAppend(bits, pos);
    at := End(bits, pos, ScaleRows(rows, ReadHrd(bits, from).val));
  }

  function LengthsOf(h: Hrd): (r: (int, int, int, int))
  {
    (h.initialCpbRemovalDelayLengthMinus1, h.cpbRemovalDelayLengthMinus1,
     h.dpbOutputDelayLengthMinus1, h.timeOffsetLength)
  }

  lemma LengthsWalked(bits: seq<bool>, pos: nat, rows: seq<Row>, from: nat, h: Hrd)
    requires Walked(bits, pos, rows, from)
    requires LengthsOf(h) == ReadLengths(bits, from).val
    ensures Walked(bits, pos, LengthRows(rows, h), ReadLengths(bits, from).pos)
  {
    hide Stand, End, IntAt;
    StandsAppend(bits, pos);
  }

  lemma HrdWalked(bits: seq<bool>, pos: nat, rows: seq<Row>, from: nat)
    requires Walked(bits, pos, rows, from)
    ensures var g := ReadHrd(bits, from); Walked(bits, pos, HrdRows(rows, g.val), g.pos)
  {
    hide Walked, ReadHrd, ReadCpbs, ReadLengths, ScaleRows, CpbRows, LengthRows, LengthsOf;
    var g := ReadHrd(bits, from).val;
    var at := ScalesWalked(bits, pos, rows, from);
    var n := Count(g.cpbCntMinus1 + 1);
    var cpbs := ReadCpbs(bits, at, NoCpbs()[..n]);
    CpbsWalked(bits, pos, ScaleRows(rows, g), at, NoCpbs()[..n]);
    assert g.cpbs[..n] == cpbs.val;
    LengthsWalked(bits, pos, CpbRows(ScaleRows(rows, g), cpbs.val), cpbs.pos, g);
  }

  lemma VideoWalked(bits: seq<bool>, pos: nat, rows: seq<Row>, from: nat)
    requires Walked(bits, pos, rows, from)
    ensures var g := ReadVuiVideo(bits, from); Walked(bits, pos, SignalRows(AspectRows(rows, g.val), g.val), g.pos)
  {
    hide Walked, SignalRows, AspectRows, ReadSignal, ReadAspect;
    var v := ReadAspect(bits, from);
    AspectWalked(bits, pos, rows, from);
    SignalKeepsAspect(bits, rows, v.pos, v.val);
    SignalWalked(bits, pos, AspectRows(rows, v.val), v.pos, v.val);
  }

  lemma SignalKeepsAspect(bits: seq<bool>, rows: seq<Row>, from: nat, v: VuiVideo)
    ensures AspectRows(rows, ReadSignal(bits, from, v).val) == AspectRows(rows, v)
  {
  }

  lemma SignalWalked(bits: seq<bool>, pos: nat, rows: seq<Row>, from: nat, v: VuiVideo)
    requires Walked(bits, pos, rows, from)
    ensures var g := ReadSignal(bits, from, v); Walked(bits, pos, SignalRows(rows, g.val), g.pos)
  {
    hide Stand, End, IntAt, BitAt;
    StandsAppend(bits, pos);
  }

  lemma AspectWalked(bits: seq<bool>, pos: nat, rows: seq<Row>, from: nat)
    requires Walked(bits, pos, rows, from)
    ensures var g := ReadAspect(bits, from); Walked(bits, pos, AspectRows(rows, g.val), g.pos)
  {
    hide Stand, End, IntAt, BitAt;
    StandsAppend(bits, pos);
  }

  lemma TimingWalked(bits: seq<bool>, pos: nat, rows: seq<Row>, from: nat)
    requires Walked(bits, pos, rows, from)
    ensures var g := ReadVuiTiming(bits, from); Walked(bits, pos, TimingRows(rows, g.val), g.pos)
  {
    hide Stand, End, ReadUe, IntAt, BitAt;
    StandsAppend(bits, pos);
  }

  lemma RestrictionWalked(bits: seq<bool>, pos: nat, rows: seq<Row>, from: nat)
    requires Walked(bits, pos, rows, from)
    ensures var g := ReadVuiRestriction(bits, from); Walked(bits, pos, RestrictionRows(rows, g.val), g.pos)
  {
    hide Stand, End, ReadUe, BitAt;
    StandsAppend(bits, pos);
  }

  lemma HrdBlockWalked(bits: seq<bool>, pos: nat, rows: seq<Row>, from: nat)
    requires Walked(bits, pos, rows, from)
    ensures var g := ReadHrdBlock(bits, from); Walked(bits, pos, HrdBlockRows(rows, g.val.0, g.val.1), g.pos)
  {
    hide Stand, End, BitAt, ReadHrd, HrdRows;
    StandsAppend(bits, pos);
    if BitAt(bits, from) != 0 {
      HrdWalked(bits, pos, rows + [Flag(true, BitAt(bits, from))], from + 1);
    }
  }

  lemma VuiWalked(bits: seq<bool>, pos: nat, rows: seq<Row>, from: nat)
    requires Walked(bits, pos, rows, from)
    ensures var g := ReadVui(bits, from); Walked(bits, pos, VuiRows(rows, g.val), g.pos)
  {
    hide Stand, End, BitAt, ReadVuiVideo, ReadVuiTiming, ReadVuiRestriction, ReadHrdBlock;
    hide AspectRows, SignalRows, TimingRows, HrdBlockRows, RestrictionRows;
    var v := ReadVui(bits, from).val;
    var video := ReadVuiVideo(bits, from);
    VideoWalked(bits, pos, rows, from);
    var r1 := SignalRows(AspectRows(rows, v.video), v.video);
    var timing := ReadVuiTiming(bits, video.pos);
    TimingWalked(bits, pos, r1, video.pos);
    var r2 := TimingRows(r1, v.timing);
    HrdBlockWalked(bits, pos, r2, timing.pos);
    var r3 := HrdBlockRows(r2, v.nalHrdParametersPresentFlag, v.hrdNal);
    var nal := ReadHrdBlock(bits, timing.pos);
    HrdBlockWalked(bits, pos, r3, nal.pos);
    var r4 := HrdBlockRows(r3, v.vclHrdParametersPresentFlag, v.hrdVcl)
      + [Flag(v.nalHrdParametersPresentFlag != 0 || v.vclHrdParametersPresentFlag != 0, v.lowDelayHrdFlag)]
      + [Flag(true, v.picStructPresentFlag)];
    StandsAppend(bits, pos);
    RestrictionWalked(bits, pos, r4, End(bits, pos, r4));
  }

  /**
    On any bits, the rows of what the reader returns stand one behind the other from where it
    began to where it stopped: every element is taken in the order of the standard, at its
    width and by its code, and none is skipped.
  */
  lemma ReaderFollowsTable(bits: seq<bool>, pos: nat)
    ensures var g := ReadSps(bits, pos);
            Stand(bits, pos, SpsRows(g.val)) && End(bits, pos, SpsRows(g.val)) == g.pos
  {
    hide Stand, End, BitAt, ReadHeader, ReadHigh, ReadPicOrder, ReadFrame, ReadVui;
    hide HeaderRows, HighRows, PicOrderRows, SizeRows, CroppingRows, VuiRows;
    var s := ReadSps(bits, pos).val;
    assert Walked(bits, pos, [], pos) by {
      NothingWalked(bits, pos);
    }
    var header := ReadHeader(bits, pos);
    HeaderWalked(bits, pos, [], pos);
    var r1 := HeaderRows([], s.header);
    var high := if s.header.HighProfile() then ReadHigh(bits, header.pos) else Got(NoHighPart(), header.pos);
    if s.header.HighProfile() {
      HighWalked(bits, pos, r1, header.pos);
    }
    var r2 := if s.header.HighProfile() then HighRows(r1, s.high) else r1;
    var order := ReadPicOrder(bits, high.pos);
    PicOrderWalked(bits, pos, r2, high.pos);
    FrameWalked(bits, pos, PicOrderRows(r2, s.order), order.pos);
    var r3 := CroppingRows(SizeRows(PicOrderRows(r2, s.order), s.frame), s.frame)
      + [Flag(true, s.vuiParametersPresentFlag)];
    StandsAppend(bits, pos);
    if s.vuiParametersPresentFlag != 0 {
      VuiWalked(bits, pos, r3, End(bits, pos, r3));
    }
  }

  lemma NothingWalked(bits: seq<bool>, pos: nat)
    ensures Walked(bits, pos, [], pos)
  {
  }

  // ---------------------------------------------------------------- what is not sent

  predicate NoEntry(e: ScalingEntry)
  {
    e.present == 0 == e.useDefault && forall j :: 0 <= j < |e.list| ==> e.list[j] == 0
  }

  /** The fields of the high part whose rows are absent, and the sizes of its tables. */
  predicate HighAbsent(sent: bool, h: HighPart)
  {
    && |h.lists| == 12
    && (forall i :: 0 <= i < 6 ==> |h.lists[i].list| == 16)
    && (forall i :: 6 <= i < 12 ==> |h.lists[i].list| == 64)
    && (!sent ==>
          && h.chromaFormatIdc == 1
          && h.bitDepthLumaMinus8 == h.bitDepthChromaMinus8 == h.qpprimeYZeroTransformBypassFlag == 0
          && h.seqScalingMatrixPresentFlag == 0)
    && (h.chromaFormatIdc != 3 ==> h.residualColourTransformFlag == 0)
    && (forall i :: 0 <= i < 12 ==>
          (h.seqScalingMatrixPresentFlag == 0 || (i >= 8 && h.chromaFormatIdc != 3) || h.lists[i].present == 0) ==>
            NoEntry(h.lists[i]))
  }

  predicate PicOrderAbsent(o: PicOrder)
  {
    && |o.offsetForRefFrame| == 256
    && (o.picOrderCntType != 0 ==> o.log2MaxPicOrderCntLsbMinus4 == 0)
    && (o.picOrderCntType != 1 ==>
          && o.deltaPicOrderAlwaysZeroFlag == o.offsetForNonRefPic == o.offsetForTopToBottomField == 0
          && o.numRefFramesInPicOrderCntCycle == 0)
    && (forall i :: 0 <= i < 256 && i >= o.numRefFramesInPicOrderCntCycle ==> o.offsetForRefFrame[i] == 0)
  }

  predicate FrameAbsent(f: Frame)
  {
    && (f.frameMbsOnlyFlag != 0 ==> f.mbAdaptiveFrameFieldFlag == 0)
    && (f.frameCroppingFlag == 0 ==>
          && f.frameCropLeftOffset == f.frameCropRightOffset == 0
          && f.frameCropTopOffset == f.frameCropBottomOffset == 0)
  }

  predicate HrdAbsent(sent: bool, h: Hrd)
  {
    && |h.cpbs| == 32
    && (!sent ==>
          && h.cpbCntMinus1 == h.bitRateScale == h.cpbSizeScale == 0
          && h.initialCpbRemovalDelayLengthMinus1 == h.cpbRemovalDelayLengthMinus1 == 0
          && h.dpbOutputDelayLengthMinus1 == h.timeOffsetLength == 0)
    && (forall i :: 0 <= i < 32 && (!sent || i > h.cpbCntMinus1) ==> h.cpbs[i] == Cpb(0, 0, 0))
  }

  predicate VideoAbsent(sent: bool, v: VuiVideo)
  {
    && (!sent ==> v.aspectRatioInfoPresentFlag == v.overscanInfoPresentFlag == v.videoSignalTypePresentFlag == 0)
    && (v.aspectRatioInfoPresentFlag == 0 ==> v.aspectRatioIdc == 0)
    && (v.aspectRatioIdc != 255 ==> v.sarWidth == v.sarHeight == 0)
    && (v.overscanInfoPresentFlag == 0 ==> v.overscanAppropriateFlag == 0)
    && (v.videoSignalTypePresentFlag == 0 ==>
          v.videoFormat == v.videoFullRangeFlag == v.colourDescriptionPresentFlag == 0)
    && (v.colourDescriptionPresentFlag == 0 ==>
          v.colourPrimaries == v.transferCharacteristics == v.matrixCoefficients == 0)
  }

  predicate VuiAbsent(sent: bool, v: Vui)
  {
    && VideoAbsent(sent, v.video)
    && (!sent ==> v.timing.chromaLocInfoPresentFlag == v.timing.timingInfoPresentFlag == 0)
    && (v.timing.chromaLocInfoPresentFlag == 0 ==>
          v.timing.chromaSampleLocTypeTopField == v.timing.chromaSampleLocTypeBottomField == 0)
    && (v.timing.timingInfoPresentFlag == 0 ==>
          v.timing.numUnitsInTick == v.timing.timeScale == v.timing.fixedFrameRateFlag == 0)
    && (!sent ==> v.nalHrdParametersPresentFlag == v.vclHrdParametersPresentFlag == 0)
    && HrdAbsent(v.nalHrdParametersPresentFlag != 0, v.hrdNal)
    && HrdAbsent(v.vclHrdParametersPresentFlag != 0, v.hrdVcl)
    && (v.nalHrdParametersPresentFlag == v.vclHrdParametersPresentFlag == 0 ==> v.lowDelayHrdFlag == 0)
    && (!sent ==> v.picStructPresentFlag == v.restriction.bitstreamRestrictionFlag == 0)
    && (v.restriction.bitstreamRestrictionFlag == 0 ==>
          && v.restriction.motionVectorsOverPicBoundariesFlag == 0
          && v.restriction.maxBytesPerPicDenom == v.restriction.maxBitsPerMbDenom == 0
          && v.restriction.log2MaxMvLengthHorizontal == v.restriction.log2MaxMvLengthVertical == 0
          && v.restriction.numReorderFrames == v.restriction.maxDecFrameBuffering == 0)
  }

  lemma {:induction false} ListsAbsent(bits: seq<bool>, pos: nat, slots: seq<ScalingEntry>)
    ensures var g := ReadLists(bits, pos, slots).val;
            forall i :: 0 <= i < |slots| && g[i].present == 0 ==> g[i] == ScalingEntry(0, slots[i].list, 0)
    decreases |slots|
  {
    hide ReadList, BitAt;
    if slots != [] {
      ListsAbsent(bits, pos, slots[..|slots| - 1]);
    }
  }

  lemma HighFieldsAbsent(bits: seq<bool>, pos: nat)
    ensures HighAbsent(true, ReadHigh(bits, pos).val) && HighAbsent(false, NoHighPart())
  {
    hide ReadUe, BitAt, ReadLists;
    var at := HighFieldsWalked(bits, pos, [], pos) by {
      NothingWalked(bits, pos);
    }
    var h := ReadHigh(bits, pos).val;
    var n := if h.seqScalingMatrixPresentFlag != 0 then ListCount(h.chromaFormatIdc) else 0;
    ListsAbsent(bits, at, NoLists()[..n]);
  }

  lemma PicOrderFieldsAbsent(bits: seq<bool>, pos: nat)
    ensures PicOrderAbsent(ReadPicOrder(bits, pos).val)
    ensures ReadPicOrder(bits, pos).val.numRefFramesInPicOrderCntCycle <= 256
  {
    hide ReadUe, ReadSe, BitAt, ReadSes;
  }

  lemma FrameFieldsAbsent(bits: seq<bool>, pos: nat)
    ensures FrameAbsent(ReadFrame(bits, pos).val)
  {
    hide ReadUe, BitAt;
  }

  lemma VideoFieldsAbsent(bits: seq<bool>, pos: nat)
    ensures VideoAbsent(true, ReadVuiVideo(bits, pos).val)
  {
    hide IntAt, BitAt;
  }

  lemma HrdFieldsAbsent(bits: seq<bool>, pos: nat)
    ensures var h := ReadHrdBlock(bits, pos).val;
            HrdAbsent(h.0 != 0, h.1) && h.1.cpbCntMinus1 <= 31
  {
    hide ReadUe, IntAt, BitAt, ReadCpbs, ReadLengths;
  }

  lemma VuiFieldsAbsent(bits: seq<bool>, pos: nat)
    ensures var v := ReadVui(bits, pos).val;
            VuiAbsent(true, v) && v.hrdNal.cpbCntMinus1 <= 31 && v.hrdVcl.cpbCntMinus1 <= 31
  {
    hide ReadUe, IntAt, BitAt, ReadVuiVideo, ReadHrdBlock, HrdAbsent, VideoAbsent;
    VideoFieldsAbsent(bits, pos);
    var timing := ReadVuiTiming(bits, ReadVuiVideo(bits, pos).pos);
    HrdFieldsAbsent(bits, timing.pos);
    HrdFieldsAbsent(bits, ReadHrdBlock(bits, timing.pos).pos);
  }

  lemma NoVuiAbsent()
    ensures VuiAbsent(false, NoVui()) && NoVui().hrdNal.cpbCntMinus1 == NoVui().hrdVcl.cpbCntMinus1 == 0
  {
  }

  lemma NothingReserved(bits: seq<bool>, pos: nat)
    ensures ReadHeader(bits, pos).val.reservedZero2Bits == 0
  {
    hide IntAt, BitAt, ReadUe;
  }

  /**
    What the reader leaves in the fields it does not reach, on any bits: zero everywhere, but
    one for the chroma format; its two counts stay within tables of 256 and 32.
  */
  lemma ReaderDefaults(bits: seq<bool>, pos: nat)
    ensures var s := ReadSps(bits, pos).val;
            && s.header.reservedZero2Bits == 0
            && HighAbsent(s.header.profileIdc in {100, 110, 122, 244, 44, 83, 86, 118, 128, 138, 139, 134}, s.high)
            && PicOrderAbsent(s.order) && s.order.numRefFramesInPicOrderCntCycle <= 256
            && FrameAbsent(s.frame)
            && VuiAbsent(s.vuiParametersPresentFlag != 0, s.vui)
            && s.vui.hrdNal.cpbCntMinus1 <= 31 && s.vui.hrdVcl.cpbCntMinus1 <= 31
  {
    hide HighAbsent, PicOrderAbsent, FrameAbsent, VuiAbsent, ReadHigh, ReadPicOrder, ReadFrame, ReadVui, NoHighPart;
    hide ReadHeader, Header.HighProfile, HighPart.Shape, PicOrder.Shape, Vui.Shape, NoVui;
    var header := ReadHeader(bits, pos);
    HighProfiles(header.val);
    NothingReserved(bits, pos);
    HighFieldsAbsent(bits, header.pos);
    var high := if header.val.HighProfile() then ReadHigh(bits, header.pos) else Got(NoHighPart(), header.pos);
    PicOrderFieldsAbsent(bits, high.pos);
    var order := ReadPicOrder(bits, high.pos);
    FrameFieldsAbsent(bits, order.pos);
    NoVuiAbsent();
    VuiFieldsAbsent(bits, ReadFrame(bits, order.pos).pos + 1);
  }

  // ---------------------------------------------------------------- the profiles that send the high part

  /** Behind the header of such a profile comes chroma_format_idc, behind any other the frame number's size. */
  lemma ProfileDecides(t: seq<bool>, s: Sps)
    requires s.InRange()
    ensures if s.header.profileIdc in {100, 110, 122, 244, 44, 83, 86, 118, 128, 138, 139, 134}
            then PutUe(s.header.Put(t), s.high.chromaFormatIdc) <= s.Put(t)
            else PutUe(s.header.Put(t), s.order.log2MaxFrameNumMinus4) <= s.Put(t)
  {
    hide PutUe;
    var t1 := s.header.Put(t);
    SpsPrefixes(t, s);
    if s.header.HighProfile() {
      HighBegins(t1, s.high, s.Put(t));
    } else {
      OrderBegins(t1, s.order, s.Put(t));
    }
  }

  lemma SpsPrefixes(t: seq<bool>, s: Sps)
    requires s.InRange()
    ensures var t1 := s.header.Put(t);
            && s.PutHigh(t1) <= s.order.Put(s.PutHigh(t1)) <= s.Put(t)
  {
    hide Header.Put, PicOrder.Put, Frame.Put, HighPart.Put, Vui.Put, PutFlagIf, Sps.PutVui;
    hide PicOrder.InRange, Frame.InRange, Vui.InRange, HighPart.InRange;
    hide ReadFrame, ReadPicOrder, Frame.Canonical, PicOrder.Canonical;
    var t2 := s.PutHigh(s.header.Put(t));
    var t3 := s.order.Put(t2);
    EndPrefix(s, s.frame.Put(t3));
    FrameLaw(t3, s.frame, s.frame.Put(t3));
    PicOrderLaw(t2, s.order, t3);
  }

  lemma EndPrefix(s: Sps, t: seq<bool>)
    requires s.InRange() && s.Writable()
    ensures t <= s.PutVui(PutFlagIf(true, t, s.vuiParametersPresentFlag))
  {
    hide Vui.Put, Vui.InRange, Vui.Canonical, ReadVui, HighPart.InRange, PicOrder.InRange, Frame.InRange;
    var u := PutFlagIf(true, t, s.vuiParametersPresentFlag);
    if s.vuiParametersPresentFlag != 0 {
      VuiLaw(u, s.vui, s.vui.Put(u));
    }
  }

  lemma HighBegins(t: seq<bool>, h: HighPart, bits: seq<bool>)
    requires h.InRange() && h.Put(t) <= bits
    ensures PutUe(t, h.chromaFormatIdc) <= bits
  {
    hide PutUe, PutFlag;
    ListsLaw(h.PutFields(t), h.lists[..h.SentLists()], bits);
    ElementLaws(bits);
    var t1 := PutUeIf(true, t, h.chromaFormatIdc);
    assert t1 <= bits;
  }

  lemma OrderBegins(t: seq<bool>, o: PicOrder, bits: seq<bool>)
    requires o.InRange() && o.Put(t) <= bits
    ensures PutUe(t, o.log2MaxFrameNumMinus4) <= bits
  {
    hide PutUe, PutFlag, PutSe;
    var n := o.SentOffsets();
    SesLaw(o.PutFields(t), o.offsetForRefFrame[..n], o.offsetForRefFrame[..n], bits);
    ElementLaws(bits);
    var t1 := PutUeIf(true, t, o.log2MaxFrameNumMinus4);
    assert t1 <= bits;
  }

  /** What the reader takes the first code behind the header for, on any bits. */
  lemma ProfileDecidesReading(bits: seq<bool>, pos: nat)
    ensures var s, behind := ReadSps(bits, pos).val, ReadHeader(bits, pos).pos;
            var code := ReadUe(bits, behind).val;
            if s.header.profileIdc in {100, 110, 122, 244, 44, 83, 86, 118, 128, 138, 139, 134}
            then s.high.chromaFormatIdc == code
            else s.order.log2MaxFrameNumMinus4 == code
  {
    hide ReadHeader, ReadUe, ReadSe, BitAt, ReadLists, ReadSes, ReadFrame, ReadVui;
  }

  // ---------------------------------------------------------------- the codes of a scaling list

  /** A difference brought into -128..127 by a multiple of 256. */
  function Wrapped(d: int): (w: int)
    ensures -128 <= w <= 127 && (w - d) % 256 == 0
  {
    (d + 128) % 256 - 128
  }

  /** The differences of the first `n` entries, each to the entry before, the first to 8. */
  function DifferenceRows(list: seq<int>, n: nat): (rows: seq<Row>)
    requires n <= |list|
  {
    if n == 0 then []
    else
      DifferenceRows(list, n - 1)
      + [Se(true, Wrapped(list[n - 1] - if n == 1 then 8 else list[n - 2]))]
  }

  lemma {:induction false} TailConstantMeans(e: ScalingEntry, j: nat)
    requires 0 < j <= |e.list|
    ensures e.TailConstant(j) <==> forall i :: j <= i < |e.list| ==> e.list[i] == e.list[j - 1]
    decreases |e.list| - j
  {
    if j < |e.list| {
      TailConstantMeans(e, j + 1);
    }
  }

  /**
    The codes of a list that is sent: one for each entry up to the last that differs from the
    one before it, and then, when entries are left, the one that leads to 0 and stops. A list
    left to the default sends that one alone.
  */
  lemma ScalingListCodes(t: seq<bool>, e: ScalingEntry, k: nat)
    requires e.ListInRange() && e.ListWritable() && 1 <= k <= |e.list|
    requires forall i :: k <= i < |e.list| ==> e.list[i] == e.list[k - 1]
    requires k >= 2 ==> e.list[k - 1] != e.list[k - 2]
    ensures e.PutList(t, |e.list|) ==
      if e.useDefault != 0 then PutSe(t, -8)
      else
        var sent := PutRows(t, DifferenceRows(e.list, k));
        if k < |e.list| then PutSe(sent, Wrapped(0 - e.list[k - 1])) else sent
  {
    hide PutSe, PutRows, DifferenceRows, Wrapped, ScalingEntry.PutList, ScalingEntry.Coding;
    if e.useDefault != 0 {
      DefaultPut(t, e);
    } else {
      EntriesPut(t, e, k, k);
      if k < |e.list| {
        StopPut(t, e, k);
      }
    }
  }

  lemma DefaultPut(t: seq<bool>, e: ScalingEntry)
    requires e.ListInRange() && e.ListWritable() && e.useDefault != 0 && e.list != []
    ensures e.PutList(t, |e.list|) == PutSe(t, -8)
  {
    hide PutSe;
    NothingPut(t, e, 1, |e.list|);
    assert e.PutList(t, 0) == t;
    assert e.PutList(t, 1) == PutSe(t, -8);
  }

  lemma StopPut(t: seq<bool>, e: ScalingEntry, k: nat)
    requires e.ListInRange() && e.ListWritable() && e.useDefault == 0 && 1 <= k < |e.list| && e.Coding(k)
    requires forall i :: k <= i < |e.list| ==> e.list[i] == e.list[k - 1]
    ensures e.PutList(t, |e.list|) == PutSe(e.PutList(t, k), Wrapped(0 - e.list[k - 1]))
  {
    hide PutSe, Wrapped, ScalingEntry.TailConstant, ScalingEntry.ListInRange, ScalingEntry.Next, ScalingEntry.Delta;
    TailConstantMeans(e, k);
    NextStops(e, k);
    NothingPut(t, e, k + 1, |e.list|);
    assert e.PutList(t, k + 1) == PutSe(e.PutList(t, k), e.Delta(k));
  }

  lemma NextStops(e: ScalingEntry, k: nat)
    requires e.ListInRange() && e.useDefault == 0 && 1 <= k < |e.list| && e.TailConstant(k)
    ensures e.Next(k) == 0 && e.Delta(k) == Wrapped(0 - e.list[k - 1])
  {
    hide ScalingEntry.TailConstant;
  }

  lemma {:induction false} EntriesPut(t: seq<bool>, e: ScalingEntry, k: nat, n: nat)
    requires e.ListInRange() && e.ListWritable() && e.useDefault == 0 && n <= k <= |e.list|
    requires k >= 2 ==> e.list[k - 1] != e.list[k - 2]
    ensures e.Coding(n)
    ensures e.PutList(t, n) == PutRows(t, DifferenceRows(e.list, n))
    decreases n
  {
    hide PutSe, PutRows, Wrapped, ScalingEntry.TailConstant, ScalingEntry.ListInRange;
    hide ScalingEntry.Next, ScalingEntry.Delta;
    if n == 0 {
      NoRows(t);
    } else {
      EntriesPut(t, e, k, n - 1);
      NextGoesOn(e, k, n - 1);
      PutsAppend();
      assert e.PutList(t, n) == PutSe(e.PutList(t, n - 1), e.Delta(n - 1));
    }
  }

  lemma NextGoesOn(e: ScalingEntry, k: nat, j: nat)
    requires e.ListInRange() && e.useDefault == 0 && j < k <= |e.list|
    requires k >= 2 ==> e.list[k - 1] != e.list[k - 2]
    ensures e.Next(j) == e.list[j] != 0
    ensures e.Delta(j) == Wrapped(e.list[j] - if j == 0 then 8 else e.list[j - 1])
  {
    hide ScalingEntry.TailConstant;
    if j > 0 {
      TailConstantMeans(e, j);
      assert !e.TailConstant(j);
    }
  }

  /** Once stopped, the writer puts nothing more. */
  lemma {:induction false} NothingPut(t: seq<bool>, e: ScalingEntry, j: nat, n: nat)
    requires e.ListWritable() && j <= n <= |e.list| && !e.Coding(j)
    ensures !e.Coding(n) && e.PutList(t, n) == e.PutList(t, j)
    decreases n - j
  {
    hide PutSe;
    if j < n {
      NothingPut(t, e, j, n - 1);
    }
  }

  // ---------------------------------------------------------------- signed codes

  /** The code numbers 0, 1, 2, 3, 4, ... carry 0, 1, -1, 2, -2, ... (section 9.1.1), both ways. */
  lemma SignedCodes(k: int)
    requires 0 <= k < 0x7FFF_FFFF
    ensures SeOfCode(k) == if k % 2 == 1 then (k + 1) / 2 else -(k / 2)
    ensures k <= 65534 ==> SeDomain(SeOfCode(k)) && SeToUe(SeOfCode(k)) == k
  {
  }
}
