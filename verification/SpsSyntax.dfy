/**
  The sequence parameter set of h264bitstream/h264_stream.h and its syntax, sections
  7.3.2.1.1, 7.3.2.1.1.1, E.1.1 and E.1.2 of ITU-T H.264.

  The fields of `sps_t` are grouped into the runs in which the syntax sends them. For each
  group there is
    - `Put`: the bits the writer appends;
    - `Read`: what the reader makes of any bits at any position;
    - `Writable`: what the writer needs so that no shift and no table index is undefined;
    - `InRange`: the values the syntax can carry;
    - `Canonical`: the group with every field the reader does not reach at its default.
*/
module SpsSyntax {
  import opened BitCodes

  const SAR_EXTENDED := 255
  const NAL_UNIT_TYPE_SPS := 7
  const MAX_REF_FRAMES_IN_CYCLE := 256
  const MAX_CPB_COUNT := 32
  const SCALING_LISTS := 12

  function Zeros(n: nat): (s: seq<int>)
    ensures |s| == n && forall k :: 0 <= k < n ==> s[k] == 0
  {
    seq(n, _ => 0)
  }

  /** The first `n` entries of a table; the entries after them at the reader's default. */
  function FirstN<T>(s: seq<T>, n: nat, default: T): (r: seq<T>)
    requires n <= |s|
    ensures |r| == |s|
  {
    s[..n] + seq(|s| - n, _ => default)
  }

  /** The number of rounds of a C loop that runs up from zero while below `n`. */
  function Count(n: int): (r: nat)
    ensures r <= n || r == 0
  {
    if n < 0 then 0 else n
  }

  function Clamp(v: int, max: int): (r: int)
    ensures r <= max
  {
    if v > max then max else v
  }

  // ---------------------------------------------------------------- header

  datatype Header = Header(
    profileIdc: int,
    constraintSet0Flag: int,
    constraintSet1Flag: int,
    constraintSet2Flag: int,
    constraintSet3Flag: int,
    constraintSet4Flag: int,
    constraintSet5Flag: int,
    reservedZero2Bits: int,
    levelIdc: int,
    seqParameterSetId: int)
  {
    predicate Writable()
    {
      UeDomain(seqParameterSetId)
    }

    predicate InRange()
    {
      && Writable()
      && BitsDomain(8, profileIdc) && BitsDomain(8, levelIdc)
      && IsFlag(constraintSet0Flag) && IsFlag(constraintSet1Flag) && IsFlag(constraintSet2Flag)
      && IsFlag(constraintSet3Flag) && IsFlag(constraintSet4Flag) && IsFlag(constraintSet5Flag)
    }

    function Canonical(): (c: Header)
    {
      this.(reservedZero2Bits := 0)
    }

    function Put(t: seq<bool>): (r: seq<bool>)
      requires Writable()
    {
      var t := PutBitsIf(true, t, 8, profileIdc);
      var t := PutFlagIf(true, t, constraintSet0Flag);
      var t := PutFlagIf(true, t, constraintSet1Flag);
      var t := PutFlagIf(true, t, constraintSet2Flag);
      var t := PutFlagIf(true, t, constraintSet3Flag);
      var t := PutFlagIf(true, t, constraintSet4Flag);
      var t := PutFlagIf(true, t, constraintSet5Flag);
      var t := PutBitsIf(true, t, 2, 0);
      var t := PutBitsIf(true, t, 8, levelIdc);
      PutUeIf(true, t, seqParameterSetId)
    }

    /** The profiles that send chroma format, bit depths and scaling lists. */
    predicate HighProfile()
    {
      profileIdc in {100, 110, 122, 244, 44, 83, 86, 118, 128, 138, 139, 134}
    }
  }

  function NoHeader(): (h: Header)
  {
    Header(0, 0, 0, 0, 0, 0, 0, 0, 0, 0)
  }

  function ReadHeader(bits: seq<bool>, pos: nat): (g: Got<Header>)
    ensures g.pos >= pos
  {
    var profile := ReadBitsIf(true, bits, pos, 8);
    var c0 := ReadFlagIf(true, bits, profile.pos);
    var c1 := ReadFlagIf(true, bits, c0.pos);
    var c2 := ReadFlagIf(true, bits, c1.pos);
    var c3 := ReadFlagIf(true, bits, c2.pos);
    var c4 := ReadFlagIf(true, bits, c3.pos);
    var c5 := ReadFlagIf(true, bits, c4.pos);
    var reserved := ReadBitsIf(true, bits, c5.pos, 2);
    var level := ReadBitsIf(true, bits, reserved.pos, 8);
    var id := ReadUeIf(true, bits, level.pos);
    Got(Header(profile.val, c0.val, c1.val, c2.val, c3.val, c4.val, c5.val, 0, level.val, id.val), id.pos)
  }

  lemma HeaderLaw(t: seq<bool>, h: Header, bits: seq<bool>)
    requires h.InRange() && h.Put(t) <= bits
    ensures t <= bits
    ensures ReadHeader(bits, |t|) == Got(h.Canonical(), |h.Put(t)|)
  {
    hide PutFlagIf, PutBitsIf, PutUeIf, PutSeIf, ReadFlagIf, ReadBitsIf, ReadUeIf, ReadSeIf;
    ElementLaws(bits);
  }

  // ---------------------------------------------------------------- scaling lists

  /** The C remainder, which takes the sign of the dividend. */
  function CRem(a: int, b: int): (r: int)
    requires b > 0
    ensures -b < r < b
    ensures a >= 0 ==> r == a % b
  {
    if a >= 0 then a % b else -(-a % b)
  }

  datatype ScalingEntry = ScalingEntry(present: int, list: seq<int>, useDefault: int)
  {
    /** From entry `j` on, every entry repeats the one before it. */
    predicate TailConstant(j: nat)
      requires 0 < j <= |list|
      decreases |list| - j
    {
      j == |list| || (list[j] == list[j - 1] && TailConstant(j + 1))
    }

    /** The entry before `j`; the coding starts from 8. */
    function Last(j: nat): (v: int)
      requires j <= |list|
    {
      if j == 0 then 8 else list[j - 1]
    }

    /** What the writer codes at `j`: the entry itself, or 0 to stop. */
    function Next(j: nat): (v: int)
      requires j < |list|
    {
      if useDefault != 0 || (j > 0 && TailConstant(j)) then 0 else list[j]
    }

    /** The writer has not stopped before `j`. */
    predicate Coding(j: nat)
      requires j <= |list|
    {
      j == 0 || (Coding(j - 1) && Next(j - 1) != 0)
    }

    /** The delta sent at `j`, taken once around 256 when it leaves -128..127. */
    function Delta(j: nat): (d: int)
      requires j < |list|
    {
      var d := Next(j) - Last(j);
      if d < -128 then d + 256 else if d > 127 then d - 256 else d
    }

    predicate ListWritable()
    {
      forall j :: 0 <= j < |list| && Coding(j) ==> SeDomain(Delta(j))
    }

    predicate ListInRange()
    {
      && IsFlag(useDefault)
      && (useDefault == 0 ==> forall j :: 0 <= j < |list| ==> 1 <= list[j] <= 255)
    }

    /** The deltas for the first `n` entries. */
    function PutList(t: seq<bool>, n: nat): (r: seq<bool>)
      requires n <= |list| && ListWritable()
    {
      if n == 0 then t
      else PutSeIf(Coding(n - 1), PutList(t, n - 1), Delta(n - 1))
    }

    /** The list the reader rebuilds: all eights when the default matrix is signalled. */
    function DecodedList(): (l: seq<int>)
      ensures |l| == |list|
    {
      if useDefault != 0 then seq(|list|, _ => 8) else list
    }

    predicate Writable()
    {
      present != 0 ==> ListWritable()
    }

    predicate InRange()
    {
      IsFlag(present) && (present != 0 ==> ListInRange())
    }

    function Put(t: seq<bool>): (r: seq<bool>)
      requires Writable()
    {
      var t := PutFlagIf(true, t, present);
      if present != 0 then PutList(t, |list|) else t
    }

    function Canonical(slots: seq<int>): (c: ScalingEntry)
    {
      if present != 0 then ScalingEntry(present, DecodedList(), useDefault)
      else ScalingEntry(0, slots, 0)
    }
  }

  /** The state of the list reader: entries so far, `nextScale`, the flag, the cursor. */
  datatype ListState = ListState(list: seq<int>, next: int, useDefault: int, pos: nat)

  /** One round of the reader's loop, when `delta` is the code under the cursor. */
  function ReadNext(delta: Got<int>, r: ListState): (r': ListState)
    requires r.pos <= delta.pos
    ensures |r'.list| == |r.list| + 1 && r'.pos >= r.pos
  {
    var last := if r.list == [] then 8 else r.list[|r.list| - 1];
    if r.next == 0 then
      r.(list := r.list + [last])
    else
      var next := CRem(last + delta.val + 256, 256);
      ListState(r.list + [if next == 0 then last else next], next,
                if r.list == [] && next == 0 then 1 else 0, delta.pos)
  }

  /** Fills every slot of a scaling list. */
  function ReadList(bits: seq<bool>, pos: nat, slots: seq<int>): (r: ListState)
    ensures |r.list| == |slots| && r.pos >= pos
  {
    if slots == [] then ListState([], 8, 0, pos)
    else
      var r := ReadList(bits, pos, slots[..|slots| - 1]);
      ReadNext(ReadSe(bits, r.pos), r)
  }

  function ReadEntry(bits: seq<bool>, pos: nat, slots: seq<int>): (g: Got<ScalingEntry>)
    ensures g.pos >= pos && |g.val.list| == |slots|
  {
    var present := ReadFlagIf(true, bits, pos);
    if present.val != 0 then
      var r := ReadList(bits, present.pos, slots);
      Got(ScalingEntry(present.val, r.list, r.useDefault), r.pos)
    else
      Got(ScalingEntry(0, slots, 0), present.pos)
  }

  /** A coded delta stays in -128..127 and is undone modulo 256. */
  lemma DeltaUndone(e: ScalingEntry, j: nat)
    requires e.ListInRange() && j < |e.list| && e.Coding(j)
    requires e.useDefault != 0 ==> j == 0
    ensures -128 <= e.Delta(j) <= 127
    ensures CRem(e.Last(j) + e.Delta(j) + 256, 256) == e.Next(j)
  {
    assert 1 <= e.Last(j) <= 255;
    assert 0 <= e.Next(j) <= 255;
  }

  lemma InRangeListWritable(e: ScalingEntry)
    requires e.ListInRange()
    ensures e.ListWritable()
  {
    forall j | 0 <= j < |e.list| && e.Coding(j)
      ensures SeDomain(e.Delta(j))
    {
      if e.useDefault != 0 && j > 0 {
        StoppedAtOnce(e, j);
      } else {
        DeltaUndone(e, j);
      }
    }
  }

  lemma {:induction false} StoppedAtOnce(e: ScalingEntry, j: nat)
    requires e.useDefault != 0 && 0 < j <= |e.list|
    ensures !e.Coding(j)
    decreases j
  {
    if j > 1 {
      StoppedAtOnce(e, j - 1);
    }
  }

  /** Once the writer has stopped, all later entries repeat the last one. */
  lemma {:induction false} StoppedMeansConstant(e: ScalingEntry, n: nat)
    requires e.ListInRange() && e.useDefault == 0 && n <= |e.list| && !e.Coding(n)
    ensures n > 1 && e.TailConstant(n - 1)
    decreases n
  {
    if !e.Coding(n - 1) {
      StoppedMeansConstant(e, n - 1);
    }
  }

  /** One round of the reader's loop, when it holds what the writer's loop held. */
  lemma ListStep(e: ScalingEntry, j: nat)
    requires e.ListInRange() && j < |e.list|
    ensures var d := e.DecodedList(); var last := if j == 0 then 8 else d[j - 1];
            if e.Coding(j) then
              var next := CRem(last + e.Delta(j) + 256, 256);
              && d[j] == (if next == 0 then last else next)
              && next == (if e.Coding(j + 1) then e.list[j] else 0)
              && (j == 0 && next == 0 <==> e.useDefault != 0)
            else
              j > 0 && d[j] == last && !e.Coding(j + 1)
  {
    if e.Coding(j) {
      if e.useDefault != 0 && j > 0 {
        StoppedAtOnce(e, j);
        assert false;
      }
      DeltaUndone(e, j);
    } else if e.useDefault == 0 {
      StoppedMeansConstant(e, j);
    }
  }

  /** The reader's state that matches the writer's after `n` entries. */
  function Matching(e: ScalingEntry, n: nat, pos: nat): (r: ListState)
    requires n <= |e.list|
  {
    ListState(e.DecodedList()[..n],
              if n == 0 then 8 else if e.Coding(n) then e.list[n - 1] else 0,
              if n == 0 then 0 else e.useDefault, pos)
  }

  lemma StepLaw(e: ScalingEntry, j: nat, pos: nat, delta: Got<int>)
    requires e.ListInRange() && j < |e.list| && pos <= delta.pos
    requires e.Coding(j) ==> delta.val == e.Delta(j)
    ensures ReadNext(delta, Matching(e, j, pos)) == Matching(e, j + 1, if e.Coding(j) then delta.pos else pos)
  {
    ListStep(e, j);
    var d := e.DecodedList();
    assert d[..j + 1] == d[..j] + [d[j]];
    if e.Coding(j) && j > 0 && e.useDefault != 0 {
      StoppedAtOnce(e, j);
      assert false;
    }
  }

  lemma RoundLaw(t: seq<bool>, e: ScalingEntry, j: nat, bits: seq<bool>)
    requires e.ListInRange() && e.ListWritable() && j < |e.list|
    requires PutSeIf(e.Coding(j), t, e.Delta(j)) <= bits
    ensures t <= bits
    ensures ReadNext(ReadSe(bits, |t|), Matching(e, j, |t|))
         == Matching(e, j + 1, |PutSeIf(e.Coding(j), t, e.Delta(j))|)
  {
    if e.Coding(j) {
      SeLaw(t, e.Delta(j), bits);
    }
    StepLaw(e, j, |t|, ReadSe(bits, |t|));
  }

  /** The reader follows the writer entry by entry and stops where it stopped. */
  lemma {:induction false} ListLaw(t: seq<bool>, e: ScalingEntry, slots: seq<int>, bits: seq<bool>)
    requires e.ListInRange() && e.ListWritable() && |slots| <= |e.list|
    requires e.PutList(t, |slots|) <= bits
    ensures t <= bits
    ensures ReadList(bits, |t|, slots) == Matching(e, |slots|, |e.PutList(t, |slots|)|)
    decreases |slots|
  {
    if slots != [] {
      var n := |slots| - 1;
      RoundLaw(e.PutList(t, n), e, n, bits);
      ListLaw(t, e, slots[..n], bits);
    }
  }

  lemma EntryLaw(t: seq<bool>, e: ScalingEntry, slots: seq<int>, bits: seq<bool>)
    requires e.InRange() && e.Writable() && |e.list| == |slots| >= 1 && e.Put(t) <= bits
    ensures t <= bits
    ensures ReadEntry(bits, |t|, slots) == Got(e.Canonical(slots), |e.Put(t)|)
  {
    ElementLaws(bits);
    if e.present != 0 {
      ListLaw(PutFlagIf(true, t, e.present), e, slots, bits);
      assert e.DecodedList()[..|e.list|] == e.DecodedList();
    }
  }

  // ---------------------------------------------------------------- high profile part

  function ListSize(i: nat): (n: nat)
    ensures n >= 1
  {
    if i < 6 then 16 else 64
  }

  /** How many scaling lists a chroma format sends. */
  function ListCount(chromaFormatIdc: int): (n: nat)
    ensures n <= SCALING_LISTS
  {
    if chromaFormatIdc != 3 then 8 else 12
  }

  datatype HighPart = HighPart(
    chromaFormatIdc: int,
    residualColourTransformFlag: int,
    bitDepthLumaMinus8: int,
    bitDepthChromaMinus8: int,
    qpprimeYZeroTransformBypassFlag: int,
    seqScalingMatrixPresentFlag: int,
    lists: seq<ScalingEntry>)
  {
    /** The shape of the C tables: six 4x4 lists, then six 8x8 lists. */
    predicate Shape()
    {
      |lists| == SCALING_LISTS && forall i :: 0 <= i < SCALING_LISTS ==> |lists[i].list| == ListSize(i)
    }

    predicate Writable()
    {
      && Shape()
      && UeDomain(chromaFormatIdc) && UeDomain(bitDepthLumaMinus8) && UeDomain(bitDepthChromaMinus8)
      && (seqScalingMatrixPresentFlag != 0 ==>
            forall i :: 0 <= i < ListCount(chromaFormatIdc) ==> lists[i].Writable())
    }

    predicate InRange()
    {
      && Writable()
      && (chromaFormatIdc == 3 ==> IsFlag(residualColourTransformFlag))
      && IsFlag(qpprimeYZeroTransformBypassFlag) && IsFlag(seqScalingMatrixPresentFlag)
      && (seqScalingMatrixPresentFlag != 0 ==>
            forall i :: 0 <= i < ListCount(chromaFormatIdc) ==> lists[i].InRange())
    }

    /** The number of scaling lists that are sent, present or not. */
    function SentLists(): (n: nat)
      ensures n <= SCALING_LISTS
    {
      if seqScalingMatrixPresentFlag != 0 then ListCount(chromaFormatIdc) else 0
    }

    function PutFields(t: seq<bool>): (r: seq<bool>)
      requires Writable()
    {
      var t := PutUeIf(true, t, chromaFormatIdc);
      var t := PutFlagIf(chromaFormatIdc == 3, t, residualColourTransformFlag);
      var t := PutUeIf(true, t, bitDepthLumaMinus8);
      var t := PutUeIf(true, t, bitDepthChromaMinus8);
      var t := PutFlagIf(true, t, qpprimeYZeroTransformBypassFlag);
      PutFlagIf(true, t, seqScalingMatrixPresentFlag)
    }

    function Put(t: seq<bool>): (r: seq<bool>)
      requires Writable()
    {
      PutLists(PutFields(t), lists[..SentLists()])
    }

    function Canonical(): (c: HighPart)
      requires Shape()
    {
      this.(residualColourTransformFlag := Opt(chromaFormatIdc == 3, residualColourTransformFlag),
      lists := CanonicalLists(lists[..SentLists()]))
    }
  }

  function NoList(i: nat): (e: ScalingEntry)
  {
    ScalingEntry(0, Zeros(ListSize(i)), 0)
  }

  function NoLists(): (r: seq<ScalingEntry>)
    ensures |r| == SCALING_LISTS && forall i :: 0 <= i < SCALING_LISTS ==> r[i] == NoList(i)
  {
    seq(SCALING_LISTS, i requires 0 <= i < SCALING_LISTS => NoList(i))
  }

  predicate SlotsFor(lists: seq<ScalingEntry>)
  {
    |lists| <= SCALING_LISTS && forall i :: 0 <= i < |lists| ==> |lists[i].list| == ListSize(i)
  }

  function PutLists(t: seq<bool>, lists: seq<ScalingEntry>): (r: seq<bool>)
    requires forall i :: 0 <= i < |lists| ==> lists[i].Writable()
  {
    if lists == [] then t
    else lists[|lists| - 1].Put(PutLists(t, lists[..|lists| - 1]))
  }

  /** The twelve lists after the ones that were sent have been read. */
  function CanonicalLists(sent: seq<ScalingEntry>): (r: seq<ScalingEntry>)
    requires SlotsFor(sent)
    ensures |r| == SCALING_LISTS
  {
    seq(SCALING_LISTS, i requires 0 <= i < SCALING_LISTS =>
      if i < |sent| then sent[i].Canonical(NoList(i).list) else NoList(i))
  }

  /** What the high part holds for a profile that does not send it. */
  function NoHighPart(): (h: HighPart)
  {
    HighPart(1, 0, 0, 0, 0, 0, NoLists())
  }

  /** Fills the slots of the scaling lists that are sent. */
  function ReadLists(bits: seq<bool>, pos: nat, slots: seq<ScalingEntry>): (g: Got<seq<ScalingEntry>>)
    ensures g.pos >= pos && |g.val| == |slots|
    ensures forall i :: 0 <= i < |slots| ==> |g.val[i].list| == |slots[i].list|
  {
    if slots == [] then Got([], pos)
    else
      var n := |slots| - 1;
      var front := ReadLists(bits, pos, slots[..n]);
      var e := ReadEntry(bits, front.pos, slots[n].list);
      Got(front.val + [e.val], e.pos)
  }

  function ReadHigh(bits: seq<bool>, pos: nat): (g: Got<HighPart>)
    ensures g.pos >= pos && g.val.Shape()
  {
    var chroma := ReadUeIf(true, bits, pos);
    var residual := ReadFlagIf(chroma.val == 3, bits, chroma.pos);
    var luma := ReadUeIf(true, bits, residual.pos);
    var chromaDepth := ReadUeIf(true, bits, luma.pos);
    var qpprime := ReadFlagIf(true, bits, chromaDepth.pos);
    var matrix := ReadFlagIf(true, bits, qpprime.pos);
    var sent := if matrix.val != 0 then ListCount(chroma.val) else 0;
    var lists := ReadLists(bits, matrix.pos, NoLists()[..sent]);
    Got(HighPart(chroma.val, residual.val, luma.val, chromaDepth.val, qpprime.val, matrix.val,
                 lists.val + NoLists()[sent..]), lists.pos)
  }

  lemma {:induction false} ListsLaw(t: seq<bool>, lists: seq<ScalingEntry>, bits: seq<bool>)
    requires SlotsFor(lists)
    requires forall i :: 0 <= i < |lists| ==> lists[i].Writable() && lists[i].InRange()
    requires PutLists(t, lists) <= bits
    ensures t <= bits
    ensures ReadLists(bits, |t|, NoLists()[..|lists|])
         == Got(CanonicalLists(lists)[..|lists|], |PutLists(t, lists)|)
    decreases |lists|
  {
    hide ReadEntry, ScalingEntry.Put, ScalingEntry.Canonical, ScalingEntry.InRange, ScalingEntry.Writable;
    if lists != [] {
      var n := |lists| - 1;
      EntryLaw(PutLists(t, lists[..n]), lists[n], NoList(n).list, bits);
      ListsLaw(t, lists[..n], bits);
      assert NoLists()[..n + 1][..n] == NoLists()[..n];
      assert CanonicalLists(lists)[..n + 1]
          == CanonicalLists(lists[..n])[..n] + [lists[n].Canonical(NoList(n).list)];
    }
  }

  lemma HighLaw(t: seq<bool>, h: HighPart, bits: seq<bool>)
    requires h.InRange() && h.Put(t) <= bits
    ensures t <= bits
    ensures ReadHigh(bits, |t|) == Got(h.Canonical(), |h.Put(t)|)
  {
    hide PutFlagIf, PutBitsIf, PutUeIf, PutSeIf, ReadFlagIf, ReadBitsIf, ReadUeIf, ReadSeIf;
    var sent := h.lists[..h.SentLists()];
    ListsLaw(h.PutFields(t), sent, bits);
    CanonicalListsSplit(sent);
    ElementLaws(bits);
  }

  lemma CanonicalListsSplit(sent: seq<ScalingEntry>)
    requires SlotsFor(sent)
    ensures CanonicalLists(sent) == CanonicalLists(sent)[..|sent|] + NoLists()[|sent|..]
  {
    hide NoList, ScalingEntry.Canonical;
    forall i | |sent| <= i < SCALING_LISTS ensures CanonicalLists(sent)[i] == NoLists()[i] {
    }
  }

  // ---------------------------------------------------------------- picture order count

  datatype PicOrder = PicOrder(
    log2MaxFrameNumMinus4: int,
    picOrderCntType: int,
    log2MaxPicOrderCntLsbMinus4: int,
    deltaPicOrderAlwaysZeroFlag: int,
    offsetForNonRefPic: int,
    offsetForTopToBottomField: int,
    numRefFramesInPicOrderCntCycle: int,
    offsetForRefFrame: seq<int>)
  {
    predicate Shape()
    {
      |offsetForRefFrame| == MAX_REF_FRAMES_IN_CYCLE
    }

    predicate Writable()
    {
      && Shape()
      && UeDomain(log2MaxFrameNumMinus4) && UeDomain(picOrderCntType)
      && (picOrderCntType == 0 ==> UeDomain(log2MaxPicOrderCntLsbMinus4))
      && (picOrderCntType == 1 ==>
            && SeDomain(offsetForNonRefPic) && SeDomain(offsetForTopToBottomField)
            && 0 <= numRefFramesInPicOrderCntCycle <= MAX_REF_FRAMES_IN_CYCLE
            && forall i :: 0 <= i < numRefFramesInPicOrderCntCycle ==> SeDomain(offsetForRefFrame[i]))
    }

    predicate InRange()
    {
      Writable() && (picOrderCntType == 1 ==> IsFlag(deltaPicOrderAlwaysZeroFlag))
    }

    function SentOffsets(): (n: nat)
      requires Writable()
      ensures n <= MAX_REF_FRAMES_IN_CYCLE
    {
      if picOrderCntType == 1 then numRefFramesInPicOrderCntCycle else 0
    }

    function PutFields(t: seq<bool>): (r: seq<bool>)
      requires Writable()
    {
      var c := picOrderCntType == 1;
      var t := PutUeIf(true, t, log2MaxFrameNumMinus4);
      var t := PutUeIf(true, t, picOrderCntType);
      var t := PutUeIf(picOrderCntType == 0, t, log2MaxPicOrderCntLsbMinus4);
      var t := PutFlagIf(c, t, deltaPicOrderAlwaysZeroFlag);
      var t := PutSeIf(c, t, offsetForNonRefPic);
      var t := PutSeIf(c, t, offsetForTopToBottomField);
      PutUeIf(c, t, numRefFramesInPicOrderCntCycle)
    }

    function Put(t: seq<bool>): (r: seq<bool>)
      requires Writable()
    {
      PutSes(PutFields(t), offsetForRefFrame[..SentOffsets()])
    }

    function Canonical(): (c: PicOrder)
      requires Writable()
    {
      var c := picOrderCntType == 1;
      PicOrder(log2MaxFrameNumMinus4, picOrderCntType,
               Opt(picOrderCntType == 0, log2MaxPicOrderCntLsbMinus4),
               Opt(c, deltaPicOrderAlwaysZeroFlag), Opt(c, offsetForNonRefPic),
               Opt(c, offsetForTopToBottomField), Opt(c, numRefFramesInPicOrderCntCycle),
               FirstN(offsetForRefFrame, SentOffsets(), 0))
    }
  }

  function NoPicOrder(): (o: PicOrder)
  {
    PicOrder(0, 0, 0, 0, 0, 0, 0, Zeros(MAX_REF_FRAMES_IN_CYCLE))
  }

  function PutSes(t: seq<bool>, vs: seq<int>): (r: seq<bool>)
    requires forall i :: 0 <= i < |vs| ==> SeDomain(vs[i])
  {
    if vs == [] then t else PutSeIf(true, PutSes(t, vs[..|vs| - 1]), vs[|vs| - 1])
  }

  /** Fills every slot with a signed code. */
  function ReadSes(bits: seq<bool>, pos: nat, slots: seq<int>): (g: Got<seq<int>>)
    ensures g.pos >= pos && |g.val| == |slots|
  {
    if slots == [] then Got([], pos)
    else
      var front := ReadSes(bits, pos, slots[..|slots| - 1]);
      var v := ReadSeIf(true, bits, front.pos);
      Got(front.val + [v.val], v.pos)
  }

  lemma {:induction false} SesLaw(t: seq<bool>, vs: seq<int>, slots: seq<int>, bits: seq<bool>)
    requires |slots| == |vs| && forall i :: 0 <= i < |vs| ==> SeDomain(vs[i])
    requires PutSes(t, vs) <= bits
    ensures t <= bits
    ensures ReadSes(bits, |t|, slots) == Got(vs, |PutSes(t, vs)|)
    decreases |vs|
  {
    hide PutSeIf, ReadSeIf;
    if vs != [] {
      var n := |vs| - 1;
      ElementLaws(bits);
      SesLaw(t, vs[..n], slots[..n], bits);
      assert vs == vs[..n] + [vs[n]];
    }
  }

  function ReadPicOrder(bits: seq<bool>, pos: nat): (g: Got<PicOrder>)
    ensures g.pos >= pos && g.val.Shape()
  {
    var frameNum := ReadUeIf(true, bits, pos);
    var kind := ReadUeIf(true, bits, frameNum.pos);
    var c := kind.val == 1;
    var lsb := ReadUeIf(kind.val == 0, bits, kind.pos);
    var zero := ReadFlagIf(c, bits, lsb.pos);
    var nonRef := ReadSeIf(c, bits, zero.pos);
    var field := ReadSeIf(c, bits, nonRef.pos);
    var cycle := ReadUeIf(c, bits, field.pos);
    var n := Clamp(cycle.val, MAX_REF_FRAMES_IN_CYCLE);
    var slots := Zeros(MAX_REF_FRAMES_IN_CYCLE);
    var offsets := ReadSes(bits, cycle.pos, slots[..Count(n)]);
    Got(PicOrder(frameNum.val, kind.val, lsb.val, zero.val, nonRef.val, field.val, n,
                 offsets.val + slots[Count(n)..]), offsets.pos)
  }

  lemma PicOrderLaw(t: seq<bool>, o: PicOrder, bits: seq<bool>)
    requires o.InRange() && o.Put(t) <= bits
    ensures t <= bits
    ensures ReadPicOrder(bits, |t|) == Got(o.Canonical(), |o.Put(t)|)
  {
    hide PutFlagIf, PutBitsIf, PutUeIf, PutSeIf, ReadFlagIf, ReadBitsIf, ReadUeIf, ReadSeIf;
    var n := o.SentOffsets();
    SesLaw(o.PutFields(t), o.offsetForRefFrame[..n], Zeros(MAX_REF_FRAMES_IN_CYCLE)[..n], bits);
    assert FirstN(o.offsetForRefFrame, n, 0)
        == o.offsetForRefFrame[..n] + Zeros(MAX_REF_FRAMES_IN_CYCLE)[n..];
    ElementLaws(bits);
  }

  // ---------------------------------------------------------------- picture size and cropping

  datatype Frame = Frame(
    numRefFrames: int,
    gapsInFrameNumValueAllowedFlag: int,
    picWidthInMbsMinus1: int,
    picHeightInMapUnitsMinus1: int,
    frameMbsOnlyFlag: int,
    mbAdaptiveFrameFieldFlag: int,
    direct8x8InferenceFlag: int,
    frameCroppingFlag: int,
    frameCropLeftOffset: int,
    frameCropRightOffset: int,
    frameCropTopOffset: int,
    frameCropBottomOffset: int)
  {
    predicate Writable()
    {
      && UeDomain(numRefFrames) && UeDomain(picWidthInMbsMinus1) && UeDomain(picHeightInMapUnitsMinus1)
      && (frameCroppingFlag != 0 ==>
            && UeDomain(frameCropLeftOffset) && UeDomain(frameCropRightOffset)
            && UeDomain(frameCropTopOffset) && UeDomain(frameCropBottomOffset))
    }

    predicate InRange()
    {
      && Writable()
      && IsFlag(gapsInFrameNumValueAllowedFlag) && IsFlag(frameMbsOnlyFlag)
      && (frameMbsOnlyFlag == 0 ==> IsFlag(mbAdaptiveFrameFieldFlag))
      && IsFlag(direct8x8InferenceFlag) && IsFlag(frameCroppingFlag)
    }

    function PutSize(t: seq<bool>): (r: seq<bool>)
      requires Writable()
    {
      var t := PutUeIf(true, t, numRefFrames);
      var t := PutFlagIf(true, t, gapsInFrameNumValueAllowedFlag);
      var t := PutUeIf(true, t, picWidthInMbsMinus1);
      var t := PutUeIf(true, t, picHeightInMapUnitsMinus1);
      var t := PutFlagIf(true, t, frameMbsOnlyFlag);
      var t := PutFlagIf(frameMbsOnlyFlag == 0, t, mbAdaptiveFrameFieldFlag);
      PutFlagIf(true, t, direct8x8InferenceFlag)
    }

    function PutCropping(t: seq<bool>): (r: seq<bool>)
      requires Writable()
    {
      var c := frameCroppingFlag != 0;
      var t := PutFlagIf(true, t, frameCroppingFlag);
      var t := PutUeIf(c, t, frameCropLeftOffset);
      var t := PutUeIf(c, t, frameCropRightOffset);
      var t := PutUeIf(c, t, frameCropTopOffset);
      PutUeIf(c, t, frameCropBottomOffset)
    }

    function Put(t: seq<bool>): (r: seq<bool>)
      requires Writable()
    {
      PutCropping(PutSize(t))
    }

    function Canonical(): (c: Frame)
    {
      var c := frameCroppingFlag != 0;
      Frame(numRefFrames, gapsInFrameNumValueAllowedFlag, picWidthInMbsMinus1,
            picHeightInMapUnitsMinus1, frameMbsOnlyFlag,
            Opt(frameMbsOnlyFlag == 0, mbAdaptiveFrameFieldFlag), direct8x8InferenceFlag,
            frameCroppingFlag, Opt(c, frameCropLeftOffset), Opt(c, frameCropRightOffset),
            Opt(c, frameCropTopOffset), Opt(c, frameCropBottomOffset))
    }
  }

  function NoFrame(): (f: Frame)
  {
    Frame(0, 0, 0, 0, 0, 0, 0, 0, 0, 0, 0, 0)
  }

  /** The fields before cropping; the cropping fields stay at zero. */
  function ReadFrameSize(bits: seq<bool>, pos: nat): (g: Got<Frame>)
    ensures g.pos >= pos
  {
    var refs := ReadUeIf(true, bits, pos);
    var gaps := ReadFlagIf(true, bits, refs.pos);
    var width := ReadUeIf(true, bits, gaps.pos);
    var height := ReadUeIf(true, bits, width.pos);
    var mbsOnly := ReadFlagIf(true, bits, height.pos);
    var mbaff := ReadFlagIf(mbsOnly.val == 0, bits, mbsOnly.pos);
    var direct := ReadFlagIf(true, bits, mbaff.pos);
    Got(Frame(refs.val, gaps.val, width.val, height.val, mbsOnly.val, mbaff.val, direct.val, 0, 0, 0, 0, 0),
        direct.pos)
  }

  function ReadCropping(bits: seq<bool>, pos: nat, f: Frame): (g: Got<Frame>)
    ensures g.pos >= pos
  {
    var crop := ReadFlagIf(true, bits, pos);
    var c := crop.val != 0;
    var left := ReadUeIf(c, bits, crop.pos);
    var right := ReadUeIf(c, bits, left.pos);
    var top := ReadUeIf(c, bits, right.pos);
    var bottom := ReadUeIf(c, bits, top.pos);
    Got(f.(frameCroppingFlag := crop.val, frameCropLeftOffset := left.val, frameCropRightOffset := right.val,
        frameCropTopOffset := top.val, frameCropBottomOffset := bottom.val), bottom.pos)
  }

  function ReadFrame(bits: seq<bool>, pos: nat): (g: Got<Frame>)
    ensures g.pos >= pos
  {
    var f := ReadFrameSize(bits, pos);
    ReadCropping(bits, f.pos, f.val)
  }

  lemma FrameLaw(t: seq<bool>, f: Frame, bits: seq<bool>)
    requires f.InRange() && f.Put(t) <= bits
    ensures t <= bits
    ensures ReadFrame(bits, |t|) == Got(f.Canonical(), |f.Put(t)|)
  {
    hide PutFlagIf, PutBitsIf, PutUeIf, PutSeIf, ReadFlagIf, ReadBitsIf, ReadUeIf, ReadSeIf;
    ElementLaws(bits);
  }

  // ---------------------------------------------------------------- hypothetical reference decoder

  /** One row of the three parallel tables of `hrd_t`. */
  datatype Cpb = Cpb(bitRateValueMinus1: int, cpbSizeValueMinus1: int, cbrFlag: int)
  {
    predicate Writable()
    {
      UeDomain(bitRateValueMinus1) && UeDomain(cpbSizeValueMinus1)
    }

    predicate InRange()
    {
      Writable() && IsFlag(cbrFlag)
    }

    function Put(t: seq<bool>): (r: seq<bool>)
      requires Writable()
    {
      var t := PutUeIf(true, t, bitRateValueMinus1);
      var t := PutUeIf(true, t, cpbSizeValueMinus1);
      PutFlagIf(true, t, cbrFlag)
    }
  }

  function ReadCpb(bits: seq<bool>, pos: nat): (g: Got<Cpb>)
    ensures g.pos >= pos
  {
    var rate := ReadUeIf(true, bits, pos);
    var size := ReadUeIf(true, bits, rate.pos);
    var cbr := ReadFlagIf(true, bits, size.pos);
    Got(Cpb(rate.val, size.val, cbr.val), cbr.pos)
  }

  lemma CpbLaw(t: seq<bool>, c: Cpb, bits: seq<bool>)
    requires c.InRange() && c.Put(t) <= bits
    ensures t <= bits
    ensures ReadCpb(bits, |t|) == Got(c, |c.Put(t)|)
  {
    hide PutFlagIf, PutBitsIf, PutUeIf, PutSeIf, ReadFlagIf, ReadBitsIf, ReadUeIf, ReadSeIf;
    ElementLaws(bits);
  }

  const NO_CPB := Cpb(0, 0, 0)

  function NoCpbs(): (r: seq<Cpb>)
    ensures |r| == MAX_CPB_COUNT && forall i :: 0 <= i < MAX_CPB_COUNT ==> r[i] == NO_CPB
  {
    seq(MAX_CPB_COUNT, _ => NO_CPB)
  }

  function PutCpbs(t: seq<bool>, cpbs: seq<Cpb>): (r: seq<bool>)
    requires forall i :: 0 <= i < |cpbs| ==> cpbs[i].Writable()
  {
    if cpbs == [] then t
    else cpbs[|cpbs| - 1].Put(PutCpbs(t, cpbs[..|cpbs| - 1]))
  }

  /** Fills every slot of the CPB table. */
  function ReadCpbs(bits: seq<bool>, pos: nat, slots: seq<Cpb>): (g: Got<seq<Cpb>>)
    ensures g.pos >= pos && |g.val| == |slots|
  {
    if slots == [] then Got([], pos)
    else
      var front := ReadCpbs(bits, pos, slots[..|slots| - 1]);
      var c := ReadCpb(bits, front.pos);
      Got(front.val + [c.val], c.pos)
  }

  lemma {:induction false} CpbsLaw(t: seq<bool>, cpbs: seq<Cpb>, slots: seq<Cpb>, bits: seq<bool>)
    requires |slots| == |cpbs| && forall i :: 0 <= i < |cpbs| ==> cpbs[i].Writable() && cpbs[i].InRange()
    requires PutCpbs(t, cpbs) <= bits
    ensures t <= bits
    ensures ReadCpbs(bits, |t|, slots) == Got(cpbs, |PutCpbs(t, cpbs)|)
    decreases |cpbs|
  {
    hide ReadCpb, Cpb.Put, Cpb.InRange, Cpb.Writable;
    if cpbs != [] {
      var n := |cpbs| - 1;
      CpbLaw(PutCpbs(t, cpbs[..n]), cpbs[n], bits);
      CpbsLaw(t, cpbs[..n], slots[..n], bits);
      assert cpbs == cpbs[..n] + [cpbs[n]];
    }
  }

  datatype Hrd = Hrd(
    cpbCntMinus1: int,
    bitRateScale: int,
    cpbSizeScale: int,
    cpbs: seq<Cpb>,
    initialCpbRemovalDelayLengthMinus1: int,
    cpbRemovalDelayLengthMinus1: int,
    dpbOutputDelayLengthMinus1: int,
    timeOffsetLength: int)
  {
    predicate Shape()
    {
      |cpbs| == MAX_CPB_COUNT
    }

    predicate Writable()
    {
      && Shape() && 0 <= cpbCntMinus1 < MAX_CPB_COUNT
      && forall i :: 0 <= i <= cpbCntMinus1 ==> cpbs[i].Writable()
    }

    predicate InRange()
    {
      && Writable()
      && BitsDomain(4, bitRateScale) && BitsDomain(4, cpbSizeScale)
      && (forall i :: 0 <= i <= cpbCntMinus1 ==> cpbs[i].InRange())
      && BitsDomain(5, initialCpbRemovalDelayLengthMinus1) && BitsDomain(5, cpbRemovalDelayLengthMinus1)
      && BitsDomain(5, dpbOutputDelayLengthMinus1) && BitsDomain(5, timeOffsetLength)
    }

    function PutScales(t: seq<bool>): (r: seq<bool>)
      requires Writable()
    {
      var t := PutUeIf(true, t, cpbCntMinus1);
      var t := PutBitsIf(true, t, 4, bitRateScale);
      PutBitsIf(true, t, 4, cpbSizeScale)
    }

    function PutLengths(t: seq<bool>): (r: seq<bool>)
    {
      var t := PutBitsIf(true, t, 5, initialCpbRemovalDelayLengthMinus1);
      var t := PutBitsIf(true, t, 5, cpbRemovalDelayLengthMinus1);
      var t := PutBitsIf(true, t, 5, dpbOutputDelayLengthMinus1);
      PutBitsIf(true, t, 5, timeOffsetLength)
    }

    function Put(t: seq<bool>): (r: seq<bool>)
      requires Writable()
    {
      PutLengths(PutCpbs(PutScales(t), cpbs[..cpbCntMinus1 + 1]))
    }

    function Canonical(): (c: Hrd)
      requires Writable()
    {
      this.(cpbs := FirstN(cpbs, cpbCntMinus1 + 1, NO_CPB))
    }
  }

  function NoHrd(): (h: Hrd)
    ensures h.Shape()
  {
    Hrd(0, 0, 0, NoCpbs(), 0, 0, 0, 0)
  }

  function ReadHrd(bits: seq<bool>, pos: nat): (g: Got<Hrd>)
    ensures g.pos >= pos && g.val.Shape()
  {
    var count := ReadUeIf(true, bits, pos);
    var c := Clamp(count.val, MAX_CPB_COUNT - 1);
    var rateScale := ReadBitsIf(true, bits, count.pos, 4);
    var sizeScale := ReadBitsIf(true, bits, rateScale.pos, 4);
    var n := Count(c + 1);
    var cpbs := ReadCpbs(bits, sizeScale.pos, NoCpbs()[..n]);
    var lengths := ReadLengths(bits, cpbs.pos);
    Got(Hrd(c, rateScale.val, sizeScale.val, cpbs.val + NoCpbs()[n..],
            lengths.val.0, lengths.val.1, lengths.val.2, lengths.val.3), lengths.pos)
  }

  function ReadLengths(bits: seq<bool>, pos: nat): (g: Got<(int, int, int, int)>)
    ensures g.pos >= pos
  {
    var initial := ReadBitsIf(true, bits, pos, 5);
    var removal := ReadBitsIf(true, bits, initial.pos, 5);
    var output := ReadBitsIf(true, bits, removal.pos, 5);
    var offset := ReadBitsIf(true, bits, output.pos, 5);
    Got((initial.val, removal.val, output.val, offset.val), offset.pos)
  }

  lemma LengthsLaw(t: seq<bool>, h: Hrd, bits: seq<bool>)
    requires h.InRange() && h.PutLengths(t) <= bits
    ensures t <= bits
    ensures ReadLengths(bits, |t|)
         == Got((h.initialCpbRemovalDelayLengthMinus1, h.cpbRemovalDelayLengthMinus1,
                 h.dpbOutputDelayLengthMinus1, h.timeOffsetLength), |h.PutLengths(t)|)
  {
    hide PutFlagIf, PutBitsIf, PutUeIf, PutSeIf, ReadFlagIf, ReadBitsIf, ReadUeIf, ReadSeIf;
    ElementLaws(bits);
  }

  lemma ScalesLaw(t: seq<bool>, h: Hrd, bits: seq<bool>)
    requires h.InRange() && h.PutScales(t) <= bits
    ensures t <= bits
    ensures var count := ReadUeIf(true, bits, |t|);
            var rateScale := ReadBitsIf(true, bits, count.pos, 4);
            && count.val == h.cpbCntMinus1 && rateScale.val == h.bitRateScale
            && ReadBitsIf(true, bits, rateScale.pos, 4) == Got(h.cpbSizeScale, |h.PutScales(t)|)
  {
    hide PutFlagIf, PutBitsIf, PutUeIf, PutSeIf, ReadFlagIf, ReadBitsIf, ReadUeIf, ReadSeIf;
    ElementLaws(bits);
  }

  lemma HrdLaw(t: seq<bool>, h: Hrd, bits: seq<bool>)
    requires h.InRange() && h.Put(t) <= bits
    ensures t <= bits
    ensures ReadHrd(bits, |t|) == Got(h.Canonical(), |h.Put(t)|)
  {
    hide PutFlagIf, PutBitsIf, PutUeIf, PutSeIf, ReadFlagIf, ReadBitsIf, ReadUeIf, ReadSeIf;
    hide ReadLengths, ReadCpbs, PutCpbs, Hrd.PutScales, Hrd.PutLengths;
    var n := h.cpbCntMinus1 + 1;
    LengthsLaw(PutCpbs(h.PutScales(t), h.cpbs[..n]), h, bits);
    CpbsLaw(h.PutScales(t), h.cpbs[..n], NoCpbs()[..n], bits);
    ScalesLaw(t, h, bits);
    assert FirstN(h.cpbs, n, NO_CPB) == h.cpbs[..n] + NoCpbs()[n..];
  }

  // ---------------------------------------------------------------- video usability information

  datatype VuiVideo = VuiVideo(
    aspectRatioInfoPresentFlag: int,
    aspectRatioIdc: int,
    sarWidth: int,
    sarHeight: int,
    overscanInfoPresentFlag: int,
    overscanAppropriateFlag: int,
    videoSignalTypePresentFlag: int,
    videoFormat: int,
    videoFullRangeFlag: int,
    colourDescriptionPresentFlag: int,
    colourPrimaries: int,
    transferCharacteristics: int,
    matrixCoefficients: int)
  {
    predicate ExtendedSar()
    {
      aspectRatioInfoPresentFlag != 0 && aspectRatioIdc == SAR_EXTENDED
    }

    predicate Signal()
    {
      videoSignalTypePresentFlag != 0
    }

    predicate Colour()
    {
      Signal() && colourDescriptionPresentFlag != 0
    }

    predicate InRange()
    {
      && IsFlag(aspectRatioInfoPresentFlag)
      && (aspectRatioInfoPresentFlag != 0 ==> BitsDomain(8, aspectRatioIdc))
      && (ExtendedSar() ==> BitsDomain(16, sarWidth) && BitsDomain(16, sarHeight))
      && IsFlag(overscanInfoPresentFlag)
      && (overscanInfoPresentFlag != 0 ==> IsFlag(overscanAppropriateFlag))
      && IsFlag(videoSignalTypePresentFlag)
      && (Signal() ==> BitsDomain(3, videoFormat) && IsFlag(videoFullRangeFlag)
                       && IsFlag(colourDescriptionPresentFlag))
      && (Colour() ==> BitsDomain(8, colourPrimaries) && BitsDomain(8, transferCharacteristics)
                       && BitsDomain(8, matrixCoefficients))
    }

    function PutAspect(t: seq<bool>): (r: seq<bool>)
    {
      var t := PutFlagIf(true, t, aspectRatioInfoPresentFlag);
      var t := PutBitsIf(aspectRatioInfoPresentFlag != 0, t, 8, aspectRatioIdc);
      var t := PutBitsIf(ExtendedSar(), t, 16, sarWidth);
      var t := PutBitsIf(ExtendedSar(), t, 16, sarHeight);
      var t := PutFlagIf(true, t, overscanInfoPresentFlag);
      PutFlagIf(overscanInfoPresentFlag != 0, t, overscanAppropriateFlag)
    }

    function PutSignal(t: seq<bool>): (r: seq<bool>)
    {
      var t := PutFlagIf(true, t, videoSignalTypePresentFlag);
      var t := PutBitsIf(Signal(), t, 3, videoFormat);
      var t := PutFlagIf(Signal(), t, videoFullRangeFlag);
      var t := PutFlagIf(Signal(), t, colourDescriptionPresentFlag);
      var t := PutBitsIf(Colour(), t, 8, colourPrimaries);
      var t := PutBitsIf(Colour(), t, 8, transferCharacteristics);
      PutBitsIf(Colour(), t, 8, matrixCoefficients)
    }

    function Put(t: seq<bool>): (r: seq<bool>)
    {
      PutSignal(PutAspect(t))
    }

    function Canonical(): (c: VuiVideo)
    {
      VuiVideo(aspectRatioInfoPresentFlag, Opt(aspectRatioInfoPresentFlag != 0, aspectRatioIdc),
               Opt(ExtendedSar(), sarWidth), Opt(ExtendedSar(), sarHeight),
               overscanInfoPresentFlag, Opt(overscanInfoPresentFlag != 0, overscanAppropriateFlag),
               videoSignalTypePresentFlag, Opt(Signal(), videoFormat), Opt(Signal(), videoFullRangeFlag),
               Opt(Signal(), colourDescriptionPresentFlag), Opt(Colour(), colourPrimaries),
               Opt(Colour(), transferCharacteristics), Opt(Colour(), matrixCoefficients))
    }
  }

  /** The aspect ratio and overscan fields; the video signal fields stay at zero. */
  function ReadAspect(bits: seq<bool>, pos: nat): (g: Got<VuiVideo>)
    ensures g.pos >= pos
  {
    var aspect := ReadFlagIf(true, bits, pos);
    var idc := ReadBitsIf(aspect.val != 0, bits, aspect.pos, 8);
    var sar := aspect.val != 0 && idc.val == SAR_EXTENDED;
    var width := ReadBitsIf(sar, bits, idc.pos, 16);
    var height := ReadBitsIf(sar, bits, width.pos, 16);
    var overscan := ReadFlagIf(true, bits, height.pos);
    var appropriate := ReadFlagIf(overscan.val != 0, bits, overscan.pos);
    Got(VuiVideo(aspect.val, idc.val, width.val, height.val, overscan.val, appropriate.val,
                 0, 0, 0, 0, 0, 0, 0), appropriate.pos)
  }

  function ReadSignal(bits: seq<bool>, pos: nat, v: VuiVideo): (g: Got<VuiVideo>)
    ensures g.pos >= pos
  {
    var signal := ReadFlagIf(true, bits, pos);
    var s := signal.val != 0;
    var format := ReadBitsIf(s, bits, signal.pos, 3);
    var fullRange := ReadFlagIf(s, bits, format.pos);
    var colour := ReadFlagIf(s, bits, fullRange.pos);
    var c := colour.val != 0;
    var primaries := ReadBitsIf(c, bits, colour.pos, 8);
    var transfer := ReadBitsIf(c, bits, primaries.pos, 8);
    var coefficients := ReadBitsIf(c, bits, transfer.pos, 8);
    Got(v.(videoSignalTypePresentFlag := signal.val, videoFormat := format.val,
        videoFullRangeFlag := fullRange.val, colourDescriptionPresentFlag := colour.val,
        colourPrimaries := primaries.val, transferCharacteristics := transfer.val,
        matrixCoefficients := coefficients.val), coefficients.pos)
  }

  function ReadVuiVideo(bits: seq<bool>, pos: nat): (g: Got<VuiVideo>)
    ensures g.pos >= pos
  {
    var v := ReadAspect(bits, pos);
    ReadSignal(bits, v.pos, v.val)
  }

  lemma VuiVideoLaw(t: seq<bool>, v: VuiVideo, bits: seq<bool>)
    requires v.InRange() && v.Put(t) <= bits
    ensures t <= bits
    ensures ReadVuiVideo(bits, |t|) == Got(v.Canonical(), |v.Put(t)|)
  {
    hide PutFlagIf, PutBitsIf, PutUeIf, PutSeIf, ReadFlagIf, ReadBitsIf, ReadUeIf, ReadSeIf;
    ElementLaws(bits);
  }

  datatype VuiTiming = VuiTiming(
    chromaLocInfoPresentFlag: int,
    chromaSampleLocTypeTopField: int,
    chromaSampleLocTypeBottomField: int,
    timingInfoPresentFlag: int,
    numUnitsInTick: int,
    timeScale: int,
    fixedFrameRateFlag: int)
  {
    predicate Writable()
    {
      chromaLocInfoPresentFlag != 0 ==>
        UeDomain(chromaSampleLocTypeTopField) && UeDomain(chromaSampleLocTypeBottomField)
    }

    predicate InRange()
    {
      && Writable()
      && IsFlag(chromaLocInfoPresentFlag) && IsFlag(timingInfoPresentFlag)
      && (timingInfoPresentFlag != 0 ==>
            BitsDomain(32, numUnitsInTick) && BitsDomain(32, timeScale) && IsFlag(fixedFrameRateFlag))
    }

    function Put(t: seq<bool>): (r: seq<bool>)
      requires Writable()
    {
      var t := PutFlagIf(true, t, chromaLocInfoPresentFlag);
      var t := PutUeIf(chromaLocInfoPresentFlag != 0, t, chromaSampleLocTypeTopField);
      var t := PutUeIf(chromaLocInfoPresentFlag != 0, t, chromaSampleLocTypeBottomField);
      var t := PutFlagIf(true, t, timingInfoPresentFlag);
      var t := PutBitsIf(timingInfoPresentFlag != 0, t, 32, numUnitsInTick);
      var t := PutBitsIf(timingInfoPresentFlag != 0, t, 32, timeScale);
      PutFlagIf(timingInfoPresentFlag != 0, t, fixedFrameRateFlag)
    }

    function Canonical(): (c: VuiTiming)
    {
      var c, f := chromaLocInfoPresentFlag != 0, timingInfoPresentFlag != 0;
      VuiTiming(chromaLocInfoPresentFlag, Opt(c, chromaSampleLocTypeTopField),
                Opt(c, chromaSampleLocTypeBottomField), timingInfoPresentFlag,
                Opt(f, numUnitsInTick), Opt(f, timeScale), Opt(f, fixedFrameRateFlag))
    }
  }

  function ReadVuiTiming(bits: seq<bool>, pos: nat): (g: Got<VuiTiming>)
    ensures g.pos >= pos
  {
    var loc := ReadFlagIf(true, bits, pos);
    var top := ReadUeIf(loc.val != 0, bits, loc.pos);
    var bottom := ReadUeIf(loc.val != 0, bits, top.pos);
    var timing := ReadFlagIf(true, bits, bottom.pos);
    var units := ReadBitsIf(timing.val != 0, bits, timing.pos, 32);
    var scale := ReadBitsIf(timing.val != 0, bits, units.pos, 32);
    var fixedRate := ReadFlagIf(timing.val != 0, bits, scale.pos);
    Got(VuiTiming(loc.val, top.val, bottom.val, timing.val, units.val, scale.val, fixedRate.val), fixedRate.pos)
  }

  lemma VuiTimingLaw(t: seq<bool>, v: VuiTiming, bits: seq<bool>)
    requires v.InRange() && v.Put(t) <= bits
    ensures t <= bits
    ensures ReadVuiTiming(bits, |t|) == Got(v.Canonical(), |v.Put(t)|)
  {
    hide PutFlagIf, PutBitsIf, PutUeIf, PutSeIf, ReadFlagIf, ReadBitsIf, ReadUeIf, ReadSeIf;
    ElementLaws(bits);
  }

  datatype VuiRestriction = VuiRestriction(
    bitstreamRestrictionFlag: int,
    motionVectorsOverPicBoundariesFlag: int,
    maxBytesPerPicDenom: int,
    maxBitsPerMbDenom: int,
    log2MaxMvLengthHorizontal: int,
    log2MaxMvLengthVertical: int,
    numReorderFrames: int,
    maxDecFrameBuffering: int)
  {
    predicate Writable()
    {
      bitstreamRestrictionFlag != 0 ==>
        && UeDomain(maxBytesPerPicDenom) && UeDomain(maxBitsPerMbDenom)
        && UeDomain(log2MaxMvLengthHorizontal) && UeDomain(log2MaxMvLengthVertical)
        && UeDomain(numReorderFrames) && UeDomain(maxDecFrameBuffering)
    }

    predicate InRange()
    {
      && Writable() && IsFlag(bitstreamRestrictionFlag)
      && (bitstreamRestrictionFlag != 0 ==> IsFlag(motionVectorsOverPicBoundariesFlag))
    }

    function Put(t: seq<bool>): (r: seq<bool>)
      requires Writable()
    {
      var c := bitstreamRestrictionFlag != 0;
      var t := PutFlagIf(true, t, bitstreamRestrictionFlag);
      var t := PutFlagIf(c, t, motionVectorsOverPicBoundariesFlag);
      var t := PutUeIf(c, t, maxBytesPerPicDenom);
      var t := PutUeIf(c, t, maxBitsPerMbDenom);
      var t := PutUeIf(c, t, log2MaxMvLengthHorizontal);
      var t := PutUeIf(c, t, log2MaxMvLengthVertical);
      var t := PutUeIf(c, t, numReorderFrames);
      PutUeIf(c, t, maxDecFrameBuffering)
    }

    function Canonical(): (c: VuiRestriction)
    {
      var c := bitstreamRestrictionFlag != 0;
      VuiRestriction(bitstreamRestrictionFlag, Opt(c, motionVectorsOverPicBoundariesFlag),
                     Opt(c, maxBytesPerPicDenom), Opt(c, maxBitsPerMbDenom),
                     Opt(c, log2MaxMvLengthHorizontal), Opt(c, log2MaxMvLengthVertical),
                     Opt(c, numReorderFrames), Opt(c, maxDecFrameBuffering))
    }
  }

  function ReadVuiRestriction(bits: seq<bool>, pos: nat): (g: Got<VuiRestriction>)
    ensures g.pos >= pos
  {
    var flag := ReadFlagIf(true, bits, pos);
    var c := flag.val != 0;
    var mv := ReadFlagIf(c, bits, flag.pos);
    var bytes := ReadUeIf(c, bits, mv.pos);
    var mbBits := ReadUeIf(c, bits, bytes.pos);
    var horizontal := ReadUeIf(c, bits, mbBits.pos);
    var vertical := ReadUeIf(c, bits, horizontal.pos);
    var reorder := ReadUeIf(c, bits, vertical.pos);
    var buffering := ReadUeIf(c, bits, reorder.pos);
    Got(VuiRestriction(flag.val, mv.val, bytes.val, mbBits.val, horizontal.val, vertical.val,
                       reorder.val, buffering.val), buffering.pos)
  }

  lemma VuiRestrictionLaw(t: seq<bool>, v: VuiRestriction, bits: seq<bool>)
    requires v.InRange() && v.Put(t) <= bits
    ensures t <= bits
    ensures ReadVuiRestriction(bits, |t|) == Got(v.Canonical(), |v.Put(t)|)
  {
    hide PutFlagIf, PutBitsIf, PutUeIf, PutSeIf, ReadFlagIf, ReadBitsIf, ReadUeIf, ReadSeIf;
    ElementLaws(bits);
  }

  /** The VUI structure together with the two HRD blocks it brings. */
  datatype Vui = Vui(
    video: VuiVideo,
    timing: VuiTiming,
    nalHrdParametersPresentFlag: int,
    hrdNal: Hrd,
    vclHrdParametersPresentFlag: int,
    hrdVcl: Hrd,
    lowDelayHrdFlag: int,
    picStructPresentFlag: int,
    restriction: VuiRestriction)
  {
    predicate Shape()
    {
      hrdNal.Shape() && hrdVcl.Shape()
    }

    predicate AnyHrd()
    {
      nalHrdParametersPresentFlag != 0 || vclHrdParametersPresentFlag != 0
    }

    predicate Writable()
    {
      && Shape() && timing.Writable() && restriction.Writable()
      && (nalHrdParametersPresentFlag != 0 ==> hrdNal.Writable())
      && (vclHrdParametersPresentFlag != 0 ==> hrdVcl.Writable())
    }

    predicate InRange()
    {
      && Writable() && video.InRange() && timing.InRange() && restriction.InRange()
      && IsFlag(nalHrdParametersPresentFlag) && IsFlag(vclHrdParametersPresentFlag)
      && (nalHrdParametersPresentFlag != 0 ==> hrdNal.InRange())
      && (vclHrdParametersPresentFlag != 0 ==> hrdVcl.InRange())
      && (AnyHrd() ==> IsFlag(lowDelayHrdFlag))
      && IsFlag(picStructPresentFlag)
    }

    function PutHrds(t: seq<bool>): (r: seq<bool>)
      requires Writable()
    {
      var t := PutHrdBlock(t, nalHrdParametersPresentFlag, hrdNal);
      PutHrdBlock(t, vclHrdParametersPresentFlag, hrdVcl)
    }

    function Put(t: seq<bool>): (r: seq<bool>)
      requires Writable()
    {
      var t := PutHrds(timing.Put(video.Put(t)));
      var t := PutFlagIf(AnyHrd(), t, lowDelayHrdFlag);
      var t := PutFlagIf(true, t, picStructPresentFlag);
      restriction.Put(t)
    }

    function Canonical(): (c: Vui)
      requires Writable()
    {
      Vui(video.Canonical(), timing.Canonical(),
          nalHrdParametersPresentFlag, if nalHrdParametersPresentFlag != 0 then hrdNal.Canonical() else NoHrd(),
          vclHrdParametersPresentFlag, if vclHrdParametersPresentFlag != 0 then hrdVcl.Canonical() else NoHrd(),
          Opt(AnyHrd(), lowDelayHrdFlag), picStructPresentFlag, restriction.Canonical())
    }
  }

  function PutHrdBlock(t: seq<bool>, present: int, h: Hrd): (r: seq<bool>)
    requires present != 0 ==> h.Writable()
  {
    var t := PutFlagIf(true, t, present);
    if present != 0 then h.Put(t) else t
  }

  function ReadHrdBlock(bits: seq<bool>, pos: nat): (g: Got<(int, Hrd)>)
    ensures g.pos >= pos && g.val.1.Shape()
  {
    var present := ReadFlagIf(true, bits, pos);
    if present.val != 0 then
      var h := ReadHrd(bits, present.pos);
      Got((present.val, h.val), h.pos)
    else
      Got((0, NoHrd()), present.pos)
  }

  lemma HrdBlockLaw(t: seq<bool>, present: int, h: Hrd, bits: seq<bool>)
    requires IsFlag(present) && (present != 0 ==> h.InRange())
    requires PutHrdBlock(t, present, h) <= bits
    ensures t <= bits
    ensures ReadHrdBlock(bits, |t|)
         == Got((present, if present != 0 then h.Canonical() else NoHrd()), |PutHrdBlock(t, present, h)|)
  {
    hide PutFlagIf, PutBitsIf, PutUeIf, PutSeIf, ReadFlagIf, ReadBitsIf, ReadUeIf, ReadSeIf;
    if present != 0 {
      HrdLaw(PutFlagIf(true, t, present), h, bits);
    }
    ElementLaws(bits);
  }

  function NoVui(): (v: Vui)
    ensures v.Shape()
  {
    Vui(VuiVideo(0, 0, 0, 0, 0, 0, 0, 0, 0, 0, 0, 0, 0), VuiTiming(0, 0, 0, 0, 0, 0, 0),
        0, NoHrd(), 0, NoHrd(), 0, 0, VuiRestriction(0, 0, 0, 0, 0, 0, 0, 0))
  }

  function ReadVui(bits: seq<bool>, pos: nat): (g: Got<Vui>)
    ensures g.pos >= pos && g.val.Shape()
  {
    var video := ReadVuiVideo(bits, pos);
    var timing := ReadVuiTiming(bits, video.pos);
    var nal := ReadHrdBlock(bits, timing.pos);
    var vcl := ReadHrdBlock(bits, nal.pos);
    var lowDelay := ReadFlagIf(nal.val.0 != 0 || vcl.val.0 != 0, bits, vcl.pos);
    var picStruct := ReadFlagIf(true, bits, lowDelay.pos);
    var restriction := ReadVuiRestriction(bits, picStruct.pos);
    Got(Vui(video.val, timing.val, nal.val.0, nal.val.1, vcl.val.0, vcl.val.1, lowDelay.val,
            picStruct.val, restriction.val), restriction.pos)
  }

  lemma VuiLaw(t: seq<bool>, v: Vui, bits: seq<bool>)
    requires v.InRange() && v.Put(t) <= bits
    ensures t <= bits
    ensures ReadVui(bits, |t|) == Got(v.Canonical(), |v.Put(t)|)
  {
    hide PutFlagIf, PutBitsIf, PutUeIf, PutSeIf, ReadFlagIf, ReadBitsIf, ReadUeIf, ReadSeIf;
    hide VuiVideo.Put, VuiTiming.Put, VuiRestriction.Put, PutHrdBlock;
    hide ReadVuiVideo, ReadVuiTiming, ReadVuiRestriction, ReadHrdBlock;
    hide VuiVideo.Canonical, VuiTiming.Canonical, VuiRestriction.Canonical, Hrd.Canonical;
    var t1 := v.video.Put(t);
    var t2 := v.timing.Put(t1);
    var t3 := PutHrdBlock(t2, v.nalHrdParametersPresentFlag, v.hrdNal);
    var t4 := PutHrdBlock(t3, v.vclHrdParametersPresentFlag, v.hrdVcl);
    var t5 := PutFlagIf(v.AnyHrd(), t4, v.lowDelayHrdFlag);
    VuiRestrictionLaw(PutFlagIf(true, t5, v.picStructPresentFlag), v.restriction, bits);
    ElementLaws(bits);
    assert t4 <= bits;
    HrdBlockLaw(t3, v.vclHrdParametersPresentFlag, v.hrdVcl, bits);
    HrdBlockLaw(t2, v.nalHrdParametersPresentFlag, v.hrdNal, bits);
    VuiTimingLaw(t1, v.timing, bits);
    VuiVideoLaw(t, v.video, bits);
  }

  // ---------------------------------------------------------------- the whole parameter set

  datatype Sps = Sps(
    header: Header,
    high: HighPart,
    order: PicOrder,
    frame: Frame,
    vuiParametersPresentFlag: int,
    vui: Vui)
  {
    /** The table sizes of the C structure. */
    predicate Shape()
    {
      high.Shape() && order.Shape() && vui.Shape()
    }

    predicate Writable()
    {
      && Shape() && header.Writable() && order.Writable() && frame.Writable()
      && (header.HighProfile() ==> high.Writable())
      && (vuiParametersPresentFlag != 0 ==> vui.Writable())
    }

    predicate InRange()
    {
      && Writable() && header.InRange() && order.InRange() && frame.InRange()
      && (header.HighProfile() ==> high.InRange())
      && IsFlag(vuiParametersPresentFlag)
      && (vuiParametersPresentFlag != 0 ==> vui.InRange())
    }

    function PutHigh(t: seq<bool>): (r: seq<bool>)
      requires Writable()
    {
      if header.HighProfile() then high.Put(t) else t
    }

    function PutVui(t: seq<bool>): (r: seq<bool>)
      requires Writable()
    {
      if vuiParametersPresentFlag != 0 then vui.Put(t) else t
    }

    function Put(t: seq<bool>): (r: seq<bool>)
      requires Writable()
    {
      var t := frame.Put(order.Put(PutHigh(header.Put(t))));
      PutVui(PutFlagIf(true, t, vuiParametersPresentFlag))
    }

    /** Every field that is sent, and the reader's default for every field that is not. */
    function Canonical(): (s: Sps)
      requires Writable()
    {
      Sps(header.Canonical(), if header.HighProfile() then high.Canonical() else NoHighPart(),
          order.Canonical(), frame.Canonical(), vuiParametersPresentFlag,
          if vuiParametersPresentFlag != 0 then vui.Canonical() else NoVui())
    }
  }

  function ReadSps(bits: seq<bool>, pos: nat): (g: Got<Sps>)
    ensures g.pos >= pos && g.val.Shape()
  {
    hide ReadHeader, ReadPicOrder, ReadFrame, ReadHigh, ReadVui;
    var header := ReadHeader(bits, pos);
    var high := if header.val.HighProfile() then ReadHigh(bits, header.pos) else Got(NoHighPart(), header.pos);
    var order := ReadPicOrder(bits, high.pos);
    var frame := ReadFrame(bits, order.pos);
    var present := ReadFlagIf(true, bits, frame.pos);
    var vui := if present.val != 0 then ReadVui(bits, present.pos) else Got(NoVui(), present.pos);
    Got(Sps(header.val, high.val, order.val, frame.val, present.val, vui.val), vui.pos)
  }

  /**
    The syntax round trip: from any position and whatever follows, reading the bits of a
    parameter set rebuilds it and stops exactly where the writer stopped.
  */
  lemma SpsLaw(t: seq<bool>, s: Sps, bits: seq<bool>)
    requires s.InRange() && s.Put(t) <= bits
    ensures t <= bits
    ensures ReadSps(bits, |t|) == Got(s.Canonical(), |s.Put(t)|)
  {
    hide Header.Put, PicOrder.Put, Frame.Put, HighPart.Put, Vui.Put;
    hide ReadHeader, ReadPicOrder, ReadFrame, ReadHigh, ReadVui;
    hide PicOrder.Canonical, Frame.Canonical, HighPart.Canonical, Vui.Canonical;
    hide Header.InRange, PicOrder.InRange, Frame.InRange, HighPart.InRange, Vui.InRange;
    var t1 := s.header.Put(t);
    var t2 := s.PutHigh(t1);
    var t3 := s.order.Put(t2);
    var t4 := s.frame.Put(t3);
    var t5 := PutFlagIf(true, t4, s.vuiParametersPresentFlag);
    if s.vuiParametersPresentFlag != 0 {
      VuiLaw(t5, s.vui, bits);
    }
    assert t4 <= bits && ReadFlagIf(true, bits, |t4|) == Got(s.vuiParametersPresentFlag, |t5|) by {
      ElementLaws(bits);
    }
    FrameLaw(t3, s.frame, bits);
    PicOrderLaw(t2, s.order, bits);
    if s.header.HighProfile() {
      HighLaw(t1, s.high, bits);
    }
    HeaderLaw(t, s.header, bits);
  }

  // ---------------------------------------------------------------- the reader on arbitrary bits

  /** The scaling arithmetic stays below 256 in size, so its C sums cannot overflow. */
  lemma {:induction false} ListEntriesBounded(bits: seq<bool>, pos: nat, slots: seq<int>)
    ensures var r := ReadList(bits, pos, slots);
            && -256 < r.next < 256 && 0 <= r.useDefault <= 1
            && forall k :: 0 <= k < |r.list| ==> -256 < r.list[k] < 256
    decreases |slots|
  {
    hide ReadSe;
    if slots != [] {
      ListEntriesBounded(bits, pos, slots[..|slots| - 1]);
    }
  }

  /** However damaged the bits are, the two clamps keep the loop counts inside the tables. */
  lemma CountsClamped(bits: seq<bool>, pos: nat)
    ensures var s := ReadSps(bits, pos).val;
            && s.order.numRefFramesInPicOrderCntCycle <= MAX_REF_FRAMES_IN_CYCLE
            && s.vui.hrdNal.cpbCntMinus1 < MAX_CPB_COUNT
            && s.vui.hrdVcl.cpbCntMinus1 < MAX_CPB_COUNT
            && s.Shape()
  {
    hide ReadHeader, ReadHigh, ReadFrame, ReadVuiVideo, ReadVuiTiming, ReadVuiRestriction;
    hide ReadUeIf, ReadSeIf, ReadBitsIf, ReadFlagIf, ReadSes, ReadCpbs, ReadLengths;
  }

  // ---------------------------------------------------------------- canonical form

  lemma CanonicalHigh(h: HighPart)
    requires h.InRange()
    ensures h.Canonical().Shape() && h.Canonical().InRange() && h.Canonical().Writable()
    ensures h.Canonical().Canonical() == h.Canonical()
  {
    hide ScalingEntry.InRange, ScalingEntry.Writable;
    var c := h.Canonical();
    forall i | 0 <= i < SCALING_LISTS
      ensures |c.lists[i].list| == ListSize(i)
      ensures i < h.SentLists() ==> c.lists[i].InRange() && c.lists[i].Writable()
      ensures i < h.SentLists() ==> c.lists[i].Canonical(NoList(i).list) == c.lists[i]
    {
      if i < h.SentLists() {
        assert c.lists[i] == h.lists[i].Canonical(NoList(i).list);
        CanonicalEntry(h.lists[i], NoList(i).list);
      }
    }
    assert CanonicalLists(c.lists[..c.SentLists()]) == c.lists;
  }

  lemma CanonicalEntry(e: ScalingEntry, slots: seq<int>)
    requires e.InRange() && |slots| == |e.list|
    ensures e.Canonical(slots).InRange() && e.Canonical(slots).Writable()
    ensures e.Canonical(slots).Canonical(slots) == e.Canonical(slots)
    ensures |e.Canonical(slots).list| == |e.list|
  {
    if e.present != 0 {
      InRangeListWritable(e.Canonical(slots));
    }
  }

  lemma CanonicalOrder(o: PicOrder)
    requires o.InRange()
    ensures o.Canonical().Shape() && o.Canonical().InRange() && o.Canonical().Writable()
    ensures o.Canonical().Canonical() == o.Canonical()
  {
  }

  lemma CanonicalHrd(h: Hrd)
    requires h.InRange()
    ensures h.Canonical().InRange() && h.Canonical().Writable()
    ensures h.Canonical().Canonical() == h.Canonical()
  {
  }

  lemma CanonicalVui(v: Vui)
    requires v.InRange()
    ensures v.Canonical().Shape() && v.Canonical().InRange() && v.Canonical().Writable()
    ensures v.Canonical().Canonical() == v.Canonical()
  {
    CanonicalVideo(v.video);
    CanonicalTiming(v.timing);
    CanonicalRestriction(v.restriction);
    if v.nalHrdParametersPresentFlag != 0 {
      CanonicalHrd(v.hrdNal);
    }
    if v.vclHrdParametersPresentFlag != 0 {
      CanonicalHrd(v.hrdVcl);
    }
    hide VuiVideo.Canonical, VuiTiming.Canonical, VuiRestriction.Canonical, Hrd.Canonical;
    hide VuiVideo.InRange, VuiTiming.InRange, VuiRestriction.InRange, Hrd.InRange;
    hide VuiTiming.Writable, VuiRestriction.Writable, Hrd.Writable;
  }

  lemma CanonicalVideo(v: VuiVideo)
    requires v.InRange()
    ensures v.Canonical().InRange() && v.Canonical().Canonical() == v.Canonical()
  {
    hide BitsDomain;
  }

  lemma CanonicalTiming(v: VuiTiming)
    requires v.InRange()
    ensures v.Canonical().InRange() && v.Canonical().Writable() && v.Canonical().Canonical() == v.Canonical()
  {
    hide BitsDomain;
  }

  lemma CanonicalRestriction(v: VuiRestriction)
    requires v.InRange()
    ensures v.Canonical().InRange() && v.Canonical().Writable() && v.Canonical().Canonical() == v.Canonical()
  {
  }

  /** Canonical form stays in range, and taking it twice changes nothing. */
  lemma CanonicalIdempotent(s: Sps)
    requires s.InRange()
    ensures s.Canonical().InRange() && s.Canonical().Canonical() == s.Canonical()
  {
    hide HighPart.Canonical, PicOrder.Canonical, Vui.Canonical, HighPart.InRange, PicOrder.InRange, Vui.InRange;
    hide HighPart.Writable, PicOrder.Writable, Vui.Writable, BitsDomain;
    if s.header.HighProfile() {
      CanonicalHigh(s.high);
    }
    CanonicalOrder(s.order);
    if s.vuiParametersPresentFlag != 0 {
      CanonicalVui(s.vui);
    }
  }

  // ---------------------------------------------------------------- trailing bits

  function PutZerosToByte(t: seq<bool>): (r: seq<bool>)
    ensures |r| % 8 == 0 && |t| <= |r| < |t| + 8
    ensures t <= r && forall k :: |t| <= k < |r| ==> !r[k]
    decreases (8 - |t| % 8) % 8
  {
    if |t| % 8 == 0 then t else PutZerosToByte(t + [false])
  }

  lemma ZerosStep(t: seq<bool>)
    requires |t| % 8 != 0
    ensures PutZerosToByte(t) == PutZerosToByte(t + [false])
  {
  }

  lemma ZerosDone(t: seq<bool>)
    requires |t| % 8 == 0
    ensures PutZerosToByte(t) == t
  {
  }

  /** The stop bit and the zero bits that complete its byte. */
  function PutTrailing(t: seq<bool>): (r: seq<bool>)
    ensures |r| == 8 * (|t| / 8 + 1)
    ensures t <= r && r[|t|] && forall k :: |t| < k < |r| ==> !r[k]
  {
    PutZerosToByte(t + [true])
  }
}
