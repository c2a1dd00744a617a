/**
  What the coded bits of a parameter set depend on: its canonical form, and how their number
  changes with one field.
*/
module SpsSize {
  import opened BitCodes
  import opened SpsSyntax

  // ---------------------------------------------------------------- coding the canonical form

  lemma {:induction false} PutListOfDefault(t: seq<bool>, e: ScalingEntry, n: nat)
    requires e.ListInRange() && e.useDefault != 0 && n <= |e.list|
    requires e.ListWritable() && e.(list := e.DecodedList()).ListWritable()
    ensures e.(list := e.DecodedList()).PutList(t, n) == e.PutList(t, n)
    decreases n
  {
    var d := e.(list := e.DecodedList());
    if n > 0 {
      PutListOfDefault(t, e, n - 1);
      if n > 1 {
        StoppedAtOnce(e, n - 1);
        StoppedAtOnce(d, n - 1);
      }
    }
  }

  lemma EntryPutCanonical(t: seq<bool>, e: ScalingEntry, slots: seq<int>)
    requires e.InRange() && e.Writable() && |slots| == |e.list|
    requires e.Canonical(slots).Writable()
    ensures e.Canonical(slots).Put(t) == e.Put(t)
  {
    if e.present != 0 && e.useDefault != 0 {
      PutListOfDefault(PutFlagIf(true, t, e.present), e, |e.list|);
    }
  }

  lemma {:induction false} ListsPutCanonical(t: seq<bool>, lists: seq<ScalingEntry>, others: seq<ScalingEntry>)
    requires |others| == |lists|
    requires forall i :: 0 <= i < |lists| ==> lists[i].InRange() && lists[i].Writable() && others[i].Writable()
    requires forall i :: 0 <= i < |lists| ==>
               |NoList(i).list| == |lists[i].list| && others[i] == lists[i].Canonical(NoList(i).list)
    ensures PutLists(t, others) == PutLists(t, lists)
    decreases |lists|
  {
    hide ScalingEntry.InRange, ScalingEntry.Writable, ScalingEntry.Canonical, ScalingEntry.Put;
    if lists != [] {
      var n := |lists| - 1;
      ListsPutCanonical(t, lists[..n], others[..n]);
      EntryPutCanonical(PutLists(t, lists[..n]), lists[n], NoList(n).list);
    }
  }

  lemma HighPutCanonical(t: seq<bool>, h: HighPart)
    requires h.InRange() && h.Canonical().Writable()
    ensures h.Canonical().Put(t) == h.Put(t)
  {
    hide ScalingEntry.InRange, ScalingEntry.Writable, ScalingEntry.Canonical, ScalingEntry.Put, PutUeIf, PutFlagIf;
    var c, n := h.Canonical(), h.SentLists();
    HighFieldsCanonical(t, h);
    ListsPutCanonical(h.PutFields(t), h.lists[..n], c.lists[..n]);
  }

  lemma HighFieldsCanonical(t: seq<bool>, h: HighPart)
    requires h.InRange() && h.Canonical().Writable()
    ensures h.Canonical().PutFields(t) == h.PutFields(t) && h.Canonical().SentLists() == h.SentLists()
  {
    hide ScalingEntry.InRange, ScalingEntry.Writable, ScalingEntry.Canonical;
  }

  lemma OrderPutCanonical(t: seq<bool>, o: PicOrder)
    requires o.InRange() && o.Canonical().Writable()
    ensures o.Canonical().Put(t) == o.Put(t)
  {
    assert o.Canonical().offsetForRefFrame[..o.SentOffsets()] == o.offsetForRefFrame[..o.SentOffsets()];
  }

  lemma FramePutCanonical(t: seq<bool>, f: Frame)
    requires f.InRange() && f.Canonical().Writable()
    ensures f.Canonical().Put(t) == f.Put(t)
  {
  }

  lemma HrdPutCanonical(t: seq<bool>, h: Hrd)
    requires h.InRange() && h.Canonical().Writable()
    ensures h.Canonical().Put(t) == h.Put(t)
  {
    hide PutCpbs, PutBitsIf, PutUeIf;
    assert h.Canonical().cpbs[..h.cpbCntMinus1 + 1] == h.cpbs[..h.cpbCntMinus1 + 1];
  }

  lemma VideoPutCanonical(t: seq<bool>, v: VuiVideo)
    ensures v.Canonical().Put(t) == v.Put(t)
  {
    hide PutBits, PutFlag;
  }

  lemma TimingPutCanonical(t: seq<bool>, v: VuiTiming)
    requires v.Writable() && v.Canonical().Writable()
    ensures v.Canonical().Put(t) == v.Put(t)
  {
    hide PutBits, PutFlag, PutUe;
  }

  lemma RestrictionPutCanonical(t: seq<bool>, v: VuiRestriction)
    requires v.Writable() && v.Canonical().Writable()
    ensures v.Canonical().Put(t) == v.Put(t)
  {
    hide PutBits, PutFlag, PutUe;
  }

  lemma VuiPutCanonical(t: seq<bool>, v: Vui)
    requires v.InRange() && v.Canonical().Writable()
    ensures v.Canonical().Put(t) == v.Put(t)
  {
    hide VuiVideo.Put, VuiTiming.Put, VuiRestriction.Put, Hrd.Put, PutFlagIf;
    hide VuiVideo.Canonical, VuiTiming.Canonical, VuiRestriction.Canonical, Hrd.Canonical;
    hide VuiVideo.InRange, VuiTiming.InRange, VuiRestriction.InRange, Hrd.InRange;
    var t1 := v.video.Put(t);
    VideoPutCanonical(t, v.video);
    TimingPutCanonical(t1, v.timing);
    var t2 := PutFlagIf(true, v.timing.Put(t1), v.nalHrdParametersPresentFlag);
    if v.nalHrdParametersPresentFlag != 0 {
      HrdPutCanonical(t2, v.hrdNal);
    }
    var t3 := PutFlagIf(true, PutHrdBlock(v.timing.Put(t1), v.nalHrdParametersPresentFlag, v.hrdNal),
      v.vclHrdParametersPresentFlag);
    if v.vclHrdParametersPresentFlag != 0 {
      HrdPutCanonical(t3, v.hrdVcl);
    }
    var t4 := PutFlagIf(v.AnyHrd(), v.PutHrds(v.timing.Put(t1)), v.lowDelayHrdFlag);
    LowDelayCanonical(v.AnyHrd(), v.PutHrds(v.timing.Put(t1)), v.lowDelayHrdFlag);
    RestrictionPutCanonical(PutFlagIf(true, t4, v.picStructPresentFlag), v.restriction);
  }

  lemma LowDelayCanonical(c: bool, t: seq<bool>, v: int)
    ensures PutFlagIf(c, t, Opt(c, v)) == PutFlagIf(c, t, v)
  {
  }

  /** The canonical form is coded into the same bits. */
  lemma PutCanonical(t: seq<bool>, s: Sps)
    requires s.InRange() && s.Canonical().Writable()
    ensures s.Canonical().Put(t) == s.Put(t)
  {
    hide Header.Put, PicOrder.Put, Frame.Put, HighPart.Put, Vui.Put, PutFlagIf;
    hide PicOrder.Canonical, Frame.Canonical, HighPart.Canonical, Vui.Canonical;
    hide PicOrder.InRange, Frame.InRange, HighPart.InRange, Vui.InRange;
    HeaderPutCanonical(t, s.header);
    var t1 := s.header.Put(t);
    if s.header.HighProfile() {
      HighPutCanonical(t1, s.high);
    }
    var t2 := s.PutHigh(t1);
    OrderPutCanonical(t2, s.order);
    FramePutCanonical(s.order.Put(t2), s.frame);
    if s.vuiParametersPresentFlag != 0 {
      VuiPutCanonical(PutFlagIf(true, s.frame.Put(s.order.Put(t2)), s.vuiParametersPresentFlag), s.vui);
    }
  }

  lemma HeaderPutCanonical(t: seq<bool>, h: Header)
    requires h.Writable() && h.Canonical().Writable()
    ensures h.Canonical().Put(t) == h.Put(t) && h.Canonical().HighProfile() == h.HighProfile()
  {
  }

  /** Two sets in range are coded alike exactly when their canonical forms are the same. */
  lemma CodedAlikeExactly(t: seq<bool>, a: Sps, b: Sps)
    requires a.InRange() && b.InRange()
    ensures a.Put(t) == b.Put(t) <==> a.Canonical() == b.Canonical()
  {
    hide Sps.Put, Sps.Canonical, Sps.InRange, Sps.Writable;
    SpsInRangeWritable(a);
    SpsInRangeWritable(b);
    if a.Canonical() == b.Canonical() {
      CanonicalIdempotent(a);
      SpsInRangeWritable(a.Canonical());
      PutCanonical(t, a);
      PutCanonical(t, b);
    }
    if a.Put(t) == b.Put(t) {
      SpsLaw(t, a, a.Put(t));
      SpsLaw(t, b, a.Put(t));
    }
  }

  lemma SpsInRangeWritable(s: Sps)
    requires s.InRange()
    ensures s.Writable()
  {
    hide Header.InRange, HighPart.InRange, PicOrder.InRange, Frame.InRange, Vui.InRange;
  }

  // ---------------------------------------------------------------- the number of bits

  lemma ShortCodes()
    ensures UeSize(0) == 1 && UeSize(1) == 3
    ensures forall v :: UeDomain(v) ==> UeSize(v) >= 1
  {
    assert BitLen(1) == 1 && BitLen(2) == 2;
  }

  lemma FrameSize(t: seq<bool>, u: seq<bool>, f: Frame, refs: int)
    requires f.Writable() && UeDomain(refs)
    ensures |f.(numRefFrames := refs).Put(u)| - |u| - UeSize(refs) == |f.Put(t)| - |t| - UeSize(f.numRefFrames)
  {
    hide PutFlagIf, PutUeIf, UeSize, UeDomain;
    ElementSizes();
  }

  lemma RestrictionSize(t: seq<bool>, u: seq<bool>, r: VuiRestriction, frames: int)
    requires r.Writable() && UeDomain(frames)
    ensures |r.(maxDecFrameBuffering := frames).Put(u)| - |u| ==
            |r.Put(t)| - |t| + if r.bitstreamRestrictionFlag != 0 then UeSize(frames) - UeSize(r.maxDecFrameBuffering)
              else 0
  {
    hide PutFlagIf, PutUeIf, UeSize, UeDomain;
    ElementSizes();
  }

  lemma VideoSize(t: seq<bool>, u: seq<bool>, v: VuiVideo)
    ensures |v.Put(u)| - |u| == |v.Put(t)| - |t|
  {
    hide PutFlagIf, PutBitsIf;
    ElementSizes();
  }

  lemma TimingSize(t: seq<bool>, u: seq<bool>, v: VuiTiming)
    requires v.Writable()
    ensures |v.Put(u)| - |u| == |v.Put(t)| - |t|
  {
    hide PutFlagIf, PutBitsIf, PutUeIf, UeSize, UeDomain;
    ElementSizes();
  }

  lemma {:induction false} CpbsSize(t: seq<bool>, u: seq<bool>, cpbs: seq<Cpb>)
    requires forall i :: 0 <= i < |cpbs| ==> cpbs[i].Writable()
    ensures |PutCpbs(u, cpbs)| - |u| == |PutCpbs(t, cpbs)| - |t|
    decreases |cpbs|
  {
    hide PutFlagIf, PutUeIf, UeSize, UeDomain;
    if cpbs != [] {
      var n := |cpbs| - 1;
      CpbsSize(t, u, cpbs[..n]);
      ElementSizes();
    }
  }

  lemma HrdBlockSize(t: seq<bool>, u: seq<bool>, present: int, h: Hrd)
    requires present != 0 ==> h.Writable()
    ensures |PutHrdBlock(u, present, h)| - |u| == |PutHrdBlock(t, present, h)| - |t|
  {
    hide PutFlagIf, PutBitsIf, PutUeIf, UeSize, PutCpbs;
    ElementSizes();
    if present != 0 {
      CpbsSize(h.PutScales(PutFlagIf(true, t, present)), h.PutScales(PutFlagIf(true, u, present)),
        h.cpbs[..h.cpbCntMinus1 + 1]);
    }
  }

  lemma VuiSize(t: seq<bool>, u: seq<bool>, v: Vui, frames: int)
    requires v.Writable() && UeDomain(frames)
    ensures |v.(restriction := v.restriction.(maxDecFrameBuffering := frames)).Put(u)| - |u| ==
            |v.Put(t)| - |t| +
            if v.restriction.bitstreamRestrictionFlag != 0
              then UeSize(frames) - UeSize(v.restriction.maxDecFrameBuffering) else 0
  {
    hide VuiVideo.Put, VuiTiming.Put, VuiRestriction.Put, PutHrdBlock, PutFlagIf, UeSize, UeDomain, PutBitsIf, PutUeIf;
    hide VuiTiming.Writable, Hrd.Writable;
    var v' := v.(restriction := v.restriction.(maxDecFrameBuffering := frames));
    var t1, u1 := v.video.Put(t), v'.video.Put(u);
    VideoSize(t, u, v.video);
    var t2, u2 := v.timing.Put(t1), v'.timing.Put(u1);
    TimingSize(t1, u1, v.timing);
    var t3, u3 := PutHrdBlock(t2, v.nalHrdParametersPresentFlag, v.hrdNal),
      PutHrdBlock(u2, v.nalHrdParametersPresentFlag, v.hrdNal);
    HrdBlockSize(t2, u2, v.nalHrdParametersPresentFlag, v.hrdNal);
    var t4, u4 := PutHrdBlock(t3, v.vclHrdParametersPresentFlag, v.hrdVcl),
      PutHrdBlock(u3, v.vclHrdParametersPresentFlag, v.hrdVcl);
    HrdBlockSize(t3, u3, v.vclHrdParametersPresentFlag, v.hrdVcl);
    ElementSizes();
    var t5, u5 := PutFlagIf(v.AnyHrd(), t4, v.lowDelayHrdFlag), PutFlagIf(v.AnyHrd(), u4, v.lowDelayHrdFlag);
    RestrictionSize(PutFlagIf(true, t5, v.picStructPresentFlag), PutFlagIf(true, u5, v.picStructPresentFlag),
      v.restriction, frames);
  }

  /** One reference frame and one buffered frame cost at most four bits more than what was there. */
  lemma FixedBits(t: seq<bool>, s: Sps, s': Sps)
    requires s.Writable() && s'.Writable()
    requires s' == s.(frame := s.frame.(numRefFrames := 1),
                      vui := s.vui.(restriction := s.vui.restriction.(maxDecFrameBuffering := 1)))
    ensures |s'.Put(t)| <= |s.Put(t)| + 4
  {
    hide Header.Put, HighPart.Put, PicOrder.Put, Frame.Put, Vui.Put, PutFlagIf, UeSize;
    hide Header.Writable, HighPart.Writable, PicOrder.Writable, Vui.Writable;
    ShortCodes();
    ElementSizes();
    var t1 := s.order.Put(s.PutHigh(s.header.Put(t)));
    FrameSize(t1, t1, s.frame, 1);
    if s.vuiParametersPresentFlag != 0 {
      var f, f' := PutFlagIf(true, s.frame.Put(t1), s.vuiParametersPresentFlag),
        PutFlagIf(true, s'.frame.Put(t1), s.vuiParametersPresentFlag);
      VuiSize(f, f', s.vui, 1);
      RestrictionDomain(s.vui);
    }
  }

  lemma RestrictionDomain(v: Vui)
    requires v.Writable()
    ensures v.restriction.bitstreamRestrictionFlag != 0 ==> UeDomain(v.restriction.maxDecFrameBuffering)
  {
    hide Hrd.Writable, VuiTiming.Writable;
  }
}
