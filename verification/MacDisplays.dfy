/**
  Matching a Mac host's desktop to the client's monitors
  (app/backend/outputtopology.cpp:448-510, app/backend/outputtopology.h:29-34).
*/
module MacDisplays {

  import opened Options
  import opened Modes

  /** As QRect: `Right` and `Bottom` are the last column and row inside. */
  datatype Bounds = Bounds(x: int, y: int, width: int, height: int)
  {
    function Right(): (r: int) { x + width - 1 }
    function Bottom(): (b: int) { y + height - 1 }
  }

  /** `backing` is the compositor's pixel size, not valid where there is none. */
  datatype Display = Display(bounds: Bounds, native: Size, backing: Size)

  datatype Problem = DisplayCount | NotSideBySide | MixedScale | BadDimensions(mode: string)
      | CanvasTooLarge(mode: string)

  // ---------------------------------------------------------------- sizes

  predicate EvenPixels(s: Size)
  {
    2 <= s.width <= 8192 && 2 <= s.height <= 8192 && s.width % 2 == 0 && s.height % 2 == 0
  }

  function MacDisplayModeSize(mode: string): (s: Size)
  {
    var parts := Split(mode);
    if |parts| != 2 then NO_SIZE
    else
      match (ToInt(parts[0]), ToInt(parts[1]))
      case (Some(w), Some(h)) =>
        if w < 2 || h < 2 || w > 8192 || h > 8192 || w % 2 != 0 || h % 2 != 0 || mode != ModeString(w, h) then NO_SIZE
        else Size(w, h)
      case _ => NO_SIZE
  }

  /** The texts accepted are exactly the printed forms of even sizes in range. */
  lemma MacDisplayModeSizeExact(mode: string, s: Size)
    ensures IsValid(s) && MacDisplayModeSize(mode) == s <==> EvenPixels(s) && mode == ModeString(s.width, s.height)
    ensures IsValid(MacDisplayModeSize(mode)) || MacDisplayModeSize(mode) == NO_SIZE
  {
    hide Split, ToInt, Number, ModeString;
    ModeSplits(s.width, s.height);
    NumberReads(s.width);
    NumberReads(s.height);
  }

  lemma PrintedSizeValid(s: Size)
    ensures IsValid(MacDisplayModeSize(ModeString(s.width, s.height))) <==> EvenPixels(s)
  {
    hide Split, ToInt, Number, ModeString;
    ModeSplits(s.width, s.height);
    NumberReads(s.width);
    NumberReads(s.height);
  }

  datatype Request = Request(schemaVersion: int, width: int, height: int, scale: int, encodingMode: string)

  /** None is the empty JSON object. */
  function MacDisplayRequest(mode: string, encodingMode: string, scale: int): (r: Option<Request>)
  {
    var size := MacDisplayModeSize(mode);
    if !IsValid(size) || (scale != 1 && scale != 2) || (encodingMode != HEVC_420 && encodingMode != HEVC_444) then None
    else Some(Request(3, size.width, size.height, scale, encodingMode))
  }

  // ---------------------------------------------------------------- matching

  predicate SideBySide(a: Bounds, b: Bounds)
  {
    && (a.Right() < b.x || b.Right() < a.x)
    && a.y <= b.Bottom() && b.y <= a.Bottom()
  }

  function Pixels(d: Display): (s: Size)
  {
    if IsValid(d.backing) then d.backing else d.native
  }

  /** A backing size of exactly twice the points is Retina. */
  function ScaleOf(d: Display): (k: int)
    ensures k == 1 || k == 2
  {
    if IsValid(d.backing) && d.backing == Size(2 * d.bounds.width, 2 * d.bounds.height) then 2 else 1
  }

  /** The backing size is a whole multiple of the points. */
  predicate WholeScale(d: Display)
  {
    IsValid(d.backing) ==> d.backing == Size(ScaleOf(d) * d.bounds.width, ScaleOf(d) * d.bounds.height)
  }

  predicate Usable(d: Display)
  {
    && WholeScale(d) && EvenPixels(Pixels(d))
    && d.bounds.width >= 1 && d.bounds.height >= 1
  }

  predicate Arranged(displays: seq<Display>)
  {
    && 1 <= |displays| <= 2
    && (|displays| == 2 ==> SideBySide(displays[0].bounds, displays[1].bounds))
  }

  /** The monitors side by side. */
  function Canvas(displays: seq<Display>): (s: Size)
  {
    if displays == [] then Size(0, 0)
    else
      var p := Pixels(displays[|displays| - 1]);
      var c := Canvas(displays[..|displays| - 1]);
      Size(c.width + p.width, Max(c.height, p.height))
  }

  lemma CanvasOfNone()
    ensures Canvas([]) == Size(0, 0)
  {
  }

  lemma CanvasGrows(displays: seq<Display>, i: nat)
    requires i < |displays|
    ensures var c, p := Canvas(displays[..i]), Pixels(displays[i]);
            Canvas(displays[..i + 1]) == Size(c.width + p.width, Max(c.height, p.height))
  {
    assert displays[..i + 1][..i] == displays[..i];
  }

  /** What makes a match possible, whatever the order of the displays. */
  predicate Matches(displays: seq<Display>)
  {
    && Arranged(displays)
    && (forall i :: 0 <= i < |displays| ==> Usable(displays[i]))
    && (forall i :: 0 <= i < |displays| ==> ScaleOf(displays[i]) == ScaleOf(displays[0]))
    && Canvas(displays).width <= 8192
  }

  /** The first thing wrong with displays `i` and later, in the order they are looked at. */
  function FirstProblem(displays: seq<Display>, i: nat): (p: Option<Problem>)
    requires i <= |displays|
    decreases |displays| - i
  {
    if i == |displays| then None
    else
      var d := displays[i];
      if !WholeScale(d) || ScaleOf(d) != ScaleOf(displays[0]) then Some(MixedScale)
      else if !Usable(d) then Some(BadDimensions(ModeString(Pixels(d).width, Pixels(d).height)))
      else FirstProblem(displays, i + 1)
  }

  function ProblemOf(displays: seq<Display>): (p: Option<Problem>)
  {
    if |displays| == 0 || |displays| > 2 then Some(DisplayCount)
    else if !Arranged(displays) then Some(NotSideBySide)
    else if FirstProblem(displays, 0).Some? then FirstProblem(displays, 0)
    else
      var c := Canvas(displays);
      if EvenPixels(c) then None else Some(CanvasTooLarge(ModeString(c.width, c.height)))
  }

  lemma {:induction false} CanvasEven(displays: seq<Display>)
    requires displays != [] && forall i :: 0 <= i < |displays| ==> Usable(displays[i])
    ensures var c := Canvas(displays);
            2 <= c.width && 2 <= c.height <= 8192 && c.width % 2 == 0 && c.height % 2 == 0
  {
    if |displays| > 1 {
      CanvasEven(displays[..|displays| - 1]);
    } else {
      assert Canvas(displays[..0]) == Size(0, 0);
    }
  }

  lemma {:induction false} FirstProblemNone(displays: seq<Display>, i: nat)
    requires i <= |displays|
    ensures FirstProblem(displays, i) == None <==>
            forall k :: i <= k < |displays| ==> Usable(displays[k]) && ScaleOf(displays[k]) == ScaleOf(displays[0])
    decreases |displays| - i
  {
    if i < |displays| {
      FirstProblemNone(displays, i + 1);
    }
  }

  /** Nothing is reported wrong exactly when the displays match. */
  lemma NoProblemIffMatches(displays: seq<Display>)
    ensures ProblemOf(displays) == None <==> Matches(displays)
  {
    hide ModeString, Usable, ScaleOf, Canvas;
    FirstProblemNone(displays, 0);
    if Arranged(displays) && FirstProblem(displays, 0) == None {
      CanvasEven(displays);
    }
  }

  /** The resolved mode, empty when there is none, the problem reported, and the scale. */
  method ResolveMacClientDisplayMode(displays: seq<Display>) returns (mode: string, error: Option<Problem>, scale: int)
    ensures error == ProblemOf(displays)
    ensures error == None <==> Matches(displays)
    ensures mode == if Matches(displays) then ModeString(Canvas(displays).width, Canvas(displays).height) else ""
    ensures scale == if Matches(displays) then ScaleOf(displays[0]) else 1
  {
    hide ModeString, MacDisplayModeSize, Canvas, Matches;
    NoProblemIffMatches(displays);
    CanvasOfNone();
    assert displays[..0] == [];
    scale := 1;
    if |displays| == 0 || |displays| > 2 {
      return "", Some(DisplayCount), scale;
    }
    if |displays| == 2 {
      var a, b := displays[0].bounds, displays[1].bounds;
      if !(a.Right() < b.x || b.Right() < a.x) || a.y > b.Bottom() || b.y > a.Bottom() {
        return "", Some(NotSideBySide), scale;
      }
    }
    var width, height, canvasScale := 0, 0, 0;
    var i := 0;
    while i < |displays|
      invariant 0 <= i <= |displays|
      invariant Size(width, height) == Canvas(displays[..i])
      invariant canvasScale == if i == 0 then 0 else ScaleOf(displays[0])
      invariant FirstProblem(displays, 0) == FirstProblem(displays, i)
      invariant Arranged(displays)
    {
      var d := displays[i];
      var pixels := if IsValid(d.backing) then d.backing else d.native;
      var displayScale := if IsValid(d.backing) && pixels == Size(d.bounds.width * 2, d.bounds.height * 2)
                          then 2 else 1;
      if (IsValid(d.backing) && pixels != Size(d.bounds.width * displayScale, d.bounds.height * displayScale))
         || (canvasScale != 0 && canvasScale != displayScale)
      {
        return "", Some(MixedScale), scale;
      }
      canvasScale := displayScale;
      var size := ModeString(pixels.width, pixels.height);
      PrintedSizeValid(pixels);
      if d.bounds.width < 1 || d.bounds.height < 1 || !IsValid(MacDisplayModeSize(size)) {
        return "", Some(BadDimensions(size)), scale;
      }
      CanvasGrows(displays, i);
      width := width + pixels.width;
      height := Max(height, pixels.height);
      i := i + 1;
    }
    assert displays[..i] == displays;
    mode := ModeString(width, height);
    PrintedSizeValid(Size(width, height));
    if !IsValid(MacDisplayModeSize(mode)) {
      return "", Some(CanvasTooLarge(mode)), scale;
    }
    return mode, None, canvasScale;
  }

  // ---------------------------------------------------------------- what the checks mean

  predicate InColumns(b: Bounds, column: int)
  {
    b.x <= column < b.x + b.width
  }

  predicate InRows(b: Bounds, row: int)
  {
    b.y <= row < b.y + b.height
  }

  /** No column of the desktop belongs to both, and some row does. */
  ghost predicate Apart(a: Bounds, b: Bounds)
  {
    && (forall column :: !(InColumns(a, column) && InColumns(b, column)))
    && (exists row :: InRows(a, row) && InRows(b, row))
  }

  /** What the monitor shows, in pixels. */
  function Shown(d: Display): (s: Size)
  {
    if d.backing.width >= 0 && d.backing.height >= 0 then d.backing else d.native
  }

  /** What the monitor shows is its desktop `scale` times over, in even sizes from 2 to 8192. */
  ghost predicate Drawn(d: Display, scale: int)
  {
    var composited, shown := d.backing.width >= 0 && d.backing.height >= 0, Shown(d);
    && d.bounds.width >= 1 && d.bounds.height >= 1
    && 2 <= shown.width <= 8192 && shown.width % 2 == 0
    && 2 <= shown.height <= 8192 && shown.height % 2 == 0
    && (composited ==> shown.width == scale * d.bounds.width && shown.height == scale * d.bounds.height)
    && (!composited ==> scale == 1)
  }

  /** Two displays are refused as not side by side exactly when they are not apart; touching ones are. */
  lemma ApartExactly(a: Display, b: Display)
    requires a.bounds.width >= 1 && a.bounds.height >= 1 && b.bounds.width >= 1 && b.bounds.height >= 1
    ensures ProblemOf([a, b]) != Some(NotSideBySide) <==> Apart(a.bounds, b.bounds)
    ensures a.bounds.x + a.bounds.width == b.bounds.x && a.bounds.y == b.bounds.y ==>
              ProblemOf([a, b]) != Some(NotSideBySide)
  {
    FirstProblemOthers([a, b], 0);
    ArrangedExactly(a, b);
    if a.bounds.y == b.bounds.y {
      assert InRows(a.bounds, a.bounds.y) && InRows(b.bounds, a.bounds.y);
    }
  }

  lemma ArrangedExactly(a: Display, b: Display)
    requires a.bounds.width >= 1 && a.bounds.height >= 1 && b.bounds.width >= 1 && b.bounds.height >= 1
    ensures Arranged([a, b]) <==> Apart(a.bounds, b.bounds)
  {
    var column, row := Max(a.bounds.x, b.bounds.x), Max(a.bounds.y, b.bounds.y);
    if Arranged([a, b]) {
      assert InRows(a.bounds, row) && InRows(b.bounds, row);
    } else if InRows(a.bounds, row) && InRows(b.bounds, row) {
      assert InColumns(a.bounds, column) && InColumns(b.bounds, column);
    }
  }

  lemma {:induction false} FirstProblemOthers(displays: seq<Display>, i: nat)
    requires i <= |displays|
    ensures FirstProblem(displays, i) != Some(NotSideBySide)
    decreases |displays| - i
  {
    if i < |displays| {
      FirstProblemOthers(displays, i + 1);
    }
  }

  lemma DrawnExactly(d: Display)
    ensures Usable(d) <==> Drawn(d, 1) || Drawn(d, 2)
    ensures Usable(d) ==> Drawn(d, ScaleOf(d)) && !Drawn(d, 3 - ScaleOf(d))
  {
  }

  /** One or two monitors, all drawn at this scale; two are apart and together at most 8192 wide. */
  ghost predicate DrawnTogether(displays: seq<Display>, scale: int)
  {
    && 1 <= |displays| <= 2
    && (forall i :: 0 <= i < |displays| ==> Drawn(displays[i], scale))
    && (|displays| == 2 ==>
          && Apart(displays[0].bounds, displays[1].bounds)
          && Shown(displays[0]).width + Shown(displays[1]).width <= 8192)
  }

  /**
    The displays match exactly when they are drawn together at scale 1 or 2, which is then the
    scale reported, and the canvas is what they show side by side.
  */
  lemma MatchesExactly(displays: seq<Display>)
    ensures Matches(displays) <==> DrawnTogether(displays, 1) || DrawnTogether(displays, 2)
    ensures Matches(displays) ==>
              && DrawnTogether(displays, ScaleOf(displays[0]))
              && (|displays| == 1 ==> Canvas(displays) == Shown(displays[0]))
              && (|displays| == 2 ==>
                    var a, b := Shown(displays[0]), Shown(displays[1]);
                    Canvas(displays) == Size(a.width + b.width, if a.height < b.height then b.height else a.height))
  {
    hide Usable, Drawn, Arranged, Apart, Canvas, ScaleOf;
    if |displays| == 1 {
      assert displays == [displays[0]];
      OneDisplayMatches(displays[0]);
    } else if |displays| == 2 {
      assert displays == [displays[0], displays[1]];
      TwoDisplaysMatch(displays[0], displays[1]);
    } else {
      assert !Matches(displays) by {
        assert !Arranged(displays) by {
          CountArranged(displays);
        }
      }
    }
  }

  lemma CountArranged(displays: seq<Display>)
    ensures Arranged(displays) ==> 1 <= |displays| <= 2
  {
  }

  lemma OneDisplayMatches(a: Display)
    ensures Matches([a]) <==> Drawn(a, 1) || Drawn(a, 2)
    ensures Matches([a]) ==> Drawn(a, ScaleOf(a)) && Canvas([a]) == Shown(a)
  {
    CanvasOfOne(a);
    DrawnExactly(a);
    assert Matches([a]) <==> Usable([a][0]) && Canvas([a]).width <= 8192;
  }

  lemma TwoDisplaysMatch(a: Display, b: Display)
    ensures Matches([a, b]) <==>
              && Apart(a.bounds, b.bounds)
              && ((Drawn(a, 1) && Drawn(b, 1)) || (Drawn(a, 2) && Drawn(b, 2)))
              && Shown(a).width + Shown(b).width <= 8192
    ensures Matches([a, b]) ==>
              && Drawn(a, ScaleOf(a)) && Drawn(b, ScaleOf(a))
              && Canvas([a, b]) == Size(Shown(a).width + Shown(b).width, Max(Shown(a).height, Shown(b).height))
  {
    hide Usable, Drawn, Arranged, Apart, Canvas, ScaleOf;
    CanvasOfTwo(a, b);
    DrawnExactly(a);
    DrawnExactly(b);
    UsableHasPoints(a);
    UsableHasPoints(b);
    if Usable(a) && Usable(b) {
      ArrangedExactly(a, b);
    }
    assert Matches([a, b]) <==>
      && Arranged([a, b]) && Usable([a, b][0]) && Usable([a, b][1])
      && ScaleOf([a, b][1]) == ScaleOf([a, b][0]) && Canvas([a, b]).width <= 8192;
  }

  lemma UsableHasPoints(d: Display)
    ensures Usable(d) ==> d.bounds.width >= 1 && d.bounds.height >= 1 && Shown(d).height >= 2
  {
  }

  /** A request is made exactly for the printed even sizes, the scales 1 and 2, and the two encodings. */
  lemma RequestExactly(mode: string, encodingMode: string, scale: int, r: Request)
    ensures MacDisplayRequest(mode, encodingMode, scale) == Some(r) <==>
              && r.schemaVersion == 3 && r.scale == scale && r.encodingMode == encodingMode
              && 2 <= r.width <= 8192 && r.width % 2 == 0 && 2 <= r.height <= 8192 && r.height % 2 == 0
              && mode == ModeString(r.width, r.height)
              && scale in {1, 2}
              && encodingMode in {"hevc-10-420-videotoolbox", "hevc-10-444-videotoolbox"}
  {
    hide MacDisplayModeSize, ModeString;
    MacDisplayModeSizeExact(mode, Size(r.width, r.height));
    MacDisplayModeSizeExact(mode, MacDisplayModeSize(mode));
  }

  // ---------------------------------------------------------------- consequences

  /** The match does not depend on which of the two displays comes first. */
  lemma OrderIrrelevant(a: Display, b: Display)
    ensures Matches([a, b]) == Matches([b, a])
    ensures Canvas([a, b]) == Canvas([b, a])
    ensures Matches([a, b]) ==> ScaleOf([a, b][0]) == ScaleOf([b, a][0])
  {
    CanvasOfTwo(a, b);
    CanvasOfTwo(b, a);
  }

  lemma CanvasOfTwo(a: Display, b: Display)
    ensures Canvas([a, b]) == Size(Pixels(a).width + Pixels(b).width, Max(Max(0, Pixels(a).height), Pixels(b).height))
  {
    var both := [a, b];
    assert both[..1] == [a];
    CanvasOfOne(a);
    assert Canvas(both)
      == Size(Canvas(both[..1]).width + Pixels(b).width, Max(Canvas(both[..1]).height, Pixels(b).height));
  }

  lemma CanvasOfOne(a: Display)
    ensures Canvas([a]) == Size(Pixels(a).width, Max(0, Pixels(a).height))
  {
    assert [a][..0] == [];
  }

  function SumOfWidths(displays: seq<Display>): (n: int)
  {
    if displays == [] then 0 else Pixels(displays[0]).width + SumOfWidths(displays[1..])
  }

  /** Whether each display has a compositor size. */
  predicate Composited(displays: seq<Display>)
  {
    forall i :: 0 <= i < |displays| ==> IsValid(displays[i].backing)
  }

  /**
    What a match gives: a mode that reads back as the sum of the widths and the largest height,
    a scale that divides both, leaving the points of the desktop when the compositor told the
    pixels, and a request the host takes for either encoding.
  */
  lemma MatchMeaning(displays: seq<Display>, mode: string, scale: int)
    requires Matches(displays)
    requires mode == ModeString(Canvas(displays).width, Canvas(displays).height) && scale == ScaleOf(displays[0])
    ensures var s := MacDisplayModeSize(mode);
            && IsValid(s)
            && s.width == SumOfWidths(displays)
            && (forall i :: 0 <= i < |displays| ==> Pixels(displays[i]).height <= s.height)
            && (exists i :: 0 <= i < |displays| && Pixels(displays[i]).height == s.height)
            && s.width % scale == 0 && s.height % scale == 0
            && (Composited(displays) ==>
                  && s.width == scale * PointsWidth(displays)
                  && (forall i :: 0 <= i < |displays| ==> scale * displays[i].bounds.height <= s.height))
            && (forall encoding :: encoding in {HEVC_420, HEVC_444} ==>
                  MacDisplayRequest(mode, encoding, scale) == Some(Request(3, s.width, s.height, scale, encoding)))
  {
    hide MacDisplayModeSize, ModeString, MacDisplayRequest, SumOfWidths, PointsWidth, Canvas, ScaleOf;
    var c := Canvas(displays);
    CanvasEven(displays);
    MacDisplayModeSizeExact(mode, c);
    RequestGiven(mode, scale);
    WidthsAdd(displays);
    if |displays| == 1 {
      assert displays == [displays[0]];
      CanvasOfOne(displays[0]);
    } else {
      assert displays == [displays[0], displays[1]];
      CanvasOfTwo(displays[0], displays[1]);
    }
  }

  lemma RequestGiven(mode: string, scale: int)
    requires IsValid(MacDisplayModeSize(mode)) && 1 <= scale <= 2
    ensures var s := MacDisplayModeSize(mode);
            forall encoding :: encoding in {HEVC_420, HEVC_444} ==>
              MacDisplayRequest(mode, encoding, scale) == Some(Request(3, s.width, s.height, scale, encoding))
  {
    hide MacDisplayModeSize;
  }

  function PointsWidth(displays: seq<Display>): (n: int)
  {
    if displays == [] then 0 else displays[0].bounds.width + PointsWidth(displays[1..])
  }

  lemma SumsOfOne(a: Display)
    ensures SumOfWidths([a]) == Pixels(a).width && PointsWidth([a]) == a.bounds.width
  {
    assert [a][1..] == [];
  }

  lemma SumsOfTwo(a: Display, b: Display)
    ensures SumOfWidths([a, b]) == Pixels(a).width + Pixels(b).width
    ensures PointsWidth([a, b]) == a.bounds.width + b.bounds.width
  {
    hide Pixels;
    var both := [a, b];
    assert both[1..] == [b];
    SumsOfOne(b);
  }

  lemma WidthsAdd(displays: seq<Display>)
    requires Matches(displays)
    ensures Canvas(displays).width == SumOfWidths(displays)
    ensures Composited(displays) ==> SumOfWidths(displays) == ScaleOf(displays[0]) * PointsWidth(displays)
  {
    hide Canvas, SumOfWidths, PointsWidth, ScaleOf, EvenPixels;
    if |displays| == 1 {
      assert displays == [displays[0]];
      CanvasOfOne(displays[0]);
      SumsOfOne(displays[0]);
    } else {
      assert displays == [displays[0], displays[1]];
      CanvasOfTwo(displays[0], displays[1]);
      SumsOfTwo(displays[0], displays[1]);
    }
  }
}
