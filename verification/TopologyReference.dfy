/**
  Which descriptions of a host's outputs are accepted, and as what, member by member: the two
  families of app/backend/outputtopology.cpp:26-331 as conditions on the members of the JSON
  object, without the parser, and the proof that the parser accepts exactly these.
*/
module TopologyReference {

  import opened Options
  import opened Modes
  import opened Json
  import opened Topology

  predicate Has(o: Object, k: Key, v: Value)
  {
    k in o && o[k] == v
  }

  /** A member that is a whole number an `int` holds. */
  predicate HasInt(o: Object, k: Key, n: int)
  {
    Has(o, k, Num(n as real)) && -0x8000_0000 <= n <= 0x7FFF_FFFF
  }

  predicate HasRect(o: Object, r: Rect)
  {
    HasInt(o, X, r.x) && HasInt(o, Y, r.y) && HasInt(o, Width, r.width) && HasInt(o, Height, r.height)
  }

  // ---------------------------------------------------------------- the fixed family

  /** 8-4-4-4-12 lower-case digits, not all of them zero. */
  predicate IsUuid(s: string)
  {
    && |s| == 36
    && s[8] == s[13] == s[18] == s[23] == '-'
    && (forall i :: 0 <= i < 36 && i != 8 && i != 13 && i != 18 && i != 23 ==> s[i] in "0123456789abcdef")
    && s != "00000000-0000-0000-0000-000000000000"
  }

  /** The twelve members of the encoding profile, for each of the two modes. */
  predicate IsProfile(p: Object, mode: string)
  {
    || (mode == "hevc-10-420-videotoolbox" && p ==
          map[CaptureSource := Str("screencapturekit"), EncoderBackend := Str("videotoolbox"),
              EncodingMode := Str("hevc-10-420-videotoolbox"), Codec := Str("hevc"), Profile := Str("main10"),
              BitDepth := Num(10.0), Chroma := Str("4:2:0"), Range := Str("full"), Matrix := Str("bt709"),
              Primaries := Str("bt709"), Transfer := Str("srgb"), RgbIdentity := Bool(false)])
    || (mode == "hevc-10-444-videotoolbox" && p ==
          map[CaptureSource := Str("screencapturekit"), EncoderBackend := Str("videotoolbox"),
              EncodingMode := Str("hevc-10-444-videotoolbox"), Codec := Str("hevc"), Profile := Str("rext"),
              BitDepth := Num(10.0), Chroma := Str("4:4:4"), Range := Str("full"), Matrix := Str("bt709"),
              Primaries := Str("bt709"), Transfer := Str("srgb"), RgbIdentity := Bool(false)])
  }

  predicate IsLogicalBounds(o: Object, r: RealRect)
  {
    && o == map[X := Num(r.x), Y := Num(r.y), Width := Num(r.width), Height := Num(r.height)]
    && -65536.0 <= r.x <= 65536.0 && -65536.0 <= r.y <= 65536.0
    && 0.0 < r.width <= 65536.0 && 0.0 < r.height <= 65536.0
  }

  predicate IsCapture(o: Object, id: string, width: int, height: int, bounds: RealRect, mode: string)
  {
    && o.Keys == {Id, Width, Height, LogicalBounds, EncodingProfile}
    && o[Id] == Str(id) && 1 <= |id| <= 128
    && o[Width] == Num(width as real) && 2 <= width <= 8192 && width % 2 == 0
    && o[Height] == Num(height as real) && 2 <= height <= 8192 && height % 2 == 0
    && o[LogicalBounds].Obj? && IsLogicalBounds(o[LogicalBounds].fields, bounds)
    && o[EncodingProfile].Obj? && IsProfile(o[EncodingProfile].fields, mode)
  }

  /** What a fixed capture says, and everything its topology then holds. */
  predicate FixedDescribes(o: Object, t: Topology)
  {
    && o.Keys == {SchemaVersion, FeatureFlags, Generation, Capture}
    && o[SchemaVersion] == Num(13.0) && o[FeatureFlags] == Num(3670129.0)
    && o[Generation] == Str(t.generation) && IsUuid(t.generation)
    && |t.outputs| == 1
    && o[Capture].Obj?
    && IsCapture(o[Capture].fields, t.outputs[0].id, t.desktop.width, t.desktop.height,
                 t.captureBounds, t.encodingMode)
    && t.schemaVersion == 13 && t.featureFlags == 3670129
    && t.layout == HostLayout("fixed", "fixed", ["fixed"], false, [])
    && t.desktop.x == 0 && t.desktop.y == 0
    && t.outputs[0].name == "Current capture display"
    && t.outputs[0].area == t.desktop && t.outputs[0].source == t.desktop
    && t.outputs[0].rotation == 0 && t.outputs[0].refreshMillihz == 0
    && t.outputs[0].primary && !t.outputs[0].isVirtual && t.outputs[0].configuredMode == ""
  }

  lemma UuidExactly(s: string)
    ensures CanonicalUuid(s) <==> IsUuid(s)
  {
    if |s| == 36 {
      HexDigits();
      var zeros := "00000000-0000-0000-0000-000000000000";
      assert |zeros| == 36;
      assert forall i :: 0 <= i < 36 ==> zeros[i] == if i in {8, 13, 18, 23} then '-' else '0';
      if s != zeros && IsUuid(s) && !CanonicalUuid(s) {
        assert forall i :: 0 <= i < 36 ==> s[i] == zeros[i];
      }
    }
  }

  lemma HexDigits()
    ensures forall c: char :: IsLowerHex(c) <==> c in "0123456789abcdef"
  {
    var digits := "0123456789abcdef";
    forall c: char | IsLowerHex(c) ensures c in digits {
      if c <= '9' {
        assert digits[c as int - '0' as int] == c;
      } else {
        assert digits[10 + (c as int - 'a' as int)] == c;
      }
    }
  }

  lemma ProfileExactly(p: Object, mode: string)
    ensures PreviewProfile(mode) != map[] && p == PreviewProfile(mode) <==> IsProfile(p, mode)
    ensures IsProfile(p, mode) ==> Lookup(p, EncodingMode) == Str(mode)
  {
    if mode == HEVC_420 || mode == HEVC_444 {
      assert EncodingMode in PreviewProfile(mode);
    }
  }

  lemma DimensionExactly(v: Value, n: int)
    ensures n != 0 && Dimension(v) == n <==> v == Num(n as real) && 2 <= n <= 8192 && n % 2 == 0
  {
  }

  lemma BoundsExactly(o: Object, r: RealRect)
    ensures
      (&& |o| == 4 && Coordinate(Lookup(o, X)) && Coordinate(Lookup(o, Y))
       && Coordinate(Lookup(o, Width)) && Coordinate(Lookup(o, Height))
       && BoundsOf(o) == r && r.width > 0.0 && r.height > 0.0) <==> IsLogicalBounds(o, r)
  {
    if |o| == 4 && Lookup(o, X).Num? && Lookup(o, Y).Num? && Lookup(o, Width).Num? && Lookup(o, Height).Num? {
      BoundsPrintBack(o);
    }
    if IsLogicalBounds(o, r) {
      assert o.Keys == {X, Y, Width, Height};
    }
  }

  lemma CaptureExactly(o: Object, generation: string, c: FixedCapture)
    ensures ParseCapture(o, generation) == Some(c) <==>
              c.generation == generation && IsCapture(o, c.id, c.width, c.height, c.bounds, c.encodingMode)
  {
    hide PreviewProfile, Dimension, Coordinate, BoundsOf, IsProfile, IsLogicalBounds;
    ProfileExactly(FieldsOf(Lookup(o, EncodingProfile)), c.encodingMode);
    DimensionExactly(Lookup(o, Width), c.width);
    DimensionExactly(Lookup(o, Height), c.height);
    BoundsExactly(FieldsOf(Lookup(o, LogicalBounds)), c.bounds);
    if ParseCapture(o, generation) == Some(c) {
      ExactKeys(o, {Id, Width, Height, LogicalBounds, EncodingProfile});
    }
  }

  /** A fixed capture is accepted exactly when it is described so. */
  lemma FixedExactly(o: Object, t: Topology)
    ensures ParseFixed(o).Some? && FixedTopology(ParseFixed(o).value) == t <==> FixedDescribes(o, t)
  {
    hide ParseCapture, CanonicalUuid, IsUuid, IsCapture;
    UuidExactly(t.generation);
    if FixedDescribes(o, t) {
      var c := FixedCapture(t.generation, t.outputs[0].id, t.desktop.width, t.desktop.height,
                            t.captureBounds, t.encodingMode);
      CaptureExactly(FieldsOf(Lookup(o, Capture)), t.generation, c);
      UuidIsText(t.generation);
    } else if ParseFixed(o).Some? {
      var c := ParseFixed(o).value;
      UuidExactly(c.generation);
      GenerationKept(FieldsOf(Lookup(o, Capture)), TextOf(Lookup(o, Generation)));
      CaptureExactly(FieldsOf(Lookup(o, Capture)), c.generation, c);
      UuidIsText(c.generation);
      ExactKeys(o, {SchemaVersion, FeatureFlags, Generation, Capture});
    }
  }

  // ---------------------------------------------------------------- the host family

  /** The feature bits 0, 1, 2, 5 to 10, 14 and 15 are set, and bit 19 is not. */
  predicate HostFlags(flags: int)
  {
    && flags % 8 == 7
    && flags / 0x20 % 8 == 7 && flags / 0x100 % 8 == 7
    && flags / 0x4000 % 4 == 3
    && flags / 0x8_0000 % 2 == 0
  }

  predicate HasTexts(o: Object, k: Key, texts: seq<string>)
  {
    && k in o && o[k].Arr? && |o[k].items| == |texts|
    && forall i :: 0 <= i < |texts| ==> o[k].items[i] == Str(texts[i])
  }

  predicate IsLayout(o: Object, layout: HostLayout, count: int)
  {
    && Has(o, Kind, Str(layout.kind)) && Has(o, StartupKind, Str(layout.startup))
    && HasTexts(o, AllowedKinds, layout.allowed)
    && Has(o, Virtual, Bool(layout.isVirtual)) && HasTexts(o, VirtualModes, layout.modes)
    && HasInt(o, OutputCount, count)
    && layout.startup in {"physical", "single", "dual-horizontal"}
    && layout.allowed == (if layout.startup == "physical" then ["physical", "single", "dual-horizontal"]
                          else ["single", "dual-horizontal"])
    && layout.kind in layout.allowed
    && layout.isVirtual == (layout.kind != "physical")
    && |layout.modes| == (if layout.kind == "physical" then 0 else if layout.kind == "single" then 1 else 2)
    && forall i :: 0 <= i < |layout.modes| ==> IsHostMode(layout.modes[i])
  }

  predicate IsHostMode(mode: string)
  {
    || mode == "1024x2160" || mode == "1280x2160" || mode == "1920x1080" || mode == "1920x1200"
    || mode == "2560x1440" || mode == "2560x1600" || mode == "2560x2160" || mode == "3440x1440"
    || mode == "3840x1600" || mode == "3840x2160" || mode == "4096x2160" || mode == "5120x2160"
  }

  /** The sums are taken in `int`: past its end they are negative, and in bounds again. */
  predicate FitsIn(start: int, length: int, limit: int)
  {
    start >= 0 && length > 0 && (start + length <= limit || start + length > 0x7FFF_FFFF)
  }

  /** The `index`-th output of the list. */
  predicate IsOutput(v: Value, t: Output, layout: HostLayout, desktop: Rect, index: nat)
  {
    && v.Obj?
    && Has(v.fields, Id, Str(t.id)) && t.id != "" && Has(v.fields, Name, Str(t.name)) && t.name != ""
    && HasRect(v.fields, t.area) && t.area.width > 0 && t.area.height > 0
    && HasInt(v.fields, Rotation, t.rotation) && HasInt(v.fields, RefreshMillihz, t.refreshMillihz)
    && Has(v.fields, Primary, Bool(t.primary))
    && Has(v.fields, Virtual, Bool(t.isVirtual)) && t.isVirtual == layout.isVirtual
    && SourceRect in v.fields && v.fields[SourceRect].Obj? && HasRect(v.fields[SourceRect].fields, t.source)
    && FitsIn(t.source.x, t.source.width, desktop.width) && FitsIn(t.source.y, t.source.height, desktop.height)
    && if layout.isVirtual then
         && index < |layout.modes| && t.configuredMode == layout.modes[index]
         && Has(v.fields, ConfiguredMode, Str(t.configuredMode))
         && t.configuredMode == ModeString(t.area.width, t.area.height)
       else
         && t.configuredMode == ""
         && (ConfiguredMode in v.fields && v.fields[ConfiguredMode].Str? ==> v.fields[ConfiguredMode].text == "")
  }

  /** Every output as described, in the order of the list, none named twice. */
  predicate AreOutputs(items: seq<Value>, outputs: seq<Output>, layout: HostLayout, desktop: Rect)
  {
    && |items| == |outputs|
    && (forall i :: 0 <= i < |outputs| ==> IsOutput(items[i], outputs[i], layout, desktop, i))
    && (forall i, j :: 0 <= i < j < |outputs| ==> outputs[i].id != outputs[j].id)
  }

  /** What a host's description says, and everything its topology then holds. */
  predicate HostDescribes(o: Object, t: Topology)
  {
    && Capture !in o
    && Has(o, SchemaVersion, Num(13.0)) && t.schemaVersion == 13
    && HasInt(o, FeatureFlags, t.featureFlags) && HostFlags(t.featureFlags)
    && Has(o, Generation, Str(t.generation))
    && Key.Layout in o && o[Key.Layout].Obj? && IsLayout(o[Key.Layout].fields, t.layout, |t.outputs|)
    && Desktop in o && o[Desktop].Obj? && HasRect(o[Desktop].fields, t.desktop)
    && t.desktop.width > 0 && t.desktop.height > 0
    && Outputs in o && o[Outputs].Arr? && AreOutputs(o[Outputs].items, t.outputs, t.layout, t.desktop)
    && t.outputs != []
    && (t.layout.kind == "single" ==> |t.outputs| == 1)
    && (t.layout.kind == "dual-horizontal" ==> |t.outputs| == 2)
    && t.captureBounds == RealRect(0.0, 0.0, 0.0, 0.0) && t.encodingMode == "hevc-10-420-videotoolbox"
  }

  lemma IntExactly(o: Object, k: Key, n: int)
    ensures IntegerOf(Lookup(o, k)) == Some(n) <==> HasInt(o, k, n)
  {
  }

  lemma RectExactly(o: Object, r: Rect)
    ensures RectOf(o) == Some(r) <==> HasRect(o, r)
  {
    hide IntegerOf, HasInt;
    IntExactly(o, X, r.x);
    IntExactly(o, Y, r.y);
    IntExactly(o, Width, r.width);
    IntExactly(o, Height, r.height);
  }

  lemma LowBits(f: int)
    ensures HasBit(f, 0) <==> f % 2 == 1
    ensures HasBit(f, 1) <==> f / 2 % 2 == 1
    ensures HasBit(f, 2) <==> f / 4 % 2 == 1
    ensures HasBit(f, 3) <==> f / 8 % 2 == 1
  {
    assert HasBit(f, 1) == HasBit(f / 2, 0);
    assert HasBit(f, 2) == HasBit(f / 2, 1) == HasBit(f / 2 / 2, 0);
    assert HasBit(f, 3) == HasBit(f / 2, 2) == HasBit(f / 2 / 2, 1) == HasBit(f / 2 / 2 / 2, 0);
  }

  lemma ByteUp(f: int, k: nat)
    ensures HasBit(f, k + 8) == HasBit(f / 0x100, k)
  {
    HighByte(f / 0x100, f % 0x100, k);
  }

  lemma ThreeOnes(f: int)
    ensures f % 2 == 1 && f / 2 % 2 == 1 && f / 4 % 2 == 1 <==> f % 8 == 7
  {
  }

  lemma FirstBits(f: int)
    ensures HasBit(f, 0) && HasBit(f, 1) && HasBit(f, 2) <==> f % 8 == 7
  {
    hide HasBit;
    LowBits(f);
    ThreeOnes(f);
  }

  lemma MiddleBits(f: int)
    ensures HasBit(f, 5) && HasBit(f, 6) && HasBit(f, 7) <==> f / 0x20 % 8 == 7
  {
    hide HasBit;
    HighDigit(f, 1);
    HighDigit(f, 2);
    HighDigit(f, 3);
    LowBits(f / 16);
    ShiftedOnes(f / 16);
    assert f / 16 / 2 == f / 0x20 by {
      Sixteenth(f);
    }
  }

  lemma ShiftedOnes(f: int)
    ensures f / 2 % 2 == 1 && f / 4 % 2 == 1 && f / 8 % 2 == 1 <==> f / 2 % 8 == 7
  {
    assert f / 2 / 2 == f / 4 && f / 2 / 4 == f / 8;
    ThreeOnes(f / 2);
  }

  lemma Sixteenth(f: int)
    ensures f / 16 / 2 == f / 0x20
  {
  }

  lemma TopBits(f: int)
    ensures HasBit(f, 14) && HasBit(f, 15) <==> f / 0x4000 % 4 == 3
  {
    hide HasBit;
    ByteUp(f, 6);
    ByteUp(f, 7);
    var g := f / 0x100 / 16;
    HighDigit(f / 0x100, 2);
    HighDigit(f / 0x100, 3);
    LowBits(g);
    assert g / 4 == f / 0x4000;
    TwoOnes(g / 4);
  }

  lemma TwoOnes(f: int)
    ensures f % 2 == 1 && f / 2 % 2 == 1 <==> f % 4 == 3
  {
  }

  lemma FixedBit(f: int)
    ensures HasBit(f, 19) <==> f / 0x8_0000 % 2 == 1
  {
    hide HasBit;
    ByteUp(f, 11);
    ByteUp(f / 0x100, 3);
    LowBits(f / 0x100 / 0x100);
  }

  lemma RequiredOnes(f: int)
    ensures HasRequiredBits(f) <==>
              && HasBit(f, 0) && HasBit(f, 1) && HasBit(f, 2) && HasBit(f, 5) && HasBit(f, 6) && HasBit(f, 7)
              && HasBit(f, 8) && HasBit(f, 9) && HasBit(f, 10) && HasBit(f, 14) && HasBit(f, 15)
  {
    hide HasBit;
    var bits := RequiredBits();
    assert bits[0] == 0 && bits[1] == 1 && bits[2] == 2 && bits[3] == 5 && bits[4] == 6 && bits[5] == 7;
    assert bits[6] == 8 && bits[7] == 9 && bits[8] == 10 && bits[9] == 14 && bits[10] == 15 && |bits| == 11;
  }

  lemma FlagsExactly(f: int)
    ensures HasRequiredBits(f) && !HasBit(f, FIXED_CAPTURE_BIT) <==> HostFlags(f)
  {
    hide HasBit, HasRequiredBits;
    RequiredOnes(f);
    FirstBits(f);
    MiddleBits(f);
    ByteUp(f, 0);
    ByteUp(f, 1);
    ByteUp(f, 2);
    FirstBits(f / 0x100);
    TopBits(f);
    FixedBit(f);
  }

  lemma {:induction false} KindsExactly(items: seq<Value>, kinds: seq<string>)
    ensures Kinds(items) == Some(kinds) <==>
              && |kinds| == |items|
              && (forall i :: 0 <= i < |items| ==> items[i] == Str(kinds[i]) && ValidKind(kinds[i]))
              && (forall i, j :: 0 <= i < j < |kinds| ==> kinds[i] != kinds[j])
    decreases |items|
  {
    hide ValidKind;
    if items != [] && |kinds| == |items| {
      var n := |items| - 1;
      KindsExactly(items[..n], kinds[..n]);
      assert kinds == kinds[..n] + [kinds[n]];
      if Kinds(items) == Some(kinds) {
        assert Kinds(items[..n]) == Some(kinds[..n]);
      }
    } else if Kinds(items) == Some(kinds) {
      KindsMeaning(items);
    }
  }

  lemma {:induction false} ModesExactly(items: seq<Value>, modes: seq<string>)
    ensures ModesOf(items) == Some(modes) <==>
              && |modes| == |items|
              && forall i :: 0 <= i < |items| ==> items[i] == Str(modes[i]) && modes[i] in QualifiedModes()
    decreases |items|
  {
    hide QualifiedModes;
    if items != [] && |modes| == |items| {
      var n := |items| - 1;
      ModesExactly(items[..n], modes[..n]);
      assert modes == modes[..n] + [modes[n]];
      if ModesOf(items) == Some(modes) {
        assert ModesOf(items[..n]) == Some(modes[..n]);
      }
    } else if ModesOf(items) == Some(modes) {
      ModesMeaning(items);
    }
  }

  lemma HostModesExactly(mode: string)
    ensures mode in QualifiedModes() <==> IsHostMode(mode)
  {
  }

  lemma TextsAre(o: Object, k: Key, texts: seq<string>)
    ensures HasTexts(o, k, texts) <==>
              && Lookup(o, k).Arr? && |ItemsOf(Lookup(o, k))| == |texts|
              && forall i :: 0 <= i < |texts| ==> ItemsOf(Lookup(o, k))[i] == Str(texts[i])
  {
  }

  lemma LayoutExactly(o: Object, layout: HostLayout, count: int)
    ensures ParseLayout(o) == Ok((layout, count)) <==> IsLayout(o, layout, count) && count > 0
  {
    hide Kinds, ModesOf, QualifiedModes, HasTexts, IsHostMode;
    var kinds, modes := ItemsOf(Lookup(o, AllowedKinds)), ItemsOf(Lookup(o, VirtualModes));
    KindsExactly(kinds, layout.allowed);
    ModesExactly(modes, layout.modes);
    TextsAre(o, AllowedKinds, layout.allowed);
    TextsAre(o, VirtualModes, layout.modes);
    IntExactly(o, OutputCount, count);
    AllowedDistinct(layout.startup);
    KindsApart();
    forall i | 0 <= i < |layout.modes| ensures layout.modes[i] in QualifiedModes() <==> IsHostMode(layout.modes[i]) {
      HostModesExactly(layout.modes[i]);
    }
  }

  lemma ModeStringInjective(w: int, h: int, w': int, h': int)
    requires InInt(w) && InInt(h) && ModeString(w, h) == ModeString(w', h')
    ensures w == w' && h == h'
  {
    hide Split, ToInt, Number, ModeString;
    ModeSplits(w, h);
    ModeSplits(w', h');
    NumberReads(w);
    NumberReads(h);
    NumberReads(w');
    NumberReads(h');
  }

  lemma ModeSizeExactly(mode: string, w: int, h: int)
    requires mode in QualifiedModes() && InInt(w) && InInt(h) && w > 0 && h > 0
    ensures VirtualModeSize(mode) == Size(w, h) <==> mode == ModeString(w, h)
  {
    hide QualifiedModes, VirtualModeSize, ModeString;
    VirtualModeSizeMeaning(mode);
    var s := VirtualModeSize(mode);
    if mode == ModeString(w, h) {
      ModeStringInjective(w, h, s.width, s.height);
    }
  }

  lemma FitsExactly(start: int, length: int, limit: int)
    requires InInt(start) && InInt(length) && InInt(limit) && limit > 0
    ensures start >= 0 && length > 0 && Add(start, length) <= limit <==> FitsIn(start, length, limit)
  {
  }

  lemma OutputExactly(v: Value, layout: HostLayout, desktop: Rect, before: seq<Output>, t: Output)
    requires InIntRect(desktop) && desktop.width > 0 && desktop.height > 0
    requires forall i :: 0 <= i < |layout.modes| ==> layout.modes[i] in QualifiedModes()
    ensures ParseOutput(v, layout, desktop, before) == Ok(t) <==>
              IsOutput(v, t, layout, desktop, |before|) && !Contains(before, t.id)
  {
    hide RectOf, HasRect, Contains, Add, FitsIn, QualifiedModes, ModeString, VirtualModeSize;
    if v.Obj? {
      var f := v.fields;
      var source := FieldsOf(Lookup(f, SourceRect));
      RectExactly(f, t.area);
      RectExactly(source, t.source);
      IntExactly(f, Rotation, t.rotation);
      IntExactly(f, RefreshMillihz, t.refreshMillihz);
      RectOfInRange(f);
      RectOfInRange(source);
      if InIntRect(t.source) {
        FitsExactly(t.source.x, t.source.width, desktop.width);
        FitsExactly(t.source.y, t.source.height, desktop.height);
      }
      if InIntRect(t.area) && t.area.width > 0 && t.area.height > 0 && |before| < |layout.modes| {
        ModeSizeExactly(layout.modes[|before|], t.area.width, t.area.height);
      }
    }
  }

  lemma {:induction false} OutputsExactly(items: seq<Value>, layout: HostLayout, desktop: Rect, outputs: seq<Output>)
    requires InIntRect(desktop) && desktop.width > 0 && desktop.height > 0
    requires forall i :: 0 <= i < |layout.modes| ==> layout.modes[i] in QualifiedModes()
    ensures ParseOutputs(items, layout, desktop) == Ok(outputs) <==> AreOutputs(items, outputs, layout, desktop)
    decreases |items|
  {
    hide ParseOutput, IsOutput, QualifiedModes;
    if items != [] && |items| == |outputs| {
      var n := |items| - 1;
      var before, last := outputs[..n], outputs[n];
      OutputsExactly(items[..n], layout, desktop, before);
      OutputExactly(items[n], layout, desktop, before, last);
      assert outputs == before + [last];
      assert Contains(before, last.id) <==> exists i :: 0 <= i < n && outputs[i].id == last.id;
      if ParseOutputs(items, layout, desktop) == Ok(outputs) {
        assert ParseOutputs(items[..n], layout, desktop) == Ok(before);
      }
    } else if ParseOutputs(items, layout, desktop) == Ok(outputs) {
      ParsedOutputsForm(items, layout, desktop);
    }
  }

  lemma KindsLiteral(kind: string)
    ensures ValidKind(kind) <==> kind in {"physical", "single", "dual-horizontal"}
    ensures kind == SINGLE <==> kind == "single"
    ensures kind == DUAL <==> kind == "dual-horizontal"
  {
  }

  /** Apart from what claims a fixed capture, a host is accepted exactly when it is described so. */
  lemma HostExactly(o: Object, t: Topology)
    ensures !ClaimsFixed(o) && ParseHost(o) == Ok(t) <==> HostDescribes(o, t)
  {
    hide HasBit, HasRequiredBits, HostFlags, ParseLayout, ParseOutputs, RectOf, IsLayout, HasRect, AreOutputs;
    hide LayoutForm, OutputsForm;
    FlagsExactly(IntegerOr0(Lookup(o, FeatureFlags)));
    IntExactly(o, SchemaVersion, 13);
    IntExactly(o, FeatureFlags, t.featureFlags);
    var layout, desktop := FieldsOf(Lookup(o, Key.Layout)), FieldsOf(Lookup(o, Desktop));
    LayoutExactly(layout, t.layout, |t.outputs|);
    RectExactly(desktop, t.desktop);
    RectOfInRange(desktop);
    KindsLiteral(t.layout.kind);
    if ParseLayout(layout).Ok? {
      ParsedLayoutForm(layout);
      QualifiedIn(ParseLayout(layout).value.0);
    }
    if RectOf(desktop) == Some(t.desktop) && t.desktop.width > 0 && t.desktop.height > 0
       && ParseLayout(layout) == Ok((t.layout, |t.outputs|))
    {
      OutputsExactly(ItemsOf(Lookup(o, Outputs)), t.layout, t.desktop, t.outputs);
    }
  }

  lemma QualifiedIn(layout: HostLayout)
    requires LayoutForm(layout)
    ensures forall i :: 0 <= i < |layout.modes| ==> layout.modes[i] in QualifiedModes()
  {
    hide QualifiedModes;
  }

  /**
    The descriptions accepted, and as what: those of the two families, member by member. A
    member that is not named here may be present in a host's description, and only there.
  */
  lemma AcceptedAsDescribed(o: Object, t: Topology)
    ensures Parse(o) == Ok(t) <==> FixedDescribes(o, t) || HostDescribes(o, t)
  {
    hide ParseFixed, ParseHost, FixedTopology, HostDescribes, FixedDescribes, HasBit;
    FixedExactly(o, t);
    HostExactly(o, t);
    if FixedDescribes(o, t) {
      FixedClaimed(o, t);
    }
  }

  lemma FixedClaimed(o: Object, t: Topology)
    requires FixedDescribes(o, t)
    ensures ClaimsFixed(o)
  {
    hide HasBit, IsCapture;
  }

  // ---------------------------------------------------------------- layouts and platforms

  /**
    Two outputs that fill the desktop from its left edge to its right, tops aligned, with
    sources that lie the same way; the right output's place is an `int` sum.
  */
  predicate FillDesktop(left: Output, right: Output, desktop: Rect)
  {
    && left.area.x == desktop.x && left.area.y == right.area.y == desktop.y
    && (right.area.x == left.area.x + left.area.width
        || right.area.x == left.area.x + left.area.width - 0x1_0000_0000)
    && desktop.width == left.area.width + right.area.width
    && desktop.height == (if left.area.height < right.area.height then right.area.height else left.area.height)
    && left.source.x == left.source.y == right.source.y == 0
    && right.source.x == left.area.width
  }

  /** Which requests an accepted description meets. */
  lemma MatchesExactly(o: Object, t: Topology, layout: string, modes: seq<string>)
    requires Parse(o) == Ok(t)
    ensures MatchesRequestedLayout(t, layout, modes) <==>
              && layout in {"physical", "single", "dual-horizontal"}
              && t.layout.kind == layout && t.layout.modes == modes
              && (layout == "dual-horizontal" ==>
                    |t.outputs| == 2 && FillDesktop(t.outputs[0], t.outputs[1], t.desktop))
  {
    hide Parse, FixedDescribes, HostDescribes, Add, QualifiedModes;
    AcceptedAsDescribed(o, t);
    KindsLiteral(layout);
    KindsApart();
    if FixedDescribes(o, t) {
      FixedKind(o, t);
    } else {
      HostKind(o, t);
      HostExactly(o, t);
      if t.layout.kind == "dual-horizontal" {
        DualSums(o, t);
      }
    }
  }

  lemma FixedKind(o: Object, t: Topology)
    requires FixedDescribes(o, t)
    ensures t.layout.kind == "fixed" && |t.layout.kind| == 5
  {
    hide IsCapture, IsUuid;
  }

  lemma HostKind(o: Object, t: Topology)
    requires HostDescribes(o, t)
    ensures t.layout.kind in {"physical", "single", "dual-horizontal"}
    ensures t.layout.isVirtual == (t.layout.kind != "physical")
    ensures t.outputs != []
    ensures t.layout.kind == "single" ==> |t.outputs| == 1
    ensures t.layout.kind == "dual-horizontal" ==> |t.outputs| == 2
  {
    hide HasTexts, IsHostMode, IsOutput, AreOutputs, HostFlags;
  }

  lemma DualSums(o: Object, t: Topology)
    requires HostDescribes(o, t) && t.layout.kind == "dual-horizontal" && |t.outputs| == 2
    ensures var l, r := t.outputs[0].area, t.outputs[1].area;
            && Add(l.width, r.width) == l.width + r.width
            && (r.x == Add(l.x, l.width) <==>
                  r.x == l.x + l.width || r.x == l.x + l.width - 0x1_0000_0000)
  {
    hide HostDescribes, Parse, ParseHost, HostForm, QualifiedModes, QualifiedSizes, VirtualModeSize;
    HostExactly(o, t);
    ParsedHostForm(o);
    HostKind(o, t);
    KindsApart();
    DualModesSized(t);
    var l, r := t.outputs[0].area, t.outputs[1].area;
    QualifiedSizeRange(Size(l.width, l.height));
    QualifiedSizeRange(Size(r.width, r.height));
    AreasInRange(t);
  }

  lemma AreasInRange(t: Topology)
    requires HostForm(t)
    ensures forall i :: 0 <= i < |t.outputs| ==> InIntRect(t.outputs[i].area)
  {
    hide HasRequiredBits, LayoutForm, HasBit, Provenance, SourceChecked;
  }

  /** 2 for a Mac, 1 for a Linux host, 0 for a description that is not fetched. */
  lemma PlatformExactly(version: int, flags: int)
    ensures HostPlatform(version, flags) ==
      if version == 13 && flags == 3670129 then 2
      else if version == 13 && flags % 8 == 7 && flags / 0x8_0000 % 2 == 0 then 1
      else 0
    ensures SupportsDescription(version, flags) <==> HostPlatform(version, flags) != 0
  {
    hide HasBit;
    FirstBits(flags);
    FixedBit(flags);
    FixedBit(3670129);
  }

  /** A bookmark may ask for the layouts an accepted description allows, and always for the client's. */
  lemma AllowedExactly(o: Object, t: Topology, layout: string)
    requires Parse(o) == Ok(t)
    ensures AllowsBookmarkLayout(t, layout) <==> layout == "match-client" || layout in t.layout.allowed
  {
    hide Parse, FixedDescribes, HostDescribes, HasBit;
    AcceptedAsDescribed(o, t);
    if FixedDescribes(o, t) {
      FixedAllows(o, t);
    } else {
      HostAllows(o, t);
    }
  }

  lemma FixedAllows(o: Object, t: Topology)
    requires FixedDescribes(o, t)
    ensures t.featureFlags == 3670129 && t.layout.allowed == ["fixed"]
  {
    hide IsCapture, IsUuid;
  }

  lemma HostAllows(o: Object, t: Topology)
    requires HostDescribes(o, t)
    ensures t.schemaVersion == 13 && t.featureFlags != 3670129
    ensures ValidKind(t.layout.kind) && ValidKind(t.layout.startup)
    ensures "single" in t.layout.allowed && "dual-horizontal" in t.layout.allowed
  {
    hide HasTexts, IsHostMode, AreOutputs;
    KindsLiteral(t.layout.kind);
    KindsLiteral(t.layout.startup);
    assert t.layout.allowed[|t.layout.allowed| - 2] == "single";
    assert t.layout.allowed[|t.layout.allowed| - 1] == "dual-horizontal";
  }

  /** The canvas of a single mode is its size; of two, their widths together, up to 8192, and the larger height. */
  lemma CanvasExactly(a: Size, b: Size, modes: seq<string>)
    requires |modes| >= 2 && IsHostMode(modes[0]) && IsHostMode(modes[1])
    requires modes[0] == ModeString(a.width, a.height) && modes[1] == ModeString(b.width, b.height)
    requires InInt(a.width) && a.width > 0 && InInt(a.height) && a.height > 0
    requires InInt(b.width) && b.width > 0 && InInt(b.height) && b.height > 0
    ensures VirtualCanvasSize("single", modes) == a
    ensures VirtualCanvasSize("dual-horizontal", modes) ==
      if a.width + b.width <= 8192 then Size(a.width + b.width, if a.height < b.height then b.height else a.height)
      else Size(-1, -1)
    ensures VirtualCanvasSize("physical", modes) == Size(-1, -1)
  {
    hide IsHostMode, ModeString, VirtualModeSize, QualifiedModes;
    HostModesExactly(modes[0]);
    HostModesExactly(modes[1]);
    ModeSizeExactly(modes[0], a.width, a.height);
    ModeSizeExactly(modes[1], b.width, b.height);
    KindsApart();
  }
}
