/**
  The description of a host's outputs: the strict parser with its two families, the printer,
  and what an accepted description guarantees (app/backend/outputtopology.cpp:10-440).
*/
module Topology {

  import opened Options
  import opened Modes
  import opened Json

  datatype Result<+T> = Ok(value: T) | Err(rejection: Rejection)

  /** Why a description is refused; each is one of the error texts, in the order of the checks. */
  datatype Rejection =
    | BadFixedCapture | BadHeader | NoAllowedKinds | BadAllowedKind | NoModes | BadMode | BadMetadata
    | InconsistentLayout | BadDesktop | OutputNotObject | BadOutput | BadSource | BadOutputCount

  datatype Rect = Rect(x: int, y: int, width: int, height: int)

  /** Logical coordinates may be fractions. */
  datatype RealRect = RealRect(x: real, y: real, width: real, height: real)

  datatype HostLayout = HostLayout(
    kind: string, startup: string, allowed: seq<string>, isVirtual: bool, modes: seq<string>)

  datatype Output = Output(
    id: string, name: string, area: Rect, rotation: int, refreshMillihz: int, primary: bool,
    isVirtual: bool, configuredMode: string, source: Rect)

  datatype Topology = Topology(
    schemaVersion: int, featureFlags: int, generation: string, layout: HostLayout, desktop: Rect,
    outputs: seq<Output>, captureBounds: RealRect, encodingMode: string)

  const PROTOCOL_VERSION := 13
  const FIXED_CAPTURE_BIT: nat := 19
  const FIXED_CAPTURE_FLAGS := 0x38_0071
  const MAX_CANVAS_WIDTH := 8192

  const PHYSICAL := "physical"
  const SINGLE := "single"
  const DUAL := "dual-horizontal"
  const FIXED := "fixed"
  const NO_BOUNDS := RealRect(0.0, 0.0, 0.0, 0.0)

  // ---------------------------------------------------------------- small parts

  /** Bit `k` of a two's complement integer. */
  predicate HasBit(flags: int, k: nat)
    decreases k
  {
    if k == 0 then flags % 2 == 1 else HasBit(flags / 2, k - 1)
  }

  /** The bits of the eleven features without which a description is of no use. */
  function RequiredBits(): (bits: seq<nat>)
  {
    [0, 1, 2, 5, 6, 7, 8, 9, 10, 14, 15]
  }

  predicate HasRequiredBits(flags: int)
  {
    forall i :: 0 <= i < |RequiredBits()| ==> HasBit(flags, RequiredBits()[i])
  }

  /** `int` addition, wrapping. */
  function Add(a: int, b: int): (s: int)
  {
    (a + b + 0x8000_0000) % 0x1_0000_0000 - 0x8000_0000
  }

  predicate ValidKind(kind: string)
  {
    kind == PHYSICAL || kind == SINGLE || kind == DUAL
  }

  predicate IsLowerHex(c: char)
  {
    '0' <= c <= '9' || 'a' <= c <= 'f'
  }

  /** The canonical text of a UUID other than the null one: 8-4-4-4-12 lower-case digits. */
  predicate CanonicalUuid(s: string)
  {
    && |s| == 36
    && (forall i :: 0 <= i < 36 ==> if i in {8, 13, 18, 23} then s[i] == '-' else IsLowerHex(s[i]))
    && (exists i :: 0 <= i < 36 && s[i] != '-' && s[i] != '0')
  }

  function RectOf(o: Object): (r: Option<Rect>)
  {
    match (IntegerOf(Lookup(o, X)), IntegerOf(Lookup(o, Y)), IntegerOf(Lookup(o, Width)), IntegerOf(Lookup(o, Height)))
    case (Some(x), Some(y), Some(width), Some(height)) => Some(Rect(x, y, width, height))
    case _ => None
  }

  function RectJson(r: Rect): (v: Value)
  {
    Obj(map[X := Integer(r.x), Y := Integer(r.y), Width := Integer(r.width), Height := Integer(r.height)])
  }

  predicate InIntRect(r: Rect)
  {
    InInt(r.x) && InInt(r.y) && InInt(r.width) && InInt(r.height)
  }

  lemma RectLaw(r: Rect)
    ensures InIntRect(r) ==> RectOf(FieldsOf(RectJson(r))) == Some(r)
  {
  }

  lemma RectOfInRange(o: Object)
    ensures RectOf(o).Some? ==> InIntRect(RectOf(o).value)
  {
  }

  // ---------------------------------------------------------------- fixed capture

  /** The only encoding profile a capture with this mode may have; empty for another mode. */
  function PreviewProfile(mode: string): (o: Object)
  {
    if mode != HEVC_444 && mode != HEVC_420 then map[]
    else
      var full := mode == HEVC_444;
      map[CaptureSource := Str("screencapturekit"), EncoderBackend := Str("videotoolbox"),
          EncodingMode := Str(mode), Codec := Str("hevc"),
          Profile := Str(if full then "rext" else "main10"), BitDepth := Integer(10),
          Chroma := Str(if full then "4:4:4" else "4:2:0"),
          Range := Str("full"), Matrix := Str("bt709"), Primaries := Str("bt709"),
          Transfer := Str("srgb"), RgbIdentity := Bool(false)]
  }

  /** An even whole number between 2 and 8192, or 0. */
  function Dimension(v: Value): (n: int)
  {
    if v.Num? && 2.0 <= v.number <= 8192.0 && v.number.Floor as real == v.number && v.number.Floor % 2 == 0
    then v.number.Floor
    else 0
  }

  predicate Coordinate(v: Value)
  {
    v.Num? && -65536.0 <= v.number <= 65536.0
  }

  function NumberOf(v: Value): (n: real)
  {
    if v.Num? then v.number else 0.0
  }

  function BoundsOf(o: Object): (r: RealRect)
  {
    RealRect(NumberOf(Lookup(o, X)), NumberOf(Lookup(o, Y)), NumberOf(Lookup(o, Width)), NumberOf(Lookup(o, Height)))
  }

  /** Everything a fixed capture says; the rest of its topology is always the same. */
  datatype FixedCapture = FixedCapture(
    generation: string, id: string, width: int, height: int, bounds: RealRect, encodingMode: string)

  function FixedTopology(c: FixedCapture): (t: Topology)
  {
    var area := Rect(0, 0, c.width, c.height);
    Topology(PROTOCOL_VERSION, FIXED_CAPTURE_FLAGS, c.generation,
             HostLayout(FIXED, FIXED, [FIXED], false, []), area,
             [Output(c.id, "Current capture display", area, 0, 0, true, false, "", area)],
             c.bounds, c.encodingMode)
  }

  function ParseCapture(capture: Object, generation: string): (r: Option<FixedCapture>)
  {
    var id := TextOf(Lookup(capture, Id));
    var mode := TextOf(Lookup(FieldsOf(Lookup(capture, EncodingProfile)), EncodingMode));
    var profile := PreviewProfile(mode);
    if |capture| != 5 || id == "" || |id| > 128 || !Lookup(capture, LogicalBounds).Obj?
       || profile == map[] || Lookup(capture, EncodingProfile) != Obj(profile)
    then None
    else
      var width := Dimension(Lookup(capture, Width));
      var height := Dimension(Lookup(capture, Height));
      if width == 0 || height == 0 then None
      else
        var bounds := FieldsOf(Lookup(capture, LogicalBounds));
        if |bounds| != 4 then None
        else if !Coordinate(Lookup(bounds, X)) || !Coordinate(Lookup(bounds, Y))
                || !Coordinate(Lookup(bounds, Width)) || !Coordinate(Lookup(bounds, Height)) then None
        else
          var logical := BoundsOf(bounds);
          if logical.width <= 0.0 || logical.height <= 0.0 then None
          else Some(FixedCapture(generation, id, width, height, logical, mode))
  }

  function ParseFixed(o: Object): (r: Option<FixedCapture>)
  {
    if |o| != 4 || Lookup(o, SchemaVersion) != Integer(PROTOCOL_VERSION)
       || Lookup(o, FeatureFlags) != Integer(FIXED_CAPTURE_FLAGS) || !Lookup(o, Capture).Obj? then None
    else
      var generation := TextOf(Lookup(o, Generation));
      if !CanonicalUuid(generation) then None
      else ParseCapture(FieldsOf(Lookup(o, Capture)), generation)
  }

  // ---------------------------------------------------------------- host layout

  /** The kinds listed, each valid and none twice. */
  function Kinds(items: seq<Value>): (r: Option<seq<string>>)
  {
    if items == [] then Some([])
    else
      var last := items[|items| - 1];
      match Kinds(items[..|items| - 1])
      case None => None
      case Some(before) =>
        if !last.Str? || !ValidKind(last.text) || last.text in before then None else Some(before + [last.text])
  }

  function ModesOf(items: seq<Value>): (r: Option<seq<string>>)
  {
    if items == [] then Some([])
    else
      var last := items[|items| - 1];
      match ModesOf(items[..|items| - 1])
      case None => None
      case Some(before) =>
        if !last.Str? || last.text !in QualifiedModes() then None else Some(before + [last.text])
  }

  function AllowedFor(startup: string): (kinds: seq<string>)
  {
    if startup == PHYSICAL then [PHYSICAL, SINGLE, DUAL] else [SINGLE, DUAL]
  }

  /** The kind of the layout against where its outputs come from. */
  predicate Consistent(layout: HostLayout)
  {
    && (layout.kind == PHYSICAL ==> !layout.isVirtual && layout.modes == [])
    && (layout.kind == SINGLE ==> layout.isVirtual && |layout.modes| == 1)
    && (layout.kind == DUAL ==> layout.isVirtual && |layout.modes| == 2)
  }

  /** The layout and the number of outputs it declares. */
  function ParseLayout(o: Object): (r: Result<(HostLayout, int)>)
  {
    var kind, startup := TextOf(Lookup(o, Kind)), TextOf(Lookup(o, StartupKind));
    if !Lookup(o, AllowedKinds).Arr? then Err(NoAllowedKinds)
    else
      match Kinds(ItemsOf(Lookup(o, AllowedKinds)))
      case None => Err(BadAllowedKind)
      case Some(allowed) =>
        if !Lookup(o, VirtualModes).Arr? then Err(NoModes)
        else
          match ModesOf(ItemsOf(Lookup(o, VirtualModes)))
          case None => Err(BadMode)
          case Some(modes) =>
            var layout := HostLayout(kind, startup, allowed, FlagOf(Lookup(o, Virtual)), modes);
            var count := IntegerOf(Lookup(o, OutputCount));
            if !ValidKind(kind) || !ValidKind(startup) || allowed == [] || kind !in allowed
               || allowed != AllowedFor(startup) || !Lookup(o, Virtual).Bool?
               || count.None? || count.value <= 0
            then Err(BadMetadata)
            else if !Consistent(layout) then Err(InconsistentLayout)
            else Ok((layout, count.value))
  }

  // ---------------------------------------------------------------- outputs

  predicate Contains(outputs: seq<Output>, id: string)
  {
    exists i :: 0 <= i < |outputs| && outputs[i].id == id
  }

  /** The part of an output that does not depend on where it stands in the list. */
  function ParseEntry(o: Object): (r: Option<Output>)
  {
    match (RectOf(o), IntegerOf(Lookup(o, Rotation)), IntegerOf(Lookup(o, RefreshMillihz)))
    case (Some(area), Some(rotation), Some(refresh)) =>
      var id, name := TextOf(Lookup(o, Id)), TextOf(Lookup(o, Name));
      if id == "" || name == "" || !Lookup(o, Primary).Bool? || !Lookup(o, Virtual).Bool?
         || !Lookup(o, SourceRect).Obj? || area.width <= 0 || area.height <= 0
      then None
      else Some(Output(id, name, area, rotation, refresh, FlagOf(Lookup(o, Primary)), FlagOf(Lookup(o, Virtual)),
                       TextOf(Lookup(o, ConfiguredMode)), Rect(0, 0, 0, 0)))
    case _ => None
  }

  /** The check of a source rectangle; its sums are `int` sums. */
  predicate SourceChecked(source: Rect, desktop: Rect)
  {
    && source.x >= 0 && source.y >= 0 && source.width > 0 && source.height > 0
    && Add(source.x, source.width) <= desktop.width
    && Add(source.y, source.height) <= desktop.height
  }

  /** An output against the layout, as the `index`-th of its list. */
  predicate Provenance(o: Output, layout: HostLayout, index: nat)
  {
    && o.isVirtual == layout.isVirtual
    && (layout.isVirtual ==>
          && index < |layout.modes| && o.configuredMode == layout.modes[index]
          && VirtualModeSize(o.configuredMode) == Size(o.area.width, o.area.height))
    && (!layout.isVirtual ==> o.configuredMode == "")
  }

  function ParseOutput(v: Value, layout: HostLayout, desktop: Rect, before: seq<Output>): (r: Result<Output>)
  {
    if !v.Obj? then Err(OutputNotObject)
    else
      match ParseEntry(v.fields)
      case None => Err(BadOutput)
      case Some(entry) =>
        if Contains(before, entry.id) then Err(BadOutput)
        else
          match RectOf(FieldsOf(Lookup(v.fields, SourceRect)))
          case None => Err(BadSource)
          case Some(source) =>
            if SourceChecked(source, desktop) && Provenance(entry, layout, |before|) then Ok(entry.(source := source))
            else Err(BadSource)
  }

  function ParseOutputs(items: seq<Value>, layout: HostLayout, desktop: Rect): (r: Result<seq<Output>>)
  {
    if items == [] then Ok([])
    else
      match ParseOutputs(items[..|items| - 1], layout, desktop)
      case Err(e) => Err(e)
      case Ok(before) =>
        match ParseOutput(items[|items| - 1], layout, desktop, before)
        case Err(e) => Err(e)
        case Ok(o) => Ok(before + [o])
  }

  predicate CountAgrees(outputs: seq<Output>, declared: int, kind: string)
  {
    && outputs != [] && |outputs| == declared
    && (kind == SINGLE ==> |outputs| == 1)
    && (kind == DUAL ==> |outputs| == 2)
  }

  // ---------------------------------------------------------------- descriptions

  predicate HeaderAccepted(o: Object)
  {
    && IntegerOf(Lookup(o, SchemaVersion)) == Some(PROTOCOL_VERSION)
    && IntegerOf(Lookup(o, FeatureFlags)).Some?
    && HasRequiredBits(IntegerOf(Lookup(o, FeatureFlags)).value)
    && Lookup(o, Generation).Str? && Lookup(o, Key.Layout).Obj?
    && Lookup(o, Desktop).Obj? && Lookup(o, Outputs).Arr?
  }

  function ParseHost(o: Object): (r: Result<Topology>)
  {
    if !HeaderAccepted(o) then Err(BadHeader)
    else
      match ParseLayout(FieldsOf(Lookup(o, Key.Layout)))
      case Err(e) => Err(e)
      case Ok((layout, declared)) =>
        var desktop := RectOf(FieldsOf(Lookup(o, Desktop)));
        if desktop.None? || desktop.value.width <= 0 || desktop.value.height <= 0 then Err(BadDesktop)
        else
          match ParseOutputs(ItemsOf(Lookup(o, Outputs)), layout, desktop.value)
          case Err(e) => Err(e)
          case Ok(outputs) =>
            if !CountAgrees(outputs, declared, layout.kind) then Err(BadOutputCount)
            else Ok(Topology(PROTOCOL_VERSION, IntegerOr0(Lookup(o, FeatureFlags)), TextOf(Lookup(o, Generation)),
                             layout, desktop.value, outputs, NO_BOUNDS, HEVC_420))
  }

  /** Which family a description claims to be of. */
  predicate ClaimsFixed(o: Object)
  {
    Capture in o || HasBit(IntegerOr0(Lookup(o, FeatureFlags)), FIXED_CAPTURE_BIT)
  }

  function Parse(o: Object): (r: Result<Topology>)
  {
    if ClaimsFixed(o) then
      match ParseFixed(o)
      case Some(c) => Ok(FixedTopology(c))
      case None => Err(BadFixedCapture)
    else ParseHost(o)
  }

  // ---------------------------------------------------------------- printing

  function OutputJson(o: Output): (v: Value)
  {
    Obj(map[Id := Str(o.id), Name := Str(o.name),
            X := Integer(o.area.x), Y := Integer(o.area.y),
            Width := Integer(o.area.width), Height := Integer(o.area.height),
            Rotation := Integer(o.rotation), RefreshMillihz := Integer(o.refreshMillihz),
            Primary := Bool(o.primary), Virtual := Bool(o.isVirtual),
            ConfiguredMode := Str(o.configuredMode), SourceRect := RectJson(o.source)])
  }

  function OutputsJson(outputs: seq<Output>): (items: seq<Value>)
    ensures |items| == |outputs|
    ensures forall i :: 0 <= i < |items| ==> items[i] == OutputJson(outputs[i])
  {
    seq(|outputs|, i requires 0 <= i < |outputs| => OutputJson(outputs[i]))
  }

  function LayoutJson(layout: HostLayout, count: int): (o: Object)
  {
    map[Kind := Str(layout.kind), Virtual := Bool(layout.isVirtual), VirtualModes := TextArray(layout.modes),
        OutputCount := Integer(count), StartupKind := Str(layout.startup), AllowedKinds := TextArray(layout.allowed)]
  }

  function BoundsJson(r: RealRect): (v: Value)
  {
    Obj(map[X := Num(r.x), Y := Num(r.y), Width := Num(r.width), Height := Num(r.height)])
  }

  function CaptureJson(id: string, t: Topology): (o: Object)
  {
    map[Id := Str(id), Width := Integer(t.desktop.width), Height := Integer(t.desktop.height),
        LogicalBounds := BoundsJson(t.captureBounds), EncodingProfile := Obj(PreviewProfile(t.encodingMode))]
  }

  function ToJson(t: Topology): (o: Object)
  {
    if t.featureFlags == FIXED_CAPTURE_FLAGS && |t.outputs| == 1 then
      map[SchemaVersion := Integer(t.schemaVersion), FeatureFlags := Integer(t.featureFlags),
          Generation := Str(t.generation), Capture := Obj(CaptureJson(t.outputs[0].id, t))]
    else
      map[SchemaVersion := Integer(t.schemaVersion), FeatureFlags := Integer(t.featureFlags),
          Generation := Str(t.generation), Key.Layout := Obj(LayoutJson(t.layout, |t.outputs|)),
          Desktop := RectJson(t.desktop), Outputs := Arr(OutputsJson(t.outputs))]
  }

  // ---------------------------------------------------------------- what acceptance means

  /** Everything a fixed capture may say. */
  predicate FixedForm(c: FixedCapture)
  {
    && CanonicalUuid(c.generation)
    && 0 < |c.id| <= 128
    && 2 <= c.width <= 8192 && c.width % 2 == 0 && 2 <= c.height <= 8192 && c.height % 2 == 0
    && -65536.0 <= c.bounds.x <= 65536.0 && -65536.0 <= c.bounds.y <= 65536.0
    && 0.0 < c.bounds.width <= 65536.0 && 0.0 < c.bounds.height <= 65536.0
    && (c.encodingMode == HEVC_420 || c.encodingMode == HEVC_444)
  }

  predicate LayoutForm(layout: HostLayout)
  {
    && ValidKind(layout.startup)
    && layout.allowed == AllowedFor(layout.startup)
    && layout.kind in layout.allowed
    && Consistent(layout)
    && forall i :: 0 <= i < |layout.modes| ==> layout.modes[i] in QualifiedModes()
  }

  predicate OutputForm(o: Output, layout: HostLayout, desktop: Rect, index: nat)
  {
    && o.id != "" && o.name != ""
    && InIntRect(o.area) && InInt(o.rotation) && InInt(o.refreshMillihz) && InIntRect(o.source)
    && o.area.width > 0 && o.area.height > 0
    && SourceChecked(o.source, desktop)
    && Provenance(o, layout, index)
  }

  predicate OutputsForm(outputs: seq<Output>, layout: HostLayout, desktop: Rect)
  {
    && (forall i :: 0 <= i < |outputs| ==> OutputForm(outputs[i], layout, desktop, i))
    && (forall i, j :: 0 <= i < j < |outputs| ==> outputs[i].id != outputs[j].id)
  }

  predicate HostForm(t: Topology)
  {
    && t.schemaVersion == PROTOCOL_VERSION
    && InInt(t.featureFlags) && HasRequiredBits(t.featureFlags) && !HasBit(t.featureFlags, FIXED_CAPTURE_BIT)
    && LayoutForm(t.layout)
    && InIntRect(t.desktop) && t.desktop.width > 0 && t.desktop.height > 0
    && OutputsForm(t.outputs, t.layout, t.desktop)
    && CountAgrees(t.outputs, |t.outputs|, t.layout.kind)
    && InInt(|t.outputs|)
    && t.captureBounds == NO_BOUNDS && t.encodingMode == HEVC_420
  }

  /** The topologies a host may describe. */
  ghost predicate WellFormed(t: Topology)
  {
    HostForm(t) || exists c :: FixedForm(c) && t == FixedTopology(c)
  }

  lemma {:induction false} KindsMeaning(items: seq<Value>)
    ensures Kinds(items).Some? ==>
              && |Kinds(items).value| == |items|
              && forall i :: 0 <= i < |items| ==> items[i] == Str(Kinds(items).value[i]) && ValidKind(items[i].text)
  {
    if items != [] {
      KindsMeaning(items[..|items| - 1]);
    }
  }

  lemma {:induction false} ModesMeaning(items: seq<Value>)
    ensures ModesOf(items).Some? ==>
              && |ModesOf(items).value| == |items|
              && forall i :: 0 <= i < |items| ==>
                   items[i] == Str(ModesOf(items).value[i]) && items[i].text in QualifiedModes()
  {
    hide QualifiedModes;
    if items != [] {
      ModesMeaning(items[..|items| - 1]);
    }
  }

  lemma {:induction false} KindsLaw(kinds: seq<string>, n: nat)
    requires n <= |kinds|
    requires forall i :: 0 <= i < |kinds| ==> ValidKind(kinds[i])
    requires forall i, j :: 0 <= i < j < |kinds| ==> kinds[i] != kinds[j]
    ensures Kinds(TextArray(kinds).items[..n]) == Some(kinds[..n])
  {
    hide ValidKind;
    if n > 0 {
      KindsLaw(kinds, n - 1);
      var items := TextArray(kinds).items[..n];
      assert items[..n - 1] == TextArray(kinds).items[..n - 1];
      assert kinds[n - 1] !in kinds[..n - 1];
      assert kinds[..n] == kinds[..n - 1] + [kinds[n - 1]];
    }
  }

  lemma {:induction false} ModesLaw(modes: seq<string>, n: nat)
    requires n <= |modes|
    requires forall i :: 0 <= i < |modes| ==> modes[i] in QualifiedModes()
    ensures ModesOf(TextArray(modes).items[..n]) == Some(modes[..n])
  {
    hide QualifiedModes;
    if n > 0 {
      ModesLaw(modes, n - 1);
      var items := TextArray(modes).items[..n];
      assert items[..n - 1] == TextArray(modes).items[..n - 1];
      assert modes[..n] == modes[..n - 1] + [modes[n - 1]];
    }
  }

  lemma AllowedDistinct(startup: string)
    ensures var kinds := AllowedFor(startup);
            && (forall i :: 0 <= i < |kinds| ==> ValidKind(kinds[i]))
            && (forall i, j :: 0 <= i < j < |kinds| ==> kinds[i] != kinds[j])
            && kinds != []
  {
    assert |PHYSICAL| == 8 && |SINGLE| == 6 && |DUAL| == 15;
  }

  lemma LayoutLaw(layout: HostLayout, count: int)
    requires LayoutForm(layout) && InInt(count) && count > 0
    ensures ParseLayout(LayoutJson(layout, count)) == Ok((layout, count))
  {
    hide QualifiedModes, ValidKind, AllowedFor, Consistent;
    AllowedDistinct(layout.startup);
    KindsLaw(layout.allowed, |layout.allowed|);
    ModesLaw(layout.modes, |layout.modes|);
    assert TextArray(layout.allowed).items[..|layout.allowed|] == TextArray(layout.allowed).items;
    assert TextArray(layout.modes).items[..|layout.modes|] == TextArray(layout.modes).items;
    assert layout.allowed[..|layout.allowed|] == layout.allowed;
    assert layout.modes[..|layout.modes|] == layout.modes;
    var o := LayoutJson(layout, count);
    assert Lookup(o, AllowedKinds) == TextArray(layout.allowed) && Lookup(o, VirtualModes) == TextArray(layout.modes);
  }

  lemma ParsedLayoutForm(o: Object)
    requires ParseLayout(o).Ok?
    ensures LayoutForm(ParseLayout(o).value.0) && InInt(ParseLayout(o).value.1) && ParseLayout(o).value.1 > 0
  {
    hide QualifiedModes, AllowedFor, Consistent;
    KindsMeaning(ItemsOf(Lookup(o, AllowedKinds)));
    ModesMeaning(ItemsOf(Lookup(o, VirtualModes)));
  }

  lemma OutputLaw(o: Output, layout: HostLayout, desktop: Rect, before: seq<Output>)
    requires OutputForm(o, layout, desktop, |before|) && !Contains(before, o.id)
    ensures ParseOutput(OutputJson(o), layout, desktop, before) == Ok(o)
  {
    hide SourceChecked, Contains, Provenance;
    EntryLaw(o);
    RectLaw(o.source);
    var entry := o.(source := Rect(0, 0, 0, 0));
    SameProvenance(o, entry, layout, |before|);
    assert Lookup(OutputJson(o).fields, SourceRect) == RectJson(o.source);
  }

  lemma SameProvenance(o: Output, p: Output, layout: HostLayout, index: nat)
    requires o == p.(source := o.source)
    ensures Provenance(o, layout, index) == Provenance(p, layout, index)
  {
    hide VirtualModeSize;
  }

  lemma EntryLaw(o: Output)
    requires o.id != "" && o.name != ""
    requires InIntRect(o.area) && InInt(o.rotation) && InInt(o.refreshMillihz)
    requires o.area.width > 0 && o.area.height > 0
    ensures ParseEntry(OutputJson(o).fields) == Some(o.(source := Rect(0, 0, 0, 0)))
  {
    hide RectOf, OutputJson;
    EntryFields(o);
  }

  /** An output's members as they are looked up. */
  lemma EntryFields(o: Output)
    ensures var f := OutputJson(o).fields;
            && (InIntRect(o.area) ==> RectOf(f) == Some(o.area))
            && Lookup(f, Id) == Str(o.id) && Lookup(f, Name) == Str(o.name)
            && Lookup(f, Rotation) == Integer(o.rotation) && Lookup(f, RefreshMillihz) == Integer(o.refreshMillihz)
            && Lookup(f, Primary) == Bool(o.primary) && Lookup(f, Virtual) == Bool(o.isVirtual)
            && Lookup(f, ConfiguredMode) == Str(o.configuredMode) && Lookup(f, SourceRect) == RectJson(o.source)
  {
    hide RectJson;
  }

  lemma ParsedOutputForm(v: Value, layout: HostLayout, desktop: Rect, before: seq<Output>)
    requires ParseOutput(v, layout, desktop, before).Ok?
    ensures OutputForm(ParseOutput(v, layout, desktop, before).value, layout, desktop, |before|)
    ensures !Contains(before, ParseOutput(v, layout, desktop, before).value.id)
  {
    hide SourceChecked, Contains, QualifiedModes, VirtualModeSize;
    RectOfInRange(v.fields);
    RectOfInRange(FieldsOf(Lookup(v.fields, SourceRect)));
  }

  lemma {:induction false} ParsedOutputsForm(items: seq<Value>, layout: HostLayout, desktop: Rect)
    requires ParseOutputs(items, layout, desktop).Ok?
    ensures OutputsForm(ParseOutputs(items, layout, desktop).value, layout, desktop)
    ensures |ParseOutputs(items, layout, desktop).value| == |items|
  {
    hide OutputForm, ParseOutput;
    if items != [] {
      var n := |items| - 1;
      ParsedOutputsForm(items[..n], layout, desktop);
      var before := ParseOutputs(items[..n], layout, desktop).value;
      ParsedOutputForm(items[n], layout, desktop, before);
      var all := ParseOutputs(items, layout, desktop).value;
      assert all[..n] == before;
      assert forall i :: 0 <= i < n ==> before[i].id != all[n].id;
      assert forall i :: 0 <= i < n ==> all[i] == before[i];
    }
  }

  lemma {:induction false} OutputsLaw(outputs: seq<Output>, layout: HostLayout, desktop: Rect, n: nat)
    requires OutputsForm(outputs, layout, desktop) && n <= |outputs|
    ensures ParseOutputs(OutputsJson(outputs)[..n], layout, desktop) == Ok(outputs[..n])
  {
    hide OutputForm, ParseOutput, OutputJson;
    if n > 0 {
      OutputsLaw(outputs, layout, desktop, n - 1);
      var items := OutputsJson(outputs)[..n];
      assert items[..n - 1] == OutputsJson(outputs)[..n - 1];
      assert !Contains(outputs[..n - 1], outputs[n - 1].id);
      OutputLaw(outputs[n - 1], layout, desktop, outputs[..n - 1]);
      assert outputs[..n] == outputs[..n - 1] + [outputs[n - 1]];
    }
  }

  /** The bits above the lowest eight are those of the number without its lowest byte. */
  lemma HighByte(high: int, low: nat, k: nat)
    requires low < 0x100
    ensures HasBit(0x100 * high + low, k + 8) == HasBit(high, k)
  {
    var f := 0x100 * high + low;
    HighDigit(f, k + 4);
    HighDigit(f / 16, k);
    assert f / 16 / 16 == high;
  }

  lemma HighDigit(f: int, k: nat)
    ensures HasBit(f, k + 4) == HasBit(f / 16, k)
  {
    assert HasBit(f, k + 4) == HasBit(f / 2, k + 3);
    assert HasBit(f / 2, k + 3) == HasBit(f / 2 / 2, k + 2);
    assert HasBit(f / 2 / 2, k + 2) == HasBit(f / 2 / 2 / 2, k + 1);
    assert HasBit(f / 2 / 2 / 2, k + 1) == HasBit(f / 2 / 2 / 2 / 2, k);
    assert f / 2 / 2 / 2 / 2 == f / 16;
  }

  lemma FixedFlagsBit()
    ensures HasBit(FIXED_CAPTURE_FLAGS, FIXED_CAPTURE_BIT)
  {
    HighByte(0x38, 0x00, 3);
    HighByte(0x3800, 0x71, 11);
  }

  lemma HostLaw(t: Topology)
    requires HostForm(t)
    ensures !ClaimsFixed(ToJson(t)) && ParseHost(ToJson(t)) == Ok(t)
  {
    hide HasBit, HasRequiredBits, LayoutForm, OutputsForm, ParseLayout, ParseOutputs, LayoutJson, OutputsJson;
    hide RectJson, RectOf, CountAgrees;
    FixedFlagsBit();
    var o := ToJson(t);
    CountPositive(t.outputs, |t.outputs|, t.layout.kind);
    LayoutLaw(t.layout, |t.outputs|);
    RectLaw(t.desktop);
    OutputsLaw(t.outputs, t.layout, t.desktop, |t.outputs|);
    assert OutputsJson(t.outputs)[..|t.outputs|] == OutputsJson(t.outputs);
    assert t.outputs[..|t.outputs|] == t.outputs;
    RectJsonIsObject(t.desktop);
    assert Lookup(o, Desktop) == RectJson(t.desktop);
  }

  lemma RectJsonIsObject(r: Rect)
    ensures RectJson(r).Obj?
  {
  }

  lemma CountPositive(outputs: seq<Output>, declared: int, kind: string)
    requires CountAgrees(outputs, declared, kind)
    ensures declared == |outputs| > 0
  {
  }

  lemma ProfileNamesMode(mode: string)
    ensures PreviewProfile(mode) != map[] <==> mode == HEVC_420 || mode == HEVC_444
    ensures PreviewProfile(mode) != map[] ==> Lookup(PreviewProfile(mode), EncodingMode) == Str(mode)
  {
    var profile := PreviewProfile(mode);
    if mode == HEVC_420 || mode == HEVC_444 {
      assert EncodingMode in profile;
    }
  }

  lemma CaptureLaw(c: FixedCapture)
    requires FixedForm(c)
    ensures ParseCapture(CaptureJson(c.id, FixedTopology(c)), c.generation) == Some(c)
  {
    hide CanonicalUuid, PreviewProfile, BoundsJson, BoundsOf, Coordinate, FixedTopology;
    ProfileNamesMode(c.encodingMode);
    BoundsLaw(c.bounds);
    CaptureFields(c);
  }

  lemma BoundsLaw(r: RealRect)
    ensures BoundsJson(r).Obj? && |BoundsJson(r).fields| == 4 && BoundsOf(BoundsJson(r).fields) == r
    ensures var b := BoundsJson(r).fields;
            && Lookup(b, X) == Num(r.x) && Lookup(b, Y) == Num(r.y)
            && Lookup(b, Width) == Num(r.width) && Lookup(b, Height) == Num(r.height)
            && (-65536.0 <= r.x <= 65536.0 ==> Coordinate(Lookup(b, X)))
            && (-65536.0 <= r.y <= 65536.0 ==> Coordinate(Lookup(b, Y)))
            && (-65536.0 <= r.width <= 65536.0 ==> Coordinate(Lookup(b, Width)))
            && (-65536.0 <= r.height <= 65536.0 ==> Coordinate(Lookup(b, Height)))
  {
    assert BoundsJson(r).fields.Keys == {X, Y, Width, Height};
  }

  lemma CaptureFields(c: FixedCapture)
    ensures var o := CaptureJson(c.id, FixedTopology(c));
            && |o| == 5 && Lookup(o, Id) == Str(c.id)
            && Lookup(o, Width) == Integer(c.width) && Lookup(o, Height) == Integer(c.height)
            && Lookup(o, LogicalBounds) == BoundsJson(c.bounds)
            && Lookup(o, EncodingProfile) == Obj(PreviewProfile(c.encodingMode))
  {
    hide PreviewProfile, BoundsJson;
    assert CaptureJson(c.id, FixedTopology(c)).Keys == {Id, Width, Height, LogicalBounds, EncodingProfile};
  }

  lemma ExactKeys(o: Object, keys: set<Key>)
    requires keys <= o.Keys && |keys| == |o|
    ensures o.Keys == keys
  {
    assert |o.Keys - keys| == |o.Keys| - |keys|;
  }

  lemma BoundsPrintBack(o: Object)
    requires |o| == 4 && Lookup(o, X).Num? && Lookup(o, Y).Num? && Lookup(o, Width).Num? && Lookup(o, Height).Num?
    ensures BoundsJson(BoundsOf(o)) == Obj(o)
  {
    ExactKeys(o, {X, Y, Width, Height});
    assert BoundsJson(BoundsOf(o)).fields == o;
  }

  lemma CapturePrintsBack(o: Object, generation: string)
    requires ParseCapture(o, generation).Some?
    ensures var c := ParseCapture(o, generation).value; CaptureJson(c.id, FixedTopology(c)) == o
  {
    hide PreviewProfile, BoundsOf;
    var c := ParseCapture(o, generation).value;
    BoundsPrintBack(FieldsOf(Lookup(o, LogicalBounds)));
    ExactKeys(o, {Id, Width, Height, LogicalBounds, EncodingProfile});
    var again := CaptureJson(c.id, FixedTopology(c));
    assert again.Keys == o.Keys;
    assert forall k :: k in o.Keys ==> again[k] == Lookup(o, k);
  }

  /** A fixed capture is accepted in one spelling only: printing it gives back what was read. */
  lemma FixedPrintsBack(o: Object)
    requires ParseFixed(o).Some?
    ensures ToJson(FixedTopology(ParseFixed(o).value)) == o
  {
    hide CanonicalUuid, ParseCapture, CaptureJson;
    var c := ParseFixed(o).value;
    GenerationKept(FieldsOf(Lookup(o, Capture)), TextOf(Lookup(o, Generation)));
    CapturePrintsBack(FieldsOf(Lookup(o, Capture)), c.generation);
    UuidIsText(c.generation);
    ExactKeys(o, {SchemaVersion, FeatureFlags, Generation, Capture});
    var again := ToJson(FixedTopology(c));
    assert again.Keys == o.Keys;
    assert forall k :: k in o.Keys ==> again[k] == Lookup(o, k);
  }

  lemma GenerationKept(o: Object, generation: string)
    ensures ParseCapture(o, generation).Some? ==> ParseCapture(o, generation).value.generation == generation
  {
    hide PreviewProfile, BoundsOf, Dimension;
  }

  lemma UuidIsText(s: string)
    ensures CanonicalUuid(s) ==> s != ""
  {
  }

  lemma FixedLaw(c: FixedCapture)
    requires FixedForm(c)
    ensures ClaimsFixed(ToJson(FixedTopology(c))) && ParseFixed(ToJson(FixedTopology(c))) == Some(c)
  {
    hide CanonicalUuid, ParseCapture, CaptureJson;
    CaptureLaw(c);
    var o := ToJson(FixedTopology(c));
    assert o.Keys == {SchemaVersion, FeatureFlags, Generation, Capture};
  }

  lemma ParsedFixedForm(o: Object)
    requires ParseFixed(o).Some?
    ensures FixedForm(ParseFixed(o).value)
  {
    hide CanonicalUuid;
  }

  lemma ParsedHostForm(o: Object)
    requires !ClaimsFixed(o) && ParseHost(o).Ok?
    ensures HostForm(ParseHost(o).value)
  {
    hide HasBit, HasRequiredBits, LayoutForm, OutputsForm, ParseLayout, ParseOutputs, RectOf;
    var layout := ParseLayout(FieldsOf(Lookup(o, Key.Layout))).value.0;
    var desktop := FieldsOf(Lookup(o, Desktop));
    ParsedLayoutForm(FieldsOf(Lookup(o, Key.Layout)));
    RectOfInRange(desktop);
    ParsedOutputsForm(ItemsOf(Lookup(o, Outputs)), layout, RectOf(desktop).value);
  }

  /** Exactly the well-formed topologies come out of the parser. */
  lemma AcceptedExactly(t: Topology)
    ensures (exists o :: Parse(o) == Ok(t)) <==> WellFormed(t)
  {
    hide ParseFixed, ParseHost, FixedForm, HostForm, ToJson, FixedTopology, ClaimsFixed;
    if WellFormed(t) {
      PrintParse(t);
    }
    if o :| Parse(o) == Ok(t) {
      if ClaimsFixed(o) {
        ParsedFixedForm(o);
      } else {
        ParsedHostForm(o);
      }
    }
  }

  /** A topology that either family accepts is printed so that it is accepted again, unchanged. */
  lemma PrintParse(t: Topology)
    requires WellFormed(t)
    ensures Parse(ToJson(t)) == Ok(t)
  {
    hide ParseFixed, ParseHost, FixedForm, HostForm, ToJson, FixedTopology, ClaimsFixed;
    if HostForm(t) {
      HostLaw(t);
    } else {
      var c :| FixedForm(c) && t == FixedTopology(c);
      FixedLaw(c);
    }
  }

  // ---------------------------------------------------------------- the code

  method BoundsInRange(bounds: Object) returns (ok: bool)
    ensures ok <==> forall k :: k in [X, Y, Width, Height] ==> Coordinate(Lookup(bounds, k))
  {
    var keys := [X, Y, Width, Height];
    for i := 0 to |keys|
      invariant forall k :: 0 <= k < i ==> Coordinate(Lookup(bounds, keys[k]))
    {
      var value := Lookup(bounds, keys[i]);
      if !value.Num? || value.number > 65536.0 || value.number < -65536.0 {
        return false;
      }
    }
    return true;
  }

  method ParseFixedCapture(description: Object, topology: Topology) returns (ok: bool, result: Topology)
    ensures ok == ParseFixed(description).Some?
    ensures result == if ok then FixedTopology(ParseFixed(description).value) else topology
  {
    hide CanonicalUuid, PreviewProfile, Dimension, BoundsOf, Coordinate;
    ok, result := false, topology;
    if |description| != 4 || Lookup(description, SchemaVersion) != Integer(PROTOCOL_VERSION)
       || Lookup(description, FeatureFlags) != Integer(FIXED_CAPTURE_FLAGS) || !Lookup(description, Capture).Obj?
    {
      return;
    }
    var generation := TextOf(Lookup(description, Generation));
    if !CanonicalUuid(generation) {
      return;
    }
    var capture := FieldsOf(Lookup(description, Capture));
    var id := TextOf(Lookup(capture, Id));
    var encodingMode := TextOf(Lookup(FieldsOf(Lookup(capture, EncodingProfile)), EncodingMode));
    var profile := PreviewProfile(encodingMode);
    if |capture| != 5 || id == "" || |id| > 128 || !Lookup(capture, LogicalBounds).Obj?
       || profile == map[] || Lookup(capture, EncodingProfile) != Obj(profile)
    {
      return;
    }
    var width, height := Dimension(Lookup(capture, Width)), Dimension(Lookup(capture, Height));
    if width == 0 || height == 0 {
      return;
    }
    var bounds := FieldsOf(Lookup(capture, LogicalBounds));
    if |bounds| != 4 {
      return;
    }
    var inRange := BoundsInRange(bounds);
    if !inRange {
      return;
    }
    var logical := BoundsOf(bounds);
    if logical.width <= 0.0 || logical.height <= 0.0 {
      return;
    }
    var area := Rect(0, 0, width, height);
    var output := Output(id, "Current capture display", area, 0, 0, true, false, "", area);
    result := Topology(PROTOCOL_VERSION, FIXED_CAPTURE_FLAGS, generation, HostLayout(FIXED, FIXED, [FIXED], false, []),
                       area, [output], logical, encodingMode);
    ok := true;
  }

  lemma {:induction false} KindsStop(items: seq<Value>, n: nat)
    requires n <= |items| && Kinds(items[..n]).None?
    ensures Kinds(items).None?
    decreases |items| - n
  {
    if n < |items| {
      assert items[..n + 1][..n] == items[..n];
      KindsStop(items, n + 1);
    } else {
      assert items[..n] == items;
    }
  }

  method ReadKinds(items: seq<Value>) returns (kinds: Option<seq<string>>)
    ensures kinds == Kinds(items)
  {
    var parsed: seq<string> := [];
    for i := 0 to |items|
      invariant Kinds(items[..i]) == Some(parsed)
    {
      assert items[..i + 1][..i] == items[..i];
      var kind := items[i];
      if !kind.Str? || !ValidKind(kind.text) || kind.text in parsed {
        KindsStop(items, i + 1);
        return None;
      }
      parsed := parsed + [kind.text];
    }
    assert items[..|items|] == items;
    return Some(parsed);
  }

  lemma {:induction false} ModesStop(items: seq<Value>, n: nat)
    requires n <= |items| && ModesOf(items[..n]).None?
    ensures ModesOf(items).None?
    decreases |items| - n
  {
    hide QualifiedModes;
    if n < |items| {
      assert items[..n + 1][..n] == items[..n];
      ModesStop(items, n + 1);
    } else {
      assert items[..n] == items;
    }
  }

  method ReadModes(items: seq<Value>) returns (modes: Option<seq<string>>)
    ensures modes == ModesOf(items)
  {
    hide QualifiedModes;
    var parsed: seq<string> := [];
    for i := 0 to |items|
      invariant ModesOf(items[..i]) == Some(parsed)
    {
      assert items[..i + 1][..i] == items[..i];
      var mode := items[i];
      if !mode.Str? || mode.text !in QualifiedModes() {
        ModesStop(items, i + 1);
        return None;
      }
      parsed := parsed + [mode.text];
    }
    assert items[..|items|] == items;
    return Some(parsed);
  }

  method ReadLayout(layout: Object) returns (r: Result<(HostLayout, int)>)
    ensures r == ParseLayout(layout)
  {
    hide ValidKind, QualifiedModes, Kinds, ModesOf, Consistent;
    if !Lookup(layout, AllowedKinds).Arr? {
      return Err(NoAllowedKinds);
    }
    var allowed := ReadKinds(ItemsOf(Lookup(layout, AllowedKinds)));
    if allowed.None? {
      return Err(BadAllowedKind);
    }
    if !Lookup(layout, VirtualModes).Arr? {
      return Err(NoModes);
    }
    var modes := ReadModes(ItemsOf(Lookup(layout, VirtualModes)));
    if modes.None? {
      return Err(BadMode);
    }
    var kind, startup := TextOf(Lookup(layout, Kind)), TextOf(Lookup(layout, StartupKind));
    var count := IntegerOf(Lookup(layout, OutputCount));
    if !ValidKind(kind) || !ValidKind(startup) || allowed.value == [] || kind !in allowed.value
       || (startup == PHYSICAL && allowed.value != [PHYSICAL, SINGLE, DUAL])
       || (startup != PHYSICAL && allowed.value != [SINGLE, DUAL])
       || !Lookup(layout, Virtual).Bool? || count.None? || count.value <= 0
    {
      return Err(BadMetadata);
    }
    var parsed := HostLayout(kind, startup, allowed.value, FlagOf(Lookup(layout, Virtual)), modes.value);
    if !Consistent(parsed) {
      return Err(InconsistentLayout);
    }
    return Ok((parsed, count.value));
  }

  lemma {:induction false} OutputsStop(items: seq<Value>, layout: HostLayout, desktop: Rect, n: nat)
    requires n <= |items| && ParseOutputs(items[..n], layout, desktop).Err?
    ensures ParseOutputs(items, layout, desktop) == ParseOutputs(items[..n], layout, desktop)
    decreases |items| - n
  {
    hide ParseOutput;
    if n < |items| {
      assert items[..n + 1][..n] == items[..n];
      OutputsStop(items, layout, desktop, n + 1);
    } else {
      assert items[..n] == items;
    }
  }

  method HasOutput(outputs: seq<Output>, id: string) returns (found: bool)
    ensures found == Contains(outputs, id)
  {
    for i := 0 to |outputs|
      invariant !Contains(outputs[..i], id)
    {
      if outputs[i].id == id {
        return true;
      }
    }
    return false;
  }

  method ReadOutput(value: Value, layout: HostLayout, desktop: Rect, before: seq<Output>) returns (r: Result<Output>)
    ensures r == ParseOutput(value, layout, desktop, before)
  {
    hide QualifiedModes, VirtualModeSize, Contains;
    if !value.Obj? {
      return Err(OutputNotObject);
    }
    var entry := value.fields;
    var id, name := TextOf(Lookup(entry, Id)), TextOf(Lookup(entry, Name));
    var area := RectOf(entry);
    var rotation, refresh := IntegerOf(Lookup(entry, Rotation)), IntegerOf(Lookup(entry, RefreshMillihz));
    if id == "" || name == "" || area.None? || rotation.None? || refresh.None?
       || !Lookup(entry, Primary).Bool? || !Lookup(entry, Virtual).Bool? || !Lookup(entry, SourceRect).Obj?
       || area.value.width <= 0 || area.value.height <= 0
    {
      return Err(BadOutput);
    }
    var duplicate := HasOutput(before, id);
    if duplicate {
      return Err(BadOutput);
    }
    var isVirtual, mode := FlagOf(Lookup(entry, Virtual)), TextOf(Lookup(entry, ConfiguredMode));
    var source := RectOf(FieldsOf(Lookup(entry, SourceRect)));
    if source.None? || source.value.x < 0 || source.value.y < 0
       || source.value.width <= 0 || source.value.height <= 0
       || Add(source.value.x, source.value.width) > desktop.width
       || Add(source.value.y, source.value.height) > desktop.height
       || isVirtual != layout.isVirtual
       || (layout.isVirtual && (|before| >= |layout.modes| || mode != layout.modes[|before|]
                                || VirtualModeSize(mode) != Size(area.value.width, area.value.height)))
       || (!layout.isVirtual && mode != "")
    {
      return Err(BadSource);
    }
    return Ok(Output(id, name, area.value, rotation.value, refresh.value, FlagOf(Lookup(entry, Primary)),
                     isVirtual, mode, source.value));
  }

  method ReadOutputs(items: seq<Value>, layout: HostLayout, desktop: Rect) returns (r: Result<seq<Output>>)
    ensures r == ParseOutputs(items, layout, desktop)
  {
    hide ParseOutput;
    var parsed: seq<Output> := [];
    for i := 0 to |items|
      invariant ParseOutputs(items[..i], layout, desktop) == Ok(parsed)
    {
      assert items[..i + 1][..i] == items[..i];
      var output := ReadOutput(items[i], layout, desktop, parsed);
      if output.Err? {
        OutputsStop(items, layout, desktop, i + 1);
        return Err(output.rejection);
      }
      parsed := parsed + [output.value];
    }
    assert items[..|items|] == items;
    return Ok(parsed);
  }

  /** The parser; a refused description leaves `topology` as it was. */
  method FromJson(description: Object, topology: Topology)
      returns (ok: bool, result: Topology, error: Option<Rejection>)
    ensures ok == Parse(description).Ok?
    ensures result == if ok then Parse(description).value else topology
    ensures error == if ok || Parse(description).rejection == OutputNotObject then None
        else Some(Parse(description).rejection)
  {
    hide HasBit, HasRequiredBits, ParseFixed, FixedTopology, ParseLayout, ParseOutputs, RectOf, CountAgrees;
    ok, result, error := false, topology, None;
    if Capture in description || HasBit(IntegerOr0(Lookup(description, FeatureFlags)), FIXED_CAPTURE_BIT) {
      ok, result := ParseFixedCapture(description, topology);
      error := if ok then None else Some(BadFixedCapture);
      return;
    }
    var version, flags := IntegerOf(Lookup(description, SchemaVersion)), IntegerOf(Lookup(description, FeatureFlags));
    if version.None? || version.value != PROTOCOL_VERSION || flags.None? || !HasRequiredBits(flags.value)
       || !Lookup(description, Generation).Str? || !Lookup(description, Key.Layout).Obj?
       || !Lookup(description, Desktop).Obj? || !Lookup(description, Outputs).Arr?
    {
      error := Some(BadHeader);
      return;
    }
    var layout := ReadLayout(FieldsOf(Lookup(description, Key.Layout)));
    if layout.Err? {
      LayoutRejections(FieldsOf(Lookup(description, Key.Layout)));
      error := Some(layout.rejection);
      return;
    }
    var desktop := RectOf(FieldsOf(Lookup(description, Desktop)));
    if desktop.None? || desktop.value.width <= 0 || desktop.value.height <= 0 {
      error := Some(BadDesktop);
      return;
    }
    var outputs := ReadOutputs(ItemsOf(Lookup(description, Outputs)), layout.value.0, desktop.value);
    if outputs.Err? {
      error := if outputs.rejection == OutputNotObject then None else Some(outputs.rejection);
      return;
    }
    if !CountAgrees(outputs.value, layout.value.1, layout.value.0.kind) {
      error := Some(BadOutputCount);
      return;
    }
    ok := true;
    result := Topology(version.value, flags.value, TextOf(Lookup(description, Generation)), layout.value.0,
                       desktop.value, outputs.value, NO_BOUNDS, HEVC_420);
  }

  lemma LayoutRejections(o: Object)
    requires ParseLayout(o).Err?
    ensures ParseLayout(o).rejection != OutputNotObject
  {
    hide ValidKind, QualifiedModes, Kinds, ModesOf, Consistent, AllowedFor;
  }

  /** The printer. */
  method Print(t: Topology) returns (o: Object)
    ensures o == ToJson(t)
  {
    hide OutputJson, LayoutJson, RectJson, CaptureJson;
    if t.featureFlags == FIXED_CAPTURE_FLAGS && |t.outputs| == 1 {
      return map[SchemaVersion := Integer(t.schemaVersion), FeatureFlags := Integer(t.featureFlags),
                 Generation := Str(t.generation), Capture := Obj(CaptureJson(t.outputs[0].id, t))];
    }
    var serialized: seq<Value> := [];
    for i := 0 to |t.outputs|
      invariant serialized == OutputsJson(t.outputs)[..i]
    {
      serialized := serialized + [OutputJson(t.outputs[i])];
    }
    assert serialized == OutputsJson(t.outputs);
    return map[SchemaVersion := Integer(t.schemaVersion), FeatureFlags := Integer(t.featureFlags),
               Generation := Str(t.generation), Key.Layout := Obj(LayoutJson(t.layout, |t.outputs|)),
               Desktop := RectJson(t.desktop), Outputs := Arr(serialized)];
  }

  // ---------------------------------------------------------------- what acceptance guarantees

  predicate Inside(source: Rect, desktop: Rect)
  {
    && 0 <= source.x && 0 <= source.y && source.width > 0 && source.height > 0
    && source.x + source.width <= desktop.width && source.y + source.height <= desktop.height
  }

  /** No sum of the source rectangle leaves the range of `int`. */
  predicate SumsFit(source: Rect)
  {
    InInt(source.x + source.width) && InInt(source.y + source.height)
  }

  /**
    An accepted description names every output once; its virtual outputs are its virtual modes,
    one for one and in order; and each source rectangle lies inside the desktop exactly when
    its right and bottom edges are `int`s.
  */
  lemma AcceptedOutputs(o: Object, t: Topology)
    requires Parse(o) == Ok(t)
    ensures forall i, j :: 0 <= i < j < |t.outputs| ==> t.outputs[i].id != t.outputs[j].id
    ensures t.outputs != []
    ensures t.layout.isVirtual ==> |t.layout.modes| == |t.outputs|
    ensures forall i :: 0 <= i < |t.outputs| ==> t.outputs[i].isVirtual == t.layout.isVirtual
    ensures t.layout.isVirtual ==>
              forall i :: 0 <= i < |t.outputs| ==>
                && t.outputs[i].configuredMode == t.layout.modes[i]
                && t.layout.modes[i] == ModeString(t.outputs[i].area.width, t.outputs[i].area.height)
    ensures forall i :: 0 <= i < |t.outputs| ==>
              (Inside(t.outputs[i].source, t.desktop) <==> SumsFit(t.outputs[i].source))
  {
    hide ParseFixed, ParseHost, FixedForm, ClaimsFixed, HasRequiredBits, LayoutForm, QualifiedModes, ModeString;
    if ClaimsFixed(o) {
      ParsedFixedForm(o);
      FixedInside(ParseFixed(o).value);
    } else {
      ParsedHostForm(o);
      ModesCounted(t);
      forall i | 0 <= i < |t.outputs|
        ensures Inside(t.outputs[i].source, t.desktop) <==> SumsFit(t.outputs[i].source)
        ensures t.layout.isVirtual ==>
                  && t.outputs[i].configuredMode == t.layout.modes[i]
                  && t.layout.modes[i] == ModeString(t.outputs[i].area.width, t.outputs[i].area.height)
      {
        OutputGuarantee(t.outputs[i], t.layout, t.desktop, i);
      }
    }
  }

  lemma FixedInside(c: FixedCapture)
    requires FixedForm(c)
    ensures var o := FixedTopology(c).outputs[0];
            Inside(o.source, FixedTopology(c).desktop) && SumsFit(o.source)
  {
  }

  lemma ModesCounted(t: Topology)
    requires HostForm(t)
    ensures |t.outputs| > 0 && (t.layout.isVirtual ==> |t.layout.modes| == |t.outputs|)
  {
    hide HasBit, HasRequiredBits, OutputsForm, QualifiedModes;
  }

  lemma OutputGuarantee(o: Output, layout: HostLayout, desktop: Rect, index: nat)
    requires OutputForm(o, layout, desktop, index) && InIntRect(desktop)
    ensures Inside(o.source, desktop) <==> SumsFit(o.source)
    ensures layout.isVirtual ==>
              && index < |layout.modes| && o.configuredMode == layout.modes[index]
              && Size(o.area.width, o.area.height) in QualifiedSizes()
              && layout.modes[index] == ModeString(o.area.width, o.area.height)
  {
    hide QualifiedModes, QualifiedSizes, ModeString;
    if layout.isVirtual {
      VirtualModeSizeMeaning(o.configuredMode);
    }
  }

  /** The wrapped sums matter: this host is accepted, and its output lies outside its desktop. */
  lemma OutsideSourceAccepted() returns (t: Topology)
    ensures Parse(ToJson(t)) == Ok(t)
    ensures exists i :: 0 <= i < |t.outputs| && t.outputs[i].source.x > t.desktop.width
  {
    hide Parse, ToJson, HasRequiredBits, HasBit;
    var screen := Rect(0, 0, 1920, 1080);
    var o := Output("DP-1", "Left", screen, 0, 60000, true, false, "", Rect(0x7FFF_FFFF, 0, 1920, 1080));
    var layout := HostLayout(PHYSICAL, PHYSICAL, [PHYSICAL, SINGLE, DUAL], false, []);
    t := Topology(13, 0xC7E7, "", layout, screen, [o], NO_BOUNDS, HEVC_420);
    ExampleFlags();
    OutsideExample(o, layout, screen);
    PrintParse(t);
    assert t.outputs[0].source.x > t.desktop.width;
  }

  lemma OutsideExample(o: Output, layout: HostLayout, screen: Rect)
    requires screen == Rect(0, 0, 1920, 1080)
    requires layout == HostLayout(PHYSICAL, PHYSICAL, [PHYSICAL, SINGLE, DUAL], false, [])
    requires o == Output("DP-1", "Left", screen, 0, 60000, true, false, "", Rect(0x7FFF_FFFF, 0, 1920, 1080))
    ensures LayoutForm(layout) && OutputsForm([o], layout, screen) && CountAgrees([o], 1, PHYSICAL)
  {
    hide QualifiedModes, VirtualModeSize;
    KindsApart();
    assert |o.id| == 4 && |o.name| == 4;
  }

  lemma ExampleFlags()
    ensures HasRequiredBits(0xC7E7) && !HasBit(0xC7E7, FIXED_CAPTURE_BIT)
  {
    assert forall k :: k in [0, 1, 2, 5, 6, 7] ==> HasBit(0xC7E7, k);
    HighByte(0xC7, 0xE7, 0);
    HighByte(0xC7, 0xE7, 1);
    HighByte(0xC7, 0xE7, 2);
    HighByte(0xC7, 0xE7, 6);
    HighByte(0xC7, 0xE7, 7);
    HighByte(0xC7, 0xE7, 11);
  }

  // ---------------------------------------------------------------- layouts

  function VirtualCanvasSize(layout: string, modes: seq<string>): (s: Size)
  {
    var first := VirtualModeSize(ModeAt(modes, 0));
    if layout == SINGLE then first
    else if layout != DUAL || !IsValid(first) then NO_SIZE
    else
      var second := VirtualModeSize(ModeAt(modes, 1));
      if !IsValid(second) || first.width + second.width > MAX_CANVAS_WIDTH then NO_SIZE
      else Size(first.width + second.width, Max(first.height, second.height))
  }

  function ModeAt(modes: seq<string>, i: nat): (m: string)
  {
    if i < |modes| then modes[i] else ""
  }

  predicate MatchesRequestedLayout(t: Topology, layout: string, modes: seq<string>)
  {
    if t.layout.kind != layout || t.layout.modes != modes then false
    else if layout == PHYSICAL then !t.layout.isVirtual && t.outputs != []
    else if layout == SINGLE then t.layout.isVirtual && |t.outputs| == 1
    else if layout != DUAL || !t.layout.isVirtual || |t.outputs| != 2 then false
    else
      var left, right := t.outputs[0], t.outputs[1];
      && left.area.y == right.area.y
      && right.area.x == Add(left.area.x, left.area.width)
      && t.desktop.x == left.area.x && t.desktop.y == left.area.y
      && t.desktop.width == Add(left.area.width, right.area.width)
      && t.desktop.height == Max(left.area.height, right.area.height)
      && left.source.x == 0 && left.source.y == 0
      && right.source.x == left.area.width && right.source.y == 0
  }

  /**
    A dual layout that matches what was asked for spans exactly the canvas computed from the
    modes alone, whenever that canvas is not too wide; and its right source region is no
    wider than its right output, unless the sum of its edges wraps.
  */
  lemma DualLayoutAgrees(o: Object, t: Topology, modes: seq<string>)
    requires Parse(o) == Ok(t) && MatchesRequestedLayout(t, DUAL, modes)
    ensures var canvas := VirtualCanvasSize(DUAL, modes);
            && (IsValid(canvas) <==> t.desktop.width <= MAX_CANVAS_WIDTH)
            && (IsValid(canvas) ==> canvas == Size(t.desktop.width, t.desktop.height))
    ensures SumsFit(t.outputs[1].source) ==> t.outputs[1].source.width <= t.outputs[1].area.width
  {
    hide ParseFixed, ParseHost, FixedForm, ClaimsFixed, HostForm, QualifiedModes, QualifiedSizes, VirtualModeSize;
    hide FixedTopology;
    VirtualIsHost(o, t);
    DualModesSized(t);
    assert |t.outputs| == 2;
    var l, r := t.outputs[0], t.outputs[1];
    QualifiedSizeRange(Size(l.area.width, l.area.height));
    QualifiedSizeRange(Size(r.area.width, r.area.height));
  }

  lemma VirtualIsHost(o: Object, t: Topology)
    requires Parse(o) == Ok(t) && t.layout.isVirtual
    ensures HostForm(t)
  {
    hide ParseFixed, ParseHost, FixedForm, HostForm;
    if ClaimsFixed(o) {
    } else {
      ParsedHostForm(o);
    }
  }

  lemma DualModesSized(t: Topology)
    requires HostForm(t) && t.layout.isVirtual
    ensures |t.layout.modes| == |t.outputs|
    ensures forall i :: 0 <= i < |t.outputs| ==>
              var s := Size(t.outputs[i].area.width, t.outputs[i].area.height);
              && VirtualModeSize(t.layout.modes[i]) == s && s in QualifiedSizes()
              && Add(t.outputs[i].source.x, t.outputs[i].source.width) <= t.desktop.width
              && InInt(t.outputs[i].source.width)
              && t.outputs[i].source.width > 0
  {
    hide HasBit, HasRequiredBits, LayoutForm, VirtualModeSize, QualifiedSizes, ModeString;
    ModesCounted(t);
    forall i | 0 <= i < |t.outputs|
      ensures Size(t.outputs[i].area.width, t.outputs[i].area.height) in QualifiedSizes() {
      OutputGuarantee(t.outputs[i], t.layout, t.desktop, i);
    }
  }

  /** A matching single layout has its one output of exactly the canvas size, which is always valid. */
  lemma SingleLayoutAgrees(o: Object, t: Topology, modes: seq<string>)
    requires Parse(o) == Ok(t) && MatchesRequestedLayout(t, SINGLE, modes)
    ensures IsValid(VirtualCanvasSize(SINGLE, modes))
    ensures VirtualCanvasSize(SINGLE, modes) == Size(t.outputs[0].area.width, t.outputs[0].area.height)
  {
    hide ParseFixed, ParseHost, FixedForm, ClaimsFixed, HostForm, QualifiedModes, QualifiedSizes, VirtualModeSize;
    hide FixedTopology;
    VirtualIsHost(o, t);
    DualModesSized(t);
    QualifiedSizeRange(Size(t.outputs[0].area.width, t.outputs[0].area.height));
  }

  /** For each qualified mode, a host with two such outputs: accepted, and matching what was asked for. */
  lemma DualLayoutsExist(mode: string, size: Size) returns (t: Topology)
    requires mode in QualifiedModes() && VirtualModeSize(mode) == size
    ensures Parse(ToJson(t)) == Ok(t) && MatchesRequestedLayout(t, DUAL, [mode, mode])
    ensures IsValid(VirtualCanvasSize(DUAL, [mode, mode])) <==> size.width <= 4096
  {
    hide QualifiedModes, VirtualModeSize, ModeString, HasRequiredBits, HasBit, QualifiedSizes, Parse, ToJson;
    VirtualModeSizeMeaning(mode);
    QualifiedSizeRange(size);
    ExampleFlags();
    var w, h := size.width, size.height;
    var desktop := Rect(0, 0, 2 * w, h);
    var left := Output("1", "Left", Rect(0, 0, w, h), 0, 60000, true, true, mode, Rect(0, 0, w, h));
    var right := Output("22", "Right", Rect(w, 0, w, h), 0, 60000, false, true, mode, Rect(w, 0, w, h));
    t := Topology(13, 0xC7E7, "", HostLayout(DUAL, PHYSICAL, [PHYSICAL, SINGLE, DUAL], true, [mode, mode]),
                  desktop, [left, right], NO_BOUNDS, HEVC_420);
    DualExample(mode, size, left, right, desktop, t.layout);
    PrintParse(t);
  }

  lemma DualExample(mode: string, size: Size, left: Output, right: Output, desktop: Rect, layout: HostLayout)
    requires mode in QualifiedModes() && VirtualModeSize(mode) == size
    requires 1024 <= size.width <= 5120 && 1080 <= size.height <= 2160
    requires var w, h := size.width, size.height;
             && desktop == Rect(0, 0, 2 * w, h)
             && left == Output("1", "Left", Rect(0, 0, w, h), 0, 60000, true, true, mode, Rect(0, 0, w, h))
             && right == Output("22", "Right", Rect(w, 0, w, h), 0, 60000, false, true, mode, Rect(w, 0, w, h))
             && layout == HostLayout(DUAL, PHYSICAL, [PHYSICAL, SINGLE, DUAL], true, [mode, mode])
    ensures LayoutForm(layout) && OutputsForm([left, right], layout, desktop)
    ensures CountAgrees([left, right], 2, DUAL)
  {
    hide QualifiedModes, VirtualModeSize;
    assert |left.id| == 1 && |right.id| == 2;
  }

  // ---------------------------------------------------------------- descriptions and discovery

  /** What discovery asks before the description is fetched. */
  predicate SupportsDescription(version: int, flags: int)
  {
    && version == PROTOCOL_VERSION
    && if HasBit(flags, FIXED_CAPTURE_BIT) then flags == FIXED_CAPTURE_FLAGS
       else HasBit(flags, 0) && HasBit(flags, 1) && HasBit(flags, 2)
  }

  /** 0: unknown, 1: Linux, 2: macOS. */
  function HostPlatform(version: int, flags: int): (p: int)
  {
    if !SupportsDescription(version, flags) then 0 else if flags == FIXED_CAPTURE_FLAGS then 2 else 1
  }

  predicate DisplayPolicyKnown(t: Topology)
  {
    || (t.schemaVersion == PROTOCOL_VERSION && t.featureFlags == FIXED_CAPTURE_FLAGS)
    || (t.schemaVersion == PROTOCOL_VERSION && ValidKind(t.layout.kind) && ValidKind(t.layout.startup)
      && t.layout.allowed != [])
  }

  const MATCH_CLIENT := "match-client"

  predicate AllowsBookmarkLayout(t: Topology, layout: string)
  {
    if t.featureFlags == FIXED_CAPTURE_FLAGS then layout == FIXED || layout == MATCH_CLIENT
    else if !DisplayPolicyKnown(t) then true
    else if layout == MATCH_CLIENT then SINGLE in t.layout.allowed && DUAL in t.layout.allowed
    else layout in t.layout.allowed
  }

  /**
    Every accepted description is one discovery would fetch, of the platform it says; its
    policy is known, and a bookmark may ask for its layout or for the client's.
  */
  lemma AcceptedIsSupported(o: Object, t: Topology)
    requires Parse(o) == Ok(t)
    ensures SupportsDescription(t.schemaVersion, t.featureFlags)
    ensures HostPlatform(t.schemaVersion, t.featureFlags) == if ClaimsFixed(o) then 2 else 1
    ensures DisplayPolicyKnown(t)
    ensures AllowsBookmarkLayout(t, t.layout.kind) && AllowsBookmarkLayout(t, MATCH_CLIENT)
    ensures !ClaimsFixed(o) ==>
              forall kind :: AllowsBookmarkLayout(t, kind) <==>
                kind == MATCH_CLIENT || (ValidKind(kind) && (kind == PHYSICAL ==> t.layout.startup == PHYSICAL))
  {
    hide ParseFixed, ParseHost, FixedForm, HasBit, OutputsForm, QualifiedModes;
    FixedFlagsBit();
    if ClaimsFixed(o) {
      ParsedFixedForm(o);
    } else {
      ParsedHostForm(o);
      RequiredLowBits(t.featureFlags);
      KindsApart();
      LayoutFormMeans(t.layout);
    }
  }

  lemma RequiredLowBits(flags: int)
    requires HasRequiredBits(flags)
    ensures HasBit(flags, 0) && HasBit(flags, 1) && HasBit(flags, 2)
  {
    hide HasBit;
    assert RequiredBits()[0] == 0 && RequiredBits()[1] == 1 && RequiredBits()[2] == 2;
  }

  lemma KindsApart()
    ensures PHYSICAL != SINGLE && SINGLE != DUAL && PHYSICAL != DUAL
    ensures !ValidKind(MATCH_CLIENT)
  {
    assert |PHYSICAL| == 8 && |SINGLE| == 6 && |DUAL| == 15 && |MATCH_CLIENT| == 12;
  }

  lemma LayoutFormMeans(layout: HostLayout)
    requires LayoutForm(layout)
    ensures layout.allowed == AllowedFor(layout.startup) != [] && layout.kind in layout.allowed
        && ValidKind(layout.startup)
    ensures ValidKind(layout.kind)
  {
    hide QualifiedModes;
  }
}
