/** JSON values as the topology code sees them: no text, no floating-point special cases. */
module Json {

  import opened Options
  import opened Modes

  /** The member names the code uses; every other name is `Other`. */
  datatype Key =
    | SchemaVersion | FeatureFlags | Generation | Capture | Layout | Desktop | Outputs
    | Id | Name | X | Y | Width | Height | LogicalBounds | EncodingProfile
    | CaptureSource | EncoderBackend | EncodingMode | Codec | Profile | BitDepth | Chroma | Range
    | Matrix | Primaries | Transfer | RgbIdentity
    | Kind | Virtual | VirtualModes | OutputCount | StartupKind | AllowedKinds
    | Rotation | RefreshMillihz | Primary | ConfiguredMode | SourceRect
    | Other(name: string)

  type Object = map<Key, Value>

  datatype Value =
    | Null
    | Bool(flag: bool)
    | Num(number: real)
    | Str(text: string)
    | Arr(items: seq<Value>)
    | Obj(fields: map<Key, Value>)

  /** A missing member reads as a value of no kind, as null does. */
  function Lookup(o: Object, k: Key): (v: Value)
  {
    if k in o then o[k] else Null
  }

  function TextOf(v: Value): (s: string)
  {
    if v.Str? then v.text else ""
  }

  function FieldsOf(v: Value): (o: Object)
  {
    if v.Obj? then v.fields else map[]
  }

  function ItemsOf(v: Value): (items: seq<Value>)
  {
    if v.Arr? then v.items else []
  }

  function FlagOf(v: Value): (b: bool)
  {
    v.Bool? && v.flag
  }

  /** A whole number that an `int` can hold. */
  function IntegerOf(v: Value): (r: Option<int>)
  {
    if v.Num? && v.number == v.number.Floor as real && InInt(v.number.Floor) then Some(v.number.Floor) else None
  }

  function IntegerOr0(v: Value): (n: int)
  {
    match IntegerOf(v)
    case Some(n) => n
    case None => 0
  }

  function Integer(n: int): (v: Value)
    ensures IntegerOf(v) == if InInt(n) then Some(n) else None
  {
    Num(n as real)
  }

  function TextArray(texts: seq<string>): (v: Value)
    ensures v.Arr? && |v.items| == |texts| && forall i :: 0 <= i < |texts| ==> v.items[i] == Str(texts[i])
  {
    Arr(seq(|texts|, i requires 0 <= i < |texts| => Str(texts[i])))
  }
}
