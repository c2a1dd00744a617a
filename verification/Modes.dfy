/**
  Display modes as text, such as "2560x1440": printing, splitting and reading back
  (app/backend/outputtopology.cpp:111-151, 448-457).
*/
module Modes {

  import opened Options

  /** A width and a height. As in Qt, a size with a negative part is not valid. */
  datatype Size = Size(width: int, height: int)

  const NO_SIZE: Size := Size(-1, -1)

  /** The two encodings a Mac host offers. */
  const HEVC_420 := "hevc-10-420-videotoolbox"
  const HEVC_444 := "hevc-10-444-videotoolbox"

  predicate IsValid(s: Size)
  {
    s.width >= 0 && s.height >= 0
  }

  predicate InInt(n: int)
  {
    -0x8000_0000 <= n < 0x8000_0000
  }

  function Max(a: int, b: int): (m: int)
    ensures m >= a && m >= b && (m == a || m == b)
  {
    if a < b then b else a
  }

  // ---------------------------------------------------------------- numbers as text

  predicate IsDigit(c: char)
  {
    '0' <= c <= '9'
  }

  function DigitValue(c: char): (d: int)
    requires IsDigit(c)
    ensures 0 <= d < 10
  {
    c as int - '0' as int
  }

  function DigitChar(d: nat): (c: char)
    requires d < 10
    ensures IsDigit(c) && DigitValue(c) == d
  {
    (d + '0' as int) as char
  }

  /** The decimal digits of a number, no leading zeros. */
  function Dec(n: nat): (s: string)
    ensures s != ""
  {
    if n < 10 then [DigitChar(n)] else Dec(n / 10) + [DigitChar(n % 10)]
  }

  function Number(n: int): (s: string)
    ensures s != ""
  {
    if n < 0 then "-" + Dec(-n) else Dec(n)
  }

  /** The value of a non-empty string of digits. */
  function Digits(s: string): (r: Option<nat>)
  {
    if s == "" || !IsDigit(s[|s| - 1]) then None
    else if |s| == 1 then Some(DigitValue(s[0]))
    else
      match Digits(s[..|s| - 1])
      case None => None
      case Some(n) => Some(10 * n + DigitValue(s[|s| - 1]))
  }

  /** Reading an `int`: an optional sign, digits, and a value that fits. */
  function ToInt(s: string): (r: Option<int>)
  {
    var negative := s != "" && s[0] == '-';
    var signed := negative || (s != "" && s[0] == '+');
    match Digits(if signed then s[1..] else s)
    case None => None
    case Some(n) =>
      var v: int := if negative then 0 - n else n;
      if InInt(v) then Some(v) else None
  }

  lemma {:induction false} DecReads(n: nat)
    ensures Digits(Dec(n)) == Some(n)
    ensures forall i :: 0 <= i < |Dec(n)| ==> IsDigit(Dec(n)[i])
  {
    if n >= 10 {
      DecReads(n / 10);
      assert Dec(n)[..|Dec(n)| - 1] == Dec(n / 10);
    }
  }

  /** A printed `int` reads back; a printed number that is none is refused. */
  lemma NumberReads(n: int)
    ensures ToInt(Number(n)) == if InInt(n) then Some(n) else None
    ensures 'x' !in Number(n)
  {
    hide Dec, Digits;
    if n < 0 {
      DecReads(-n);
      assert Number(n)[1..] == Dec(-n);
    } else {
      DecReads(n);
    }
  }

  // ---------------------------------------------------------------- modes

  function ModeString(width: int, height: int): (s: string)
    ensures s != ""
  {
    Number(width) + "x" + Number(height)
  }

  /** The parts between the letters x, empty ones kept. */
  function Split(s: string): (parts: seq<string>)
    ensures parts != []
  {
    if s == "" then [""]
    else
      var before := Split(s[..|s| - 1]);
      var last := s[|s| - 1];
      if last == 'x' then before + [""]
      else before[|before| - 1 := before[|before| - 1] + [last]]
  }

  lemma {:induction false} SplitAppend(a: string, b: string)
    requires 'x' !in b
    ensures Split(a + "x" + b) == Split(a) + [b]
  {
    var s := a + "x" + b;
    if b == "" {
      assert s[..|s| - 1] == a;
    } else {
      var b' := b[..|b| - 1];
      SplitAppend(a, b');
      assert s[..|s| - 1] == a + "x" + b';
      assert b == b' + [b[|b| - 1]];
    }
  }

  lemma {:induction false} SplitWhole(a: string)
    requires 'x' !in a
    ensures Split(a) == [a]
  {
    if a != "" {
      SplitWhole(a[..|a| - 1]);
      assert a == a[..|a| - 1] + [a[|a| - 1]];
    }
  }

  /** A printed mode splits into its two numbers. */
  lemma ModeSplits(width: int, height: int)
    ensures Split(ModeString(width, height)) == [Number(width), Number(height)]
  {
    NumberReads(width);
    NumberReads(height);
    SplitWhole(Number(width));
    SplitAppend(Number(width), Number(height));
  }

  // ---------------------------------------------------------------- virtual modes

  function QualifiedModes(): (modes: seq<string>)
  {
    [ "1024x2160", "1280x2160", "1920x1080", "1920x1200", "2560x1440", "2560x1600",
      "2560x2160", "3440x1440", "3840x1600", "3840x2160", "4096x2160", "5120x2160" ]
  }

  function VirtualModeSize(mode: string): (s: Size)
  {
    var parts := Split(mode);
    if mode !in QualifiedModes() || |parts| != 2 then NO_SIZE
    else Size(IntOr0(parts[0]), IntOr0(parts[1]))
  }

  function IntOr0(s: string): (n: int)
  {
    match ToInt(s)
    case Some(n) => n
    case None => 0
  }

  /** The sizes the qualified modes name, in the same order. */
  function QualifiedSizes(): (sizes: seq<Size>)
  {
    [ Size(1024, 2160), Size(1280, 2160), Size(1920, 1080), Size(1920, 1200), Size(2560, 1440), Size(2560, 1600),
      Size(2560, 2160), Size(3440, 1440), Size(3840, 1600), Size(3840, 2160), Size(4096, 2160), Size(5120, 2160) ]
  }

  /** The number four characters of a text spell. */
  predicate Spells(s: string, from: nat, n: int)
  {
    && from + 4 <= |s|
    && IsDigit(s[from]) && IsDigit(s[from + 1]) && IsDigit(s[from + 2]) && IsDigit(s[from + 3])
    && 1000 <= n
       == 1000 * DigitValue(s[from]) + 100 * DigitValue(s[from + 1]) + 10 * DigitValue(s[from + 2])
         + DigitValue(s[from + 3])
  }

  lemma SpelledIsDec(s: string, from: nat, n: nat)
    requires Spells(s, from, n)
    ensures Dec(n) == s[from..from + 4]
  {
    assert n / 10 == 100 * DigitValue(s[from]) + 10 * DigitValue(s[from + 1]) + DigitValue(s[from + 2]);
    assert n / 10 / 10 == 10 * DigitValue(s[from]) + DigitValue(s[from + 1]);
    assert n / 10 / 10 / 10 == DigitValue(s[from]);
    assert Dec(n / 10 / 10 / 10) == [s[from]];
    assert Dec(n / 10 / 10) == [s[from], s[from + 1]];
    assert Dec(n / 10) == [s[from], s[from + 1], s[from + 2]];
  }

  lemma SpelledIsMode(s: string, size: Size)
    requires |s| == 9 && s[4] == 'x' && Spells(s, 0, size.width) && Spells(s, 5, size.height)
    ensures s == ModeString(size.width, size.height)
  {
    SpelledIsDec(s, 0, size.width);
    SpelledIsDec(s, 5, size.height);
    assert s == s[0..4] + "x" + s[5..9];
  }

  lemma NarrowModesPrint()
    ensures "1024x2160" == ModeString(1024, 2160)
    ensures "1280x2160" == ModeString(1280, 2160)
    ensures "1920x1080" == ModeString(1920, 1080)
  {
    hide ModeString;
    SpelledIsMode("1024x2160", Size(1024, 2160));
    SpelledIsMode("1280x2160", Size(1280, 2160));
    SpelledIsMode("1920x1080", Size(1920, 1080));
  }

  lemma MiddleModesPrint()
    ensures "1920x1200" == ModeString(1920, 1200)
    ensures "2560x1440" == ModeString(2560, 1440)
    ensures "2560x1600" == ModeString(2560, 1600)
  {
    hide ModeString;
    SpelledIsMode("1920x1200", Size(1920, 1200));
    SpelledIsMode("2560x1440", Size(2560, 1440));
    SpelledIsMode("2560x1600", Size(2560, 1600));
  }

  lemma WideModesPrint()
    ensures "2560x2160" == ModeString(2560, 2160)
    ensures "3440x1440" == ModeString(3440, 1440)
    ensures "3840x1600" == ModeString(3840, 1600)
  {
    hide ModeString;
    SpelledIsMode("2560x2160", Size(2560, 2160));
    SpelledIsMode("3440x1440", Size(3440, 1440));
    SpelledIsMode("3840x1600", Size(3840, 1600));
  }

  lemma WidestModesPrint()
    ensures "3840x2160" == ModeString(3840, 2160)
    ensures "4096x2160" == ModeString(4096, 2160)
    ensures "5120x2160" == ModeString(5120, 2160)
  {
    hide ModeString;
    SpelledIsMode("3840x2160", Size(3840, 2160));
    SpelledIsMode("4096x2160", Size(4096, 2160));
    SpelledIsMode("5120x2160", Size(5120, 2160));
  }

  lemma QualifiedModePrints(i: nat)
    requires i < |QualifiedSizes()|
    ensures |QualifiedModes()| == |QualifiedSizes()|
    ensures QualifiedModes()[i] == ModeString(QualifiedSizes()[i].width, QualifiedSizes()[i].height)
  {
    hide ModeString;
    NarrowModesPrint();
    MiddleModesPrint();
    WideModesPrint();
    WidestModesPrint();
  }

  /** A mode has a valid size exactly when it is qualified, and then it is the mode's text. */
  lemma VirtualModeSizeMeaning(mode: string)
    ensures var s := VirtualModeSize(mode);
            && (IsValid(s) <==> mode in QualifiedModes())
            && (IsValid(s) ==> s in QualifiedSizes() && mode == ModeString(s.width, s.height))
            && (!IsValid(s) ==> s == NO_SIZE)
  {
    hide QualifiedModes, QualifiedSizes, ModeString, Split, ToInt, Number;
    if mode in QualifiedModes() {
      var i :| 0 <= i < |QualifiedModes()| && QualifiedModes()[i] == mode;
      QualifiedCounts();
      QualifiedModePrints(i);
      var s := QualifiedSizes()[i];
      ModeSplits(s.width, s.height);
      NumberReads(s.width);
      NumberReads(s.height);
      QualifiedSizeRange(s);
    }
  }

  lemma QualifiedCounts()
    ensures |QualifiedModes()| == |QualifiedSizes()|
  {
  }

  lemma QualifiedSizeRange(s: Size)
    requires s in QualifiedSizes()
    ensures 1024 <= s.width <= 5120 && 1080 <= s.height <= 2160
  {
  }
}
