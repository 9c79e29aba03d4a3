/** Parsers for the values of environment variables; a parser returns a value or fails, and never raises. */
module EnvironmentParsing {
  import opened Prelude
  import opened PythonText
  import opened Sequences
  import opened Decimals
  import opened RuntimeOptions

  datatype ParseKind = Bool | Int | Float | Text | Seconds | Milliseconds | Path | Enum | List

  const TRUTHY: set<string> := {"1", "true", "yes", "on", "y", "t"}
  const FALSY: set<string> := {"0", "false", "no", "off", "n", "f"}

  function ParseBool(raw: string): Option<Value> {
    var normalized := Lower(Strip(raw));
    if normalized in TRUTHY then Some(BoolValue(true))
    else if normalized in FALSY then Some(BoolValue(false))
    else None
  }

  function ParseInt(raw: string): Option<Value> {
    var (negative, body) := SignOf(Strip(raw));
    if DigitText(body) then Some(IntValue(Signed(negative, NumberOf(body)))) else None
  }

  function ParseFloat(raw: string): Option<Decimal> {
    ParseDecimal(Strip(raw))
  }

  function ParseText(raw: string): Option<Value> {
    if Blank(raw) then None else Some(TextValue(raw))
  }

  /** The magnitude of the duration pattern: an optional sign, digits, and perhaps a point and digits. */
  function PlainMagnitude(text: string): Option<Decimal> {
    var (_, body) := SignOf(text);
    var parts := Split(body, '.');
    if |parts| <= 2 && (forall i :: 0 <= i < |parts| ==> parts[i] != "" && AllDigits(parts[i]))
    then ParseDecimal(text)
    else None
  }

  function DropLast(s: string, n: nat): string {
    if |s| <= n then "" else s[..|s| - n]
  }

  function LastChars(s: string, n: nat): string {
    if |s| <= n then s else s[|s| - n..]
  }

  /** A magnitude with a unit; milliseconds are thousandths. */
  function ParseWithUnit(raw: string): Option<Decimal> {
    var core := Strip(raw);
    if Lower(LastChars(core, 2)) == "ms" then
      match PlainMagnitude(StripRight(DropLast(core, 2)))
      case Some(d) => Some(Normalise(d.mantissa, d.places + 3))
      case None => None
    else
      var unit := Lower(LastChars(core, 1));
      var factor := if unit == "s" then 1 else if unit == "m" then 60 else if unit == "h" then 3600 else 0;
      if factor == 0 then None
      else
        match PlainMagnitude(StripRight(DropLast(core, 1)))
        case Some(d) => Some(Times(d, factor))
        case None => None
  }

  function ParseSeconds(raw: string): Option<Decimal> {
    var withUnit := ParseWithUnit(raw);
    if withUnit.Some? then withUnit else ParseFloat(raw)
  }

  function ParseMilliseconds(raw: string): Option<Decimal> {
    match ParseSeconds(raw)
    case Some(d) => Some(Times(d, 1000))
    case None => None
  }

  /** `expand` is expandvars, expanduser and the spelling Path gives the result. */
  function ParsePath(raw: string, expand: string -> string): Option<Value> {
    if Blank(raw) then None else Some(PathValue(expand(raw)))
  }

  /** The spelling of the last choice that equals the candidate up to case, as a dictionary keyed by lower
      case gives it. */
  function Canonical(choices: seq<string>, candidate: string): Option<string> {
    if choices == [] then None
    else
      var last := choices[|choices| - 1];
      if Lower(last) == candidate then Some(last) else Canonical(choices[..|choices| - 1], candidate)
  }

  function ParseEnum(raw: string, choices: seq<string>): Option<Value> {
    match Canonical(choices, Lower(Strip(raw)))
    case Some(choice) => Some(TextValue(choice))
    case None => None
  }

  predicate NonEmpty(s: string) {
    s != ""
  }

  function ListParts(raw: string, separator: char): seq<string> {
    if Blank(raw) then [] else Filter(Map(Split(raw, separator), Strip), NonEmpty)
  }

  function FloatOf(d: Option<Decimal>): Option<Value> {
    match d
    case Some(x) => Some(FloatValue(x))
    case None => None
  }

  /** The parser a variable's kind selects. */
  function Parse(kind: ParseKind, choices: seq<string>, separator: char, expand: string -> string, raw: string): Option<Value> {
    match kind
    case Bool => ParseBool(raw)
    case Int => ParseInt(raw)
    case Float => FloatOf(ParseFloat(raw))
    case Text => ParseText(raw)
    case Seconds => FloatOf(ParseSeconds(raw))
    case Milliseconds => FloatOf(ParseMilliseconds(raw))
    case Path => ParsePath(raw, expand)
    case Enum => ParseEnum(raw, choices)
    case List => Some(ListValue(ListParts(raw, separator)))
  }

  // ---- what a printed value parses to ----

  lemma IntRoundTrip(n: int)
    ensures ParseInt(PrintInt(n)) == Some(IntValue(n))
    ensures !Blank(PrintInt(n))
  {
    var s := PrintInt(n);
    TrimmedStays(s);
    var k: nat := Abs(n);
    NumberOfDigits(k);
    DigitsAreText(Digits(k));
    if n < 0 {
      assert s[1..] == Digits(k);
    } else {
      assert IsDigit(s[0]);
    }
  }

  lemma LastOfLower(s: string, n: nat)
    requires s != "" && n > 0 && IsDigit(s[|s| - 1])
    ensures var t := Lower(LastChars(s, n)); t != "" && IsDigit(t[|t| - 1])
  {
  }

  lemma DigitEndHasNoUnit(s: string)
    requires s != "" && Trimmed(s) && IsDigit(s[|s| - 1])
    ensures ParseWithUnit(s) == None
  {
    TrimmedStays(s);
    LastOfLower(s, 2);
    LastOfLower(s, 1);
    var two, one := Lower(LastChars(s, 2)), Lower(LastChars(s, 1));
    assert two != "ms" && one != "s" && one != "m" && one != "h";
  }

  /** A text from a sign or a digit to a digit carries no unit. */
  lemma NumberTextHasNoUnit(s: string)
    requires s != "" && (s[0] == '-' || IsDigit(s[0])) && IsDigit(s[|s| - 1])
    ensures ParseWithUnit(s) == None && Strip(s) == s && !Blank(s)
  {
    TrimmedStays(s);
    DigitEndHasNoUnit(s);
  }

  lemma PrintedHasNoUnit(d: Decimal)
    ensures ParseWithUnit(PrintDecimal(d)) == None
    ensures Strip(PrintDecimal(d)) == PrintDecimal(d) && !Blank(PrintDecimal(d))
  {
    PrintedEnds(d);
    NumberTextHasNoUnit(PrintDecimal(d));
  }

  /** A duration option read as seconds is the number printed. */
  lemma SecondsRoundTrip(d: Decimal)
    requires Normal(d)
    ensures ParseSeconds(PrintDecimal(d)) == Some(d)
  {
    PrintedHasNoUnit(d);
    DecimalRoundTrip(d);
  }

  /** Read as milliseconds it is a thousand times the number printed. */
  lemma MillisecondsScaled(d: Decimal)
    requires Normal(d)
    ensures ParseMilliseconds(PrintDecimal(d)) == Some(Times(d, 1000))
  {
    SecondsRoundTrip(d);
  }

  /** A printed number is a plain magnitude: a sign, digits, a point, digits. */
  lemma PrintedIsPlain(d: Decimal)
    requires Normal(d)
    ensures PlainMagnitude(PrintDecimal(d)) == Some(d)
  {
    DecimalRoundTrip(d);
    PrintedGroups(d);
  }

  lemma PrintedGroups(d: Decimal)
    ensures var parts := Split(SignOf(PrintDecimal(d)).1, '.');
            |parts| == 2 && parts[0] != "" && AllDigits(parts[0]) && parts[1] != "" && AllDigits(parts[1])
  {
    var n: nat := Abs(d.mantissa);
    var body := PrintMagnitude(n, d.places);
    if d.places == 0 {
      SplitPointed(Digits(n), "0");
      assert body[0] == Digits(n)[0];
    } else {
      var s := Padded(n, d.places + 1);
      SplitPointed(s[..|s| - d.places], s[|s| - d.places..]);
      assert body[0] == s[0];
    }
    SignOfDigits(d.mantissa < 0, body);
  }

  lemma WithUnit(text: string, unit: string)
    requires text != "" && Trimmed(text) && unit != "" && !IsSpace(unit[0]) && !IsSpace(unit[|unit| - 1])
    ensures Strip(text + unit) == text + unit && StripRight(text) == text
    ensures DropLast(text + unit, |unit|) == text && LastChars(text + unit, |unit|) == unit
  {
    TrimmedStays(text + unit);
  }

  /** A number with a unit: milliseconds are thousandths of a second, minutes sixty and hours sixty times sixty
      seconds. */
  lemma UnitsScale(d: Decimal)
    requires Normal(d)
    ensures ParseSeconds(PrintDecimal(d) + "ms") == Some(Normalise(d.mantissa, d.places + 3))
    ensures ParseSeconds(PrintDecimal(d) + "s") == Some(d)
    ensures ParseSeconds(PrintDecimal(d) + "m") == Some(Times(d, 60))
    ensures ParseSeconds(PrintDecimal(d) + "h") == Some(Times(d, 60 * 60))
  {
    MillisecondUnit(d);
    OtherUnit(d, "s");
    OtherUnit(d, "m");
    OtherUnit(d, "h");
    assert Normalise(d.mantissa, d.places) == d;
  }

  /** The unit is cut off the end of a trimmed magnitude. */
  lemma MagnitudeMs(text: string, d: Decimal)
    requires text != "" && Trimmed(text) && PlainMagnitude(text) == Some(d)
    ensures ParseWithUnit(text + "ms") == Some(Normalise(d.mantissa, d.places + 3))
  {
    WithUnit(text, "ms");
    assert Lower("ms") == "ms";
  }

  lemma MillisecondText(text: string, d: Decimal)
    requires text != "" && (text[0] == '-' || IsDigit(text[0])) && IsDigit(text[|text| - 1])
    requires PlainMagnitude(text) == Some(d)
    ensures ParseSeconds(text + "ms") == Some(Normalise(d.mantissa, d.places + 3))
  {
    MagnitudeMs(text, d);
  }

  lemma MillisecondUnit(d: Decimal)
    requires Normal(d)
    ensures ParseSeconds(PrintDecimal(d) + "ms") == Some(Normalise(d.mantissa, d.places + 3))
  {
    PrintedEnds(d);
    PrintedIsPlain(d);
    MillisecondText(PrintDecimal(d), d);
  }

  lemma OtherUnit(d: Decimal, unit: string)
    requires Normal(d) && unit in ["s", "m", "h"]
    ensures ParseSeconds(PrintDecimal(d) + unit)
            == Some(Times(d, if unit == "s" then 1 else if unit == "m" then 60 else 3600))
  {
    PrintedEnds(d);
    PrintedIsPlain(d);
    MagnitudeUnit(PrintDecimal(d), d, unit);
  }

  lemma MagnitudeUnit(text: string, d: Decimal, unit: string)
    requires text != "" && Trimmed(text) && IsDigit(text[|text| - 1]) && PlainMagnitude(text) == Some(d)
    requires unit in ["s", "m", "h"]
    ensures ParseWithUnit(text + unit) == Some(Times(d, if unit == "s" then 1 else if unit == "m" then 60 else 3600))
  {
    WithUnit(text, unit);
    assert Lower(unit) == unit;
    var two := Lower(LastChars(text + unit, 2));
    assert IsDigit(two[0]);
    assert "ms"[0] == 'm';
  }

  lemma MillisecondsOf(raw: string, n: Decimal)
    requires ParseSeconds(raw) == Some(n)
    ensures ParseMilliseconds(raw) == Some(Times(n, 1000))
  {
  }

  /** Printed with its unit, a number of milliseconds would come back as itself. */
  lemma MillisecondsWithUnit(d: Decimal)
    requires Normal(d)
    ensures ParseMilliseconds(PrintDecimal(d) + "ms") == Some(d)
  {
    MillisecondUnit(d);
    MillisecondsOf(PrintDecimal(d) + "ms", Normalise(d.mantissa, d.places + 3));
    ThousandthTimesThousand(d.mantissa, d.places);
  }

  /** A list element that survives printing and reading. */
  predicate CleanElement(s: string, separator: char) {
    s != "" && Trimmed(s) && separator !in s
  }

  ghost predicate CleanList(items: seq<string>, separator: char) {
    forall i :: 0 <= i < |items| ==> CleanElement(items[i], separator)
  }

  lemma {:induction false} FilterKeepsAll(items: seq<string>)
    requires forall i :: 0 <= i < |items| ==> items[i] != ""
    ensures Filter(items, NonEmpty) == items
  {
    if items != [] {
      FilterKeepsAll(items[1..]);
    }
  }

  /** Whatever is parsed, the parts are clean. */
  lemma PartsAreClean(raw: string, separator: char)
    ensures CleanList(ListParts(raw, separator), separator)
  {
    if !Blank(raw) {
      var pieces := Split(raw, separator);
      var stripped := Map(pieces, Strip);
      JoinSplit(raw, separator);
      FilterMembers(stripped, NonEmpty);
      var parts := Filter(stripped, NonEmpty);
      forall i | 0 <= i < |parts| ensures CleanElement(parts[i], separator) {
        assert parts[i] in parts;
        var j :| 0 <= j < |stripped| && stripped[j] == parts[i];
        StripProps(pieces[j]);
      }
    }
  }

  lemma JoinNotBlank(items: seq<string>, separator: char)
    requires items != [] && items[0] != "" && Trimmed(items[0])
    ensures !Blank(Join(items, separator))
  {
    NotBlank(Join(items, separator), 0);
  }

  /** A printed list reads back as itself exactly when its elements are clean. */
  lemma ListRoundTrip(items: seq<string>, separator: char)
    ensures ListParts(Join(items, separator), separator) == items <==> CleanList(items, separator)
    ensures items != [] && CleanList(items, separator) ==> !Blank(Join(items, separator))
  {
    PartsAreClean(Join(items, separator), separator);
    if CleanList(items, separator) {
      if items != [] {
        assert CleanElement(items[0], separator);
        JoinNotBlank(items, separator);
        SplitJoin(items, separator);
        forall i | 0 <= i < |items| ensures Strip(items[i]) == items[i] {
          TrimmedStays(items[i]);
        }
        assert Map(items, Strip) == items;
        FilterKeepsAll(items);
      }
    }
  }
}
