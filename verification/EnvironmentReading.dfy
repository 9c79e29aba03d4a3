/** How environment values are read: what case and space do not change, and which words mean what. */
module EnvironmentReading {
  import opened Prelude
  import opened PythonText
  import opened Sequences
  import opened Decimals
  import opened RuntimeOptions
  import opened EnvironmentParsing

  predicate AllSpace(s: string) {
    forall i :: 0 <= i < |s| ==> IsSpace(s[i])
  }

  // ---- stripping ----

  lemma {:induction false} StripLeftCut(s: string) returns (i: nat)
    ensures i <= |s| && StripLeft(s) == s[i..] && AllSpace(s[..i]) && (i < |s| ==> !IsSpace(s[i]))
  {
    if s != "" && IsSpace(s[0]) {
      var j := StripLeftCut(s[1..]);
      i := j + 1;
      assert s[1..][j..] == s[i..];
      assert forall k :: 1 <= k < i ==> s[k] == s[1..][..j][k - 1];
    } else {
      i := 0;
    }
  }

  lemma {:induction false} StripRightCut(s: string) returns (j: nat)
    ensures j <= |s| && StripRight(s) == s[..j] && AllSpace(s[j..]) && (j > 0 ==> !IsSpace(s[j - 1]))
  {
    if s != "" && IsSpace(s[|s| - 1]) {
      var n := |s| - 1;
      j := StripRightCut(s[..n]);
      assert s[..n][..j] == s[..j];
      assert forall k :: j <= k < n ==> s[k] == s[..n][j..][k - j];
    } else {
      j := |s|;
    }
  }

  /** What is cut off is spaces, and what is left neither begins nor ends with one. */
  lemma StripCut(s: string) returns (i: nat, j: nat)
    ensures i <= j <= |s| && Strip(s) == s[i..j] && AllSpace(s[..i]) && AllSpace(s[j..])
    ensures i < j ==> !IsSpace(s[i]) && !IsSpace(s[j - 1])
    ensures i == j ==> AllSpace(s)
  {
    i := StripLeftCut(s);
    var k := StripRightCut(s[i..]);
    j := i + k;
    assert s[i..][..k] == s[i..j] && s[i..][k..] == s[j..];
    if i < j {
      assert s[i..][k - 1] == s[j - 1];
    } else {
      assert s == s[..i] + s[i..];
    }
  }

  /** There is only one way to cut. */
  lemma OneCut(s: string, i: nat, j: nat)
    requires i <= j <= |s| && AllSpace(s[..i]) && AllSpace(s[j..])
    requires i < j ==> !IsSpace(s[i]) && !IsSpace(s[j - 1])
    ensures Strip(s) == s[i..j]
  {
    var a, b := StripCut(s);
    if i < j {
      NoSpaceInside(s, a, b, i);
      NoSpaceInside(s, a, b, j - 1);
    }
    if a < b {
      NoSpaceInside(s, i, j, a);
      NoSpaceInside(s, i, j, b - 1);
    }
  }

  /** What is not a space is not cut off. */
  lemma NoSpaceInside(s: string, a: nat, b: nat, k: nat)
    requires a <= b <= |s| && AllSpace(s[..a]) && AllSpace(s[b..]) && k < |s| && !IsSpace(s[k])
    ensures a <= k < b
  {
    forall m | 0 <= m < a ensures IsSpace(s[m]) {
      assert s[m] == s[..a][m];
    }
    forall m | b <= m < |s| ensures IsSpace(s[m]) {
      assert s[m] == s[b..][m - b];
    }
  }

  /** Spaces around a text are cut off with its own. */
  lemma PaddingStripped(l: string, t: string, r: string)
    requires AllSpace(l) && AllSpace(r)
    ensures Strip(l + t + r) == Strip(t)
  {
    var i, j := StripCut(t);
    var s := l + t + r;
    if i < j {
      var a, b := |l| + i, |l| + j;
      assert s[..a] == l + t[..i] && s[b..] == t[j..] + r && s[a..b] == t[i..j];
      assert s[a] == t[i] && s[b - 1] == t[j - 1];
      OneCut(s, a, b);
    } else {
      assert AllSpace(s);
      assert s[..|s|] == s;
      OneCut(s, |s|, |s|);
    }
  }

  lemma SpaceHasNoCase(c: char)
    ensures IsSpace(LowerChar(c)) <==> IsSpace(c)
  {
  }

  /** Texts that differ only in case are cut alike. */
  lemma StripFolds(a: string, b: string)
    requires Lower(a) == Lower(b)
    ensures Lower(Strip(a)) == Lower(Strip(b))
  {
    assert |a| == |Lower(a)| == |b|;
    forall k | 0 <= k < |a| ensures IsSpace(a[k]) <==> IsSpace(b[k]) {
      assert Lower(a)[k] == Lower(b)[k];
      SpaceHasNoCase(a[k]);
      SpaceHasNoCase(b[k]);
    }
    var i, j := StripCut(a);
    OneCut(b, i, j);
    assert forall k :: i <= k < j ==> Lower(a)[k] == Lower(b)[k];
  }

  // ---- parsers ----

  /** Surrounding space does not change how a number, a truth value or a choice is read. */
  lemma PaddingIgnored(l: string, t: string, r: string, kind: ParseKind, choices: seq<string>, separator: char,
                       expand: string -> string)
    requires AllSpace(l) && AllSpace(r) && kind in {Bool, Int, Float, Seconds, Milliseconds, Enum}
    ensures Parse(kind, choices, separator, expand, l + t + r) == Parse(kind, choices, separator, expand, t)
  {
    PaddingStripped(l, t, r);
  }

  /** A sign in front of digits makes the number negative, or is dropped. */
  lemma SignsRead(digits: string)
    requires digits != "" && AllDigits(digits)
    ensures ParseInt(digits) == ParseInt("+" + digits) == Some(IntValue(NumberOf(digits)))
    ensures ParseInt("-" + digits) == Some(IntValue(-(NumberOf(digits) as int)))
  {
    DigitsAreText(digits);
    TrimmedStays(digits);
    TrimmedStays("+" + digits);
    TrimmedStays("-" + digits);
    assert ("+" + digits)[1..] == digits && ("-" + digits)[1..] == digits;
  }

  /** Nor does case change a truth value or a choice. */
  lemma CaseIgnored(a: string, b: string, choices: seq<string>)
    requires Lower(a) == Lower(b)
    ensures ParseBool(a) == ParseBool(b) && ParseEnum(a, choices) == ParseEnum(b, choices)
  {
    StripFolds(a, b);
  }

  /** The words for true and false; everything else is neither. */
  lemma BoolWords(raw: string)
    ensures ParseBool(raw) == Some(BoolValue(true)) <==> Lower(Strip(raw)) in {"1", "true", "yes", "on", "y", "t"}
    ensures ParseBool(raw) == Some(BoolValue(false)) <==> Lower(Strip(raw)) in {"0", "false", "no", "off", "n", "f"}
    ensures ParseBool(raw).Some? ==> ParseBool(raw).value.BoolValue?
  {
    WordsApart(Lower(Strip(raw)));
  }

  lemma WordsApart(w: string)
    ensures !(w in TRUTHY && w in FALSY)
  {
  }

  // ---- lists ----

  lemma {:induction false} SpacesSplit(s: string, separator: char)
    requires AllSpace(s)
    ensures forall i :: 0 <= i < |Split(s, separator)| ==> AllSpace(Split(s, separator)[i])
  {
    if s != "" {
      SpacesSplit(s[1..], separator);
    }
  }

  lemma BlankStripped(s: string)
    ensures Strip(s) == "" <==> AllSpace(s)
  {
    var i, j := StripCut(s);
    if AllSpace(s) {
      assert s[..|s|] == s;
      OneCut(s, |s|, |s|);
    }
  }

  /** A list is its stripped parts that are not empty, also when the whole text is blank. */
  lemma ListPartsExactly(raw: string, separator: char)
    ensures ListParts(raw, separator) == Filter(Map(Split(raw, separator), Strip), NonEmpty)
  {
    BlankStripped(raw);
    if Blank(raw) {
      SpacesSplit(raw, separator);
      var parts := Map(Split(raw, separator), Strip);
      forall i | 0 <= i < |parts| ensures !NonEmpty(parts[i]) {
        BlankStripped(Split(raw, separator)[i]);
      }
      FilterNone(parts, NonEmpty);
    }
  }

  /** Spaces around the separators of a list do not change it. */
  lemma SpacedLists(a: seq<string>, b: seq<string>, separator: char)
    requires a != [] && |a| == |b| && SeparatorFree(a, separator) && SeparatorFree(b, separator)
    requires forall i :: 0 <= i < |a| ==> Strip(a[i]) == Strip(b[i])
    ensures ListParts(Join(a, separator), separator) == ListParts(Join(b, separator), separator)
  {
    SplitJoin(a, separator);
    SplitJoin(b, separator);
    ListPartsExactly(Join(a, separator), separator);
    ListPartsExactly(Join(b, separator), separator);
    assert Map(a, Strip) == Map(b, Strip);
  }

  // ---- texts, paths and sizes ----

  /** A text is kept as it is, its own spaces included; only a blank one is no text and no path. */
  lemma TextsKept(raw: string, expand: string -> string)
    ensures ParseText(raw) == if AllSpace(raw) then None else Some(TextValue(raw))
    ensures ParsePath(raw, expand) == if AllSpace(raw) then None else Some(PathValue(expand(raw)))
  {
    BlankStripped(raw);
  }

  function AtLeast(n: int): char -> bool {
    (c: char) => c as int >= n
  }

  /** The bytes of a text in UTF-8: one for each character, and one more from each of three places on. */
  lemma {:induction false} Utf8Exactly(s: string)
    ensures Utf8Size(s) == |s| + |Filter(s, AtLeast(0x80))| + |Filter(s, AtLeast(0x800))| + |Filter(s, AtLeast(0x10000))|
  {
    if s != "" {
      Utf8Exactly(s[1..]);
    }
  }

  /** The characters Python counts as space. */
  lemma SpacesListed(c: char)
    ensures IsSpace(c) <==>
      || c in "\t\n\U{B}\U{C}\r\U{1C}\U{1D}\U{1E}\U{1F} \U{85}\U{A0}\U{1680}\U{2028}\U{2029}\U{202F}\U{205F}\U{3000}"
      || c in "\U{2000}\U{2001}\U{2002}\U{2003}\U{2004}\U{2005}\U{2006}\U{2007}\U{2008}\U{2009}\U{200A}"
  {
  }

  // ---- underscores ----

  lemma {:induction false} DigitTextJoined(a: string, b: string)
    requires a != "" && b != "" && AllDigits(a) && AllDigits(b)
    ensures DigitText(a + ['_'] + b) && NumberOf(a + ['_'] + b) == NumberOf(a + b)
    decreases |b|
  {
    var n := |b| - 1;
    var s, t := a + ['_'] + b, a + b;
    DigitsAreText(a);
    if n == 0 {
      assert s[..|s| - 2] == a && s[..|s| - 1] == a + ['_'] && (a + ['_'])[..|a|] == a && t[..|t| - 1] == a;
    } else {
      DigitTextJoined(a, b[..n]);
      assert s[..|s| - 1] == a + ['_'] + b[..n] && t[..|t| - 1] == a + b[..n];
    }
  }

  /** A single underscore between digits is dropped. */
  lemma UnderscoreDropped(a: string, b: string)
    requires a != "" && b != "" && AllDigits(a) && AllDigits(b)
    ensures ParseInt(a + ['_'] + b) == ParseInt(a + b) == Some(IntValue(NumberOf(a + b)))
  {
    DigitTextJoined(a, b);
    DigitsAreText(a + b);
    TrimmedStays(a + ['_'] + b);
    TrimmedStays(a + b);
  }

  lemma {:induction false} DigitCountJoined(a: string, b: string)
    requires AllDigits(a) && AllDigits(b)
    ensures DigitCount(a + ['_'] + b) == |a| + |b|
  {
    if a == "" {
      assert (a + ['_'] + b)[1..] == b;
      DigitCountAll(b);
    } else {
      assert (a + ['_'] + b)[1..] == a[1..] + ['_'] + b;
      DigitCountJoined(a[1..], b);
    }
  }

  lemma Regrouped(whole: string, a: string, b: string)
    ensures whole + (a + ['_'] + b) == (whole + a) + ['_'] + b && whole + (a + b) == (whole + a) + b
  {
  }

  lemma JoinedNumber(whole: string, a: string, b: string)
    requires a != "" && b != "" && AllDigits(whole) && AllDigits(a) && AllDigits(b)
    ensures NumberOf(whole + (a + ['_'] + b)) == NumberOf(whole + (a + b))
  {
    Regrouped(whole, a, b);
    DigitTextJoined(whole + a, b);
  }

  lemma FractionRead(whole: string, fraction: string)
    requires whole != "" && AllDigits(whole) && DigitText(fraction) && '.' !in fraction
    ensures ParseDecimal(Pointed(whole, fraction)) == Some(Normalise(NumberOf(whole + fraction), DigitCount(fraction)))
  {
    var text := Pointed(whole, fraction);
    assert text[0] == whole[0] && SignOf(text) == (false, text);
    SplitAtFirst(whole, fraction, '.');
    SplitWhole(fraction, '.');
    DigitsAreText(whole);
    assert whole + fraction != "";
  }

  lemma DigitsPointless(a: string)
    requires AllDigits(a)
    ensures '.' !in a && DigitCount(a) == |a|
  {
    DigitCountAll(a);
  }

  /** Nor does it count as a decimal place. */
  lemma UnderscoreInFraction(whole: string, a: string, b: string)
    requires whole != "" && a != "" && b != "" && AllDigits(whole) && AllDigits(a) && AllDigits(b)
    ensures ParseDecimal(Pointed(whole, a + ['_'] + b)) == ParseDecimal(Pointed(whole, a + b))
  {
    DigitTextJoined(a, b);
    DigitCountJoined(a, b);
    DigitsAreText(a + b);
    DigitsPointless(a);
    DigitsPointless(b);
    DigitsPointless(a + b);
    FractionRead(whole, a + ['_'] + b);
    FractionRead(whole, a + b);
    JoinedNumber(whole, a, b);
  }

  // ---- durations ----

  /** A sign, if any, digits, and perhaps a point and digits. */
  predicate Plain(text: string, sign: string, a: string, b: Option<string>) {
    && sign in ["", "+", "-"] && a != "" && AllDigits(a)
    && match b
       case None => text == sign + a
       case Some(digits) => digits != "" && AllDigits(digits) && text == sign + Pointed(a, digits)
  }

  lemma SignSplit(text: string)
    ensures exists sign :: sign in ["", "+", "-"] && text == sign + SignOf(text).1
  {
    if text != "" && (text[0] == '-' || text[0] == '+') {
      assert text == [text[0]] + text[1..];
      assert [text[0]] in ["", "+", "-"];
    } else {
      assert text == "" + text && "" in ["", "+", "-"];
    }
  }

  lemma SignedBody(sign: string, body: string)
    requires sign in ["", "+", "-"] && body != "" && IsDigit(body[0])
    ensures SignOf(sign + body).1 == body
  {
    assert (sign + body)[|sign|..] == body;
  }

  /** Before a unit only plain numbers are read: no exponent, no underscore, no missing digits. */
  lemma PlainExactly(text: string)
    ensures PlainMagnitude(text).Some? <==> exists sign, a, b :: Plain(text, sign, a, b)
    ensures PlainMagnitude(text).Some? ==> PlainMagnitude(text) == ParseDecimal(text)
  {
    if PlainMagnitude(text).Some? {
      SignSplit(text);
      var sign :| sign in ["", "+", "-"] && text == sign + SignOf(text).1;
      var parts := Split(SignOf(text).1, '.');
      JoinSplit(SignOf(text).1, '.');
      if |parts| == 1 {
        assert Plain(text, sign, parts[0], None);
      } else {
        assert Join(parts, '.') == Pointed(parts[0], parts[1]);
        assert Plain(text, sign, parts[0], Some(parts[1]));
      }
    } else if exists sign, a, b :: Plain(text, sign, a, b) {
      var sign, a, b :| Plain(text, sign, a, b);
      PlainIsRead(text, sign, a, b);
    }
  }

  lemma PlainIsRead(text: string, sign: string, a: string, b: Option<string>)
    requires Plain(text, sign, a, b)
    ensures PlainMagnitude(text).Some?
  {
    DigitsAreText(a);
    match b {
      case None =>
        SignedBody(sign, a);
        NoPoint(a);
        SplitWhole(a, '.');
      case Some(digits) =>
        DigitsAreText(digits);
        SignedBody(sign, Pointed(a, digits));
        SplitPointed(a, digits);
    }
  }

  lemma NoPoint(a: string)
    requires AllDigits(a)
    ensures '.' !in a
  {
  }
}
