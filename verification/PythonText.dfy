/** The string operations the configuration layer uses: strip, lower, split, join, number text and UTF-8 size. */
module PythonText {
  import opened Sequences

  /** str.isspace for one character. */
  predicate IsSpace(c: char) {
    var n := c as int;
    || 9 <= n <= 13 || 28 <= n <= 32 || n == 0x85 || n == 0xA0 || n == 0x1680
    || 0x2000 <= n <= 0x200A || n == 0x2028 || n == 0x2029 || n == 0x202F || n == 0x205F || n == 0x3000
  }

  function StripLeft(s: string): string {
    if s != "" && IsSpace(s[0]) then StripLeft(s[1..]) else s
  }

  function StripRight(s: string): string {
    if s != "" && IsSpace(s[|s| - 1]) then StripRight(s[..|s| - 1]) else s
  }

  /** str.strip. */
  function Strip(s: string): string {
    StripRight(StripLeft(s))
  }

  predicate Blank(s: string) {
    Strip(s) == ""
  }

  predicate Trimmed(s: string) {
    s != "" ==> !IsSpace(s[0]) && !IsSpace(s[|s| - 1])
  }

  lemma TrimmedStays(s: string)
    requires Trimmed(s)
    ensures Strip(s) == s
  {
  }

  lemma {:induction false} StripLeftProps(s: string)
    ensures var t := StripLeft(s); (t != "" ==> !IsSpace(t[0])) && (forall c :: c in t ==> c in s)
    ensures (exists c :: c in s && !IsSpace(c)) ==> exists c :: c in StripLeft(s) && !IsSpace(c)
  {
    if s != "" && IsSpace(s[0]) {
      StripLeftProps(s[1..]);
      if c :| c in s && !IsSpace(c) {
        assert c in s[1..];
      }
    }
  }

  lemma {:induction false} StripRightProps(s: string)
    ensures var t := StripRight(s); t <= s && (t != "" ==> !IsSpace(t[|t| - 1]))
    ensures (exists c :: c in s && !IsSpace(c)) ==> StripRight(s) != ""
  {
    if s != "" && IsSpace(s[|s| - 1]) {
      StripRightProps(s[..|s| - 1]);
      if c :| c in s && !IsSpace(c) {
        assert c in s[..|s| - 1];
      }
    }
  }

  /** Stripping leaves a trimmed text made of characters of the original, and it leaves nothing only of a
      text of spaces. */
  lemma StripProps(s: string)
    ensures Trimmed(Strip(s)) && (forall c :: c in Strip(s) ==> c in s)
    ensures (exists c :: c in s && !IsSpace(c)) ==> !Blank(s)
  {
    StripLeftProps(s);
    StripRightProps(StripLeft(s));
  }

  lemma NotBlank(s: string, i: nat)
    requires i < |s| && !IsSpace(s[i])
    ensures !Blank(s)
  {
    StripProps(s);
    assert s[i] in s;
  }

  predicate EndsWith(s: string, suffix: string) {
    |suffix| <= |s| && s[|s| - |suffix|..] == suffix
  }

  function LowerChar(c: char): char {
    if 'A' <= c <= 'Z' then c - 'A' + 'a' else c
  }

  /** str.lower on ASCII letters. */
  function Lower(s: string): string {
    Map(s, LowerChar)
  }

  lemma LowerAlphabet(c: char)
    ensures Lower("ABCDEFGHIJKLMNOPQRSTUVWXYZ") == "abcdefghijklmnopqrstuvwxyz"
    ensures c !in "ABCDEFGHIJKLMNOPQRSTUVWXYZ" ==> LowerChar(c) == c
  {
    assert "ABCDEFGHIJKLMNOPQRSTUVWXYZ" == seq(26, i requires 0 <= i < 26 => 'A' + i as char);
    if 'A' <= c <= 'Z' {
      assert "ABCDEFGHIJKLMNOPQRSTUVWXYZ"[c as int - 'A' as int] == c;
    }
  }

  // ---- split and join ----

  /** str.split on one separator character. */
  function Split(s: string, sep: char): (r: seq<string>)
    ensures r != []
  {
    if s == "" then [""]
    else
      var rest := Split(s[1..], sep);
      if s[0] == sep then [""] + rest else [[s[0]] + rest[0]] + rest[1..]
  }

  /** str.join. */
  function Join(parts: seq<string>, sep: char): string {
    if parts == [] then ""
    else if |parts| == 1 then parts[0]
    else parts[0] + [sep] + Join(parts[1..], sep)
  }

  lemma {:induction false} SplitAtFirst(head: string, rest: string, sep: char)
    requires sep !in head
    ensures Split(head + [sep] + rest, sep) == [head] + Split(rest, sep)
  {
    var s := head + [sep] + rest;
    if head == "" {
      assert s[1..] == rest;
    } else {
      assert s[1..] == head[1..] + [sep] + rest;
      SplitAtFirst(head[1..], rest, sep);
      assert [head[0]] + head[1..] == head;
    }
  }

  lemma {:induction false} SplitWhole(s: string, sep: char)
    requires sep !in s
    ensures Split(s, sep) == [s]
  {
    if s != "" {
      SplitWhole(s[1..], sep);
      assert [s[0]] + s[1..] == s;
    }
  }

  ghost predicate SeparatorFree(parts: seq<string>, sep: char) {
    forall i :: 0 <= i < |parts| ==> sep !in parts[i]
  }

  /** Splitting undoes joining, for parts without the separator. */
  lemma {:induction false} SplitJoin(parts: seq<string>, sep: char)
    requires parts != [] && SeparatorFree(parts, sep)
    ensures Split(Join(parts, sep), sep) == parts
  {
    if |parts| == 1 {
      SplitWhole(parts[0], sep);
    } else {
      SplitJoin(parts[1..], sep);
      SplitAtFirst(parts[0], Join(parts[1..], sep), sep);
    }
  }

  /** A separator in front starts a new first part. */
  lemma JoinEmptyHead(rest: seq<string>, sep: char)
    requires rest != []
    ensures Join([""] + rest, sep) == [sep] + Join(rest, sep)
  {
    assert ([""] + rest)[1..] == rest;
  }

  /** Another character in front belongs to the first part. */
  lemma JoinLongerHead(c: char, rest: seq<string>, sep: char)
    requires rest != []
    ensures Join([[c] + rest[0]] + rest[1..], sep) == [c] + Join(rest, sep)
  {
    var parts := [[c] + rest[0]] + rest[1..];
    assert parts[1..] == rest[1..];
    if |rest| > 1 {
      assert ([c] + rest[0]) + [sep] + Join(rest[1..], sep) == [c] + (rest[0] + [sep] + Join(rest[1..], sep));
    }
  }

  /** Joining undoes splitting, and no part holds the separator. */
  lemma {:induction false} JoinSplit(s: string, sep: char)
    ensures Join(Split(s, sep), sep) == s && SeparatorFree(Split(s, sep), sep)
  {
    if s != "" {
      JoinSplit(s[1..], sep);
      var rest := Split(s[1..], sep);
      if s[0] == sep {
        JoinEmptyHead(rest, sep);
      } else {
        JoinLongerHead(s[0], rest, sep);
      }
      assert [s[0]] + s[1..] == s;
    }
  }

  // ---- digits ----

  predicate IsDigit(c: char) {
    '0' <= c <= '9'
  }

  function DigitValue(c: char): (r: nat)
    requires IsDigit(c)
    ensures r < 10
  {
    c as int - '0' as int
  }

  function DigitChar(d: nat): (c: char)
    requires d < 10
    ensures IsDigit(c) && DigitValue(c) == d
  {
    (d + '0' as int) as char
  }

  predicate AllDigits(s: string) {
    forall i :: 0 <= i < |s| ==> IsDigit(s[i])
  }

  /** The digits int() and float() accept: single underscores may stand between digits. */
  predicate DigitText(s: string) {
    && s != "" && IsDigit(s[|s| - 1])
    && (|s| == 1 || DigitText(s[..|s| - 1]) || (s[|s| - 2] == '_' && DigitText(s[..|s| - 2])))
  }

  function NumberOf(s: string): nat {
    if s == "" then 0
    else
      var front := NumberOf(s[..|s| - 1]);
      var c := s[|s| - 1];
      if IsDigit(c) then front * 10 + DigitValue(c) else front
  }

  function Digits(n: nat): (s: string)
    ensures s != "" && AllDigits(s)
  {
    if n < 10 then [DigitChar(n)] else Digits(n / 10) + [DigitChar(n % 10)]
  }

  lemma {:induction false} NumberOfDigits(n: nat)
    ensures NumberOf(Digits(n)) == n
  {
    if n >= 10 {
      NumberOfDigits(n / 10);
      assert Digits(n)[..|Digits(n)| - 1] == Digits(n / 10);
    } else {
      assert Digits(n)[..0] == "";
    }
  }

  lemma {:induction false} DigitsAreText(s: string)
    requires s != "" && AllDigits(s)
    ensures DigitText(s)
  {
    if |s| > 1 {
      DigitsAreText(s[..|s| - 1]);
    }
  }

  lemma {:induction false} LeadingZero(s: string)
    ensures NumberOf(['0'] + s) == NumberOf(s)
  {
    var t := ['0'] + s;
    if s == "" {
      assert t[..0] == "";
    } else {
      assert t[..|t| - 1] == ['0'] + s[..|s| - 1];
      LeadingZero(s[..|s| - 1]);
    }
  }

  /** str(int). */
  function PrintInt(n: int): string {
    if n < 0 then "-" + Digits(-n) else Digits(n)
  }

  /** An optional sign and what follows it. */
  function SignOf(s: string): (bool, string) {
    if s != "" && s[0] == '-' then (true, s[1..])
    else if s != "" && s[0] == '+' then (false, s[1..])
    else (false, s)
  }

  function Signed(negative: bool, n: nat): int {
    if negative then 0 - n else n
  }

  // ---- UTF-8 size ----

  function Utf8Width(c: char): nat {
    var n := c as int;
    if n < 0x80 then 1 else if n < 0x800 then 2 else if n < 0x10000 then 3 else 4
  }

  function Utf8Size(s: string): nat {
    if s == "" then 0 else Utf8Width(s[0]) + Utf8Size(s[1..])
  }

  lemma {:induction false} Utf8SizeBound(s: string)
    ensures |s| <= Utf8Size(s) <= 4 * |s|
  {
    if s != "" {
      Utf8SizeBound(s[1..]);
    }
  }
}
