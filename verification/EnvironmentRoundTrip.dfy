/** What comes back when exported options are loaded and applied to the defaults. */
module EnvironmentRoundTrip {
  import opened Prelude
  import opened PythonText
  import opened Sequences
  import opened Decimals
  import opened RuntimeOptions
  import opened Provenance
  import opened EnvironmentParsing
  import opened EnvironmentMapping
  import opened EnvironmentLoading
  import opened EnvironmentApplying
  import opened EnvironmentOrder
  import opened CoreTable
  import opened EnvironmentSerialization

  // ---- the exported environment is read row by row ----

  function ExportedSource(core: seq<Spec>, o: Options, expand: string -> string): Source {
    Source(Export(core, o), MAX_VALUE_BYTES, expand)
  }

  function ReadText(spec: Spec, text: Option<string>, expand: string -> string): Reading {
    if text.None? || Blank(text.value) then Skipped
    else if Utf8Size(text.value) > MAX_VALUE_BYTES then Oversized(spec.envName)
    else Parsed(Loaded(spec, spec.envName, text.value, Parse(spec.kind, spec.choices, spec.separator, expand, text.value)))
  }

  lemma CoreNamesDistinct(core: seq<Spec>)
    requires CoreLike(core)
    ensures DistinctNames(core)
  {
    forall i, j | 0 <= i < j < |core| ensures core[i].envName != core[j].envName {
      assert RowOk(core[i], i) && RowOk(core[j], j);
    }
  }

  lemma RowReads(core: seq<Spec>, o: Options, expand: string -> string, j: nat)
    requires CoreLike(core) && j < |core|
    ensures Read(ExportedSource(core, o, expand), core[j]) == ReadText(core[j], Exported(core[j], o), expand)
  {
    var name := core[j].envName;
    CoreNamesDistinct(core);
    ExportAt(core, o, j);
    assert RowOk(core[j], j);
    assert AllNames(core[j]) == [name];
    OneName(Export(core, o), name);
  }

  /** A parsed row leaves its value at its target. */
  lemma AppliedValue(o: Options, item: Loaded)
    requires !IsNoBrowser(item.spec) && item.spec.target in o
    ensures item.spec.target in RunOptions(o, EventsOf(item))
    ensures RunOptions(o, EventsOf(item))[item.spec.target]
            == if item.value.Some? then item.value.value else o[item.spec.target]
  {
    var events := EventsOf(item);
    if |events| == 1 {
      assert events == [events[0]];
      RunSingle(o, map[], events[0]);
    } else if |events| == 2 {
      assert events == [events[0], events[1]];
      RunCouple(o, map[], events[0], events[1]);
    }
  }

  lemma {:induction false} RunKeepsComplete(o: Options, events: seq<Event>)
    requires Complete(o)
    ensures Complete(RunOptions(o, events))
  {
    if events != [] {
      RunKeepsComplete(o, Front(events));
    }
  }

  /** What export, load and apply make of the defaults. */
  function Result(core: seq<Spec>, o: Options, expand: string -> string): (r: Options)
    ensures Complete(r)
  {
    RunKeepsComplete(DefaultOptions(), TableEvents(ExportedSource(core, o, expand), core));
    RunOptions(DefaultOptions(), TableEvents(ExportedSource(core, o, expand), core))
  }

  /** The value a text leaves at an option, given what it parses to: blank and oversized texts leave the default. */
  function Kept(default: Value, raw: string, parsed: Option<Value>): Value {
    if Blank(raw) || Utf8Size(raw) > MAX_VALUE_BYTES || parsed.None? then default else parsed.value
  }

  /** The value a printed text leaves at an option of the defaults. */
  function Reloaded(f: Field, raw: string, expand: string -> string): Value {
    Kept(Default(f), raw, Parse(KindOf(f), ChoicesOf(f), ',', expand, raw))
  }

  /** The row of an option, for an option that has one to itself. */
  ghost predicate OwnRow(row: Spec, f: Field) {
    && row.target == f && row.kind == KindOf(f) && row.choices == ChoicesOf(f) && row.separator == ','
    && !row.secret && !IsNoBrowser(row)
  }

  lemma FindOwnRow(core: seq<Spec>, f: Field) returns (j: nat)
    requires CoreLike(core) && IsTarget(f)
    ensures j < 27 && RowOf(f) == Some(j) && OwnRow(core[j], f)
  {
    RowInTable(f);
    j := RowOf(f).value;
    assert RowOk(core[j], j);
    SameRow(f, core[j].target);
  }

  /** What a row makes of an exported text. */
  lemma RowResult(row: Spec, f: Field, text: Option<string>, expand: string -> string)
    requires OwnRow(row, f)
    ensures var t := RunOptions(DefaultOptions(), ReadingEvents(ReadText(row, text, expand)));
            f in t && t[f] == if text.None? then Default(f) else Reloaded(f, text.value, expand)
  {
    var reading := ReadText(row, text, expand);
    if reading.Parsed? {
      AppliedValue(DefaultOptions(), reading.loaded);
    }
  }

  /** An option other than the policy is decided by its own row. */
  lemma OneRowDecides(core: seq<Spec>, src: Source, f: Field, j: nat)
    requires CoreLike(core) && RowOf(f) == Some(j) && f != BrowserPolicy && j < 27 && Touches(core[j], f)
    ensures SameAt(RunOptions(DefaultOptions(), TableEvents(src, core)), RunOptions(DefaultOptions(), RowEvents(src, core[j])), f)
  {
    TouchingRows(core, f);
    FilterOne(core[j], Touching(f));
    SameAtField(src, core, [core[j]], DefaultOptions(), map[], f);
    CollectSingle(RowsOf(src), core[j]);
  }

  lemma OwnRowDecides(core: seq<Spec>, o: Options, expand: string -> string, f: Field)
    requires CoreLike(core) && Complete(o) && IsTarget(f) && f != BrowserPolicy
    ensures f in Result(core, o, expand)
    ensures Result(core, o, expand)[f] == if o[f] == Default(f) then Default(f) else Reloaded(f, Emit(KindOf(f), o[f]), expand)
  {
    var j := FindOwnRow(core, f);
    OneRowDecides(core, ExportedSource(core, o, expand), f, j);
    RowReads(core, o, expand, j);
    RowResult(core[j], f, Exported(core[j], o), expand);
  }

  // ---- kind by kind ----

  /** Choices that are told apart without regard to case, and survive stripping. */
  ghost predicate GoodChoices(choices: seq<string>) {
    && (forall i :: 0 <= i < |choices| ==> GoodChoice(choices[i]))
    && (forall i, j :: 0 <= i < j < |choices| ==> Lower(choices[i]) != Lower(choices[j]))
  }

  predicate GoodChoice(c: string) {
    0 < |c| <= 16 && Trimmed(c)
  }

  lemma {:induction false} CanonicalFinds(choices: seq<string>, i: nat)
    requires GoodChoices(choices) && i < |choices|
    ensures Canonical(choices, Lower(choices[i])) == Some(choices[i])
  {
    var n := |choices| - 1;
    if i < n {
      assert GoodChoices(choices[..n]);
      CanonicalFinds(choices[..n], i);
    }
  }

  lemma ChoiceReads(choices: seq<string>, c: string)
    requires GoodChoices(choices) && c in choices
    ensures ParseEnum(c, choices) == Some(TextValue(c))
    ensures !Blank(c) && Utf8Size(c) <= MAX_VALUE_BYTES
  {
    var i :| 0 <= i < |choices| && choices[i] == c;
    assert GoodChoice(choices[i]);
    TrimmedStays(c);
    CanonicalFinds(choices, i);
    Utf8SizeBound(c);
  }

  lemma {:induction false} CanonicalMatches(choices: seq<string>, candidate: string)
    ensures var c := Canonical(choices, candidate); c.Some? ==> c.value in choices && Lower(c.value) == candidate
  {
    if choices != [] {
      CanonicalMatches(choices[..|choices| - 1], candidate);
    }
  }

  /** A choice is read exactly from the texts that spell it without regard to case and surrounding space, and
      in its own spelling. */
  lemma EnumExact(choices: seq<string>, raw: string, c: string)
    requires GoodChoices(choices)
    ensures ParseEnum(raw, choices) == Some(TextValue(c)) <==> c in choices && Lower(Strip(raw)) == Lower(c)
  {
    CanonicalMatches(choices, Lower(Strip(raw)));
    if c in choices {
      var i :| 0 <= i < |choices| && choices[i] == c;
      CanonicalFinds(choices, i);
    }
  }

  lemma LogLevelsGood()
    ensures GoodChoices(LOG_LEVELS)
  {
    var l := LOG_LEVELS;
    forall i | 0 <= i < |l| ensures GoodChoice(l[i]) {
      LogLevelGood(i);
    }
    forall i, j | 0 <= i < j < |l| ensures Lower(l[i]) != Lower(l[j]) {
      LogLevelsApart(i, j);
    }
  }

  /** Only two of the names are of one length. */
  lemma LogLevelsApart(i: nat, j: nat)
    requires i < j < |LOG_LEVELS|
    ensures Lower(LOG_LEVELS[i]) != Lower(LOG_LEVELS[j])
  {
    var l := LOG_LEVELS;
    assert |l[0]| == 5 && |l[1]| == 4 && |l[2]| == 7 && |l[3]| == 5 && |l[4]| == 8;
    assert Lower(l[0])[0] == 'd' && Lower(l[3])[0] == 'e';
  }

  lemma LogLevelGood(i: nat)
    requires i < |LOG_LEVELS|
    ensures GoodChoice(LOG_LEVELS[i])
  {
    var l := LOG_LEVELS;
    assert GoodChoice(l[0]) && GoodChoice(l[1]) && GoodChoice(l[2]) && GoodChoice(l[3]) && GoodChoice(l[4]);
  }

  lemma FrontendModesGood()
    ensures GoodChoices(FRONTEND_MODES)
  {
    var l := FRONTEND_MODES;
    assert GoodChoice(l[0]) && GoodChoice(l[1]) && GoodChoice(l[2]);
    assert Lower(l[1])[0] == 'e' && Lower(l[2])[0] == 'a';
  }

  lemma PoliciesGood()
    ensures GoodChoices(POLICIES)
  {
    var l := POLICIES;
    assert GoodChoice(l[0]) && GoodChoice(l[1]) && GoodChoice(l[2]);
  }

  lemma CompressionsGood()
    ensures GoodChoices(COMPRESSIONS)
  {
    var l := COMPRESSIONS;
    assert GoodChoice(l[0]) && GoodChoice(l[1]);
    assert Lower(l[0])[0] == 'n' && Lower(l[1])[0] == 'g';
  }

  lemma BackpressuresGood()
    ensures GoodChoices(BACKPRESSURES)
  {
    var l := BACKPRESSURES;
    assert GoodChoice(l[0]) && GoodChoice(l[1]);
    assert Lower(l[0])[5] == 'n' && Lower(l[1])[5] == 'o';
  }

  lemma FieldChoicesGood(f: Field)
    requires KindOf(f) == Enum
    ensures GoodChoices(ChoicesOf(f))
  {
    if f == DashboardLogLevel || f == DashboardFrontendMode {
      DashboardChoicesGood(f);
    } else if f == BrowserPolicy {
      PoliciesGood();
    } else {
      RecordingChoicesGood(f);
    }
  }

  lemma DashboardChoicesGood(f: Field)
    requires f == DashboardLogLevel || f == DashboardFrontendMode
    ensures GoodChoices(ChoicesOf(f))
  {
    if f == DashboardLogLevel {
      LogLevelsGood();
    } else {
      FrontendModesGood();
    }
  }

  lemma RecordingChoicesGood(f: Field)
    requires f == RecordingCompression || f == RecordingBackpressure
    ensures GoodChoices(ChoicesOf(f))
  {
    if f == RecordingCompression {
      CompressionsGood();
    } else {
      BackpressuresGood();
    }
  }

  lemma EnumTyped(f: Field, v: Value)
    requires KindOf(f) == Enum && TypeOk(f, v) && v != Default(f)
    ensures OneOf(v, ChoicesOf(f))
  {
  }

  lemma EnumReads(default: Value, choices: seq<string>, c: string)
    requires GoodChoices(choices) && c in choices
    ensures Kept(default, c, ParseEnum(c, choices)) == TextValue(c)
  {
    ChoiceReads(choices, c);
  }

  lemma BoolReads(default: Value, b: bool)
    ensures var raw := if b then "1" else "0"; Kept(default, raw, ParseBool(raw)) == BoolValue(b)
  {
    var raw := if b then "1" else "0";
    TrimmedStays(raw);
    Utf8SizeBound(raw);
    assert Lower(raw) == raw;
    assert "0" !in TRUTHY;
  }

  predicate TextFits(s: string) {
    Utf8Size(s) <= MAX_VALUE_BYTES
  }

  lemma TextReads(default: Value, s: string)
    requires TextValue(s) != default
    ensures Kept(default, s, ParseText(s)) == TextValue(s) <==> !Blank(s) && TextFits(s)
  {
  }

  lemma IntReads(default: Value, i: int)
    requires IntValue(i) != default
    ensures Kept(default, PrintInt(i), ParseInt(PrintInt(i))) == IntValue(i) <==> TextFits(PrintInt(i))
  {
    IntRoundTrip(i);
  }

  lemma SecondsRead(default: Value, d: Decimal)
    requires Normal(d) && FloatValue(d) != default
    ensures Kept(default, PrintDecimal(d), FloatOf(ParseSeconds(PrintDecimal(d)))) == FloatValue(d)
            <==> TextFits(PrintDecimal(d))
  {
    PrintedHasNoUnit(d);
    SecondsRoundTrip(d);
  }

  lemma ZeroFits(d: Decimal)
    requires Normal(d) && d.mantissa == 0
    ensures TextFits(PrintDecimal(d))
  {
    assert d.places == 0 && PrintDecimal(d) == "0.0";
    Utf8SizeBound(PrintDecimal(d));
  }

  /** Milliseconds are printed bare and read as seconds: what fits comes back a thousand times as large. */
  lemma MillisecondsRead(default: Value, d: Decimal)
    requires Normal(d) && FloatValue(d) != default
    ensures var back := Kept(default, PrintDecimal(d), FloatOf(ParseMilliseconds(PrintDecimal(d))));
            && (TextFits(PrintDecimal(d)) ==> back == FloatValue(Times(d, 1000)))
            && (back == FloatValue(d) <==> d.mantissa == 0)
  {
    var raw := PrintDecimal(d);
    PrintedHasNoUnit(d);
    MillisecondsScaled(d);
    TimesThousandFixed(d);
    if d.mantissa == 0 {
      ZeroFits(d);
    }
  }

  lemma PathReads(default: Value, p: string, expand: string -> string)
    requires PathValue(p) != default
    ensures Kept(default, p, ParsePath(p, expand)) == PathValue(p) <==> !Blank(p) && TextFits(p) && expand(p) == p
  {
  }

  /** An empty list prints as an empty text, which reads as an unset variable. */
  lemma ListReads(default: Value, items: seq<string>)
    requires ListValue(items) != default
    ensures var raw := Join(items, ',');
            Kept(default, raw, Some(ListValue(ListParts(raw, ',')))) == ListValue(items)
            <==> items != [] && CleanList(items, ',') && TextFits(raw)
  {
    ListRoundTrip(items, ',');
    if items == [] {
      assert Blank("");
    }
  }

  // ---- the round trip ----

  /** Which values survive export and reload: every default, and of the others those that fit and are printed
      as a text that reads as themselves. */
  ghost predicate Survives(f: Field, v: Value, expand: string -> string)
    requires TypeOk(f, v) && IsTarget(f)
  {
    v == Default(f) ||
    match KindOf(f)
    case Text => !Blank(v.s) && TextFits(v.s)
    case Int => TextFits(PrintInt(v.i))
    case Bool => true
    case Enum => f != BrowserPolicy || v.s != "always"
    case Seconds => TextFits(PrintDecimal(v.d))
    case Milliseconds => v.d.mantissa == 0
    case Path => !Blank(v.path) && TextFits(v.path) && expand(v.path) == v.path
    case List => v.items != [] && CleanList(v.items, ',') && TextFits(Join(v.items, ','))
    case Float => true
  }

  /** Printed and reloaded, the value is itself exactly when it survives. */
  ghost predicate SurvivalExact(f: Field, v: Value, expand: string -> string)
    requires TypeOk(f, v) && IsTarget(f)
  {
    Reloaded(f, Emit(KindOf(f), v), expand) == v <==> Survives(f, v, expand)
  }

  lemma PlainKindsSurvive(f: Field, v: Value, expand: string -> string)
    requires TypeOk(f, v) && IsTarget(f) && v != Default(f) && KindOf(f) in {Text, Int, Bool}
    ensures SurvivalExact(f, v, expand)
  {
    match KindOf(f) {
      case Text => TextReads(Default(f), v.s);
      case Int => IntReads(Default(f), v.i);
      case Bool => BoolReads(Default(f), v.b);
    }
  }

  lemma DurationsSurvive(f: Field, v: Value, expand: string -> string)
    requires TypeOk(f, v) && IsTarget(f) && v != Default(f) && KindOf(f) in {Seconds, Milliseconds}
    ensures SurvivalExact(f, v, expand)
  {
    match KindOf(f) {
      case Seconds => SecondsRead(Default(f), v.d);
      case Milliseconds => MillisecondsRead(Default(f), v.d);
    }
  }

  lemma PathsAndListsSurvive(f: Field, v: Value, expand: string -> string)
    requires TypeOk(f, v) && IsTarget(f) && v != Default(f) && KindOf(f) in {Path, List}
    ensures SurvivalExact(f, v, expand)
  {
    match KindOf(f) {
      case Path => PathReads(Default(f), v.path, expand);
      case List => ListReads(Default(f), v.items);
    }
  }

  lemma EnumKept(f: Field, v: Value)
    requires TypeOk(f, v) && v != Default(f) && KindOf(f) == Enum
    ensures v.TextValue? && Kept(Default(f), v.s, ParseEnum(v.s, ChoicesOf(f))) == v
  {
    EnumTyped(f, v);
    FieldChoicesGood(f);
    EnumReads(Default(f), ChoicesOf(f), v.s);
  }

  lemma EnumsSurvive(f: Field, v: Value, expand: string -> string)
    requires TypeOk(f, v) && IsTarget(f) && v != Default(f) && KindOf(f) == Enum && f != BrowserPolicy
    ensures SurvivalExact(f, v, expand)
  {
    EnumKept(f, v);
    assert Emit(Enum, v) == v.s;
  }

  lemma ValueSurvives(f: Field, v: Value, expand: string -> string)
    requires TypeOk(f, v) && IsTarget(f) && f != BrowserPolicy && v != Default(f)
    ensures Reloaded(f, Emit(KindOf(f), v), expand) == v <==> Survives(f, v, expand)
  {
    assert KindOf(f) != Float;
    if KindOf(f) == Enum {
      EnumsSurvive(f, v, expand);
    } else if KindOf(f) in {Text, Int, Bool} {
      PlainKindsSurvive(f, v, expand);
    } else if KindOf(f) in {Seconds, Milliseconds} {
      DurationsSurvive(f, v, expand);
    } else {
      PathsAndListsSurvive(f, v, expand);
    }
  }

  // ---- the browser policy ----

  /** The policy is decided by its two rows in their order. */
  lemma PolicyRowsDecide(src: Source, specs: seq<Spec>, x: Spec, y: Spec)
    requires Filter(specs, Touching(BrowserPolicy)) == [x, y] && x.target == BrowserPolicy && y.target == BrowserPolicy
    ensures SameAt(RunOptions(DefaultOptions(), TableEvents(src, specs)),
                   RunOptions(DefaultOptions(), RowEvents(src, x) + RowEvents(src, y)), BrowserPolicy)
  {
    FilterPair([x, y], Touching(BrowserPolicy), 0, 1);
    SameAtField(src, specs, [x, y], DefaultOptions(), map[], BrowserPolicy);
    CollectPair(RowsOf(src), x, y);
  }

  ghost predicate EndsWithPolicy(events: seq<Event>, v: Value) {
    events != [] && Last(events).field == BrowserPolicy && Last(events).value == Some(v)
  }

  lemma EndsConcat(a: seq<Event>, b: seq<Event>, v: Value)
    requires EndsWithPolicy(b, v)
    ensures EndsWithPolicy(a + b, v)
  {
  }

  lemma EndDecides(o: Options, events: seq<Event>, v: Value)
    requires EndsWithPolicy(events, v)
    ensures BrowserPolicy in RunOptions(o, events) && RunOptions(o, events)[BrowserPolicy] == v
  {
  }

  /** When the later of the two rows ends by setting the policy, that is the policy. */
  lemma LaterRowSets(src: Source, specs: seq<Spec>, x: Spec, y: Spec, v: Value)
    requires Filter(specs, Touching(BrowserPolicy)) == [x, y] && x.target == BrowserPolicy && y.target == BrowserPolicy
    requires EndsWithPolicy(RowEvents(src, y), v)
    ensures var t := RunOptions(DefaultOptions(), TableEvents(src, specs)); BrowserPolicy in t && t[BrowserPolicy] == v
  {
    PolicyRowsDecide(src, specs, x, y);
    EndsConcat(RowEvents(src, x), RowEvents(src, y), v);
    EndDecides(DefaultOptions(), RowEvents(src, x) + RowEvents(src, y), v);
  }

  lemma NoBrowserTextReads(row: Spec, expand: string -> string)
    requires IsNoBrowser(row) && row.kind == Bool
    ensures EndsWithPolicy(ReadingEvents(ReadText(row, Some("1"), expand)), NEVER)
  {
    BoolReads(NoneValue, true);
    TrimmedStays("1");
    Utf8SizeBound("1");
  }

  lemma PolicyDefaultKept(core: seq<Spec>, o: Options, expand: string -> string)
    requires CoreLike(core) && Complete(o) && o[BrowserPolicy] == Default(BrowserPolicy)
    ensures Result(core, o, expand)[BrowserPolicy] == Default(BrowserPolicy)
  {
    var src := ExportedSource(core, o, expand);
    PolicyRowKinds(core);
    TouchingRows(core, BrowserPolicy);
    PolicyRowsDecide(src, core, core[7], core[8]);
    RowReads(core, o, expand, 7);
    RowReads(core, o, expand, 8);
    assert RowEvents(src, core[7]) + RowEvents(src, core[8]) == [];
  }

  lemma PolicyForcedToNever(core: seq<Spec>, o: Options, expand: string -> string)
    requires CoreLike(core) && Complete(o) && OneOf(o[BrowserPolicy], POLICIES) && o[BrowserPolicy] != Default(BrowserPolicy)
    ensures Result(core, o, expand)[BrowserPolicy] == NEVER
  {
    var src := ExportedSource(core, o, expand);
    PolicyRowKinds(core);
    assert RowOk(core[8], 8);
    TouchingRows(core, BrowserPolicy);
    RowReads(core, o, expand, 8);
    PolicyNotEmpty(o[BrowserPolicy]);
    assert Exported(core[8], o) == Some("1");
    NoBrowserTextReads(core[8], expand);
    LaterRowSets(src, core, core[7], core[8], NEVER);
  }

  /** The default policy is not exported; any other exports a NO_BROWSER that reads as never. */
  lemma PolicyComesBack(core: seq<Spec>, o: Options, expand: string -> string)
    requires CoreLike(core) && Complete(o) && TypeOk(BrowserPolicy, o[BrowserPolicy])
    ensures Result(core, o, expand)[BrowserPolicy] == if o[BrowserPolicy] == Default(BrowserPolicy) then Default(BrowserPolicy) else NEVER
  {
    if o[BrowserPolicy] == Default(BrowserPolicy) {
      PolicyDefaultKept(core, o, expand);
    } else {
      PolicyForcedToNever(core, o, expand);
    }
  }

  lemma PolicyNotEmpty(v: Value)
    requires OneOf(v, POLICIES)
    ensures Truthy(v)
  {
    PoliciesGood();
    var i :| 0 <= i < |POLICIES| && POLICIES[i] == v.s;
    assert GoodChoice(POLICIES[i]);
  }

  lemma PolicyValues(v: Value)
    requires TypeOk(BrowserPolicy, v)
    ensures v == Default(BrowserPolicy) || v == NEVER || v == TextValue("always")
    ensures TextValue("always") != Default(BrowserPolicy) && NEVER != TextValue("always")
  {
  }

  /** The round trip: what comes back agrees with what was exported on exactly the options that survive. */
  lemma RoundTripOf(core: seq<Spec>, o: Options, expand: string -> string, f: Field)
    requires CoreLike(core) && WellTyped(o) && IsTarget(f)
    ensures Result(core, o, expand)[f] == o[f] <==> Survives(f, o[f], expand)
  {
    if f == BrowserPolicy {
      PolicyRoundTrip(core, o, expand);
    } else {
      OwnRowDecides(core, o, expand, f);
      if o[f] != Default(f) {
        ValueSurvives(f, o[f], expand);
      }
    }
  }

  lemma PolicyRoundTrip(core: seq<Spec>, o: Options, expand: string -> string)
    requires CoreLike(core) && Complete(o) && TypeOk(BrowserPolicy, o[BrowserPolicy])
    ensures Result(core, o, expand)[BrowserPolicy] == o[BrowserPolicy] <==> Survives(BrowserPolicy, o[BrowserPolicy], expand)
  {
    PolicyComesBack(core, o, expand);
    PolicyValues(o[BrowserPolicy]);
  }

  lemma RoundTripExact(o: Options, expand: string -> string, f: Field)
    requires WellTyped(o) && IsTarget(f)
    ensures Result(CORE_SPECS, o, expand)[f] == o[f] <==> Survives(f, o[f], expand)
  {
    CoreIsCoreLike();
    RoundTripOf(CORE_SPECS, o, expand, f);
  }

  /** Options reload as themselves on every option of the table exactly when each of their values survives. */
  lemma RoundTripWhole(o: Options, expand: string -> string)
    requires WellTyped(o)
    ensures (forall f | IsTarget(f) :: Result(CORE_SPECS, o, expand)[f] == o[f])
            <==> (forall f | IsTarget(f) :: Survives(f, o[f], expand))
  {
    forall f | IsTarget(f) ensures Result(CORE_SPECS, o, expand)[f] == o[f] <==> Survives(f, o[f], expand) {
      RoundTripExact(o, expand, f);
    }
  }

  lemma AlwaysBecomesNever(core: seq<Spec>, o: Options, expand: string -> string)
    requires CoreLike(core) && WellTyped(o) && o[BrowserPolicy] == TextValue("always")
    ensures Result(core, o, expand)[BrowserPolicy] == TextValue("never")
  {
    PolicyComesBack(core, o, expand);
    PolicyValues(o[BrowserPolicy]);
  }

  /** A lag threshold that differs from its default comes back a thousand times as large. */
  lemma MillisecondsGrow(core: seq<Spec>, o: Options, expand: string -> string, f: Field, d: Decimal)
    requires CoreLike(core) && Complete(o) && IsTarget(f) && KindOf(f) == Milliseconds
    requires o[f] == FloatValue(d) && Normal(d) && o[f] != Default(f) && TextFits(PrintDecimal(d))
    ensures Result(core, o, expand)[f] == FloatValue(Times(d, 1000))
  {
    OwnRowDecides(core, o, expand, f);
    MillisecondsRead(Default(f), d);
  }

  lemma EmptyIncludeBecomesNone(core: seq<Spec>, o: Options, expand: string -> string)
    requires CoreLike(core) && Complete(o) && o[RecordingInclude] == ListValue([])
    ensures Result(core, o, expand)[RecordingInclude] == NoneValue
  {
    OwnRowDecides(core, o, expand, RecordingInclude);
    EmptyInclude(expand);
  }

  lemma EmptyInclude(expand: string -> string)
    ensures ListValue([]) != Default(RecordingInclude)
    ensures Reloaded(RecordingInclude, Emit(KindOf(RecordingInclude), ListValue([])), expand) == NoneValue
  {
    assert Emit(List, ListValue([])) == "";
    assert Blank("");
  }

  /** The row of the output path turns recording on when it is read. */
  lemma OutputRowEnables(row: Spec, text: Option<string>, expand: string -> string)
    requires OwnRow(row, RecordingOutputPath)
    ensures var t := RunOptions(DefaultOptions(), ReadingEvents(ReadText(row, text, expand)));
            RecordingEnabled in t && t[RecordingEnabled] == BoolValue(text.Some? && !Blank(text.value) && TextFits(text.value))
  {
    OutputReading(row, text, expand);
    var reading := ReadText(row, text, expand);
    if reading.Parsed? {
      OutputItemEnables(DefaultOptions(), reading.loaded);
    }
  }

  lemma OutputReading(row: Spec, text: Option<string>, expand: string -> string)
    requires row.kind == Path
    ensures var reading := ReadText(row, text, expand);
            && (reading.Parsed? <==> text.Some? && !Blank(text.value) && TextFits(text.value))
            && (reading.Parsed? ==> reading.loaded.spec == row && reading.loaded.value.Some?)
  {
  }

  lemma OutputItemEnables(o: Options, item: Loaded)
    requires item.spec.target == RecordingOutputPath && !IsNoBrowser(item.spec) && item.value.Some?
    ensures RecordingEnabled in RunOptions(o, EventsOf(item)) && RunOptions(o, EventsOf(item))[RecordingEnabled] == BoolValue(true)
  {
    var events := EventsOf(item);
    assert events == [events[0], events[1]];
    RunCouple(o, map[], events[0], events[1]);
  }

  lemma OutputExported(row: Spec, o: Options)
    requires OwnRow(row, RecordingOutputPath) && Complete(o) && TypeOk(RecordingOutputPath, o[RecordingOutputPath])
    ensures var output := o[RecordingOutputPath];
            Exported(row, o) == if output.PathValue? then Some(output.path) else None
  {
  }

  lemma EnabledByText(core: seq<Spec>, o: Options, expand: string -> string, j: nat)
    requires CoreLike(core) && j < 27 && RowOf(RecordingEnabled) == Some(j) && OwnRow(core[j], RecordingOutputPath)
    ensures var text := Exported(core[j], o);
            Result(core, o, expand)[RecordingEnabled] == BoolValue(text.Some? && !Blank(text.value) && TextFits(text.value))
  {
    OneRowDecides(core, ExportedSource(core, o, expand), RecordingEnabled, j);
    RowReads(core, o, expand, j);
    OutputRowEnables(core[j], Exported(core[j], o), expand);
  }

  /** recording.enabled has no variable of its own. It comes back true exactly when there is an output path
      whose text is read again, whatever it was before. */
  lemma EnabledFollowsOutput(core: seq<Spec>, o: Options, expand: string -> string)
    requires CoreLike(core) && Complete(o) && TypeOk(RecordingOutputPath, o[RecordingOutputPath])
    ensures var output := o[RecordingOutputPath];
            Result(core, o, expand)[RecordingEnabled]
            == BoolValue(output.PathValue? && !Blank(output.path) && TextFits(output.path))
  {
    var j := FindOwnRow(core, RecordingOutputPath);
    EnabledByText(core, o, expand, j);
    OutputExported(core[j], o);
  }

  /** Options without a variable are not exported and come back as the defaults. */
  lemma OthersAreLost(core: seq<Spec>, o: Options, expand: string -> string, f: Field)
    requires CoreLike(core) && Complete(o) && RowOf(f).None?
    ensures Result(core, o, expand)[f] == Default(f)
  {
    TouchingRows(core, f);
    SameAtField(ExportedSource(core, o, expand), core, [], DefaultOptions(), map[], f);
  }

  // ---- when the order of the table matters ----

  /** BROWSER=always and NO_BROWSER=1. */
  function Conflicting(core: seq<Spec>, expand: string -> string): Source
    requires |core| == 27
  {
    Source(map[core[7].envName := "always", core[8].envName := "1"], MAX_VALUE_BYTES, expand)
  }

  /** A variable that is set is read by the row that names it. */
  lemma SetRowReads(row: Spec, vars: map<string, string>, expand: string -> string)
    requires row.aliases == [] && row.envName in vars && !Blank(vars[row.envName])
    ensures Read(Source(vars, MAX_VALUE_BYTES, expand), row) == ReadText(row, Some(vars[row.envName]), expand)
  {
    assert AllNames(row) == [row.envName];
    OneName(vars, row.envName);
  }

  lemma ConflictingValues(core: seq<Spec>, expand: string -> string)
    requires CoreLike(core)
    ensures var vars := Conflicting(core, expand).vars;
            && core[7].envName in vars && vars[core[7].envName] == "always"
            && core[8].envName in vars && vars[core[8].envName] == "1"
  {
    assert RowOk(core[7], 7) && RowOk(core[8], 8);
  }

  lemma BrowserRead(row: Spec, expand: string -> string)
    requires IsBrowser(row) && row.kind == Enum && row.choices == POLICIES
    ensures EndsWithPolicy(ReadingEvents(ReadText(row, Some("always"), expand)), TextValue("always"))
  {
    PoliciesGood();
    assert POLICIES[1] == "always";
    ChoiceReads(POLICIES, "always");
  }

  lemma BrowserEnds(core: seq<Spec>, expand: string -> string)
    requires CoreLike(core)
    ensures EndsWithPolicy(RowEvents(Conflicting(core, expand), core[7]), TextValue("always"))
  {
    PolicyRowKinds(core);
    assert RowOk(core[7], 7);
    ConflictingValues(core, expand);
    NotBlank("always", 0);
    SetRowReads(core[7], Conflicting(core, expand).vars, expand);
    BrowserRead(core[7], expand);
  }

  lemma NoBrowserEnds(core: seq<Spec>, expand: string -> string)
    requires CoreLike(core)
    ensures EndsWithPolicy(RowEvents(Conflicting(core, expand), core[8]), NEVER)
  {
    PolicyRowKinds(core);
    assert RowOk(core[8], 8);
    ConflictingValues(core, expand);
    NotBlank("1", 0);
    SetRowReads(core[8], Conflicting(core, expand).vars, expand);
    NoBrowserTextReads(core[8], expand);
  }

  lemma OrderMattersOf(core: seq<Spec>, a: seq<Spec>, expand: string -> string)
    requires CoreLike(core) && multiset(a) == multiset(core) && !BrowserFirst(a)
    ensures var src := Conflicting(core, expand);
            RunOptions(DefaultOptions(), TableEvents(src, a)) != RunOptions(DefaultOptions(), TableEvents(src, core))
  {
    var src := Conflicting(core, expand);
    PolicyRowKinds(core);
    TouchingRows(core, BrowserPolicy);
    PolicyRowsSwapped(a, core);
    BrowserEnds(core, expand);
    NoBrowserEnds(core, expand);
    LaterRowSets(src, a, core[8], core[7], TextValue("always"));
    LaterRowSets(src, core, core[7], core[8], NEVER);
    PolicyValues(NEVER);
  }

  /** Any order that puts NO_BROWSER before BROWSER gives other options in some environment: the order of the
      table matters, and exactly in this. */
  lemma OrderMatters(a: seq<Spec>, expand: string -> string)
    requires multiset(a) == multiset(CORE_SPECS) && !BrowserFirst(a)
    ensures exists src :: RunOptions(DefaultOptions(), TableEvents(src, a)) != RunOptions(DefaultOptions(), TableEvents(src, CORE_SPECS))
  {
    CoreIsCoreLike();
    OrderMattersOf(CORE_SPECS, a, expand);
  }
}
