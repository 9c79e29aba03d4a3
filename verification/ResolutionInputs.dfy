/** What the overrides decide, in terms of the keys and values given: for every environment, profile and base. */
module ResolutionInputs {
  import opened Prelude
  import opened RuntimeOptions
  import opened Decimals
  import opened Provenance
  import opened Layering
  import opened PythonText
  import opened Sequences
  import opened EnvironmentParsing
  import opened EnvironmentMapping
  import opened EnvironmentLoading
  import opened EnvironmentApplying
  import opened EnvironmentOrder
  import opened CoreTable
  import opened RuntimeOverrides
  import opened RuntimeResolving
  import opened ProvenanceAgreement

  /** The values Python takes for false. */
  predicate Falsy(v: Value) {
    || v == NoneValue || v == BoolValue(false) || v == IntValue(0) || v == TextValue("")
    || (v.FloatValue? && v.d.mantissa == 0) || v == ListValue([]) || v == PairsValue([])
  }

  lemma FalsyExactly(v: Value)
    ensures Truthy(v) <==> !Falsy(v)
  {
  }

  // ---- what one keyword asks of an option ----

  /** The keyword that sets an option by its own name, the same in the API and on the command line. */
  function KeyOf(f: Field): Option<string> {
    match f
    case NetworkHost => Some("host")
    case NetworkPort => Some("port")
    case DashboardDebug => Some("debug")
    case DashboardHeartbeat => Some("heartbeat_interval")
    case DashboardStartupTimeout => Some("startup_timeout")
    case DashboardLogLevel => Some("log_level")
    case DashboardFrontendMode => Some("frontend_mode")
    case MonitoringInstrumentation => Some("enable_instrumentation")
    case _ => None
  }

  /** The value asked for, and the value recorded. */
  datatype Asked = Asked(value: Value, recorded: Value)

  function Same(v: Value): Option<Asked> {
    Some(Asked(v, v))
  }

  function ApiAsks(item: (string, Value), f: Field): Option<Asked> {
    var (key, v) := item;
    if v.NoneValue? then None
    else if f == BrowserPolicy then
      if key == "open_browser" then Same(TextValue(if Falsy(v) then "never" else "auto")) else None
    else if KeyOf(f) == Some(key) then Same(v)
    else None
  }

  function CliAsks(item: (string, Value), f: Field, spell: string -> string): Option<Asked> {
    var (key, v) := item;
    if v.NoneValue? then None
    else if f == BrowserPolicy then if key == "browser" then Same(v) else None
    else if f == RecordingEnabled then if key == "recording_output" then Same(BoolValue(true)) else None
    else if f == RecordingOutputPath then
      if key != "recording_output" then None
      else Some(Asked(if Falsy(v) then NoneValue else PathValue(spell(StrOf(v))), TextValue(StrOf(v))))
    else if f == DashboardFrontendMode && key == "no_dashboard" && !Falsy(v) then Same(TextValue("api-only"))
    else if f == MonitoringInstrumentation && key == "no_instrumentation" && !Falsy(v) then Same(BoolValue(false))
    else if KeyOf(f) == Some(key) then Same(v)
    else None
  }

  /** The last word on an option. */
  function ApiWord(overrides: Overrides, f: Field): Option<Asked> {
    if overrides == [] then None
    else if ApiAsks(Last(overrides), f).Some? then ApiAsks(Last(overrides), f)
    else ApiWord(Front(overrides), f)
  }

  function CliWord(overrides: Overrides, f: Field, spell: string -> string): Option<Asked> {
    if overrides == [] then None
    else if CliAsks(Last(overrides), f, spell).Some? then CliAsks(Last(overrides), f, spell)
    else CliWord(Front(overrides), f, spell)
  }

  // ---- the events say the same ----

  /** The events set and record what was asked, from this source. */
  ghost predicate Says(events: seq<Event>, f: Field, asked: Option<Asked>, source: OptionSource) {
    match asked
    case None => LastOn(events, f) == None && LastValue(events, f) == None
    case Some(a) =>
      && LastValue(events, f) == Some(a.value)
      && LastOn(events, f).Some? && LastOn(events, f).value.entry == Entry(a.recorded, source, None)
  }

  lemma SaysConcat(a: seq<Event>, b: seq<Event>, f: Field, first: Option<Asked>, second: Option<Asked>, source: OptionSource)
    requires Says(a, f, first, source) && Says(b, f, second, source)
    ensures Says(a + b, f, if second.Some? then second else first, source)
  {
    LastOnConcat(a, b, f);
  }

  lemma SaysNothing(f: Field, source: OptionSource)
    ensures Says([], f, None, source)
  {
  }

  lemma SaysOne(e: Event, f: Field, source: OptionSource)
    requires e.value.Some? && e.entry.source == source && e.entry.raw == None
    ensures Says([e], f, if e.field == f then Some(Asked(e.value.value, e.entry.value)) else None, source)
  {
    LastOnOne(e, f);
  }

  lemma KeyExactly(key: string, f: Field)
    ensures ApiField(key) == Some(f) <==> KeyOf(f) == Some(key)
  {
  }

  lemma MappedSays(key: string, v: Value, f: Field, source: OptionSource)
    ensures Says(MappedEvents(key, v, source), f, if KeyOf(f) == Some(key) then Same(v) else None, source)
  {
    KeyExactly(key, f);
    if ApiField(key).Some? {
      SaysOne(Plain(ApiField(key).value, v, source), f, source);
    }
  }

  lemma ApiOpenSays(v: Value, f: Field)
    requires !v.NoneValue?
    ensures Says(ApiEventsOf("open_browser", v), f, ApiAsks(("open_browser", v), f), ApiKwargs)
  {
    FalsyExactly(v);
    NotMapped("open_browser", f);
    SaysOne(Plain(BrowserPolicy, OpenPolicy(v), ApiKwargs), f, ApiKwargs);
  }

  lemma ApiItemSays(item: (string, Value), f: Field)
    ensures Says(ApiEventsOf(item.0, item.1), f, ApiAsks(item, f), ApiKwargs)
  {
    var (key, v) := item;
    if v.NoneValue? {
      SaysNothing(f, ApiKwargs);
    } else if key == "open_browser" {
      ApiOpenSays(v, f);
    } else {
      MappedSays(key, v, f, ApiKwargs);
    }
  }

  /** The keys with a meaning of their own set no option by name. */
  lemma NotMapped(key: string, f: Field)
    requires key in ["open_browser", "browser", "no_dashboard", "no_instrumentation", "recording_output"]
    ensures KeyOf(f) != Some(key)
  {
  }

  lemma SaysTwo(a: Event, b: Event, f: Field, source: OptionSource)
    requires a.value.Some? && a.entry.source == source && a.entry.raw == None
    requires b.value.Some? && b.entry.source == source && b.entry.raw == None
    ensures Says([a, b], f,
                 if b.field == f then Some(Asked(b.value.value, b.entry.value))
                 else if a.field == f then Some(Asked(a.value.value, a.entry.value)) else None, source)
  {
    LastOnTwo(a, b, f);
  }

  lemma CliOutputSays(item: (string, Value), f: Field, spell: string -> string)
    requires item.0 == "recording_output" && !item.1.NoneValue?
    ensures Says(CliEventsOf(item.0, item.1, spell), f, CliAsks(item, f, spell), Cli)
  {
    FalsyExactly(item.1);
    NotMapped(item.0, f);
    var events := OutputEvents(item.1, spell);
    SaysTwo(events[0], events[1], f, Cli);
  }

  lemma CliBrowserSays(v: Value, f: Field, spell: string -> string)
    requires !v.NoneValue?
    ensures Says(CliEventsOf("browser", v, spell), f, CliAsks(("browser", v), f, spell), Cli)
  {
    NotMapped("browser", f);
    SaysOne(Plain(BrowserPolicy, v, Cli), f, Cli);
  }

  lemma NoDashboardEvents(v: Value, spell: string -> string)
    requires !v.NoneValue?
    ensures CliEventsOf("no_dashboard", v, spell) == if Falsy(v) then [] else [Plain(DashboardFrontendMode, API_ONLY, Cli)]
  {
    FalsyExactly(v);
  }

  lemma NoDashboardAsks(v: Value, f: Field, spell: string -> string)
    ensures CliAsks(("no_dashboard", v), f, spell)
            == if f == DashboardFrontendMode && !Falsy(v) then Same(TextValue("api-only")) else None
  {
    NotMapped("no_dashboard", f);
  }

  lemma NoDashboardSays(v: Value, f: Field, spell: string -> string)
    requires !v.NoneValue?
    ensures Says(CliEventsOf("no_dashboard", v, spell), f, CliAsks(("no_dashboard", v), f, spell), Cli)
  {
    NoDashboardEvents(v, spell);
    NoDashboardAsks(v, f, spell);
    SaysNothing(f, Cli);
    SaysOne(Plain(DashboardFrontendMode, API_ONLY, Cli), f, Cli);
  }

  lemma NoInstrumentationEvents(v: Value, spell: string -> string)
    requires !v.NoneValue?
    ensures CliEventsOf("no_instrumentation", v, spell)
            == if Falsy(v) then [] else [Plain(MonitoringInstrumentation, BoolValue(false), Cli)]
  {
    FalsyExactly(v);
  }

  lemma NoInstrumentationAsks(v: Value, f: Field, spell: string -> string)
    ensures CliAsks(("no_instrumentation", v), f, spell)
            == if f == MonitoringInstrumentation && !Falsy(v) then Same(BoolValue(false)) else None
  {
    NotMapped("no_instrumentation", f);
  }

  lemma NoInstrumentationSays(v: Value, f: Field, spell: string -> string)
    requires !v.NoneValue?
    ensures Says(CliEventsOf("no_instrumentation", v, spell), f, CliAsks(("no_instrumentation", v), f, spell), Cli)
  {
    NoInstrumentationEvents(v, spell);
    NoInstrumentationAsks(v, f, spell);
    SaysNothing(f, Cli);
    SaysOne(Plain(MonitoringInstrumentation, BoolValue(false), Cli), f, Cli);
  }

  lemma CliItemSays(item: (string, Value), f: Field, spell: string -> string)
    ensures Says(CliEventsOf(item.0, item.1, spell), f, CliAsks(item, f, spell), Cli)
  {
    var (key, v) := item;
    if v.NoneValue? {
      SaysNothing(f, Cli);
    } else if key == "recording_output" {
      CliOutputSays(item, f, spell);
    } else if key == "browser" {
      CliBrowserSays(v, f, spell);
    } else if key == "no_dashboard" {
      NoDashboardSays(v, f, spell);
    } else if key == "no_instrumentation" {
      NoInstrumentationSays(v, f, spell);
    } else {
      MappedSays(key, v, f, Cli);
      KeyExactly(key, f);
    }
  }

  lemma {:induction false} ApiSays(overrides: Overrides, f: Field)
    ensures Says(ApiEvents(overrides), f, ApiWord(overrides, f), ApiKwargs)
  {
    if overrides != [] {
      var before, own := ApiEvents(Front(overrides)), ApiEventsOf(Last(overrides).0, Last(overrides).1);
      ApiSays(Front(overrides), f);
      ApiItemSays(Last(overrides), f);
      SaysConcat(before, own, f, ApiWord(Front(overrides), f), ApiAsks(Last(overrides), f), ApiKwargs);
    }
  }

  lemma {:induction false} CliSays(overrides: Overrides, f: Field, spell: string -> string)
    ensures Says(CliEvents(overrides, spell), f, CliWord(overrides, f, spell), Cli)
  {
    if overrides != [] {
      var before, own := CliEvents(Front(overrides), spell), CliEventsOf(Last(overrides).0, Last(overrides).1, spell);
      CliSays(Front(overrides), f, spell);
      CliItemSays(Last(overrides), f, spell);
      SaysConcat(before, own, f, CliWord(Front(overrides), f, spell), CliAsks(Last(overrides), f, spell), Cli);
    }
  }

  // ---- the overrides by themselves ----

  /** Keyword arguments leave each option with the last word on it, and every other option alone. */
  lemma ApiOverridesExactly(base: Options, overrides: Overrides, f: Field)
    requires f in base
    ensures var o := RunOptions(base, ApiEvents(overrides));
            f in o && o[f] == if ApiWord(overrides, f).Some? then ApiWord(overrides, f).value.value else base[f]
  {
    ApiSays(overrides, f);
    RunAt(base, ApiEvents(overrides), f);
  }

  lemma CliOverridesExactly(base: Options, overrides: Overrides, f: Field, spell: string -> string)
    requires f in base
    ensures var o := RunOptions(base, CliEvents(overrides, spell));
            f in o && o[f] == if CliWord(overrides, f, spell).Some? then CliWord(overrides, f, spell).value.value else base[f]
  {
    CliSays(overrides, f, spell);
    RunAt(base, CliEvents(overrides, spell), f);
  }

  // ---- the resolved options ----

  /** Options and entries hold what was asked, from this source. */
  ghost predicate Holds(options: Options, entries: Entries, f: Field, asked: Asked, source: OptionSource) {
    && f in options && options[f] == asked.value
    && f in entries && entries[f] == Entry(asked.recorded, source, None)
  }

  lemma UpperWords(layers: seq<Layer>, x: Inputs, f: Field, spell: string -> string)
    ensures var t := layers + [Layer(ApiKwargs, ApiEvents(x.api))] + [Layer(Cli, CliEvents(x.cli, spell))];
            var cli, api := CliWord(x.cli, f, spell), ApiWord(x.api, f);
            if cli.Some? then WinningValue(t, f) == Some(cli.value.value)
                              && WinningEntry(t, f) == Some(Entry(cli.value.recorded, Cli, None))
            else if api.Some? then WinningValue(t, f) == Some(api.value.value)
                                   && WinningEntry(t, f) == Some(Entry(api.value.recorded, ApiKwargs, None))
            else WinningValue(t, f) == WinningValue(layers, f) && WinningEntry(t, f) == WinningEntry(layers, f)
  {
    var api, cli := Layer(ApiKwargs, ApiEvents(x.api)), Layer(Cli, CliEvents(x.cli, spell));
    ApiSays(x.api, f);
    CliSays(x.cli, f, spell);
    WinningLast(layers, api, f);
    WinningLast(layers + [api], cli, f);
  }

  /** The last word of the command line decides an option and its record; then the last word of the API; and an
      option of which neither speaks is what defaults, profile and environment make of it. */
  lemma ResolvedFromInputs(x: Inputs, ctx: Context, specs: seq<Spec>, f: Field)
    requires InputsOk(x, ctx)
    ensures var layers := LayersOf(x, ctx, specs);
            var options, entries := RunLayerOptions(Base(x), layers), RunLayerEntries(map[], layers);
            var cli, api := CliWord(x.cli, f, ctx.spell), ApiWord(x.api, f);
            if cli.Some? then Holds(options, entries, f, cli.value, Cli)
            else if api.Some? then Holds(options, entries, f, api.value, ApiKwargs)
            else f in options && f in entries
                 && Some(options[f]) == WinningValue(layers[..3], f) && Some(entries[f]) == WinningEntry(layers[..3], f)
  {
    var layers := LayersOf(x, ctx, specs);
    ResolvedAt(specs, x, ctx, f);
    UpperWords(layers[..3], x, f, ctx.spell);
    LayersFromThree(x, ctx, specs);
  }

  lemma LayersFromThree(x: Inputs, ctx: Context, specs: seq<Spec>)
    requires InputsOk(x, ctx)
    ensures var layers := LayersOf(x, ctx, specs);
            && |layers| == 5
            && layers == layers[..3] + [Layer(ApiKwargs, ApiEvents(x.api))] + [Layer(Cli, CliEvents(x.cli, ctx.spell))]
  {
    var layers := LayersOf(x, ctx, specs);
    assert layers == layers[..3] + [Layer(ApiKwargs, ApiEvents(x.api))] + [Layer(Cli, CliEvents(x.cli, ctx.spell))];
  }

  // ---- below the overrides ----

  /** The value of a row's variable, if it is set, not too long and parses. */
  function ReadValue(src: Source, row: Spec): Option<Value> {
    var reading := Read(src, row);
    if reading.Parsed? then reading.loaded.value else None
  }

  lemma ReadValueExactly(src: Source, row: Spec)
    requires row.aliases == []
    ensures ReadValue(src, row)
            == if row.envName in src.vars && !Blank(src.vars[row.envName]) && Utf8Size(src.vars[row.envName]) <= src.cap
               then Parse(row.kind, row.choices, row.separator, src.expand, src.vars[row.envName]) else None
  {
    assert AllNames(row) == [row.envName];
    OneName(src.vars, row.envName);
  }

  /** What a row sets of an option: its own target, recording beside an output path, never for a true NO_BROWSER. */
  function RowWord(src: Source, row: Spec, f: Field): Option<Value> {
    match ReadValue(src, row)
    case None => None
    case Some(v) => ValueWord(row, v, f)
  }

  function ValueWord(row: Spec, v: Value, f: Field): Option<Value> {
    if IsNoBrowser(row) then if f == BrowserPolicy && !Falsy(v) then Some(TextValue("never")) else None
    else if row.target == f then Some(v)
    else if row.target == RecordingOutputPath && f == RecordingEnabled then Some(BoolValue(true))
    else None
  }

  lemma ValueSets(item: Loaded, v: Value, f: Field)
    requires item.value == Some(v)
    ensures LastValue(EventsOf(item), f) == ValueWord(item.spec, v, f)
  {
    FalsyExactly(v);
    if IsNoBrowser(item.spec) {
      if !Falsy(v) {
        LastOnOne(EventsOf(item)[0], f);
      }
    } else if item.spec.target == RecordingOutputPath {
      LastOnTwo(EventsOf(item)[0], EventsOf(item)[1], f);
    } else {
      OwnTargetEvents(item, v);
      LastOnOne(EventsOf(item)[0], f);
    }
  }

  lemma OwnTargetEvents(item: Loaded, v: Value)
    requires item.value == Some(v) && !IsNoBrowser(item.spec) && item.spec.target != RecordingOutputPath
    ensures |EventsOf(item)| == 1 && EventsOf(item)[0].field == item.spec.target && EventsOf(item)[0].value == Some(v)
  {
  }

  lemma RowSets(src: Source, row: Spec, f: Field)
    ensures LastValue(RowEvents(src, row), f) == RowWord(src, row, f)
  {
    PickedSpec(src, row);
    if ReadValue(src, row).Some? {
      ValueSets(Read(src, row).loaded, ReadValue(src, row).value, f);
    }
  }

  lemma {:induction false} RecordsSilent(src: Source, specs: seq<Spec>, f: Field)
    ensures LastValue(Collect(RecordRows(src), specs), f) == None
  {
    if specs != [] {
      RecordsSilent(src, Front(specs), f);
      LastOnConcat(Collect(RecordRows(src), Front(specs)), RecordRows(src)(Last(specs)), f);
      OneRecordSilent(Read(src, Last(specs)), f);
    }
  }

  lemma OneRecordSilent(r: Reading, f: Field)
    ensures LastValue(ReadingRecords(r), f) == None
  {
    if r.Parsed? && r.loaded.value.Some? {
      LastOnOne(RecordOf(r.loaded), f);
    }
  }

  /** What the environment sets of an option. */
  function EnvironmentWord(src: Source, core: seq<Spec>, f: Field): Option<Value>
    requires |core| == 27
  {
    RowInTable(f);
    if f == BrowserPolicy then
      if RowWord(src, core[8], f).Some? then RowWord(src, core[8], f) else RowWord(src, core[7], f)
    else
      match RowOf(f)
      case Some(j) => RowWord(src, core[j], f)
      case None => None
  }

  lemma EnvironmentSets(src: Source, core: seq<Spec>, f: Field)
    requires CoreLike(core)
    ensures LastValue(EnvironmentEvents(src, core), f) == EnvironmentWord(src, core, f)
  {
    RowInTable(f);
    TouchingRows(core, f);
    var own := Filter(core, Touching(f));
    EnvironmentReduces(src, core, f, own);
    RecordsSilent(src, own, f);
    LastOnConcat(Collect(RowsOf(src), own), Collect(RecordRows(src), own), f);
    OwnRowsSet(src, core, own, f);
  }

  lemma OwnRowsSet(src: Source, core: seq<Spec>, own: seq<Spec>, f: Field)
    requires CoreLike(core) && own == Filter(core, Touching(f))
    ensures LastValue(Collect(RowsOf(src), own), f) == EnvironmentWord(src, core, f)
  {
    RowInTable(f);
    TouchingRows(core, f);
    if f == BrowserPolicy {
      CollectPair(RowsOf(src), core[7], core[8]);
      RowSets(src, core[7], f);
      RowSets(src, core[8], f);
      LastOnConcat(RowEvents(src, core[7]), RowEvents(src, core[8]), f);
    } else if RowOf(f).Some? {
      CollectSingle(RowsOf(src), core[RowOf(f).value]);
      RowSets(src, core[RowOf(f).value], f);
    }
  }

  /** Below the overrides: what the environment sets, or else what a named profile holds, or else the base. */
  function LowerWord(x: Inputs, ctx: Context, core: seq<Spec>, f: Field): Value
    requires InputsOk(x, ctx) && |core| == 27
  {
    var environment := EnvironmentWord(Variables(x, ctx), core, f);
    if environment.Some? then environment.value else SeedWord(x, ctx, f)
  }

  /** The variables given, if any, read up to sixteen times 1024 bytes each. */
  function Variables(x: Inputs, ctx: Context): Source {
    Source(match x.environ case Some(given) => given case None => map[], 16384, ctx.expand)
  }

  function SeedWord(x: Inputs, ctx: Context, f: Field): Value
    requires InputsOk(x, ctx)
  {
    if x.profile.Some? && x.profile.value != "" && Lower(x.profile.value) in ctx.registry
      then ctx.registry[Lower(x.profile.value)].options[f]
    else match x.base case Some(given) => given[f] case None => Default(f)
  }

  lemma NoVariables(src: Source, core: seq<Spec>, f: Field)
    requires CoreLike(core) && src.vars == map[]
    ensures EnvironmentWord(src, core, f) == None
  {
    RowInTable(f);
    forall row: Spec ensures ReadValue(src, row) == None {
      NothingPicked(AllNames(row));
    }
  }

  lemma LowerFromInputs(x: Inputs, ctx: Context, core: seq<Spec>, f: Field)
    requires CoreLike(core) && InputsOk(x, ctx)
    ensures WinningValue(LayersOf(x, ctx, core)[..3], f) == Some(LowerWord(x, ctx, core, f))
  {
    LowerThree(x, ctx, core);
    LowerSeed(x, ctx, f);
    LayerSets(Variables(x, ctx), core, f);
    WinningOver(LowerTwo(x, ctx), EnvironmentLayer(Variables(x, ctx), core), f, SeedWord(x, ctx, f));
  }

  lemma WinningOver(layers: seq<Layer>, layer: Layer, f: Field, below: Value)
    requires WinningValue(layers, f) == Some(below)
    ensures WinningValue(layers + [layer], f)
            == Some(if LastValue(layer.events, f).Some? then LastValue(layer.events, f).value else below)
  {
    WinningLast(layers, layer, f);
  }

  lemma LowerSeed(x: Inputs, ctx: Context, f: Field)
    requires InputsOk(x, ctx) && Complete(Base(x))
    ensures WinningValue(LowerTwo(x, ctx), f) == Some(SeedWord(x, ctx, f))
  {
    LowerProfile(x, ctx, f);
    BaseAt(x, f);
  }

  /** The layers of the defaults and of the profile. */
  function LowerTwo(x: Inputs, ctx: Context): seq<Layer>
    requires InputsOk(x, ctx) && Complete(Base(x))
  {
    [Layer(DefaultValue, SeedEvents(Base(x), FIELDS, DefaultValue))] + [ProfileLayer(x, ctx)]
  }

  lemma LowerThree(x: Inputs, ctx: Context, specs: seq<Spec>)
    requires InputsOk(x, ctx)
    ensures Complete(Base(x))
    ensures LayersOf(x, ctx, specs)[..3] == LowerTwo(x, ctx) + [EnvironmentLayer(Variables(x, ctx), specs)]
  {
    BaseTyped(x, ctx);
  }

  lemma LayerSets(src: Source, core: seq<Spec>, f: Field)
    requires CoreLike(core)
    ensures LastValue(EnvironmentLayer(src, core).events, f) == EnvironmentWord(src, core, f)
  {
    EnvironmentSets(src, core, f);
    if src.vars == map[] {
      NoVariables(src, core, f);
    }
  }

  /** The resolver starts from the options it is given, or from the defaults. */
  lemma BaseAt(x: Inputs, f: Field)
    requires x.base.Some? ==> f in x.base.value
    ensures f in Base(x) && Base(x)[f] == match x.base case Some(given) => given[f] case None => Default(f)
  {
  }

  lemma LowerProfile(x: Inputs, ctx: Context, f: Field)
    requires InputsOk(x, ctx) && Complete(Base(x))
    ensures WinningValue(LowerTwo(x, ctx), f)
            == if HasProfile(x) && Lower(x.profile.value) in ctx.registry
               then Some(ctx.registry[Lower(x.profile.value)].options[f]) else Some(Base(x)[f])
  {
    var seed := Layer(DefaultValue, SeedEvents(Base(x), FIELDS, DefaultValue));
    SeedLayer(Base(x), DefaultValue, f, ctx.spell);
    WinningLast([], seed, f);
    assert [] + [seed] == [seed];
    WinningLast([seed], ProfileLayer(x, ctx), f);
    if HasProfile(x) && Lower(x.profile.value) in ctx.registry {
      SeedLayer(ctx.registry[Lower(x.profile.value)].options, Profile, f, ctx.spell);
    }
  }

  /** Every resolved option, from the inputs alone. */
  lemma ResolvedExactly(x: Inputs, ctx: Context, core: seq<Spec>, f: Field)
    requires CoreLike(core) && InputsOk(x, ctx)
    ensures var options := RunLayerOptions(Base(x), LayersOf(x, ctx, core));
            f in options && options[f] ==
              if CliWord(x.cli, f, ctx.spell).Some? then CliWord(x.cli, f, ctx.spell).value.value
              else if ApiWord(x.api, f).Some? then ApiWord(x.api, f).value.value
              else LowerWord(x, ctx, core, f)
  {
    ResolvedFromInputs(x, ctx, core, f);
    LowerFromInputs(x, ctx, core, f);
  }

  // ---- profiles ----

  /** What the built-in profiles change of the defaults. */
  function DevPreset(f: Field): Value {
    match f
    case DashboardDebug => BoolValue(true)
    case DashboardLogLevel => TextValue("DEBUG")
    case _ => Default(f)
  }

  function ProdPreset(f: Field): Value {
    match f
    case DashboardLogLevel => TextValue("WARNING")
    case BrowserPolicy => TextValue("never")
    case ReplayRetention => FloatValue(Decimal(3600, 0))
    case ReplayBufferCapacity => IntValue(32768)
    case _ => Default(f)
  }

  function CiPreset(f: Field): Value {
    match f
    case DashboardLogLevel => TextValue("WARNING")
    case BrowserPolicy => TextValue("never")
    case MonitoringStackTraces => BoolValue(false)
    case _ => Default(f)
  }

  function Preset(name: string, f: Field): Value {
    if name == "dev" then DevPreset(f) else if name == "prod" then ProdPreset(f) else CiPreset(f)
  }

  lemma DevExactly(o: Options, f: Field)
    requires f in o && o[f] == Default(f)
    ensures var p := o[DashboardDebug := BoolValue(true)][DashboardLogLevel := TextValue("DEBUG")];
            f in p && p[f] == DevPreset(f)
  {
  }

  lemma ProdExactly(o: Options, f: Field)
    requires f in o && o[f] == Default(f)
    ensures var p := o[DashboardLogLevel := TextValue("WARNING")][BrowserPolicy := NEVER]
                      [ReplayRetention := Whole(3600)][ReplayBufferCapacity := IntValue(32768)];
            f in p && p[f] == ProdPreset(f)
  {
  }

  lemma CiExactly(o: Options, f: Field)
    requires f in o && o[f] == Default(f)
    ensures var p := o[DashboardLogLevel := TextValue("WARNING")][BrowserPolicy := NEVER]
                      [MonitoringStackTraces := BoolValue(false)];
            f in p && p[f] == CiPreset(f)
  {
  }

  lemma BuiltinsExactly(name: string, f: Field)
    ensures name in BuiltinProfiles() <==> name in ["dev", "prod", "ci"]
    ensures name in BuiltinProfiles() ==>
              f in BuiltinProfiles()[name].options && BuiltinProfiles()[name].options[f] == Preset(name, f)
  {
    if name == "dev" {
      DevExactly(DefaultOptions(), f);
    } else if name == "prod" {
      ProdExactly(DefaultOptions(), f);
    } else if name == "ci" {
      CiExactly(DefaultOptions(), f);
    }
  }

  /** With a built-in profile and nothing else, in whatever case its name is given, the options are its own. */
  lemma ProfileAlone(x: Inputs, ctx: Context, core: seq<Spec>, name: string, f: Field)
    requires CoreLike(core) && InputsOk(x, ctx) && ctx.registry == BuiltinProfiles()
    requires x.profile == Some(name) && Lower(name) in ["dev", "prod", "ci"]
    requires x.api == [] && x.cli == [] && (x.environ.Some? ==> x.environ.value == map[])
    ensures var options := RunLayerOptions(Base(x), LayersOf(x, ctx, core)); f in options && options[f] == Preset(Lower(name), f)
  {
    ResolvedExactly(x, ctx, core, f);
    BuiltinsExactly(Lower(name), f);
    NoVariables(EnvironmentSource(x, ctx), core, f);
  }

  // ---- by keyword ----

  /** The last value given for a key. */
  function LastGiven(overrides: Overrides, key: string): Option<Value> {
    if overrides == [] then None
    else if Last(overrides).0 == key && Last(overrides).1 != NoneValue then Some(Last(overrides).1)
    else LastGiven(Front(overrides), key)
  }

  lemma {:induction false} CliPolicyWord(overrides: Overrides, spell: string -> string)
    ensures CliWord(overrides, BrowserPolicy, spell)
            == match LastGiven(overrides, "browser") { case Some(v) => Same(v) case None => None }
  {
    if overrides != [] {
      CliPolicyWord(Front(overrides), spell);
    }
  }

  lemma {:induction false} ApiPolicyWord(overrides: Overrides)
    ensures ApiWord(overrides, BrowserPolicy)
            == match LastGiven(overrides, "open_browser") {
                 case Some(v) => Same(TextValue(if Falsy(v) then "never" else "auto"))
                 case None => None
               }
  {
    if overrides != [] {
      ApiPolicyWord(Front(overrides));
    }
  }

  /** The policy: the last --browser, or else auto or never after the last open_browser. */
  lemma PolicyFromInputs(x: Inputs, ctx: Context, specs: seq<Spec>)
    requires InputsOk(x, ctx)
    ensures var layers := LayersOf(x, ctx, specs);
            var options, entries := RunLayerOptions(Base(x), layers), RunLayerEntries(map[], layers);
            match LastGiven(x.cli, "browser") {
              case Some(v) => Holds(options, entries, BrowserPolicy, Asked(v, v), Cli)
              case None =>
                match LastGiven(x.api, "open_browser") {
                  case Some(v) =>
                    var policy := TextValue(if Falsy(v) then "never" else "auto");
                    Holds(options, entries, BrowserPolicy, Asked(policy, policy), ApiKwargs)
                  case None => true
                }
            }
  {
    ResolvedFromInputs(x, ctx, specs, BrowserPolicy);
    CliPolicyWord(x.cli, ctx.spell);
    ApiPolicyWord(x.api);
  }

  lemma {:induction false} OutputWords(overrides: Overrides, spell: string -> string)
    ensures CliWord(overrides, RecordingEnabled, spell).Some? <==> LastGiven(overrides, "recording_output").Some?
    ensures match LastGiven(overrides, "recording_output")
            case None => CliWord(overrides, RecordingOutputPath, spell) == None
            case Some(v) =>
              && CliWord(overrides, RecordingEnabled, spell) == Same(BoolValue(true))
              && CliWord(overrides, RecordingOutputPath, spell)
                 == Some(Asked(if Falsy(v) then NoneValue else PathValue(spell(StrOf(v))), TextValue(StrOf(v))))
  {
    if overrides != [] {
      OutputWords(Front(overrides), spell);
    }
  }

  /** Any --recording-output turns recording on; an empty one clears the path. */
  lemma OutputFromInputs(x: Inputs, ctx: Context, specs: seq<Spec>, v: Value)
    requires InputsOk(x, ctx) && LastGiven(x.cli, "recording_output") == Some(v)
    ensures var layers := LayersOf(x, ctx, specs);
            var options, entries := RunLayerOptions(Base(x), layers), RunLayerEntries(map[], layers);
            && Holds(options, entries, RecordingEnabled, Asked(BoolValue(true), BoolValue(true)), Cli)
            && Holds(options, entries, RecordingOutputPath,
                     Asked(if Falsy(v) then NoneValue else PathValue(ctx.spell(StrOf(v))), TextValue(StrOf(v))), Cli)
  {
    ResolvedFromInputs(x, ctx, specs, RecordingEnabled);
    ResolvedFromInputs(x, ctx, specs, RecordingOutputPath);
    OutputWords(x.cli, ctx.spell);
  }

  lemma KeyAsks(item: (string, Value), key: string, f: Field, spell: string -> string)
    requires KeyOf(f) == Some(key)
    ensures var given := if item.0 == key && item.1 != NoneValue then Same(item.1) else None;
            && ApiAsks(item, f) == given
            && (f != DashboardFrontendMode && f != MonitoringInstrumentation ==> CliAsks(item, f, spell) == given)
  {
    NotMapped("open_browser", f);
    assert f != BrowserPolicy && f != RecordingEnabled && f != RecordingOutputPath;
  }

  lemma {:induction false} KeyWords(overrides: Overrides, key: string, f: Field, spell: string -> string)
    requires KeyOf(f) == Some(key)
    ensures ApiWord(overrides, f) == match LastGiven(overrides, key) { case Some(v) => Same(v) case None => None }
    ensures f != DashboardFrontendMode && f != MonitoringInstrumentation ==>
              CliWord(overrides, f, spell) == match LastGiven(overrides, key) { case Some(v) => Same(v) case None => None }
  {
    if overrides != [] {
      KeyWords(Front(overrides), key, f, spell);
      KeyAsks(Last(overrides), key, f, spell);
    }
  }

  /** An option with a keyword of its own has the last value given for it, the command line before the API. */
  lemma KeyFromInputs(x: Inputs, ctx: Context, specs: seq<Spec>, key: string, f: Field)
    requires InputsOk(x, ctx) && KeyOf(f) == Some(key) && f != DashboardFrontendMode && f != MonitoringInstrumentation
    ensures var layers := LayersOf(x, ctx, specs);
            var options, entries := RunLayerOptions(Base(x), layers), RunLayerEntries(map[], layers);
            match LastGiven(x.cli, key) {
              case Some(v) => Holds(options, entries, f, Asked(v, v), Cli)
              case None =>
                match LastGiven(x.api, key) {
                  case Some(v) => Holds(options, entries, f, Asked(v, v), ApiKwargs)
                  case None => true
                }
            }
  {
    ResolvedFromInputs(x, ctx, specs, f);
    KeyWords(x.api, key, f, ctx.spell);
    KeyWords(x.cli, key, f, ctx.spell);
  }

  /** Nothing after position i says anything of the option. */
  ghost predicate LastWord(overrides: Overrides, i: int, f: Field, spell: string -> string) {
    0 <= i < |overrides| && forall j :: i < j < |overrides| ==> CliAsks(overrides[j], f, spell) == None
  }

  lemma {:induction false} WordAt(overrides: Overrides, i: nat, f: Field, spell: string -> string)
    requires LastWord(overrides, i, f, spell) && CliAsks(overrides[i], f, spell).Some?
    ensures CliWord(overrides, f, spell) == CliAsks(overrides[i], f, spell)
  {
    if i < |overrides| - 1 {
      assert CliAsks(overrides[|overrides| - 1], f, spell) == None;
      WordAt(Front(overrides), i, f, spell);
    }
  }

  /** A true --no-dashboard as the last word on the frontend leaves it api-only. */
  lemma NoDashboardFromInputs(x: Inputs, ctx: Context, specs: seq<Spec>, i: nat)
    requires InputsOk(x, ctx) && i < |x.cli| && x.cli[i].0 == "no_dashboard" && !Falsy(x.cli[i].1)
    requires LastWord(x.cli, i, DashboardFrontendMode, ctx.spell)
    ensures var layers := LayersOf(x, ctx, specs);
            Holds(RunLayerOptions(Base(x), layers), RunLayerEntries(map[], layers), DashboardFrontendMode,
                  Asked(TextValue("api-only"), TextValue("api-only")), Cli)
  {
    ResolvedFromInputs(x, ctx, specs, DashboardFrontendMode);
    NoDashboardAsks(x.cli[i].1, DashboardFrontendMode, ctx.spell);
    assert x.cli[i] == ("no_dashboard", x.cli[i].1);
    WordAt(x.cli, i, DashboardFrontendMode, ctx.spell);
  }

  /** A true --no-instrumentation as the last word on instrumentation turns it off. */
  lemma NoInstrumentationFromInputs(x: Inputs, ctx: Context, specs: seq<Spec>, i: nat)
    requires InputsOk(x, ctx) && i < |x.cli| && x.cli[i].0 == "no_instrumentation" && !Falsy(x.cli[i].1)
    requires LastWord(x.cli, i, MonitoringInstrumentation, ctx.spell)
    ensures var layers := LayersOf(x, ctx, specs);
            Holds(RunLayerOptions(Base(x), layers), RunLayerEntries(map[], layers), MonitoringInstrumentation,
                  Asked(BoolValue(false), BoolValue(false)), Cli)
  {
    ResolvedFromInputs(x, ctx, specs, MonitoringInstrumentation);
    NoInstrumentationAsks(x.cli[i].1, MonitoringInstrumentation, ctx.spell);
    assert x.cli[i] == ("no_instrumentation", x.cli[i].1);
    WordAt(x.cli, i, MonitoringInstrumentation, ctx.spell);
  }
}
