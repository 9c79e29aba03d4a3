/** Keyword arguments of the API and flags of the command line, folded into the options. */
module RuntimeOverrides {
  import opened Prelude
  import opened RuntimeOptions
  import opened Provenance

  /** A dictionary in insertion order. */
  type Overrides = seq<(string, Value)>

  const API_ONLY: Value := TextValue("api-only")

  function ApiField(key: string): Option<Field> {
    if key == "host" then Some(NetworkHost)
    else if key == "port" then Some(NetworkPort)
    else if key == "debug" then Some(DashboardDebug)
    else if key == "heartbeat_interval" then Some(DashboardHeartbeat)
    else if key == "startup_timeout" then Some(DashboardStartupTimeout)
    else if key == "log_level" then Some(DashboardLogLevel)
    else if key == "frontend_mode" then Some(DashboardFrontendMode)
    else if key == "enable_instrumentation" then Some(MonitoringInstrumentation)
    else None
  }

  function Plain(field: Field, value: Value, source: OptionSource): Event {
    Event(field, Some(value), Entry(value, source, None))
  }

  function MappedEvents(key: string, value: Value, source: OptionSource): seq<Event> {
    match ApiField(key)
    case Some(f) => [Plain(f, value, source)]
    case None => []
  }

  function OpenPolicy(value: Value): Value {
    TextValue(if Truthy(value) then "auto" else "never")
  }

  function ApiEventsOf(key: string, value: Value): seq<Event> {
    if value.NoneValue? then []
    else if key == "open_browser" then [Plain(BrowserPolicy, OpenPolicy(value), ApiKwargs)]
    else MappedEvents(key, value, ApiKwargs)
  }

  /** `spell` is the spelling Path gives a text. An empty output path clears the option and still turns
      recording on. */
  function OutputEvents(value: Value, spell: string -> string): seq<Event> {
    [Event(RecordingOutputPath, Some(if Truthy(value) then PathValue(spell(StrOf(value))) else NoneValue),
           Entry(TextValue(StrOf(value)), Cli, None)),
     Plain(RecordingEnabled, BoolValue(true), Cli)]
  }

  function CliEventsOf(key: string, value: Value, spell: string -> string): seq<Event> {
    if value.NoneValue? then []
    else if key == "browser" then [Plain(BrowserPolicy, value, Cli)]
    else if key == "no_dashboard" && Truthy(value) then [Plain(DashboardFrontendMode, API_ONLY, Cli)]
    else if key == "no_instrumentation" && Truthy(value) then [Plain(MonitoringInstrumentation, BoolValue(false), Cli)]
    else if key == "recording_output" then OutputEvents(value, spell)
    else MappedEvents(key, value, Cli)
  }

  function ApiEvents(overrides: Overrides): seq<Event> {
    if overrides == [] then [] else ApiEvents(Front(overrides)) + ApiEventsOf(Last(overrides).0, Last(overrides).1)
  }

  function CliEvents(overrides: Overrides, spell: string -> string): seq<Event> {
    if overrides == [] then []
    else CliEvents(Front(overrides), spell) + CliEventsOf(Last(overrides).0, Last(overrides).1, spell)
  }

  method ApplyMapped(o: Options, key: string, value: Value, source: OptionSource, provenance: ProvenanceMap)
    returns (r: Options)
    modifies provenance
    ensures r == RunOptions(o, MappedEvents(key, value, source))
    ensures provenance.entries == RunEntries(old(provenance.entries), MappedEvents(key, value, source))
  {
    match ApiField(key) {
      case None => return o;
      case Some(f) =>
        RunSingle(o, provenance.entries, Plain(f, value, source));
        provenance.Store(f, value, source, None);
        return o[f := value];
    }
  }

  method ApplyApiItem(o: Options, key: string, value: Value, provenance: ProvenanceMap) returns (r: Options)
    modifies provenance
    ensures r == RunOptions(o, ApiEventsOf(key, value))
    ensures provenance.entries == RunEntries(old(provenance.entries), ApiEventsOf(key, value))
  {
    if value.NoneValue? {
      return o;
    }
    if key == "open_browser" {
      var policy := OpenPolicy(value);
      RunSingle(o, provenance.entries, Plain(BrowserPolicy, policy, ApiKwargs));
      provenance.Store(BrowserPolicy, policy, ApiKwargs, None);
      return o[BrowserPolicy := policy];
    }
    r := ApplyMapped(o, key, value, ApiKwargs, provenance);
  }

  method ApplyCliItem(o: Options, key: string, value: Value, spell: string -> string, provenance: ProvenanceMap)
    returns (r: Options)
    modifies provenance
    ensures r == RunOptions(o, CliEventsOf(key, value, spell))
    ensures provenance.entries == RunEntries(old(provenance.entries), CliEventsOf(key, value, spell))
  {
    if value.NoneValue? {
      return o;
    }
    if key == "browser" {
      RunSingle(o, provenance.entries, Plain(BrowserPolicy, value, Cli));
      provenance.Store(BrowserPolicy, value, Cli, None);
      return o[BrowserPolicy := value];
    }
    if key == "no_dashboard" && Truthy(value) {
      RunSingle(o, provenance.entries, Plain(DashboardFrontendMode, API_ONLY, Cli));
      provenance.Store(DashboardFrontendMode, API_ONLY, Cli, None);
      return o[DashboardFrontendMode := API_ONLY];
    }
    if key == "no_instrumentation" && Truthy(value) {
      RunSingle(o, provenance.entries, Plain(MonitoringInstrumentation, BoolValue(false), Cli));
      provenance.Store(MonitoringInstrumentation, BoolValue(false), Cli, None);
      return o[MonitoringInstrumentation := BoolValue(false)];
    }
    if key == "recording_output" {
      var path := if Truthy(value) then PathValue(spell(StrOf(value))) else NoneValue;
      ghost var events := OutputEvents(value, spell);
      RunCouple(o, provenance.entries, events[0], events[1]);
      provenance.Store(RecordingOutputPath, TextValue(StrOf(value)), Cli, None);
      provenance.Store(RecordingEnabled, BoolValue(true), Cli, None);
      return o[RecordingOutputPath := path][RecordingEnabled := BoolValue(true)];
    }
    r := ApplyMapped(o, key, value, Cli, provenance);
  }

  ghost predicate RunTo(o: Options, entries: Entries, events: seq<Event>, p: Options, q: Entries) {
    p == RunOptions(o, events) && q == RunEntries(entries, events)
  }

  lemma RunFurther(o: Options, entries: Entries, a: seq<Event>, b: seq<Event>, p: Options, q: Entries)
    requires RunTo(o, entries, a, p, q)
    ensures RunTo(o, entries, a + b, RunOptions(p, b), RunEntries(q, b))
  {
    RunConcat(o, entries, a, b);
  }

  lemma NextOverride(overrides: Overrides, spell: string -> string, i: nat)
    requires i < |overrides|
    ensures ApiEvents(overrides[..i + 1]) == ApiEvents(overrides[..i]) + ApiEventsOf(overrides[i].0, overrides[i].1)
    ensures CliEvents(overrides[..i + 1], spell)
            == CliEvents(overrides[..i], spell) + CliEventsOf(overrides[i].0, overrides[i].1, spell)
  {
    assert Front(overrides[..i + 1]) == overrides[..i];
  }

  /** Unknown keys and None values change nothing. */
  method ApplyApiOverrides(base: Options, overrides: Overrides, provenance: ProvenanceMap) returns (options: Options)
    modifies provenance
    ensures RunTo(base, old(provenance.entries), ApiEvents(overrides), options, provenance.entries)
  {
    options := base;
    for i := 0 to |overrides|
      invariant RunTo(base, old(provenance.entries), ApiEvents(overrides[..i]), options, provenance.entries)
    {
      var (key, value) := overrides[i];
      NextOverride(overrides, s => s, i);
      RunFurther(base, old(provenance.entries), ApiEvents(overrides[..i]), ApiEventsOf(key, value), options, provenance.entries);
      options := ApplyApiItem(options, key, value, provenance);
    }
    assert overrides[..|overrides|] == overrides;
  }

  method ApplyCliOverrides(base: Options, overrides: Overrides, spell: string -> string, provenance: ProvenanceMap)
    returns (options: Options)
    modifies provenance
    ensures RunTo(base, old(provenance.entries), CliEvents(overrides, spell), options, provenance.entries)
  {
    options := base;
    for i := 0 to |overrides|
      invariant RunTo(base, old(provenance.entries), CliEvents(overrides[..i], spell), options, provenance.entries)
    {
      var (key, value) := overrides[i];
      NextOverride(overrides, spell, i);
      RunFurther(base, old(provenance.entries), CliEvents(overrides[..i], spell), CliEventsOf(key, value, spell), options, provenance.entries);
      options := ApplyCliItem(options, key, value, spell, provenance);
    }
    assert overrides[..|overrides|] == overrides;
  }
}
