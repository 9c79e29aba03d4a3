/** The resolver: defaults, then profile, environment, API and command line. */
module RuntimeResolving {
  import opened Prelude
  import opened PythonText
  import opened Sequences
  import opened RuntimeOptions
  import opened Provenance
  import opened Layering
  import opened EnvironmentMapping
  import opened EnvironmentLoading
  import opened EnvironmentApplying
  import opened EnvironmentOrder
  import opened RuntimeOverrides

  // ---- seeding ----

  function SeedEvents(o: Options, fields: seq<Field>, source: OptionSource): seq<Event>
    requires Complete(o)
  {
    if fields == [] then [] else SeedEvents(o, Front(fields), source) + [Plain(Last(fields), o[Last(fields)], source)]
  }

  lemma SeedGrows(o: Options, fields: seq<Field>, source: OptionSource, i: nat)
    requires Complete(o) && i < |fields|
    ensures SeedEvents(o, fields[..i + 1], source) == SeedEvents(o, fields[..i], source) + [Plain(fields[i], o[fields[i]], source)]
  {
    assert Front(fields[..i + 1]) == fields[..i];
  }

  /** Stamp every option with a source. */
  method SeedProvenance(o: Options, provenance: ProvenanceMap, source: OptionSource)
    requires Complete(o)
    modifies provenance
    ensures provenance.entries == RunEntries(old(provenance.entries), SeedEvents(o, FIELDS, source))
  {
    for i := 0 to |FIELDS|
      invariant provenance.entries == RunEntries(old(provenance.entries), SeedEvents(o, FIELDS[..i], source))
    {
      var f := FIELDS[i];
      SeedGrows(o, FIELDS, source, i);
      RunAppend(map[], old(provenance.entries), SeedEvents(o, FIELDS[..i], source), Plain(f, o[f], source));
      provenance.Store(f, o[f], source, None);
    }
    assert FIELDS[..|FIELDS|] == FIELDS;
  }

  lemma {:induction false} SeedSpeaks(o: Options, fields: seq<Field>, source: OptionSource, f: Field)
    requires Complete(o) && f in fields
    ensures LastOn(SeedEvents(o, fields, source), f) == Some(Plain(f, o[f], source))
    ensures LastValue(SeedEvents(o, fields, source), f) == Some(o[f])
  {
    var events := SeedEvents(o, fields, source);
    assert Front(events) == SeedEvents(o, Front(fields), source);
    if Last(fields) != f {
      SeedSpeaks(o, Front(fields), source, f);
    }
  }

  function PositionOf(f: Field): (i: nat)
    ensures i < 37
  {
    match f
    case NetworkHost => 0
    case NetworkPort => 1
    case DashboardDebug => 2
    case DashboardHeartbeat => 3
    case DashboardStartupTimeout => 4
    case DashboardLogLevel => 5
    case DashboardFrontendMode => 6
    case BrowserPolicy => 7
    case BrowserReadinessTimeout => 8
    case BrowserReadinessInterval => 9
    case BrowserSessionId => 10
    case MonitoringInstrumentation => 11
    case MonitoringLagWarning => 12
    case MonitoringLagCritical => 13
    case MonitoringLagFreeze => 14
    case MonitoringLagSample => 15
    case MonitoringStackTraces => 16
    case WarningBufferSize => 17
    case WarningCooldown => 18
    case RecordingEnabled => 19
    case RecordingOutputPath => 20
    case RecordingCompression => 21
    case RecordingChunkEvents => 22
    case RecordingChunkBytes => 23
    case RecordingQueueCapacity => 24
    case RecordingFlushInterval => 25
    case RecordingBackpressure => 26
    case RecordingInclude => 27
    case RecordingExclude => 28
    case RecordingRuntimeSnapshot => 29
    case RecordingWarningSnapshot => 30
    case RecordingMetadata => 31
    case ReplayBufferCapacity => 32
    case ReplayRetention => 33
    case ReplayCheckpointInterval => 34
    case SecurityLoopbackOnly => 35
    case SecurityAllowRemote => 36
  }

  lemma EveryFieldListed(f: Field)
    ensures f in FIELDS
  {
    assert FIELDS[PositionOf(f)] == f;
  }

  /** Seeding from complete options sets all of them. */
  lemma SeedReplaces(o: Options, p: Options, source: OptionSource)
    requires Complete(o) && Complete(p)
    ensures RunOptions(o, SeedEvents(p, FIELDS, source)) == p
  {
    var t := RunOptions(o, SeedEvents(p, FIELDS, source));
    forall f: Field ensures SameAt(t, p, f) {
      EveryFieldListed(f);
      SeedSpeaks(p, FIELDS, source, f);
      RunAt(o, SeedEvents(p, FIELDS, source), f);
    }
    SameEverywhere(t, p);
  }

  // ---- profiles ----

  datatype ProfileOptions = ProfileOptions(options: Options, name: Option<string>)

  type Registry = map<string, ProfileOptions>

  function BuiltinProfiles(): Registry {
    var d := DefaultOptions();
    map["dev" := ProfileOptions(d[DashboardDebug := BoolValue(true)][DashboardLogLevel := TextValue("DEBUG")], Some("dev")),
        "prod" := ProfileOptions(d[DashboardLogLevel := TextValue("WARNING")][BrowserPolicy := NEVER]
                                  [ReplayRetention := Whole(3600)][ReplayBufferCapacity := IntValue(32768)], Some("prod")),
        "ci" := ProfileOptions(d[DashboardLogLevel := TextValue("WARNING")][BrowserPolicy := NEVER]
                                [MonitoringStackTraces := BoolValue(false)], Some("ci"))]
  }

  /** The KeyError of an unknown name is an error result. */
  function GetProfile(registry: Registry, name: string): Result<ProfileOptions> {
    if Lower(name) in registry then Ok(registry[Lower(name)]) else Err("unknown profile")
  }

  function ProfileName(p: ProfileOptions, asked: string): string {
    if p.name.Some? && p.name.value != "" then p.name.value else asked
  }

  // ---- what the environment records beside what it sets ----

  const SECRET_SUFFIXES: seq<string> := ["_TOKEN", "_SECRET", "_PASSWORD", "_KEY"]

  function UpperChar(c: char): char {
    if 'a' <= c <= 'z' then c - 'a' + 'A' else c
  }

  predicate IsSecretKey(key: string) {
    key != "" && exists i :: 0 <= i < |SECRET_SUFFIXES| && EndsWith(Map(key, UpperChar), SECRET_SUFFIXES[i])
  }

  predicate Redacted(item: Loaded) {
    item.spec.secret || IsSecretKey(item.envName)
  }

  /** The record made for a success, of the value as parsed. */
  function RecordOf(item: Loaded): Event
    requires item.value.Some?
  {
    if Redacted(item) then Event(item.spec.target, None, Entry(TextValue(REDACTED), Environment, Some(REDACTED)))
    else Event(item.spec.target, None, Entry(item.value.value, Environment, Some(item.raw)))
  }

  function RecordsOf(item: Loaded): seq<Event> {
    if item.value.Some? then [RecordOf(item)] else []
  }

  function RecordsOfAll(loaded: seq<Loaded>): seq<Event> {
    if loaded == [] then [] else RecordsOfAll(Front(loaded)) + RecordsOf(Last(loaded))
  }

  function ReadingRecords(r: Reading): seq<Event> {
    if r.Parsed? then RecordsOf(r.loaded) else []
  }

  function RecordRows(src: Source): Spec -> seq<Event> {
    (s: Spec) => ReadingRecords(Read(src, s))
  }

  lemma {:induction false} RecordsAreRows(src: Source, specs: seq<Spec>)
    ensures RecordsOfAll(LoadedOf(src, specs)) == Collect(RecordRows(src), specs)
  {
    if specs != [] {
      RecordsAreRows(src, Front(specs));
      var before, reading := LoadedOf(src, Front(specs)), Read(src, Last(specs));
      if reading.Parsed? {
        assert Front(before + [reading.loaded]) == before;
      } else {
        assert before + [] == before;
      }
    }
  }

  method RecordLoaderProvenance(provenance: ProvenanceMap, loaded: seq<Loaded>)
    modifies provenance
    ensures provenance.entries == RunEntries(old(provenance.entries), RecordsOfAll(loaded))
  {
    for i := 0 to |loaded|
      invariant provenance.entries == RunEntries(old(provenance.entries), RecordsOfAll(loaded[..i]))
    {
      var item := loaded[i];
      assert Front(loaded[..i + 1]) == loaded[..i];
      if item.value.Some? {
        var e := RecordOf(item);
        RunAppend(map[], old(provenance.entries), RecordsOfAll(loaded[..i]), e);
        provenance.Store(e.field, e.entry.value, Environment, e.entry.raw);
      } else {
        assert RecordsOfAll(loaded[..i]) + [] == RecordsOfAll(loaded[..i]);
      }
    }
    assert loaded[..|loaded|] == loaded;
  }

  function EnvironmentEvents(src: Source, specs: seq<Spec>): seq<Event> {
    TableEvents(src, specs) + Collect(RecordRows(src), specs)
  }

  lemma {:induction false} RecordsSetNothing(o: Options, rows: seq<Loaded>)
    ensures RunOptions(o, RecordsOfAll(rows)) == o
  {
    if rows != [] {
      RecordsSetNothing(o, Front(rows));
      RunConcat(o, map[], RecordsOfAll(Front(rows)), RecordsOf(Last(rows)));
      if Last(rows).value.Some? {
        RunSingle(o, map[], RecordOf(Last(rows)));
      }
    }
  }

  /** An empty environment is read no further. */
  method ApplyEnvironment(base: Options, src: Source, specs: seq<Spec>, provenance: ProvenanceMap) returns (options: Options)
    modifies provenance
    ensures RunTo(base, old(provenance.entries), if src.vars == map[] then [] else EnvironmentEvents(src, specs),
                  options, provenance.entries)
  {
    if src.vars == map[] {
      return base;
    }
    ghost var entries := provenance.entries;
    var applied, result;
    options, applied, result := LoadAndApply(base, src, specs, provenance);
    RecordLoaderProvenance(provenance, result.loaded);
    RecordsAreRows(src, specs);
    RunConcat(base, entries, TableEvents(src, specs), Collect(RecordRows(src), specs));
    RecordsSetNothing(options, result.loaded);
  }

  // ---- resolving ----

  datatype Inputs = Inputs(
    profile: Option<string>, environ: Option<map<string, string>>, api: Overrides, cli: Overrides, base: Option<Options>)

  /** The profile registry, the expansion and the spelling of paths. */
  datatype Context = Context(registry: Registry, expand: string -> string, spell: string -> string)

  datatype Resolved = Resolved(options: Options, profileName: Option<string>, notes: seq<string>)

  ghost predicate InputsOk(x: Inputs, ctx: Context) {
    && (x.base.Some? ==> WellTyped(x.base.value))
    && (forall name | name in ctx.registry :: WellTyped(ctx.registry[name].options))
  }

  predicate HasProfile(x: Inputs) {
    x.profile.Some? && x.profile.value != ""
  }

  function Base(x: Inputs): Options {
    if x.base.Some? then x.base.value else DefaultOptions()
  }

  function EnvironmentSource(x: Inputs, ctx: Context): Source {
    Source(if x.environ.Some? then x.environ.value else map[], MAX_VALUE_BYTES, ctx.expand)
  }

  function ProfileLayer(x: Inputs, ctx: Context): Layer
    requires InputsOk(x, ctx)
  {
    Layer(Profile,
          if HasProfile(x) && Lower(x.profile.value) in ctx.registry
          then SeedEvents(ctx.registry[Lower(x.profile.value)].options, FIELDS, Profile) else [])
  }

  function EnvironmentLayer(src: Source, specs: seq<Spec>): Layer {
    Layer(Environment, if src.vars == map[] then [] else EnvironmentEvents(src, specs))
  }

  function LayersOf(x: Inputs, ctx: Context, specs: seq<Spec>): seq<Layer>
    requires InputsOk(x, ctx)
  {
    [Layer(DefaultValue, SeedEvents(Base(x), FIELDS, DefaultValue)),
     ProfileLayer(x, ctx),
     EnvironmentLayer(EnvironmentSource(x, ctx), specs),
     Layer(ApiKwargs, ApiEvents(x.api)),
     Layer(Cli, CliEvents(x.cli, ctx.spell))]
  }

  /** The name the profile gives itself, or else the one asked for. */
  function NameOf(x: Inputs, ctx: Context): Option<string> {
    if HasProfile(x) && Lower(x.profile.value) in ctx.registry
    then Some(ProfileName(ctx.registry[Lower(x.profile.value)], x.profile.value)) else None
  }

  /** A profile goes by its own name, or by the one asked for when it has none. */
  predicate NamedBy(x: Inputs, ctx: Context, name: Option<string>) {
    if x.profile == None || x.profile == Some("") then name == None
    else
      && Lower(x.profile.value) in ctx.registry
      && var own := ctx.registry[Lower(x.profile.value)].name;
         name == if own == None || own == Some("") then x.profile else own
  }

  function Notes(x: Inputs, profileName: Option<string>): seq<string> {
    (if profileName.Some? then ["profile=" + profileName.value] else []) + (if x.environ.Some? then ["env-layered"] else [])
  }

  /** The first k layers have been applied. */
  ghost predicate Reached(base: Options, layers: seq<Layer>, k: nat, o: Options, entries: Entries)
    requires k <= |layers|
  {
    o == RunLayerOptions(base, layers[..k]) && entries == RunLayerEntries(map[], layers[..k])
  }

  lemma ReachedNext(base: Options, layers: seq<Layer>, k: nat, o: Options, entries: Entries, p: Options, q: Entries)
    requires k < |layers| && Reached(base, layers, k, o, entries) && RunTo(o, entries, layers[k].events, p, q)
    ensures Reached(base, layers, k + 1, p, q)
  {
    assert Front(layers[..k + 1]) == layers[..k];
  }

  lemma ReachedAll(base: Options, layers: seq<Layer>, o: Options, entries: Entries)
    requires Reached(base, layers, |layers|, o, entries)
    ensures o == RunLayerOptions(base, layers) && entries == RunLayerEntries(map[], layers)
  {
    assert layers[..|layers|] == layers;
  }

  /** A named profile replaces every option. */
  method ApplyProfile(o: Options, x: Inputs, ctx: Context, provenance: ProvenanceMap)
    returns (r: Result<(Options, Option<string>)>)
    requires InputsOk(x, ctx) && Complete(o)
    modifies provenance
    ensures r.Err? <==> HasProfile(x) && Lower(x.profile.value) !in ctx.registry
    ensures r.Ok? ==> RunTo(o, old(provenance.entries), ProfileLayer(x, ctx).events, r.value.0, provenance.entries)
    ensures r.Ok? ==> r.value.1 == NameOf(x, ctx)
  {
    if !HasProfile(x) {
      return Ok((o, None));
    }
    var found := GetProfile(ctx.registry, x.profile.value);
    if found.Err? {
      return Err(found.error);
    }
    SeedReplaces(o, found.value.options, Profile);
    SeedProvenance(found.value.options, provenance, Profile);
    return Ok((found.value.options, Some(ProfileName(found.value, x.profile.value))));
  }

  method ApplyEnvironmentLayer(base: Options, ghost layers: seq<Layer>, o: Options, x: Inputs, ctx: Context, specs: seq<Spec>,
                               provenance: ProvenanceMap)
    returns (options: Options)
    requires |layers| == 5 && layers[2] == EnvironmentLayer(EnvironmentSource(x, ctx), specs)
    requires Reached(base, layers, 2, o, provenance.entries)
    modifies provenance
    ensures Reached(base, layers, 3, options, provenance.entries)
  {
    options := o;
    if x.environ.Some? {
      options := ApplyEnvironment(options, EnvironmentSource(x, ctx), specs, provenance);
    }
    ReachedNext(base, layers, 2, o, old(provenance.entries), options, provenance.entries);
  }

  method ApplyOverrideLayers(base: Options, ghost layers: seq<Layer>, o: Options, x: Inputs, ctx: Context,
                             provenance: ProvenanceMap)
    returns (options: Options)
    requires |layers| == 5 && layers[3].events == ApiEvents(x.api) && layers[4].events == CliEvents(x.cli, ctx.spell)
    requires Reached(base, layers, 3, o, provenance.entries)
    modifies provenance
    ensures Reached(base, layers, 5, options, provenance.entries)
  {
    var named := ApplyApiOverrides(o, x.api, provenance);
    ghost var e := provenance.entries;
    ReachedNext(base, layers, 3, o, old(provenance.entries), named, e);
    options := ApplyCliOverrides(named, x.cli, ctx.spell, provenance);
    ReachedNext(base, layers, 4, named, e, options, provenance.entries);
  }

  /** Defaults, or the options the caller starts from. */
  method StartFrom(x: Inputs, ctx: Context, specs: seq<Spec>, provenance: ProvenanceMap) returns (options: Options)
    requires InputsOk(x, ctx) && provenance.entries == map[]
    modifies provenance
    ensures Complete(options) && Reached(Base(x), LayersOf(x, ctx, specs), 1, options, provenance.entries)
  {
    options := Base(x);
    SeedProvenance(options, provenance, DefaultValue);
    SeedReplaces(options, options, DefaultValue);
    ReachedNext(options, LayersOf(x, ctx, specs), 0, options, map[], options, provenance.entries);
  }

  /** The resolver runs its layers from the weakest to the strongest; only an unknown profile fails. */
  method ResolveOptions(x: Inputs, ctx: Context, specs: seq<Spec>) returns (r: Result<Resolved>, provenance: ProvenanceMap)
    requires InputsOk(x, ctx)
    ensures fresh(provenance)
    ensures r.Err? <==> HasProfile(x) && Lower(x.profile.value) !in ctx.registry
    ensures r.Ok? ==> r.value.options == RunLayerOptions(Base(x), LayersOf(x, ctx, specs))
    ensures r.Ok? ==> provenance.entries == RunLayerEntries(map[], LayersOf(x, ctx, specs))
    ensures r.Ok? ==> r.value.profileName == NameOf(x, ctx) && NamedBy(x, ctx, r.value.profileName)
    ensures r.Ok? ==> r.value.notes == Notes(x, NameOf(x, ctx))
  {
    provenance := new ProvenanceMap();
    ghost var layers := LayersOf(x, ctx, specs);
    var options := StartFrom(x, ctx, specs, provenance);
    ghost var o, e := options, provenance.entries;
    var profile := ApplyProfile(options, x, ctx, provenance);
    if profile.Err? {
      return Err(profile.error), provenance;
    }
    var notes := if profile.value.1.Some? then ["profile=" + profile.value.1.value] else [];
    ReachedNext(Base(x), layers, 1, o, e, profile.value.0, provenance.entries);
    options := ApplyEnvironmentLayer(Base(x), layers, profile.value.0, x, ctx, specs, provenance);
    if x.environ.Some? {
      notes := notes + ["env-layered"];
    }
    options := ApplyOverrideLayers(Base(x), layers, options, x, ctx, provenance);
    ReachedAll(Base(x), layers, options, provenance.entries);
    return Ok(Resolved(options, profile.value.1, notes)), provenance;
  }
}
