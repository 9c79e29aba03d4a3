/** When the provenance of an option agrees with its value. */
module ProvenanceAgreement {
  import opened Prelude
  import opened PythonText
  import opened Sequences
  import opened RuntimeOptions
  import opened Provenance
  import opened Layering
  import opened EnvironmentParsing
  import opened EnvironmentMapping
  import opened EnvironmentLoading
  import opened EnvironmentApplying
  import opened EnvironmentOrder
  import opened CoreTable
  import opened RuntimeOverrides
  import opened RuntimeResolving

  /** The same value, or a path recorded as the text it was made from. */
  predicate Agrees(v: Value, recorded: Value, spell: string -> string) {
    v == recorded || (v.PathValue? && recorded.TextValue? && v.path == spell(recorded.s))
  }

  /** What a layer records last of a field is what it sets last. */
  ghost predicate LayerAgrees(events: seq<Event>, f: Field, spell: string -> string) {
    LastOn(events, f).Some? ==>
      LastValue(events, f).Some? && Agrees(LastValue(events, f).value, LastOn(events, f).value.entry.value, spell)
  }

  lemma {:induction false} SetsOnlyWhatItSpeaksOf(events: seq<Event>, f: Field)
    ensures LastValue(events, f).Some? ==> LastOn(events, f).Some?
  {
    if events != [] {
      SetsOnlyWhatItSpeaksOf(Front(events), f);
    }
  }

  // ---- events in a row ----

  lemma {:induction false} LastOnConcat(a: seq<Event>, b: seq<Event>, f: Field)
    ensures LastOn(a + b, f) == if LastOn(b, f).Some? then LastOn(b, f) else LastOn(a, f)
    ensures LastValue(a + b, f) == if LastValue(b, f).Some? then LastValue(b, f) else LastValue(a, f)
  {
    if b == [] {
      assert a + b == a;
    } else {
      assert Front(a + b) == a + Front(b);
      LastOnConcat(a, Front(b), f);
    }
  }

  lemma LastOnOne(e: Event, f: Field)
    ensures LastOn([e], f) == if e.field == f then Some(e) else None
    ensures LastValue([e], f) == if e.field == f then e.value else None
  {
    assert Front([e]) == [];
  }

  lemma LastOnTwo(a: Event, b: Event, f: Field)
    ensures LastOn([a, b], f) == if b.field == f then Some(b) else if a.field == f then Some(a) else None
    ensures LastValue([a, b], f) ==
      if b.field == f && b.value.Some? then b.value else if a.field == f then a.value else None
  {
    assert Front([a, b]) == [a];
    LastOnOne(a, f);
  }

  /** Only the events on a field matter to it. */
  lemma {:induction false} LastOnFilter(events: seq<Event>, f: Field)
    ensures LastOn(Filter(events, OnField(f)), f) == LastOn(events, f)
    ensures LastValue(Filter(events, OnField(f)), f) == LastValue(events, f)
  {
    if events != [] {
      var last := Last(events);
      LastOnFilter(Front(events), f);
      FilterLast(events, OnField(f));
      LastOnConcat(Filter(Front(events), OnField(f)), [last], f);
      LastOnOne(last, f);
      assert Filter(Front(events), OnField(f)) + [] == Filter(Front(events), OnField(f));
    }
  }

  /** Every event on the field sets what it records. */
  ghost predicate PlainOn(events: seq<Event>, f: Field) {
    forall i :: 0 <= i < |events| && events[i].field == f ==> events[i].value == Some(events[i].entry.value)
  }

  lemma PlainOnConcat(a: seq<Event>, b: seq<Event>, f: Field)
    requires PlainOn(a, f) && PlainOn(b, f)
    ensures PlainOn(a + b, f)
  {
  }

  lemma {:induction false} PlainAgrees(events: seq<Event>, f: Field, spell: string -> string)
    requires PlainOn(events, f)
    ensures LayerAgrees(events, f, spell)
  {
    if events != [] {
      assert forall i :: 0 <= i < |Front(events)| ==> Front(events)[i] == events[i];
      PlainAgrees(Front(events), f, spell);
    }
  }

  // ---- the layers of the overrides ----

  predicate Given(item: (string, Value), key: string) {
    item.0 == key && !item.1.NoneValue?
  }

  /** The key is given with a value. */
  ghost predicate Mentions(overrides: Overrides, key: string) {
    exists i :: 0 <= i < |overrides| && Given(overrides[i], key)
  }

  lemma MentionsLast(overrides: Overrides, key: string)
    requires overrides != []
    ensures Mentions(overrides, key) <==> Mentions(Front(overrides), key) || Given(Last(overrides), key)
  {
    assert forall i :: 0 <= i < |Front(overrides)| ==> Front(overrides)[i] == overrides[i];
    if Mentions(Front(overrides), key) {
      var i :| 0 <= i < |Front(overrides)| && Given(Front(overrides)[i], key);
      assert Given(overrides[i], key);
    }
  }

  lemma MappedNotPolicy(key: string)
    ensures ApiField(key) != Some(BrowserPolicy) && ApiField(key) != Some(RecordingOutputPath)
    ensures ApiField("browser") == None && ApiField("open_browser") == None
  {
  }

  lemma ApiItem(item: (string, Value), f: Field)
    ensures PlainOn(ApiEventsOf(item.0, item.1), f) && FromSource(ApiEventsOf(item.0, item.1), ApiKwargs)
    ensures LastOn(ApiEventsOf(item.0, item.1), BrowserPolicy).Some? <==> Given(item, "open_browser")
  {
    var events := ApiEventsOf(item.0, item.1);
    MappedNotPolicy(item.0);
    if events != [] {
      assert events == [events[0]];
      LastOnOne(events[0], BrowserPolicy);
    }
  }

  lemma FromSourceConcat(a: seq<Event>, b: seq<Event>, source: OptionSource)
    requires FromSource(a, source) && FromSource(b, source)
    ensures FromSource(a + b, source)
  {
  }

  lemma {:induction false} ApiLayer(overrides: Overrides, f: Field)
    ensures PlainOn(ApiEvents(overrides), f) && FromSource(ApiEvents(overrides), ApiKwargs)
    ensures LastOn(ApiEvents(overrides), BrowserPolicy).Some? <==> Mentions(overrides, "open_browser")
  {
    if overrides != [] {
      var before, own := ApiEvents(Front(overrides)), ApiEventsOf(Last(overrides).0, Last(overrides).1);
      ApiLayer(Front(overrides), f);
      ApiItem(Last(overrides), f);
      PlainOnConcat(before, own, f);
      FromSourceConcat(before, own, ApiKwargs);
      LastOnConcat(before, own, BrowserPolicy);
      MentionsLast(overrides, "open_browser");
    }
  }

  /** The value last given for recording_output. */
  function CliOutput(overrides: Overrides): Option<Value> {
    if overrides == [] then None
    else if Given(Last(overrides), "recording_output") then Some(Last(overrides).1)
    else CliOutput(Front(overrides))
  }

  lemma CliItemSource(item: (string, Value), spell: string -> string)
    ensures FromSource(CliEventsOf(item.0, item.1, spell), Cli)
  {
  }

  lemma CliItemPlain(item: (string, Value), f: Field, spell: string -> string)
    requires f != RecordingOutputPath
    ensures PlainOn(CliEventsOf(item.0, item.1, spell), f)
  {
  }

  lemma CliItemPolicy(item: (string, Value), spell: string -> string)
    ensures LastOn(CliEventsOf(item.0, item.1, spell), BrowserPolicy).Some? <==> Given(item, "browser")
  {
    var events := CliEventsOf(item.0, item.1, spell);
    MappedNotPolicy(item.0);
    if |events| == 1 {
      assert events == [events[0]];
      LastOnOne(events[0], BrowserPolicy);
    } else if |events| == 2 {
      assert events == [events[0], events[1]];
      LastOnTwo(events[0], events[1], BrowserPolicy);
    }
  }

  lemma CliOutputItem(item: (string, Value), spell: string -> string)
    ensures var events := CliEventsOf(item.0, item.1, spell);
            if Given(item, "recording_output")
            then LastOn(events, RecordingOutputPath) == Some(OutputEvents(item.1, spell)[0])
                 && LastValue(events, RecordingOutputPath) == OutputEvents(item.1, spell)[0].value
            else LastOn(events, RecordingOutputPath) == None && LastValue(events, RecordingOutputPath) == None
  {
    var events := CliEventsOf(item.0, item.1, spell);
    MappedNotPolicy(item.0);
    if |events| == 1 {
      assert events == [events[0]];
      LastOnOne(events[0], RecordingOutputPath);
    } else if |events| == 2 {
      assert events == [events[0], events[1]];
      LastOnTwo(events[0], events[1], RecordingOutputPath);
    }
  }

  lemma {:induction false} CliLayer(overrides: Overrides, f: Field, spell: string -> string)
    ensures FromSource(CliEvents(overrides, spell), Cli)
    ensures f != RecordingOutputPath ==> PlainOn(CliEvents(overrides, spell), f)
    ensures LastOn(CliEvents(overrides, spell), BrowserPolicy).Some? <==> Mentions(overrides, "browser")
  {
    if overrides != [] {
      var before, own := CliEvents(Front(overrides), spell), CliEventsOf(Last(overrides).0, Last(overrides).1, spell);
      CliLayer(Front(overrides), f, spell);
      CliItemSource(Last(overrides), spell);
      CliItemPolicy(Last(overrides), spell);
      FromSourceConcat(before, own, Cli);
      if f != RecordingOutputPath {
        CliItemPlain(Last(overrides), f, spell);
        PlainOnConcat(before, own, f);
      }
      LastOnConcat(before, own, BrowserPolicy);
      MentionsLast(overrides, "browser");
    }
  }

  lemma {:induction false} CliOutputLayer(overrides: Overrides, spell: string -> string)
    ensures var events, given := CliEvents(overrides, spell), CliOutput(overrides);
            if given.Some?
            then LastOn(events, RecordingOutputPath) == Some(OutputEvents(given.value, spell)[0])
                 && LastValue(events, RecordingOutputPath) == OutputEvents(given.value, spell)[0].value
            else LastOn(events, RecordingOutputPath) == None && LastValue(events, RecordingOutputPath) == None
  {
    if overrides != [] {
      var before, own := CliEvents(Front(overrides), spell), CliEventsOf(Last(overrides).0, Last(overrides).1, spell);
      CliOutputLayer(Front(overrides), spell);
      CliOutputItem(Last(overrides), spell);
      LastOnConcat(before, own, RecordingOutputPath);
    }
  }

  /** The command line agrees with itself, except when it clears the output path with an empty text. */
  lemma CliAgrees(overrides: Overrides, f: Field, spell: string -> string)
    ensures LayerAgrees(CliEvents(overrides, spell), f, spell)
            <==> !(f == RecordingOutputPath && CliOutput(overrides).Some? && !Truthy(CliOutput(overrides).value))
  {
    if f == RecordingOutputPath {
      CliOutputLayer(overrides, spell);
    } else {
      CliLayer(overrides, f, spell);
      PlainAgrees(CliEvents(overrides, spell), f, spell);
    }
  }

  // ---- the layer of the environment ----

  lemma RecordsTouch(src: Source, f: Field)
    ensures RowsTouch(RecordRows(src), f)
  {
  }

  /** What one row sets and records. */
  function RowSays(src: Source, row: Spec): seq<Event> {
    RowEvents(src, row) + ReadingRecords(Read(src, row))
  }

  /** The environment speaks of a field through the rows that touch it. */
  lemma EnvironmentReduces(src: Source, specs: seq<Spec>, f: Field, own: seq<Spec>)
    requires Filter(specs, Touching(f)) == own
    ensures var reduced := Collect(RowsOf(src), own) + Collect(RecordRows(src), own);
            && LastOn(EnvironmentEvents(src, specs), f) == LastOn(reduced, f)
            && LastValue(EnvironmentEvents(src, specs), f) == LastValue(reduced, f)
  {
    var a, b := Collect(RowsOf(src), specs), Collect(RecordRows(src), specs);
    var c, d := Collect(RowsOf(src), own), Collect(RecordRows(src), own);
    TableRowsTouch(src, f);
    RecordsTouch(src, f);
    TouchingRowsDecide(RowsOf(src), specs, f);
    TouchingRowsDecide(RecordRows(src), specs, f);
    SameLast(a, c, f);
    SameLast(b, d, f);
    LastOnConcat(a, b, f);
    LastOnConcat(c, d, f);
  }

  lemma SameLast(a: seq<Event>, b: seq<Event>, f: Field)
    requires Filter(a, OnField(f)) == Filter(b, OnField(f))
    ensures LastOn(a, f) == LastOn(b, f) && LastValue(a, f) == LastValue(b, f)
  {
    LastOnFilter(a, f);
    LastOnFilter(b, f);
  }

  lemma PlainNotSecret(s: string)
    requires PlainName(s)
    ensures !IsSecretKey(s)
  {
    var upper := Map(s, UpperChar);
    forall i | 0 <= i < |SECRET_SUFFIXES| ensures !EndsWith(upper, SECRET_SUFFIXES[i]) {
      SuffixEnds(upper, SECRET_SUFFIXES[i]);
      assert |SECRET_SUFFIXES| == 4;
      assert SECRET_SUFFIXES[0] == "_TOKEN" && SECRET_SUFFIXES[1] == "_SECRET";
      assert SECRET_SUFFIXES[2] == "_PASSWORD" && SECRET_SUFFIXES[3] == "_KEY";
    }
  }

  lemma SuffixEnds(s: string, suffix: string)
    requires |suffix| >= 2
    ensures EndsWith(s, suffix) ==> |s| >= 2 && s[|s| - 1] == suffix[|suffix| - 1] && s[|s| - 2] == suffix[|suffix| - 2]
  {
    if EndsWith(s, suffix) {
      var tail := s[|s| - |suffix|..];
      assert tail[|suffix| - 1] == s[|s| - 1] && tail[|suffix| - 2] == s[|s| - 2];
    }
  }

  ghost predicate PlainRow(row: Spec) {
    row.aliases == [] && !row.secret && PlainName(row.envName)
  }

  lemma ReadNames(src: Source, row: Spec)
    requires PlainRow(row) && Read(src, row).Parsed?
    ensures Read(src, row).loaded.spec == row && !Redacted(Read(src, row).loaded)
  {
    assert AllNames(row) == [row.envName];
    OneName(src.vars, row.envName);
    PlainNotSecret(row.envName);
  }

  /** A setting agrees with a record of the value it sets. */
  lemma SettingAgrees(setting: Event, record: Event, f: Field, spell: string -> string)
    requires record.field == setting.field && record.value == None && setting.value == Some(record.entry.value)
    ensures LayerAgrees([setting, record], f, spell)
  {
    LastOnTwo(setting, record, f);
  }

  lemma SettingsAgree(setting: Event, other: Event, record: Event, f: Field, spell: string -> string)
    requires record.field == setting.field && record.value == None && setting.value == Some(record.entry.value)
    requires other.field != setting.field && other.value == Some(other.entry.value)
    ensures LayerAgrees([setting, other] + [record], f, spell)
  {
    LastOnConcat([setting, other], [record], f);
    LastOnTwo(setting, other, f);
    LastOnOne(record, f);
  }

  /** A variable that sets its own target agrees with its record, on every field. */
  lemma ItemAgrees(item: Loaded, f: Field, spell: string -> string)
    requires item.value.Some? && !IsNoBrowser(item.spec) && !item.spec.secret && !Redacted(item)
    ensures LayerAgrees(EventsOf(item) + RecordsOf(item), f, spell)
  {
    var events, record := EventsOf(item), RecordOf(item);
    if |events| == 1 {
      assert events == [events[0]];
      SettingAgrees(events[0], record, f, spell);
      assert events + [record] == [events[0], record];
    } else {
      assert events == [events[0], events[1]];
      SettingsAgree(events[0], events[1], record, f, spell);
    }
  }

  lemma RowAgrees(src: Source, row: Spec, f: Field, spell: string -> string)
    requires PlainRow(row) && !IsNoBrowser(row)
    ensures LayerAgrees(RowSays(src, row), f, spell)
  {
    var reading := Read(src, row);
    if reading.Parsed? {
      ReadNames(src, row);
      if reading.loaded.value.Some? {
        ItemAgrees(reading.loaded, f, spell);
      } else {
        assert RowSays(src, row) == [];
      }
    } else {
      assert RowSays(src, row) == [];
    }
  }

  lemma UnreadRowSaysNothing(src: Source, row: Spec)
    requires !ReadsValue(src, row)
    ensures RowEvents(src, row) == [] && ReadingRecords(Read(src, row)) == []
  {
  }

  /** Every option but the policy. */
  lemma EnvironmentAgreesAt(core: seq<Spec>, src: Source, f: Field, spell: string -> string)
    requires CoreLike(core) && f != BrowserPolicy
    ensures LayerAgrees(EnvironmentEvents(src, core), f, spell)
  {
    TouchingRows(core, f);
    EnvironmentReduces(src, core, f, Filter(core, Touching(f)));
    if RowOf(f).Some? {
      RowInTable(f);
      var row := core[RowOf(f).value];
      assert RowOk(row, RowOf(f).value);
      CollectSingle(RowsOf(src), row);
      CollectSingle(RecordRows(src), row);
      RowAgrees(src, row, f, spell);
    }
  }

  /** What the environment says of the policy. */
  function PolicySays(src: Source, browser: Spec, noBrowser: Spec): seq<Event> {
    (RowEvents(src, browser) + RowEvents(src, noBrowser))
    + (ReadingRecords(Read(src, browser)) + ReadingRecords(Read(src, noBrowser)))
  }

  lemma PolicyReduces(core: seq<Spec>, src: Source)
    requires CoreLike(core)
    ensures LastOn(EnvironmentEvents(src, core), BrowserPolicy) == LastOn(PolicySays(src, core[7], core[8]), BrowserPolicy)
    ensures LastValue(EnvironmentEvents(src, core), BrowserPolicy) == LastValue(PolicySays(src, core[7], core[8]), BrowserPolicy)
  {
    TouchingRows(core, BrowserPolicy);
    EnvironmentReduces(src, core, BrowserPolicy, [core[7], core[8]]);
    CollectPair(RowsOf(src), core[7], core[8]);
    CollectPair(RecordRows(src), core[7], core[8]);
  }

  lemma PolicyUnforced(core: seq<Spec>, src: Source, spell: string -> string)
    requires CoreLike(core) && !ReadsValue(src, core[8])
    ensures LayerAgrees(EnvironmentEvents(src, core), BrowserPolicy, spell)
  {
    PolicyReduces(core, src);
    UnreadRowSaysNothing(src, core[8]);
    PolicyRowKinds(core);
    assert RowOk(core[7], 7);
    RowAgrees(src, core[7], BrowserPolicy, spell);
    assert PolicySays(src, core[7], core[8]) == RowSays(src, core[7]);
  }

  /** A setting of the policy sets a text. */
  ghost predicate SetsText(events: seq<Event>) {
    forall i :: 0 <= i < |events| && events[i].value.Some? && events[i].field == BrowserPolicy ==> events[i].value.value.TextValue?
  }

  lemma {:induction false} LastSetsText(events: seq<Event>)
    requires SetsText(events) && LastValue(events, BrowserPolicy).Some?
    ensures LastValue(events, BrowserPolicy).value.TextValue?
  {
    assert forall i :: 0 <= i < |Front(events)| ==> Front(events)[i] == events[i];
    assert Last(events) == events[|events| - 1];
    if !(Last(events).field == BrowserPolicy && Last(events).value.Some?) {
      LastSetsText(Front(events));
    }
  }

  lemma PolicyRowSetsText(src: Source, row: Spec)
    requires PlainRow(row) && ((IsBrowser(row) && row.kind == Enum) || IsNoBrowser(row))
    ensures SetsText(RowEvents(src, row)) && SetsText(ReadingRecords(Read(src, row)))
  {
    if Read(src, row).Parsed? {
      ReadNames(src, row);
    }
  }

  lemma SetsTextConcat(a: seq<Event>, b: seq<Event>)
    requires SetsText(a) && SetsText(b)
    ensures SetsText(a + b)
  {
  }

  /** A NO_BROWSER that parses leaves its truth value in the record, whatever the policy is. */
  lemma PolicyForced(core: seq<Spec>, src: Source)
    requires CoreLike(core) && ReadsValue(src, core[8])
    ensures var events := EnvironmentEvents(src, core);
            && LastOn(events, BrowserPolicy).Some? && LastOn(events, BrowserPolicy).value.entry.value.BoolValue?
            && (LastValue(events, BrowserPolicy).Some? ==> LastValue(events, BrowserPolicy).value.TextValue?)
  {
    var x, y := core[7], core[8];
    PolicyReduces(core, src);
    PolicyRowKinds(core);
    assert RowOk(x, 7) && RowOk(y, 8);
    RowInTable(x.target);
    PolicyRowSetsText(src, x);
    PolicyRowSetsText(src, y);
    SetsTextConcat(RowEvents(src, x), RowEvents(src, y));
    SetsTextConcat(ReadingRecords(Read(src, x)), ReadingRecords(Read(src, y)));
    SetsTextConcat(RowEvents(src, x) + RowEvents(src, y), ReadingRecords(Read(src, x)) + ReadingRecords(Read(src, y)));
    if LastValue(PolicySays(src, x, y), BrowserPolicy).Some? {
      LastSetsText(PolicySays(src, x, y));
    }
    ForcedRecord(src, x, y);
  }

  lemma ForcedRecord(src: Source, x: Spec, y: Spec)
    requires PlainRow(y) && y.target == BrowserPolicy && y.kind == Bool && ReadsValue(src, y)
    ensures var last := LastOn(PolicySays(src, x, y), BrowserPolicy);
            last.Some? && last.value.entry.value.BoolValue?
  {
    ReadNames(src, y);
    var record := RecordOf(Read(src, y).loaded);
    var a, b := RowEvents(src, x) + RowEvents(src, y), ReadingRecords(Read(src, x));
    assert ReadingRecords(Read(src, y)) == [record];
    LastOnConcat(a, b + [record], BrowserPolicy);
    LastOnConcat(b, [record], BrowserPolicy);
    LastOnOne(record, BrowserPolicy);
  }

  // ---- the resolver ----

  lemma PolicyIsText(o: Options)
    requires WellTyped(o)
    ensures BrowserPolicy in o && o[BrowserPolicy].TextValue?
  {
    assert TypeOk(BrowserPolicy, o[BrowserPolicy]);
  }

  lemma DefaultsTyped(f: Field)
    ensures TypeOk(f, Default(f))
  {
  }

  lemma BaseTyped(x: Inputs, ctx: Context)
    requires InputsOk(x, ctx)
    ensures WellTyped(Base(x))
  {
    forall f: Field ensures TypeOk(f, Default(f)) {
      DefaultsTyped(f);
    }
  }

  /** Seeding speaks of every option with its own value. */
  lemma SeedLayer(o: Options, source: OptionSource, f: Field, spell: string -> string)
    requires Complete(o)
    ensures LastOn(SeedEvents(o, FIELDS, source), f) == Some(Plain(f, o[f], source))
    ensures LastValue(SeedEvents(o, FIELDS, source), f) == Some(o[f])
    ensures LayerAgrees(SeedEvents(o, FIELDS, source), f, spell)
  {
    EveryFieldListed(f);
    SeedSpeaks(o, FIELDS, source, f);
  }

  lemma {:induction false} SeedSource(o: Options, fields: seq<Field>, source: OptionSource)
    requires Complete(o)
    ensures FromSource(SeedEvents(o, fields, source), source)
  {
    if fields != [] {
      SeedSource(o, Front(fields), source);
    }
  }

  lemma {:induction false} CollectedFromEnvironment(rows: Spec -> seq<Event>, specs: seq<Spec>)
    requires forall s :: FromSource(rows(s), Environment)
    ensures FromSource(Collect(rows, specs), Environment)
  {
    if specs != [] {
      CollectedFromEnvironment(rows, Front(specs));
      FromSourceConcat(Collect(rows, Front(specs)), rows(Last(specs)), Environment);
    }
  }

  lemma EnvironmentSourceOnly(src: Source, specs: seq<Spec>)
    ensures FromSource(EnvironmentEvents(src, specs), Environment)
  {
    CollectedFromEnvironment(RowsOf(src), specs);
    CollectedFromEnvironment(RecordRows(src), specs);
    FromSourceConcat(Collect(RowsOf(src), specs), Collect(RecordRows(src), specs), Environment);
  }

  lemma FiveLayers(a: Layer, b: Layer, c: Layer, d: Layer, e: Layer)
    requires FromSource(a.events, DefaultValue) && FromSource(b.events, Profile) && FromSource(c.events, Environment)
    requires FromSource(d.events, ApiKwargs) && FromSource(e.events, Cli)
    requires a.source == DefaultValue && b.source == Profile && c.source == Environment
    requires d.source == ApiKwargs && e.source == Cli
    ensures Increasing([a, b, c, d, e])
  {
  }

  lemma ProfileLayerSource(x: Inputs, ctx: Context)
    requires InputsOk(x, ctx)
    ensures FromSource(ProfileLayer(x, ctx).events, Profile)
  {
    if HasProfile(x) && Lower(x.profile.value) in ctx.registry {
      SeedSource(ctx.registry[Lower(x.profile.value)].options, FIELDS, Profile);
    }
  }

  lemma EnvironmentLayerSource(src: Source, specs: seq<Spec>)
    ensures FromSource(EnvironmentLayer(src, specs).events, Environment)
  {
    EnvironmentSourceOnly(src, specs);
  }

  lemma LayersIncrease(x: Inputs, ctx: Context, specs: seq<Spec>)
    requires InputsOk(x, ctx)
    ensures Increasing(LayersOf(x, ctx, specs))
  {
    var l := LayersOf(x, ctx, specs);
    SeedSource(Base(x), FIELDS, DefaultValue);
    ProfileLayerSource(x, ctx);
    EnvironmentLayerSource(EnvironmentSource(x, ctx), specs);
    ApiLayer(x.api, NetworkHost);
    CliLayer(x.cli, NetworkHost, ctx.spell);
    FiveLayers(l[0], l[1], l[2], l[3], l[4]);
  }

  /** The source recorded for an option is that of the strongest layer that speaks of it. */
  lemma SourceNamesWinner(x: Inputs, ctx: Context, f: Field)
    requires InputsOk(x, ctx)
    ensures var layers := LayersOf(x, ctx, CORE_SPECS); var entries := RunLayerEntries(map[], layers);
            f in entries && entries[f].source == WinningSource(layers, f)
  {
    var layers := LayersOf(x, ctx, CORE_SPECS);
    LayersIncrease(x, ctx, CORE_SPECS);
    EntriesFollowLayers(layers, f);
    SomeLayerSpeaks(x, ctx, CORE_SPECS, f);
  }

  lemma {:induction false} EarlierLayerSpeaks(layers: seq<Layer>, f: Field, k: nat)
    requires k < |layers| && Speaks(layers[k], f)
    ensures WinningEntry(layers, f).Some?
  {
    if k < |layers| - 1 {
      EarlierLayerSpeaks(Front(layers), f, k);
    }
  }

  lemma SomeLayerSpeaks(x: Inputs, ctx: Context, specs: seq<Spec>, f: Field)
    requires InputsOk(x, ctx)
    ensures WinningEntry(LayersOf(x, ctx, specs), f).Some?
  {
    BaseTyped(x, ctx);
    SeedLayer(Base(x), DefaultValue, f, ctx.spell);
    EarlierLayerSpeaks(LayersOf(x, ctx, specs), f, 0);
  }

  /** NO_BROWSER is set and parses. */
  predicate NoBrowserRead(x: Inputs, ctx: Context, core: seq<Spec>) {
    |core| > 8 && ReadsValue(EnvironmentSource(x, ctx), core[8])
  }

  /** Where the record cannot agree with the option: a NO_BROWSER that no API or command-line policy overrides,
      and an output path cleared on the command line. */
  ghost predicate Misattributed(x: Inputs, ctx: Context, core: seq<Spec>, f: Field) {
    || (f == BrowserPolicy && NoBrowserRead(x, ctx, core) && !Mentions(x.api, "open_browser") && !Mentions(x.cli, "browser"))
    || (f == RecordingOutputPath && CliOutput(x.cli).Some? && !Truthy(CliOutput(x.cli).value))
  }

  lemma UnsetNotRead(src: Source, row: Spec)
    requires src.vars == map[]
    ensures !ReadsValue(src, row)
  {
    NothingPicked(AllNames(row));
  }

  lemma {:induction false} NothingPicked(names: seq<string>)
    ensures Pick(map[], names) == None
  {
    if names != [] {
      NothingPicked(names[1..]);
    }
  }

  lemma EnvironmentLayerAgrees(core: seq<Spec>, src: Source, f: Field, spell: string -> string)
    requires CoreLike(core) && (f == BrowserPolicy ==> !ReadsValue(src, core[8]))
    ensures LayerAgrees(EnvironmentLayer(src, core).events, f, spell)
  {
    if f == BrowserPolicy {
      PolicyUnforced(core, src, spell);
    } else {
      EnvironmentAgreesAt(core, src, f, spell);
    }
  }

  lemma LowerLayersAgree(x: Inputs, ctx: Context, f: Field)
    requires InputsOk(x, ctx)
    ensures LayerAgrees(SeedEvents(Base(x), FIELDS, DefaultValue), f, ctx.spell)
    ensures LayerAgrees(ProfileLayer(x, ctx).events, f, ctx.spell)
  {
    BaseTyped(x, ctx);
    SeedLayer(Base(x), DefaultValue, f, ctx.spell);
    if HasProfile(x) && Lower(x.profile.value) in ctx.registry {
      SeedLayer(ctx.registry[Lower(x.profile.value)].options, Profile, f, ctx.spell);
    }
  }

  ghost predicate StackAgrees(layers: seq<Layer>, f: Field, spell: string -> string) {
    WinningEntry(layers, f).Some? ==>
      WinningValue(layers, f).Some? && Agrees(WinningValue(layers, f).value, WinningEntry(layers, f).value.value, spell)
  }

  lemma StackGrows(layers: seq<Layer>, layer: Layer, f: Field, spell: string -> string)
    requires StackAgrees(layers, f, spell) && LayerAgrees(layer.events, f, spell)
    ensures StackAgrees(layers + [layer], f, spell)
  {
    SetsOnlyWhatItSpeaksOf(layer.events, f);
    assert Front(layers + [layer]) == layers;
  }

  /** A truth value is recorded where the option is a text. */
  ghost predicate Mismatched(layers: seq<Layer>, f: Field) {
    && WinningEntry(layers, f).Some? && WinningEntry(layers, f).value.value.BoolValue?
    && WinningValue(layers, f).Some? && WinningValue(layers, f).value.TextValue?
  }

  /** Defaults and profile. */
  function LowerLayers(x: Inputs, ctx: Context): seq<Layer>
    requires InputsOk(x, ctx)
  {
    [Layer(DefaultValue, SeedEvents(Base(x), FIELDS, DefaultValue))] + [ProfileLayer(x, ctx)]
  }

  lemma WinningLast(layers: seq<Layer>, layer: Layer, f: Field)
    ensures WinningValue(layers + [layer], f)
            == if LastValue(layer.events, f).Some? then LastValue(layer.events, f) else WinningValue(layers, f)
    ensures WinningEntry(layers + [layer], f)
            == if LastOn(layer.events, f).Some? then Some(LastOn(layer.events, f).value.entry) else WinningEntry(layers, f)
  {
    assert Front(layers + [layer]) == layers;
  }

  lemma LowerStack(x: Inputs, ctx: Context, f: Field)
    requires InputsOk(x, ctx)
    ensures StackAgrees(LowerLayers(x, ctx), f, ctx.spell)
    ensures WinningValue(LowerLayers(x, ctx), f).Some? && WinningEntry(LowerLayers(x, ctx), f).Some?
    ensures f == BrowserPolicy ==> WinningValue(LowerLayers(x, ctx), f).value.TextValue?
  {
    var seed := Layer(DefaultValue, SeedEvents(Base(x), FIELDS, DefaultValue));
    BaseTyped(x, ctx);
    PolicyIsText(Base(x));
    SeedLayer(Base(x), DefaultValue, f, ctx.spell);
    LowerLayersAgree(x, ctx, f);
    WinningLast([], seed, f);
    assert [] + [seed] == [seed];
    StackGrows([seed], ProfileLayer(x, ctx), f, ctx.spell);
    WinningLast([seed], ProfileLayer(x, ctx), f);
    if HasProfile(x) && Lower(x.profile.value) in ctx.registry {
      PolicyIsText(ctx.registry[Lower(x.profile.value)].options);
      SeedLayer(ctx.registry[Lower(x.profile.value)].options, Profile, f, ctx.spell);
    }
  }

  /** On top of any stack that sets a field, the environment keeps agreement, except for a policy with a
      NO_BROWSER that parses. */
  lemma EnvironmentStack(core: seq<Spec>, layers: seq<Layer>, src: Source, f: Field, spell: string -> string)
    requires CoreLike(core) && StackAgrees(layers, f, spell) && WinningValue(layers, f).Some?
    requires f == BrowserPolicy ==> WinningValue(layers, f).value.TextValue?
    ensures var t := layers + [EnvironmentLayer(src, core)];
            && WinningValue(t, f).Some?
            && (if f == BrowserPolicy && ReadsValue(src, core[8]) then Mismatched(t, f) else StackAgrees(t, f, spell))
  {
    var layer := EnvironmentLayer(src, core);
    WinningLast(layers, layer, f);
    if f == BrowserPolicy && ReadsValue(src, core[8]) {
      if src.vars == map[] {
        UnsetNotRead(src, core[8]);
      }
      PolicyForced(core, src);
    } else {
      EnvironmentLayerAgrees(core, src, f, spell);
      StackGrows(layers, layer, f, spell);
    }
  }

  /** What a layer above the environment does to a stack. */
  lemma OverrideStack(layers: seq<Layer>, layer: Layer, f: Field, spell: string -> string)
    requires WinningValue(layers, f).Some? && LayerAgrees(layer.events, f, spell)
    ensures WinningValue(layers + [layer], f).Some?
    ensures StackAgrees(layers, f, spell) || LastOn(layer.events, f).Some? ==> StackAgrees(layers + [layer], f, spell)
    ensures Mismatched(layers, f) && LastOn(layer.events, f).None? ==> Mismatched(layers + [layer], f)
  {
    WinningLast(layers, layer, f);
    SetsOnlyWhatItSpeaksOf(layer.events, f);
  }

  lemma OverridesAgree(x: Inputs, f: Field, spell: string -> string)
    ensures LayerAgrees(ApiEvents(x.api), f, spell)
    ensures f == BrowserPolicy ==> (LastOn(ApiEvents(x.api), f).Some? <==> Mentions(x.api, "open_browser"))
    ensures f == BrowserPolicy ==> (LastOn(CliEvents(x.cli, spell), f).Some? <==> Mentions(x.cli, "browser"))
  {
    ApiLayer(x.api, f);
    PlainAgrees(ApiEvents(x.api), f, spell);
    CliLayer(x.cli, f, spell);
  }

  /** The output path cleared on the command line: no option, an empty text in the record. */
  lemma ClearedOutput(layers: seq<Layer>, x: Inputs, spell: string -> string)
    requires CliOutput(x.cli).Some? && !Truthy(CliOutput(x.cli).value)
    ensures var t := layers + [Layer(Cli, CliEvents(x.cli, spell))];
            WinningEntry(t, RecordingOutputPath).Some? && !StackAgrees(t, RecordingOutputPath, spell)
  {
    CliOutputLayer(x.cli, spell);
    WinningLast(layers, Layer(Cli, CliEvents(x.cli, spell)), RecordingOutputPath);
  }

  lemma UpperStack(layers: seq<Layer>, x: Inputs, f: Field, spell: string -> string, forced: bool)
    requires WinningValue(layers, f).Some? && WinningEntry(layers, f).Some?
    requires if forced then f == BrowserPolicy && Mismatched(layers, f) else StackAgrees(layers, f, spell)
    ensures var t := layers + [Layer(ApiKwargs, ApiEvents(x.api))] + [Layer(Cli, CliEvents(x.cli, spell))];
            && WinningEntry(t, f).Some?
            && (StackAgrees(t, f, spell)
                <==> !(forced && !Mentions(x.api, "open_browser") && !Mentions(x.cli, "browser"))
                     && !(f == RecordingOutputPath && CliOutput(x.cli).Some? && !Truthy(CliOutput(x.cli).value)))
  {
    var api, cli := Layer(ApiKwargs, ApiEvents(x.api)), Layer(Cli, CliEvents(x.cli, spell));
    OverridesAgree(x, f, spell);
    OverrideStack(layers, api, f, spell);
    WinningLast(layers, api, f);
    WinningLast(layers + [api], cli, f);
    CliAgrees(x.cli, f, spell);
    if f == RecordingOutputPath && CliOutput(x.cli).Some? && !Truthy(CliOutput(x.cli).value) {
      ClearedOutput(layers + [api], x, spell);
    } else {
      OverrideStack(layers + [api], cli, f, spell);
    }
  }

  lemma LayersSplit(core: seq<Spec>, x: Inputs, ctx: Context)
    requires InputsOk(x, ctx)
    ensures LayersOf(x, ctx, core)
            == LowerLayers(x, ctx) + [EnvironmentLayer(EnvironmentSource(x, ctx), core)]
               + [Layer(ApiKwargs, ApiEvents(x.api))] + [Layer(Cli, CliEvents(x.cli, ctx.spell))]
  {
  }

  lemma MiddleStack(core: seq<Spec>, x: Inputs, ctx: Context, f: Field)
    requires CoreLike(core) && InputsOk(x, ctx)
    ensures var t := LowerLayers(x, ctx) + [EnvironmentLayer(EnvironmentSource(x, ctx), core)];
            && WinningValue(t, f).Some? && WinningEntry(t, f).Some?
            && (if f == BrowserPolicy && NoBrowserRead(x, ctx, core) then Mismatched(t, f) else StackAgrees(t, f, ctx.spell))
  {
    LowerStack(x, ctx, f);
    EnvironmentStack(core, LowerLayers(x, ctx), EnvironmentSource(x, ctx), f, ctx.spell);
    WinningLast(LowerLayers(x, ctx), EnvironmentLayer(EnvironmentSource(x, ctx), core), f);
  }

  lemma AgreementOf(core: seq<Spec>, x: Inputs, ctx: Context, f: Field)
    requires CoreLike(core) && InputsOk(x, ctx)
    ensures var layers := LayersOf(x, ctx, core);
            WinningEntry(layers, f).Some? && (StackAgrees(layers, f, ctx.spell) <==> !Misattributed(x, ctx, core, f))
  {
    MiddleStack(core, x, ctx, f);
    LayersSplit(core, x, ctx);
    UpperStack(LowerLayers(x, ctx) + [EnvironmentLayer(EnvironmentSource(x, ctx), core)], x, f, ctx.spell,
               f == BrowserPolicy && NoBrowserRead(x, ctx, core));
  }

  /** After resolving, every option is the one its provenance describes, except exactly where it is
      misattributed. */
  lemma AgreementExact(x: Inputs, ctx: Context, f: Field)
    requires InputsOk(x, ctx)
    ensures var layers := LayersOf(x, ctx, CORE_SPECS);
            var options, entries := RunLayerOptions(Base(x), layers), RunLayerEntries(map[], layers);
            && f in options && f in entries
            && (Agrees(options[f], entries[f].value, ctx.spell) <==> !Misattributed(x, ctx, CORE_SPECS, f))
  {
    CoreIsCoreLike();
    AgreementOf(CORE_SPECS, x, ctx, f);
    ResolvedAt(CORE_SPECS, x, ctx, f);
  }

  lemma ResolvedAt(core: seq<Spec>, x: Inputs, ctx: Context, f: Field)
    requires InputsOk(x, ctx)
    ensures var layers := LayersOf(x, ctx, core);
            var options, entries := RunLayerOptions(Base(x), layers), RunLayerEntries(map[], layers);
            && f in options && f in entries && WinningValue(layers, f) == Some(options[f]) && WinningEntry(layers, f) == Some(entries[f])
  {
    var layers := LayersOf(x, ctx, core);
    BaseTyped(x, ctx);
    OptionsFollowLayers(Base(x), layers, f);
    LayersIncrease(x, ctx, core);
    EntriesFollowLayers(layers, f);
    SomeLayerSpeaks(x, ctx, core, f);
    SomeLayerSets(x, ctx, core, f);
  }

  lemma {:induction false} EarlierLayerSets(layers: seq<Layer>, f: Field, k: nat)
    requires k < |layers| && LastValue(layers[k].events, f).Some?
    ensures WinningValue(layers, f).Some?
  {
    if k < |layers| - 1 {
      EarlierLayerSets(Front(layers), f, k);
    }
  }

  lemma SomeLayerSets(x: Inputs, ctx: Context, core: seq<Spec>, f: Field)
    requires InputsOk(x, ctx)
    ensures WinningValue(LayersOf(x, ctx, core), f).Some?
  {
    BaseTyped(x, ctx);
    SeedLayer(Base(x), DefaultValue, f, ctx.spell);
    EarlierLayerSets(LayersOf(x, ctx, core), f, 0);
  }

  /** Each option has the value of the strongest layer that sets it. */
  lemma OptionsNameWinner(x: Inputs, ctx: Context, f: Field)
    requires InputsOk(x, ctx)
    ensures var layers := LayersOf(x, ctx, CORE_SPECS); var options := RunLayerOptions(Base(x), layers);
            f in options && WinningValue(layers, f) == Some(options[f])
  {
    ResolvedAt(CORE_SPECS, x, ctx, f);
  }

  lemma UpdateTyped(o: Options, f: Field, v: Value)
    requires WellTyped(o) && TypeOk(f, v)
    ensures WellTyped(o[f := v])
  {
    var p := o[f := v];
    forall g: Field ensures TypeOk(g, p[g]) {
      assert TypeOk(g, o[g]);
    }
  }

  /** The built-in profiles are well typed, so they may be resolved. */
  lemma BuiltinsTyped(name: string)
    requires name in BuiltinProfiles()
    ensures WellTyped(BuiltinProfiles()[name].options)
  {
    var d := DefaultOptions();
    forall f: Field ensures TypeOk(f, Default(f)) {
      DefaultsTyped(f);
    }
    if name == "dev" {
      UpdateTyped(d, DashboardDebug, BoolValue(true));
      UpdateTyped(d[DashboardDebug := BoolValue(true)], DashboardLogLevel, TextValue("DEBUG"));
    } else {
      var quiet := d[DashboardLogLevel := TextValue("WARNING")];
      UpdateTyped(d, DashboardLogLevel, TextValue("WARNING"));
      UpdateTyped(quiet, BrowserPolicy, NEVER);
      var closed := quiet[BrowserPolicy := NEVER];
      if name == "prod" {
        UpdateTyped(closed, ReplayRetention, Whole(3600));
        UpdateTyped(closed[ReplayRetention := Whole(3600)], ReplayBufferCapacity, IntValue(32768));
      } else {
        UpdateTyped(closed, MonitoringStackTraces, BoolValue(false));
      }
    }
  }

  /** NO_BROWSER is set to a truth. */
  predicate NoBrowserTrue(x: Inputs, ctx: Context, core: seq<Spec>) {
    NoBrowserRead(x, ctx, core) && Truthy(Read(EnvironmentSource(x, ctx), core[8]).loaded.value.value)
  }

  lemma ForcedValue(src: Source, x: Spec, y: Spec)
    requires PlainRow(y) && IsNoBrowser(y) && ReadsValue(src, y) && Truthy(Read(src, y).loaded.value.value)
    ensures LastValue(PolicySays(src, x, y), BrowserPolicy) == Some(NEVER)
  {
    ReadNames(src, y);
    var never := RowEvents(src, y)[0];
    assert RowEvents(src, y) == [never];
    LastOnOne(never, BrowserPolicy);
    var records := ReadingRecords(Read(src, x)) + ReadingRecords(Read(src, y));
    RecordsAreSilent(Read(src, x));
    RecordsAreSilent(Read(src, y));
    LastOnConcat(RowEvents(src, x), [never], BrowserPolicy);
    LastOnConcat(ReadingRecords(Read(src, x)), ReadingRecords(Read(src, y)), BrowserPolicy);
    LastOnConcat(RowEvents(src, x) + RowEvents(src, y), records, BrowserPolicy);
  }

  lemma RecordsAreSilent(r: Reading)
    ensures LastValue(ReadingRecords(r), BrowserPolicy) == None
  {
    if r.Parsed? && r.loaded.value.Some? {
      LastOnOne(RecordOf(r.loaded), BrowserPolicy);
    }
  }

  lemma ForcedLayer(core: seq<Spec>, x: Inputs, ctx: Context)
    requires CoreLike(core) && NoBrowserTrue(x, ctx, core)
    ensures LastValue(EnvironmentLayer(EnvironmentSource(x, ctx), core).events, BrowserPolicy) == Some(NEVER)
  {
    var src := EnvironmentSource(x, ctx);
    if src.vars == map[] {
      UnsetNotRead(src, core[8]);
    }
    PolicyRowKinds(core);
    assert RowOk(core[8], 8);
    PolicyReduces(core, src);
    ForcedValue(src, core[7], core[8]);
  }

  /** A true NO_BROWSER makes the policy never, whatever base, profile and BROWSER say, unless the API or the
      command line names a policy. */
  lemma NoBrowserForcesNever(core: seq<Spec>, x: Inputs, ctx: Context)
    requires CoreLike(core) && InputsOk(x, ctx) && NoBrowserTrue(x, ctx, core)
    requires !Mentions(x.api, "open_browser") && !Mentions(x.cli, "browser")
    ensures var options := RunLayerOptions(Base(x), LayersOf(x, ctx, core));
            BrowserPolicy in options && options[BrowserPolicy] == NEVER
  {
    var environment := EnvironmentLayer(EnvironmentSource(x, ctx), core);
    var api, cli := Layer(ApiKwargs, ApiEvents(x.api)), Layer(Cli, CliEvents(x.cli, ctx.spell));
    var lower := LowerLayers(x, ctx);
    ForcedLayer(core, x, ctx);
    OverridesAgree(x, BrowserPolicy, ctx.spell);
    SetsOnlyWhatItSpeaksOf(api.events, BrowserPolicy);
    SetsOnlyWhatItSpeaksOf(cli.events, BrowserPolicy);
    WinningLast(lower, environment, BrowserPolicy);
    WinningLast(lower + [environment], api, BrowserPolicy);
    WinningLast(lower + [environment] + [api], cli, BrowserPolicy);
    LayersSplit(core, x, ctx);
    ResolvedAt(core, x, ctx, BrowserPolicy);
  }
}
