/** What the provenance map says of a variable, for any table of variables: its value and its text, or that it is
    a secret. */
module EnvironmentRecords {
  import opened Prelude
  import opened PythonText
  import opened Sequences
  import opened RuntimeOptions
  import opened Provenance
  import opened Layering
  import opened EnvironmentMapping
  import opened EnvironmentLoading
  import opened EnvironmentOrder
  import opened RuntimeResolving
  import opened ProvenanceAgreement
  import opened ResolutionInputs

  // ---- secret names ----

  /** A text of capital letters and underscores. */
  predicate Capital(s: string) {
    forall i :: 0 <= i < |s| ==> s[i] == '_' || 'A' <= s[i] <= 'Z'
  }

  lemma CaseOf(c: char, capital: char)
    requires capital == '_' || 'A' <= capital <= 'Z'
    ensures UpperChar(c) == capital <==> LowerChar(c) == LowerChar(capital)
  {
  }

  lemma EndingFolds(s: string, tail: string)
    requires Capital(tail)
    ensures EndsWith(Map(s, UpperChar), tail) <==> EndsWith(Lower(s), Lower(tail))
  {
    if |tail| <= |s| {
      var n := |s| - |tail|;
      forall i | 0 <= i < |tail| ensures Map(s, UpperChar)[n..][i] == tail[i] <==> Lower(s)[n..][i] == Lower(tail)[i] {
        CaseOf(s[n + i], tail[i]);
      }
    }
  }

  /** A name that ends, in whatever case, with a word for a secret. */
  predicate SecretName(name: string) {
    || EndsWith(Lower(name), "_token") || EndsWith(Lower(name), "_secret")
    || EndsWith(Lower(name), "_password") || EndsWith(Lower(name), "_key")
  }

  lemma SecretKeyExactly(key: string)
    ensures IsSecretKey(key) <==> SecretName(key)
  {
    var tails := ["_TOKEN", "_SECRET", "_PASSWORD", "_KEY"];
    assert Lower(tails[0]) == "_token" && Lower(tails[1]) == "_secret";
    assert Lower(tails[2]) == "_password" && Lower(tails[3]) == "_key";
    forall i | 0 <= i < 4 ensures EndsWith(Map(key, UpperChar), tails[i]) <==> EndsWith(Lower(key), Lower(tails[i])) {
      EndingFolds(key, tails[i]);
    }
    assert SECRET_SUFFIXES == tails;
  }

  // ---- the records of a table ----

  /** What is recorded of a variable that was read. */
  function RowEntry(src: Source, row: Spec, f: Field): Option<Entry> {
    match Read(src, row)
    case Parsed(item) => ItemEntry(item, f)
    case _ => None
  }

  function ItemEntry(item: Loaded, f: Field): Option<Entry> {
    if item.spec.target != f || item.value.None? then None
    else if item.spec.secret || SecretName(item.envName)
      then Some(Entry(TextValue("<redacted>"), Environment, Some("<redacted>")))
    else Some(Entry(item.value.value, Environment, Some(item.raw)))
  }

  /** The output path's row also records that recording is on, with the text of the path. */
  function EnabledEntry(src: Source, row: Spec): Option<Entry> {
    var reading := Read(src, row);
    if row.target == RecordingOutputPath && reading.Parsed? && reading.loaded.value.Some?
    then Some(Entry(BoolValue(true), Environment, Some(reading.loaded.raw))) else None
  }

  /** The last row with something to record of the option. */
  function LastRecord(src: Source, specs: seq<Spec>, f: Field): Option<Entry> {
    if specs == [] then None
    else if RowEntry(src, Last(specs), f).Some? then RowEntry(src, Last(specs), f)
    else LastRecord(src, Front(specs), f)
  }

  function LastEnabled(src: Source, specs: seq<Spec>): Option<Entry> {
    if specs == [] then None
    else if EnabledEntry(src, Last(specs)).Some? then EnabledEntry(src, Last(specs))
    else LastEnabled(src, Front(specs))
  }

  function EntryOn(events: seq<Event>, f: Field): Option<Entry> {
    match LastOn(events, f)
    case Some(e) => Some(e.entry)
    case None => None
  }

  lemma ItemRecorded(item: Loaded, f: Field)
    ensures EntryOn(RecordsOf(item), f) == ItemEntry(item, f)
  {
    SecretKeyExactly(item.envName);
    if item.value.Some? {
      LastOnOne(RecordOf(item), f);
    }
  }

  lemma RowRecorded(src: Source, row: Spec, f: Field)
    ensures EntryOn(RecordRows(src)(row), f) == RowEntry(src, row, f)
  {
    if Read(src, row).Parsed? {
      ItemRecorded(Read(src, row).loaded, f);
    }
  }

  lemma {:induction false} RecordsExactly(src: Source, specs: seq<Spec>, f: Field)
    ensures EntryOn(Collect(RecordRows(src), specs), f) == LastRecord(src, specs, f)
  {
    if specs != [] {
      RecordsExactly(src, Front(specs), f);
      RowRecorded(src, Last(specs), f);
      LastOnConcat(Collect(RecordRows(src), Front(specs)), RecordRows(src)(Last(specs)), f);
    }
  }

  /** What applying a row records of an option with no record of its own: only recording.enabled can be one. */
  lemma AppliedUnrecorded(src: Source, row: Spec, f: Field)
    requires RowEntry(src, row, f) == None
    ensures EntryOn(RowEvents(src, row), f) == if f == RecordingEnabled then EnabledEntry(src, row) else None
  {
    PickedSpec(src, row);
    var events := RowEvents(src, row);
    if |events| == 1 {
      assert events == [events[0]];
      LastOnOne(events[0], f);
    } else if |events| == 2 {
      assert events == [events[0], events[1]];
      LastOnTwo(events[0], events[1], f);
    }
  }

  lemma {:induction false} UnrecordedExactly(src: Source, specs: seq<Spec>, f: Field)
    requires LastRecord(src, specs, f) == None
    ensures EntryOn(TableEvents(src, specs), f) == if f == RecordingEnabled then LastEnabled(src, specs) else None
  {
    if specs != [] {
      UnrecordedExactly(src, Front(specs), f);
      AppliedUnrecorded(src, Last(specs), f);
      LastOnConcat(TableEvents(src, Front(specs)), RowEvents(src, Last(specs)), f);
    }
  }

  /** What the environment leaves recorded of an option: the value and text of the last row that sets it, a secret
      only as such; and of recording.enabled the text of the last output path. */
  lemma EnvironmentRecorded(src: Source, specs: seq<Spec>, f: Field)
    ensures EntryOn(EnvironmentEvents(src, specs), f)
            == if LastRecord(src, specs, f).Some? then LastRecord(src, specs, f)
               else if f == RecordingEnabled then LastEnabled(src, specs) else None
  {
    RecordsExactly(src, specs, f);
    LastOnConcat(TableEvents(src, specs), Collect(RecordRows(src), specs), f);
    if LastRecord(src, specs, f).None? {
      UnrecordedExactly(src, specs, f);
    }
  }

  // ---- secrets ----

  ghost predicate AllSecret(specs: seq<Spec>, f: Field) {
    forall i :: 0 <= i < |specs| && specs[i].target == f ==> specs[i].secret
  }

  lemma {:induction false} SecretRecord(src: Source, specs: seq<Spec>, f: Field)
    requires AllSecret(specs, f) && LastRecord(src, specs, f).Some?
    ensures LastRecord(src, specs, f) == Some(Entry(TextValue("<redacted>"), Environment, Some("<redacted>")))
  {
    assert Last(specs).target == f ==> Last(specs).secret;
    if RowEntry(src, Last(specs), f).None? {
      SecretRecord(src, Front(specs), f);
    }
  }

  /** Neither defaults nor a profile are recorded as the environment. */
  lemma SeedEntry(x: Inputs, ctx: Context, f: Field)
    requires InputsOk(x, ctx) && Complete(Base(x))
    ensures WinningEntry(LowerTwo(x, ctx), f).Some? && WinningEntry(LowerTwo(x, ctx), f).value.source != Environment
  {
    var seed, profile := Layer(DefaultValue, SeedEvents(Base(x), FIELDS, DefaultValue)), ProfileLayer(x, ctx);
    SeedLayer(Base(x), DefaultValue, f, ctx.spell);
    WinningLast([], seed, f);
    assert [] + [seed] == [seed];
    WinningLast([seed], profile, f);
    if HasProfile(x) && Lower(x.profile.value) in ctx.registry {
      SeedLayer(ctx.registry[Lower(x.profile.value)].options, Profile, f, ctx.spell);
    }
  }

  /** An entry below the overrides that names the environment is what the environment left. */
  lemma LowerEntry(layers: seq<Layer>, events: seq<Event>, f: Field, entry: Entry)
    requires WinningEntry(layers, f).Some? && WinningEntry(layers, f).value.source != Environment
    requires WinningEntry(layers + [Layer(Environment, events)], f) == Some(entry) && entry.source == Environment
    ensures EntryOn(events, f) == Some(entry)
  {
    WinningLast(layers, Layer(Environment, events), f);
  }

  lemma EnvironmentEntry(x: Inputs, ctx: Context, specs: seq<Spec>, f: Field)
    requires InputsOk(x, ctx)
    ensures var entries := RunLayerEntries(map[], LayersOf(x, ctx, specs));
            f in entries && (entries[f].source == Environment ==>
              Some(entries[f]) == EntryOn(EnvironmentEvents(Variables(x, ctx), specs), f))
  {
    ResolvedFromInputs(x, ctx, specs, f);
    LowerThree(x, ctx, specs);
    SeedEntry(x, ctx, f);
    var entries := RunLayerEntries(map[], LayersOf(x, ctx, specs));
    if entries[f].source == Environment {
      LowerEntry(LowerTwo(x, ctx), EnvironmentLayer(Variables(x, ctx), specs).events, f, entries[f]);
    }
  }

  /** An option that only secret variables set is never shown with a value or a text from the environment, but for
      recording.enabled. */
  lemma SecretsHidden(x: Inputs, ctx: Context, specs: seq<Spec>, f: Field)
    requires InputsOk(x, ctx) && AllSecret(specs, f) && f != RecordingEnabled
    ensures var entries := RunLayerEntries(map[], LayersOf(x, ctx, specs));
            f in entries && (entries[f].source == Environment ==>
              entries[f] == Entry(TextValue("<redacted>"), Environment, Some("<redacted>")))
  {
    var src := Variables(x, ctx);
    EnvironmentEntry(x, ctx, specs, f);
    EnvironmentRecorded(src, specs, f);
    if LastRecord(src, specs, f).Some? {
      SecretRecord(src, specs, f);
    }
  }

  /** Unless a variable of its own sets it, recording.enabled shows the text of the output path, also of a secret one. */
  lemma {:induction false} EnabledShowsPath(x: Inputs, ctx: Context, specs: seq<Spec>)
    requires InputsOk(x, ctx) && forall i :: 0 <= i < |specs| ==> specs[i].target != RecordingEnabled
    ensures var entries := RunLayerEntries(map[], LayersOf(x, ctx, specs));
            RecordingEnabled in entries && (entries[RecordingEnabled].source == Environment ==>
              Some(entries[RecordingEnabled]) == LastEnabled(Variables(x, ctx), specs))
  {
    EnvironmentEntry(x, ctx, specs, RecordingEnabled);
    EnvironmentRecorded(Variables(x, ctx), specs, RecordingEnabled);
    NoRecord(Variables(x, ctx), specs, RecordingEnabled);
  }

  lemma {:induction false} NoRecord(src: Source, specs: seq<Spec>, f: Field)
    requires forall i :: 0 <= i < |specs| ==> specs[i].target != f
    ensures LastRecord(src, specs, f) == None
  {
    if specs != [] {
      NoRecord(src, Front(specs), f);
    }
  }
}
