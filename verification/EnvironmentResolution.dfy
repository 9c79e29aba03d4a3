/** Folding what was loaded into the options and the provenance map. */
module EnvironmentApplying {
  import opened Prelude
  import opened Sequences
  import opened RuntimeOptions
  import opened Provenance
  import opened EnvironmentMapping
  import opened EnvironmentLoading

  const NEVER: Value := TextValue("never")
  const REDACTED: string := "<redacted>"

  function FromEnvironment(field: Field, value: Value, recorded: Value, raw: Option<string>): Event {
    Event(field, Some(value), Entry(recorded, Environment, raw))
  }

  function AsText(v: Value): Value {
    TextValue(StrOf(v))
  }

  /** What applying one parsed variable does. A false NO_BROWSER does nothing; an output path also turns
      recording on. */
  function EventsOf(item: Loaded): seq<Event> {
    if item.value.None? then []
    else
      var value := item.value.value;
      var raw := Some(item.raw);
      if IsNoBrowser(item.spec) then
        if Truthy(value) then [FromEnvironment(BrowserPolicy, NEVER, NEVER, raw)] else []
      else if item.spec.target == RecordingOutputPath then
        [FromEnvironment(RecordingOutputPath, value, AsText(value), raw),
         FromEnvironment(RecordingEnabled, BoolValue(true), BoolValue(true), raw)]
      else
        var shown := if item.spec.secret then None else raw;
        if item.spec.target == RecordingInclude || item.spec.target == RecordingExclude then
          [FromEnvironment(item.spec.target, value, value, shown)]
        else
          [FromEnvironment(item.spec.target, value, if item.spec.secret then TextValue(REDACTED) else value, shown)]
  }

  function EventsOfAll(loaded: seq<Loaded>): seq<Event> {
    if loaded == [] then [] else EventsOfAll(Front(loaded)) + EventsOf(Last(loaded))
  }

  predicate Applies(item: Loaded) {
    EventsOf(item) != []
  }

  const APPLIES: Loaded -> bool := (l: Loaded) => Applies(l)

  /** One variable; None when there is nothing to change. */
  method ApplyOne(options: Options, item: Loaded, provenance: ProvenanceMap) returns (r: Option<Options>)
    requires item.value.Some?
    modifies provenance
    ensures r.Some? <==> Applies(item)
    ensures r.Some? ==> r.value == RunOptions(options, EventsOf(item))
    ensures provenance.entries == RunEntries(old(provenance.entries), EventsOf(item))
  {
    var value := item.value.value;
    ghost var events := EventsOf(item);
    if IsNoBrowser(item.spec) {
      if !Truthy(value) {
        return None;
      }
      provenance.Store(BrowserPolicy, NEVER, Environment, Some(item.raw));
      RunSingle(options, old(provenance.entries), events[0]);
      return Some(options[BrowserPolicy := NEVER]);
    }
    if item.spec.target == RecordingOutputPath {
      provenance.Store(RecordingOutputPath, AsText(value), Environment, Some(item.raw));
      provenance.Store(RecordingEnabled, BoolValue(true), Environment, Some(item.raw));
      RunCouple(options, old(provenance.entries), events[0], events[1]);
      return Some(options[RecordingOutputPath := value][RecordingEnabled := BoolValue(true)]);
    }
    var shown := if item.spec.secret then None else Some(item.raw);
    var recorded := value;
    if item.spec.target != RecordingInclude && item.spec.target != RecordingExclude && item.spec.secret {
      recorded := TextValue(REDACTED);
    }
    provenance.Store(item.spec.target, recorded, Environment, shown);
    RunSingle(options, old(provenance.entries), events[0]);
    return Some(options[item.spec.target := value]);
  }

  /** Applying these variables in order gives these options, entries and count. */
  ghost predicate AppliedTo(base: Options, entries: Entries, loaded: seq<Loaded>, o: Options, e: Entries, count: nat) {
    && o == RunOptions(base, EventsOfAll(loaded))
    && e == RunEntries(entries, EventsOfAll(loaded))
    && count == |Filter(loaded, APPLIES)|
  }

  lemma ItemApplied(base: Options, entries: Entries, loaded: seq<Loaded>, i: nat, o: Options, e: Entries, count: nat)
    requires i < |loaded| && AppliedTo(base, entries, loaded[..i], o, e, count)
    ensures AppliedTo(base, entries, loaded[..i + 1], RunOptions(o, EventsOf(loaded[i])), RunEntries(e, EventsOf(loaded[i])),
                      count + (if Applies(loaded[i]) then 1 else 0))
  {
    assert loaded[..i + 1] == loaded[..i] + [loaded[i]];
    assert Front(loaded[..i + 1]) == loaded[..i];
    FilterAppend(loaded[..i], [loaded[i]], APPLIES);
    RunConcat(base, entries, EventsOfAll(loaded[..i]), EventsOf(loaded[i]));
  }

  /** A failure is passed over. */
  method ApplyItem(options: Options, item: Loaded, provenance: ProvenanceMap) returns (r: Options, applied: nat)
    modifies provenance
    ensures r == RunOptions(options, EventsOf(item))
    ensures provenance.entries == RunEntries(old(provenance.entries), EventsOf(item))
    ensures applied == if Applies(item) then 1 else 0
  {
    r, applied := options, 0;
    if item.value.Some? {
      var next := ApplyOne(options, item, provenance);
      if next.Some? {
        r, applied := next.value, 1;
      }
    }
  }

  /** The loader's successes are applied in order; failures change nothing. */
  method ApplyLoaderResult(base: Options, result: LoaderResult, provenance: ProvenanceMap)
    returns (options: Options, applied: nat, failed: nat)
    modifies provenance
    ensures options == RunOptions(base, EventsOfAll(result.loaded))
    ensures provenance.entries == RunEntries(old(provenance.entries), EventsOfAll(result.loaded))
    ensures applied == |Filter(result.loaded, APPLIES)| && failed == result.failedCount
  {
    options, applied := base, 0;
    for i := 0 to |result.loaded|
      invariant AppliedTo(base, old(provenance.entries), result.loaded[..i], options, provenance.entries, applied)
    {
      ItemApplied(base, old(provenance.entries), result.loaded, i, options, provenance.entries, applied);
      var more: nat;
      options, more := ApplyItem(options, result.loaded[i], provenance);
      applied := applied + more;
    }
    assert result.loaded[..|result.loaded|] == result.loaded;
    failed := result.failedCount;
  }
}
