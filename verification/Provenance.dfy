/** Where each option's value came from: a map that a record may overwrite unless it comes from a weaker source. */
module Provenance {
  import opened Prelude
  import opened RuntimeOptions

  datatype OptionSource = Unset | DefaultValue | Profile | ConfigFile | Environment | ApiKwargs | Cli | Override

  function Rank(s: OptionSource): nat {
    match s
    case Unset => 0
    case DefaultValue => 10
    case Profile => 20
    case ConfigFile => 30
    case Environment => 40
    case ApiKwargs => 50
    case Cli => 60
    case Override => 70
  }

  predicate Precedes(a: OptionSource, b: OptionSource) {
    Rank(a) >= Rank(b)
  }

  /** From the weakest to the strongest, a source overwrites what the ones up to itself have recorded. */
  lemma SourcesInOrder(i: nat, j: nat)
    requires i < 8 && j < 8
    ensures var sources := [Unset, DefaultValue, Profile, ConfigFile, Environment, ApiKwargs, Cli, Override];
            Precedes(sources[i], sources[j]) <==> i >= j
  {
  }

  datatype Entry = Entry(value: Value, source: OptionSource, raw: Option<string>)

  type Entries = map<Field, Entry>

  function Record(entries: Entries, key: Field, entry: Entry): Entries {
    if key in entries && !Precedes(entry.source, entries[key].source) then entries else entries[key := entry]
  }

  /** What one step of the resolver does to one option: it records where a value came from and, unless the
      record stands alone, sets the option. */
  datatype Event = Event(field: Field, value: Option<Value>, entry: Entry)

  function Front<T>(s: seq<T>): seq<T>
    requires s != []
  {
    s[..|s| - 1]
  }

  function Last<T>(s: seq<T>): T
    requires s != []
  {
    s[|s| - 1]
  }

  function Assign(o: Options, e: Event): Options {
    if e.value.Some? then o[e.field := e.value.value] else o
  }

  function RunOptions(o: Options, events: seq<Event>): Options {
    if events == [] then o else Assign(RunOptions(o, Front(events)), Last(events))
  }

  function RunEntries(entries: Entries, events: seq<Event>): Entries {
    if events == [] then entries
    else Record(RunEntries(entries, Front(events)), Last(events).field, Last(events).entry)
  }

  class ProvenanceMap {
    var entries: Entries

    constructor ()
      ensures entries == map[]
    {
      entries := map[];
    }

    method Store(key: Field, value: Value, source: OptionSource, raw: Option<string>)
      modifies this
      ensures entries == Record(old(entries), key, Entry(value, source, raw))
      ensures forall k :: k != key ==> (k in entries <==> k in old(entries))
      ensures forall k :: k != key && k in entries ==> entries[k] == old(entries)[k]
    {
      if key in entries {
        if !Precedes(source, entries[key].source) {
          return;
        }
      }
      entries := entries[key := Entry(value, source, raw)];
    }
  }

  // ---- runs of events ----

  lemma {:induction false} RunConcat(o: Options, entries: Entries, a: seq<Event>, b: seq<Event>)
    ensures RunOptions(o, a + b) == RunOptions(RunOptions(o, a), b)
    ensures RunEntries(entries, a + b) == RunEntries(RunEntries(entries, a), b)
  {
    if b == [] {
      assert a + b == a;
    } else {
      assert Front(a + b) == a + Front(b);
      RunConcat(o, entries, a, Front(b));
    }
  }

  lemma RunAppend(o: Options, entries: Entries, events: seq<Event>, e: Event)
    ensures RunOptions(o, events + [e]) == Assign(RunOptions(o, events), e)
    ensures RunEntries(entries, events + [e]) == Record(RunEntries(entries, events), e.field, e.entry)
  {
    assert Front(events + [e]) == events;
  }

  lemma RunSingle(o: Options, entries: Entries, e: Event)
    ensures RunOptions(o, [e]) == Assign(o, e)
    ensures RunEntries(entries, [e]) == Record(entries, e.field, e.entry)
  {
    assert Front([e]) == [];
  }

  lemma RunCouple(o: Options, entries: Entries, a: Event, b: Event)
    ensures RunOptions(o, [a, b]) == Assign(Assign(o, a), b)
    ensures RunEntries(entries, [a, b]) == Record(Record(entries, a.field, a.entry), b.field, b.entry)
  {
    assert Front([a, b]) == [a];
    RunSingle(o, entries, a);
  }

  ghost predicate Silent(events: seq<Event>, f: Field) {
    forall i :: 0 <= i < |events| ==> events[i].field != f
  }

  /** A run without events on a field leaves its value and its entry alone. */
  lemma {:induction false} SilentRun(o: Options, entries: Entries, events: seq<Event>, f: Field)
    requires Silent(events, f)
    ensures var p := RunOptions(o, events); (f in p <==> f in o) && (f in o ==> p[f] == o[f])
    ensures var q := RunEntries(entries, events); (f in q <==> f in entries) && (f in entries ==> q[f] == entries[f])
  {
    if events != [] {
      SilentRun(o, entries, Front(events), f);
    }
  }

  /** The record that survives: of maximal source, and the last of those. */
  ghost predicate LastMaximal(events: seq<Event>, f: Field, i: nat) {
    && i < |events| && events[i].field == f
    && (forall j :: 0 <= j < |events| && events[j].field == f ==> Rank(events[j].entry.source) <= Rank(events[i].entry.source))
    && (forall j :: i < j < |events| && events[j].field == f ==> Rank(events[j].entry.source) < Rank(events[i].entry.source))
  }

  function Surviving(events: seq<Event>, f: Field): (r: Option<nat>)
    ensures r.Some? ==> r.value < |events|
  {
    if events == [] then None
    else
      var earlier := Surviving(Front(events), f);
      if Last(events).field != f then earlier
      else if earlier.Some? && !Precedes(Last(events).entry.source, events[earlier.value].entry.source) then earlier
      else Some(|events| - 1)
  }

  lemma {:induction false} SurvivingIsStored(events: seq<Event>, f: Field)
    ensures var kept := Surviving(events, f);
            && (f in RunEntries(map[], events) <==> kept.Some?)
            && (kept.Some? ==> RunEntries(map[], events)[f] == events[kept.value].entry)
  {
    if events != [] {
      SurvivingIsStored(Front(events), f);
      var earlier := Surviving(Front(events), f);
      assert earlier.Some? ==> Front(events)[earlier.value] == events[earlier.value];
    }
  }

  lemma LastMaximalGrows(events: seq<Event>, f: Field, i: nat)
    requires events != [] && LastMaximal(Front(events), f, i)
    ensures Last(events).field != f || Rank(Last(events).entry.source) < Rank(events[i].entry.source)
            ==> LastMaximal(events, f, i)
    ensures Last(events).field == f && Rank(Last(events).entry.source) >= Rank(events[i].entry.source)
            ==> LastMaximal(events, f, |events| - 1)
  {
    assert forall j :: 0 <= j < |events| - 1 ==> Front(events)[j] == events[j];
  }

  lemma FirstRecord(events: seq<Event>, f: Field)
    requires events != [] && Silent(Front(events), f) && Last(events).field == f
    ensures LastMaximal(events, f, |events| - 1)
  {
    assert forall j :: 0 <= j < |events| - 1 ==> Front(events)[j] == events[j];
  }

  lemma {:induction false} NoneSurvives(events: seq<Event>, f: Field)
    ensures Surviving(events, f).None? <==> Silent(events, f)
  {
    if events != [] {
      NoneSurvives(Front(events), f);
      assert forall j :: 0 <= j < |events| - 1 ==> Front(events)[j] == events[j];
    }
  }

  lemma {:induction false} SurvivingIsLastMaximal(events: seq<Event>, f: Field)
    requires Surviving(events, f).Some?
    ensures LastMaximal(events, f, Surviving(events, f).value)
  {
    var earlier := Surviving(Front(events), f);
    if earlier.Some? {
      SurvivingIsLastMaximal(Front(events), f);
      LastMaximalGrows(events, f, earlier.value);
      assert Front(events)[earlier.value] == events[earlier.value];
    } else {
      NoneSurvives(Front(events), f);
      FirstRecord(events, f);
    }
  }

  lemma LastMaximalUnique(events: seq<Event>, f: Field, i: nat, j: nat)
    requires LastMaximal(events, f, i) && LastMaximal(events, f, j)
    ensures i == j
  {
  }

  /** Whatever the order of the records, the map holds for each key the last record of maximal source. */
  lemma RecordKeepsLastMaximal(events: seq<Event>, f: Field, i: nat)
    requires LastMaximal(events, f, i)
    ensures f in RunEntries(map[], events) && RunEntries(map[], events)[f] == events[i].entry
  {
    NoneSurvives(events, f);
    SurvivingIsStored(events, f);
    SurvivingIsLastMaximal(events, f);
    LastMaximalUnique(events, f, i, Surviving(events, f).value);
  }

  /** A key has an entry exactly when it was recorded, and then some record of it is the last of maximal
      source. */
  lemma RecordedKeys(events: seq<Event>, f: Field)
    ensures f in RunEntries(map[], events) <==> !Silent(events, f)
    ensures !Silent(events, f) ==> exists i: nat :: LastMaximal(events, f, i)
  {
    NoneSurvives(events, f);
    SurvivingIsStored(events, f);
    if Surviving(events, f).Some? {
      SurvivingIsLastMaximal(events, f);
    }
  }
}
