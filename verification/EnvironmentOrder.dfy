/** How the result of loading and applying depends on the order of the table. */
module EnvironmentOrder {
  import opened Sequences
  import opened RuntimeOptions
  import opened Provenance
  import opened EnvironmentMapping
  import opened EnvironmentLoading
  import opened EnvironmentApplying

  function ReadingEvents(r: Reading): seq<Event> {
    if r.Parsed? then EventsOf(r.loaded) else []
  }

  /** What one row of the table does to the options and the provenance. */
  function RowEvents(src: Source, spec: Spec): seq<Event> {
    ReadingEvents(Read(src, spec))
  }

  function RowsOf(src: Source): Spec -> seq<Event> {
    (s: Spec) => RowEvents(src, s)
  }

  function Collect(rows: Spec -> seq<Event>, specs: seq<Spec>): seq<Event> {
    if specs == [] then [] else Collect(rows, Front(specs)) + rows(Last(specs))
  }

  lemma CollectSingle(rows: Spec -> seq<Event>, x: Spec)
    ensures Collect(rows, [x]) == rows(x)
  {
    assert Front([x]) == [];
    assert [] + rows(x) == rows(x);
  }

  lemma CollectPair(rows: Spec -> seq<Event>, x: Spec, y: Spec)
    ensures Collect(rows, [x, y]) == rows(x) + rows(y)
  {
    assert Front([x, y]) == [x];
    CollectSingle(rows, x);
  }

  function TableEvents(src: Source, specs: seq<Spec>): seq<Event> {
    Collect(RowsOf(src), specs)
  }

  /** Loading a table and applying what was loaded does what its rows do, one after the other. */
  lemma {:induction false} TableEventsAreApplied(src: Source, specs: seq<Spec>)
    ensures EventsOfAll(LoadedOf(src, specs)) == TableEvents(src, specs)
  {
    if specs != [] {
      TableEventsAreApplied(src, Front(specs));
      var before, reading := LoadedOf(src, Front(specs)), Read(src, Last(specs));
      if reading.Parsed? {
        assert Front(before + [reading.loaded]) == before;
      } else {
        assert before + [] == before;
      }
    }
  }

  /** load_and_apply: read the table from the environment and fold it into the options and the provenance. */
  method LoadAndApply(base: Options, src: Source, specs: seq<Spec>, provenance: ProvenanceMap)
    returns (options: Options, applied: nat, result: LoaderResult)
    modifies provenance
    ensures options == RunOptions(base, TableEvents(src, specs))
    ensures provenance.entries == RunEntries(old(provenance.entries), TableEvents(src, specs))
    ensures result.loaded == LoadedOf(src, specs) && applied == |Filter(result.loaded, APPLIES)|
  {
    result := Load(src, specs);
    var failed: nat;
    options, applied, failed := ApplyLoaderResult(base, result, provenance);
    TableEventsAreApplied(src, specs);
  }

  predicate Touches(spec: Spec, f: Field) {
    spec.target == f || (spec.target == RecordingOutputPath && f == RecordingEnabled)
  }

  function Touching(f: Field): Spec -> bool {
    (s: Spec) => Touches(s, f)
  }

  function OnField(f: Field): Event -> bool {
    (e: Event) => e.field == f
  }

  /** A row acts on the fields it touches and no others. */
  lemma RowEventsTouch(src: Source, spec: Spec, f: Field)
    requires !Touches(spec, f)
    ensures Silent(RowEvents(src, spec), f)
  {
    PickedSpec(src, spec);
  }

  lemma PickedSpec(src: Source, spec: Spec)
    ensures Read(src, spec).Parsed? ==> Read(src, spec).loaded.spec == spec
  {
  }

  lemma {:induction false} SilentFilter(events: seq<Event>, f: Field)
    requires Silent(events, f)
    ensures Filter(events, OnField(f)) == []
  {
    if events != [] {
      SilentFilter(events[1..], f);
    }
  }

  ghost predicate SameAt<V>(p: map<Field, V>, q: map<Field, V>, f: Field) {
    (f in p <==> f in q) && (f in p ==> p[f] == q[f])
  }

  lemma AssignAtField(o: Options, p: Options, e: Event, f: Field)
    requires SameAt(o, p, f)
    ensures SameAt(Assign(o, e), Assign(p, e), f)
    ensures e.field != f ==> SameAt(Assign(o, e), p, f)
  {
  }

  lemma RecordAtField(p: Entries, q: Entries, e: Event, f: Field)
    requires SameAt(p, q, f)
    ensures SameAt(Record(p, e.field, e.entry), Record(q, e.field, e.entry), f)
    ensures e.field != f ==> SameAt(Record(p, e.field, e.entry), q, f)
  {
  }

  /** The value and the entry of a field depend on the events on that field alone. */
  lemma {:induction false} RunAtField(o: Options, entries: Entries, events: seq<Event>, f: Field)
    ensures SameAt(RunOptions(o, events), RunOptions(o, Filter(events, OnField(f))), f)
    ensures SameAt(RunEntries(entries, events), RunEntries(entries, Filter(events, OnField(f))), f)
  {
    if events != [] {
      var before, last := Front(events), Last(events);
      var own := Filter(before, OnField(f));
      RunAtField(o, entries, before, f);
      FilterLast(events, OnField(f));
      RunAppend(o, entries, own, last);
      AssignAtField(RunOptions(o, before), RunOptions(o, own), last, f);
      RecordAtField(RunEntries(entries, before), RunEntries(entries, own), last, f);
      assert last.field != f ==> own + [] == own;
    }
  }

  lemma CollectAppend(rows: Spec -> seq<Event>, specs: seq<Spec>, last: Spec, f: Field)
    ensures Filter(Collect(rows, specs + [last]), OnField(f))
            == Filter(Collect(rows, specs), OnField(f)) + Filter(rows(last), OnField(f))
  {
    assert Front(specs + [last]) == specs;
    FilterAppend(Collect(rows, specs), rows(last), OnField(f));
  }

  ghost predicate RowsTouch(rows: Spec -> seq<Event>, f: Field) {
    forall s :: !Touches(s, f) ==> Silent(rows(s), f)
  }

  /** On this field the two tables do the same. */
  ghost predicate SameOn(rows: Spec -> seq<Event>, specs: seq<Spec>, own: seq<Spec>, f: Field) {
    Filter(Collect(rows, specs), OnField(f)) == Filter(Collect(rows, own), OnField(f))
  }

  lemma TouchingStep(rows: Spec -> seq<Event>, specs: seq<Spec>, own: seq<Spec>, last: Spec, f: Field)
    requires RowsTouch(rows, f) && SameOn(rows, specs, own, f)
    ensures Touches(last, f) ==> SameOn(rows, specs + [last], own + [last], f)
    ensures !Touches(last, f) ==> SameOn(rows, specs + [last], own, f)
  {
    CollectAppend(rows, specs, last, f);
    CollectAppend(rows, own, last, f);
    if !Touches(last, f) {
      SilentFilter(rows(last), f);
    }
  }

  lemma TouchingFront(specs: seq<Spec>, f: Field)
    requires specs != []
    ensures specs == Front(specs) + [Last(specs)]
    ensures var own := Filter(Front(specs), Touching(f));
            Filter(specs, Touching(f)) == if Touches(Last(specs), f) then own + [Last(specs)] else own
  {
    FilterLast(specs, Touching(f));
  }

  /** Rows that do not touch a field may be left out of the table. */
  lemma {:induction false} TouchingRowsDecide(rows: Spec -> seq<Event>, specs: seq<Spec>, f: Field)
    requires RowsTouch(rows, f)
    ensures SameOn(rows, specs, Filter(specs, Touching(f)), f)
  {
    if specs != [] {
      TouchingRowsDecide(rows, Front(specs), f);
      TouchingStep(rows, Front(specs), Filter(Front(specs), Touching(f)), Last(specs), f);
      TouchingFront(specs, f);
    }
  }

  lemma TableRowsTouch(src: Source, f: Field)
    ensures RowsTouch(RowsOf(src), f)
  {
    forall s: Spec | !Touches(s, f) ensures Silent(RowsOf(src)(s), f) {
      RowEventsTouch(src, s, f);
    }
  }

  ghost predicate SameTouchingRows(a: seq<Spec>, b: seq<Spec>) {
    forall f: Field :: Filter(a, Touching(f)) == Filter(b, Touching(f))
  }

  lemma SameAtField(src: Source, a: seq<Spec>, b: seq<Spec>, base: Options, entries: Entries, f: Field)
    requires Filter(a, Touching(f)) == Filter(b, Touching(f))
    ensures SameAt(RunOptions(base, TableEvents(src, a)), RunOptions(base, TableEvents(src, b)), f)
    ensures SameAt(RunEntries(entries, TableEvents(src, a)), RunEntries(entries, TableEvents(src, b)), f)
  {
    TableRowsTouch(src, f);
    TouchingRowsDecide(RowsOf(src), a, f);
    TouchingRowsDecide(RowsOf(src), b, f);
    RunAtField(base, entries, TableEvents(src, a), f);
    RunAtField(base, entries, TableEvents(src, b), f);
  }

  lemma SameEverywhere<V>(p: map<Field, V>, q: map<Field, V>)
    requires forall f: Field :: SameAt(p, q, f)
    ensures p == q
  {
    assert forall f :: f in p ==> SameAt(p, q, f);
    assert forall f :: f in q ==> SameAt(p, q, f);
    assert p.Keys == q.Keys;
  }

  /** Two tables that agree on the order of the rows touching each field give the same options and the same
      provenance, whatever the environment. */
  lemma OrderIndependence(src: Source, a: seq<Spec>, b: seq<Spec>, base: Options, entries: Entries)
    requires SameTouchingRows(a, b)
    ensures RunOptions(base, TableEvents(src, a)) == RunOptions(base, TableEvents(src, b))
    ensures RunEntries(entries, TableEvents(src, a)) == RunEntries(entries, TableEvents(src, b))
  {
    forall f: Field
      ensures SameAt(RunOptions(base, TableEvents(src, a)), RunOptions(base, TableEvents(src, b)), f)
      ensures SameAt(RunEntries(entries, TableEvents(src, a)), RunEntries(entries, TableEvents(src, b)), f)
    {
      SameAtField(src, a, b, base, entries, f);
    }
    SameEverywhere(RunOptions(base, TableEvents(src, a)), RunOptions(base, TableEvents(src, b)));
    SameEverywhere(RunEntries(entries, TableEvents(src, a)), RunEntries(entries, TableEvents(src, b)));
  }

  // ---- how many rows apply ----

  predicate RowApplies(src: Source, spec: Spec) {
    RowEvents(src, spec) != []
  }

  function RowTest(src: Source): Spec -> bool {
    (s: Spec) => RowApplies(src, s)
  }

  lemma {:induction false} AppliedCountOfRows(src: Source, specs: seq<Spec>)
    ensures |Filter(LoadedOf(src, specs), APPLIES)| == |Filter(specs, RowTest(src))|
  {
    if specs != [] {
      var last := Last(specs);
      AppliedCountOfRows(src, Front(specs));
      FilterLast(specs, RowTest(src));
      FilterAppend(LoadedOf(src, Front(specs)), LoadedBy(Read(src, last)), APPLIES);
    }
  }

  /** The number of variables applied does not depend on the order of the table at all. */
  lemma AppliedCountOrderFree(src: Source, a: seq<Spec>, b: seq<Spec>)
    requires multiset(a) == multiset(b)
    ensures |Filter(LoadedOf(src, a), APPLIES)| == |Filter(LoadedOf(src, b), APPLIES)|
  {
    AppliedCountOfRows(src, a);
    AppliedCountOfRows(src, b);
    FilterPermutation(a, b, RowTest(src));
    assert |multiset(Filter(a, RowTest(src)))| == |multiset(Filter(b, RowTest(src)))|;
  }

  // ---- variables that are not read ----

  predicate ReadsValue(src: Source, spec: Spec) {
    Read(src, spec).Parsed? && Read(src, spec).loaded.value.Some?
  }

  lemma {:induction false} UnreadRowsSilent(src: Source, specs: seq<Spec>, f: Field)
    requires forall i :: 0 <= i < |specs| && ReadsValue(src, specs[i]) ==> !Touches(specs[i], f)
    ensures Silent(TableEvents(src, specs), f)
  {
    if specs != [] {
      var last := Last(specs);
      assert last == specs[|specs| - 1];
      forall i | 0 <= i < |Front(specs)| && ReadsValue(src, Front(specs)[i]) ensures !Touches(Front(specs)[i], f) {
        assert Front(specs)[i] == specs[i];
      }
      UnreadRowsSilent(src, Front(specs), f);
      if ReadsValue(src, last) {
        RowEventsTouch(src, last, f);
      }
    }
  }

  /** Absent, blank, oversized and unparseable variables leave the option and its provenance as they were. */
  lemma UnreadVariablesChangeNothing(src: Source, specs: seq<Spec>, base: Options, entries: Entries, f: Field)
    requires forall i :: 0 <= i < |specs| && ReadsValue(src, specs[i]) ==> !Touches(specs[i], f)
    ensures var p := RunOptions(base, TableEvents(src, specs)); (f in p <==> f in base) && (f in base ==> p[f] == base[f])
    ensures var q := RunEntries(entries, TableEvents(src, specs));
            (f in q <==> f in entries) && (f in entries ==> q[f] == entries[f])
  {
    UnreadRowsSilent(src, specs, f);
    SilentRun(base, entries, TableEvents(src, specs), f);
  }
}
