/** Layers of events, each from one source, applied from the weakest source to the strongest. */
module Layering {
  import opened Prelude
  import opened RuntimeOptions
  import opened Provenance

  datatype Layer = Layer(source: OptionSource, events: seq<Event>)

  function RunLayerOptions(o: Options, layers: seq<Layer>): Options {
    if layers == [] then o else RunOptions(RunLayerOptions(o, Front(layers)), Last(layers).events)
  }

  function RunLayerEntries(entries: Entries, layers: seq<Layer>): Entries {
    if layers == [] then entries else RunEntries(RunLayerEntries(entries, Front(layers)), Last(layers).events)
  }

  ghost predicate FromSource(events: seq<Event>, source: OptionSource) {
    forall i :: 0 <= i < |events| ==> events[i].entry.source == source
  }

  ghost predicate Increasing(layers: seq<Layer>) {
    && (forall i :: 0 <= i < |layers| ==> FromSource(layers[i].events, layers[i].source))
    && (forall i, j :: 0 <= i < j < |layers| ==> Rank(layers[i].source) <= Rank(layers[j].source))
  }

  /** The last event on a field, and the last one that sets it. */
  function LastOn(events: seq<Event>, f: Field): Option<Event> {
    if events == [] then None
    else if Last(events).field == f then Some(Last(events))
    else LastOn(Front(events), f)
  }

  function LastValue(events: seq<Event>, f: Field): Option<Value> {
    if events == [] then None
    else if Last(events).field == f && Last(events).value.Some? then Last(events).value
    else LastValue(Front(events), f)
  }

  predicate Speaks(layer: Layer, f: Field) {
    LastOn(layer.events, f).Some?
  }

  /** What the strongest layer that speaks of a field records, and what the strongest that sets it sets. */
  function WinningEntry(layers: seq<Layer>, f: Field): Option<Entry> {
    if layers == [] then None
    else if Speaks(Last(layers), f) then Some(LastOn(Last(layers).events, f).value.entry)
    else WinningEntry(Front(layers), f)
  }

  function WinningValue(layers: seq<Layer>, f: Field): Option<Value> {
    if layers == [] then None
    else if LastValue(Last(layers).events, f).Some? then LastValue(Last(layers).events, f)
    else WinningValue(Front(layers), f)
  }

  /** The source of the strongest layer that speaks of a field. */
  function WinningSource(layers: seq<Layer>, f: Field): OptionSource {
    if layers == [] then Unset
    else if Speaks(Last(layers), f) then Last(layers).source
    else WinningSource(Front(layers), f)
  }

  ghost predicate AtMost(entries: Entries, rank: nat) {
    forall f :: f in entries ==> Rank(entries[f].source) <= rank
  }

  lemma {:induction false} RunAt(o: Options, events: seq<Event>, f: Field)
    ensures LastValue(events, f).Some? ==> f in RunOptions(o, events) && RunOptions(o, events)[f] == LastValue(events, f).value
    ensures LastValue(events, f).None? ==> (f in RunOptions(o, events) <==> f in o)
    ensures LastValue(events, f).None? && f in o ==> RunOptions(o, events)[f] == o[f]
  {
    if events != [] {
      RunAt(o, Front(events), f);
    }
  }

  lemma RecordBounded(entries: Entries, e: Event, rank: nat)
    requires AtMost(entries, rank) && Rank(e.entry.source) <= rank
    ensures AtMost(Record(entries, e.field, e.entry), rank)
  {
  }

  lemma FrontFromSource(events: seq<Event>, source: OptionSource)
    requires events != [] && FromSource(events, source)
    ensures FromSource(Front(events), source) && Last(events).entry.source == source
  {
    assert forall i :: 0 <= i < |Front(events)| ==> Front(events)[i] == events[i];
  }

  lemma {:induction false} RecordsBounded(entries: Entries, events: seq<Event>, source: OptionSource)
    requires FromSource(events, source) && AtMost(entries, Rank(source))
    ensures AtMost(RunEntries(entries, events), Rank(source))
  {
    if events != [] {
      FrontFromSource(events, source);
      RecordsBounded(entries, Front(events), source);
      RecordBounded(RunEntries(entries, Front(events)), Last(events), Rank(source));
    }
  }

  /** Records from one source overwrite entries of no greater rank. */
  lemma {:induction false} RecordsAt(entries: Entries, events: seq<Event>, source: OptionSource, f: Field)
    requires FromSource(events, source) && AtMost(entries, Rank(source))
    ensures var t := RunEntries(entries, events);
            if LastOn(events, f).Some? then f in t && t[f] == LastOn(events, f).value.entry
            else (f in t <==> f in entries) && (f in entries ==> t[f] == entries[f])
  {
    if events != [] {
      FrontFromSource(events, source);
      RecordsAt(entries, Front(events), source, f);
      RecordsBounded(entries, Front(events), source);
    }
  }

  lemma FrontIncreasing(layers: seq<Layer>)
    requires layers != [] && Increasing(layers)
    ensures Increasing(Front(layers))
    ensures FromSource(Last(layers).events, Last(layers).source)
  {
    assert forall i :: 0 <= i < |Front(layers)| ==> Front(layers)[i] == layers[i];
  }

  /** Every option ends with the value of the strongest layer that sets it. */
  lemma {:induction false} OptionsFollowLayers(o: Options, layers: seq<Layer>, f: Field)
    requires f in o
    ensures f in RunLayerOptions(o, layers)
    ensures RunLayerOptions(o, layers)[f] == if WinningValue(layers, f).Some? then WinningValue(layers, f).value else o[f]
  {
    if layers != [] {
      OptionsFollowLayers(o, Front(layers), f);
      RunAt(RunLayerOptions(o, Front(layers)), Last(layers).events, f);
    }
  }

  lemma {:induction false} EntriesBounded(layers: seq<Layer>, rank: nat)
    requires Increasing(layers) && (layers != [] ==> Rank(Last(layers).source) <= rank)
    ensures AtMost(RunLayerEntries(map[], layers), rank)
  {
    if layers != [] {
      FrontIncreasing(layers);
      EntriesBounded(Front(layers), Rank(Last(layers).source));
      RecordsBounded(RunLayerEntries(map[], Front(layers)), Last(layers).events, Last(layers).source);
    }
  }

  lemma LastOnSource(events: seq<Event>, source: OptionSource, f: Field)
    requires FromSource(events, source) && LastOn(events, f).Some?
    ensures LastOn(events, f).value.entry.source == source && LastOn(events, f).value.field == f
    decreases |events|
  {
    FrontFromSource(events, source);
    if Last(events).field != f {
      LastOnSource(Front(events), source, f);
    }
  }

  /** The provenance of an option is what the strongest layer that speaks of it recorded last, and names that
      layer's source. */
  lemma {:induction false} EntriesFollowLayers(layers: seq<Layer>, f: Field)
    requires Increasing(layers)
    ensures f in RunLayerEntries(map[], layers) <==> WinningEntry(layers, f).Some?
    ensures WinningEntry(layers, f).Some? ==> RunLayerEntries(map[], layers)[f] == WinningEntry(layers, f).value
    ensures WinningEntry(layers, f).Some? ==> WinningEntry(layers, f).value.source == WinningSource(layers, f)
  {
    if layers != [] {
      var last := Last(layers);
      FrontIncreasing(layers);
      EntriesFollowLayers(Front(layers), f);
      if Front(layers) != [] {
        assert Rank(layers[|layers| - 2].source) <= Rank(last.source);
      }
      EntriesBounded(Front(layers), Rank(last.source));
      RecordsAt(RunLayerEntries(map[], Front(layers)), last.events, last.source, f);
      if Speaks(last, f) {
        LastOnSource(last.events, last.source, f);
      }
    }
  }
}
