/** Reading the table's variables from an environment. */
module EnvironmentLoading {
  import opened Prelude
  import opened PythonText
  import opened Sequences
  import opened RuntimeOptions
  import opened EnvironmentParsing
  import opened EnvironmentMapping

  /** The variables, the size cap in bytes, and the expansion the path parser applies. */
  datatype Source = Source(vars: map<string, string>, cap: nat, expand: string -> string)

  const MAX_VALUE_BYTES: nat := 16 * 1024

  /** `value` is None when the parser failed. */
  datatype Loaded = Loaded(spec: Spec, envName: string, raw: string, value: Option<Value>)

  datatype LoaderResult = LoaderResult(
    loaded: seq<Loaded>, parsedCount: nat, skippedCount: nat, failedCount: nat, diagnostics: seq<string>)

  const SUCCEEDED: Loaded -> bool := (l: Loaded) => l.value.Some?

  /** What one row of the table finds in the environment. */
  datatype Reading = Skipped | Oversized(envName: string) | Parsed(loaded: Loaded)

  predicate IsSet(vars: map<string, string>, name: string) {
    name in vars && !Blank(vars[name])
  }

  /** The first name with a value that is not blank. */
  function Pick(vars: map<string, string>, names: seq<string>): Option<string> {
    if names == [] then None
    else if IsSet(vars, names[0]) then Some(names[0])
    else Pick(vars, names[1..])
  }

  lemma OneName(vars: map<string, string>, name: string)
    ensures Pick(vars, [name]) == if IsSet(vars, name) then Some(name) else None
  {
    assert [name][1..] == [];
  }

  function Read(src: Source, spec: Spec): Reading {
    match Pick(src.vars, AllNames(spec))
    case None => Skipped
    case Some(name) =>
      var raw := if name in src.vars then src.vars[name] else "";
      if Utf8Size(raw) > src.cap then Oversized(name)
      else Parsed(Loaded(spec, name, raw, Parse(spec.kind, spec.choices, spec.separator, src.expand, raw)))
  }

  function LoadedBy(r: Reading): seq<Loaded> {
    if r.Parsed? then [r.loaded] else []
  }

  function DiagnosedBy(r: Reading): seq<string> {
    match r
    case Skipped => []
    case Oversized(name) => [name]
    case Parsed(l) => if l.value.None? then [l.envName] else []
  }

  function LoadedOf(src: Source, specs: seq<Spec>): seq<Loaded> {
    if specs == [] then [] else LoadedOf(src, specs[..|specs| - 1]) + LoadedBy(Read(src, specs[|specs| - 1]))
  }

  function DiagnosedOf(src: Source, specs: seq<Spec>): seq<string> {
    if specs == [] then [] else DiagnosedOf(src, specs[..|specs| - 1]) + DiagnosedBy(Read(src, specs[|specs| - 1]))
  }

  ghost predicate FirstSet(vars: map<string, string>, names: seq<string>, name: string) {
    IsSet(vars, name)
    && exists i :: 0 <= i < |names| && names[i] == name && forall j :: 0 <= j < i ==> !IsSet(vars, names[j])
  }

  /** The canonical name comes first, then the aliases from left to right; unset and blank values do not count. */
  method PickValue(vars: map<string, string>, spec: Spec) returns (name: string, raw: Option<string>)
    ensures raw.Some? <==> IsSet(vars, spec.envName) || exists i :: 0 <= i < |spec.aliases| && IsSet(vars, spec.aliases[i])
    ensures raw.Some? ==> name in vars && raw.value == vars[name]
                          && (name == spec.envName || (!IsSet(vars, spec.envName) && FirstSet(vars, spec.aliases, name)))
    ensures raw.None? ==> name == spec.envName
    ensures Pick(vars, AllNames(spec)) == if raw.Some? then Some(name) else None
  {
    var names := AllNames(spec);
    var i := 0;
    while i < |names|
      invariant i <= |names|
      invariant forall j :: 0 <= j < i ==> !IsSet(vars, names[j])
      invariant Pick(vars, names[i..]) == Pick(vars, names)
    {
      if names[i] in vars {
        var value := vars[names[i]];
        if Strip(value) != "" {
          assert IsSet(vars, names[i]);
          return names[i], Some(value);
        }
      }
      i := i + 1;
    }
    return spec.envName, None;
  }

  method ReadRow(src: Source, spec: Spec) returns (r: Reading)
    ensures r == Read(src, spec)
  {
    var name, raw := PickValue(src.vars, spec);
    if raw.None? {
      return Skipped;
    }
    if Utf8Size(raw.value) > src.cap {
      return Oversized(name);
    }
    var value := Parse(spec.kind, spec.choices, spec.separator, src.expand, raw.value);
    return Parsed(Loaded(spec, name, raw.value, value));
  }

  /** Reading these rows in order gives these results, diagnostics and counts. */
  ghost predicate LoadedFrom(src: Source, specs: seq<Spec>, r: LoaderResult) {
    && r.loaded == LoadedOf(src, specs)
    && r.diagnostics == DiagnosedOf(src, specs)
    && r.parsedCount == |Filter(r.loaded, SUCCEEDED)|
    && r.failedCount == |r.diagnostics|
    && r.parsedCount + r.skippedCount + r.failedCount == |specs|
  }

  /** What one more row adds. */
  function Extended(r: LoaderResult, reading: Reading): LoaderResult {
    match reading
    case Skipped => r.(skippedCount := r.skippedCount + 1)
    case Oversized(name) => r.(failedCount := r.failedCount + 1, diagnostics := r.diagnostics + [name])
    case Parsed(item) =>
      if item.value.Some? then r.(loaded := r.loaded + [item], parsedCount := r.parsedCount + 1)
      else r.(loaded := r.loaded + [item], failedCount := r.failedCount + 1, diagnostics := r.diagnostics + [item.envName])
  }

  lemma ReadingAdded(r: LoaderResult, reading: Reading)
    requires r.parsedCount == |Filter(r.loaded, SUCCEEDED)| && r.failedCount == |r.diagnostics|
    ensures var t := Extended(r, reading);
            && t.loaded == r.loaded + LoadedBy(reading) && t.diagnostics == r.diagnostics + DiagnosedBy(reading)
            && t.parsedCount == |Filter(t.loaded, SUCCEEDED)| && t.failedCount == |t.diagnostics|
            && t.parsedCount + t.skippedCount + t.failedCount == r.parsedCount + r.skippedCount + r.failedCount + 1
  {
    FilterAppend(r.loaded, LoadedBy(reading), SUCCEEDED);
  }

  lemma RowAdded(src: Source, specs: seq<Spec>, i: nat, r: LoaderResult)
    requires i < |specs| && LoadedFrom(src, specs[..i], r)
    ensures LoadedFrom(src, specs[..i + 1], Extended(r, Read(src, specs[i])))
  {
    var upTo := specs[..i + 1];
    assert upTo[..|upTo| - 1] == specs[..i];
    ReadingAdded(r, Read(src, specs[i]));
  }

  /** Every row is parsed, skipped or failed; the results keep the order of the table. */
  method Load(src: Source, specs: seq<Spec>) returns (r: LoaderResult)
    ensures r.loaded == LoadedOf(src, specs)
    ensures r.diagnostics == DiagnosedOf(src, specs)
    ensures r.parsedCount == |Filter(r.loaded, SUCCEEDED)|
    ensures r.failedCount == |r.diagnostics|
    ensures r.parsedCount + r.skippedCount + r.failedCount == |specs|
  {
    r := LoaderResult([], 0, 0, 0, []);
    for i := 0 to |specs|
      invariant LoadedFrom(src, specs[..i], r)
    {
      RowAdded(src, specs, i, r);
      var reading := ReadRow(src, specs[i]);
      match reading {
        case Skipped =>
          r := r.(skippedCount := r.skippedCount + 1);
        case Oversized(name) =>
          r := r.(failedCount := r.failedCount + 1, diagnostics := r.diagnostics + [name]);
        case Parsed(item) =>
          r := r.(loaded := r.loaded + [item]);
          if item.value.Some? {
            r := r.(parsedCount := r.parsedCount + 1);
          } else {
            r := r.(failedCount := r.failedCount + 1, diagnostics := r.diagnostics + [item.envName]);
          }
      }
    }
    assert specs[..|specs|] == specs;
  }
}
