/** Printing options as environment variables. */
module EnvironmentSerialization {
  import opened Prelude
  import opened PythonText
  import opened RuntimeOptions
  import opened EnvironmentParsing
  import opened EnvironmentMapping

  function Emit(kind: ParseKind, v: Value): string {
    if v.NoneValue? then ""
    else if kind == Bool then (if Truthy(v) then "1" else "0")
    else if kind == List && v.ListValue? then Join(v.items, ',')
    else StrOf(v)
  }

  /** What one row exports: nothing for a secret, an option the tree lacks, or a default. */
  function Exported(spec: Spec, o: Options): Option<string> {
    if spec.secret || spec.target !in o || o[spec.target] == Default(spec.target) then None
    else Some(Emit(spec.kind, o[spec.target]))
  }

  function Export(specs: seq<Spec>, o: Options): map<string, string> {
    if specs == [] then map[]
    else
      var before, last := Export(specs[..|specs| - 1], o), specs[|specs| - 1];
      match Exported(last, o)
      case Some(raw) => before[last.envName := raw]
      case None => before
  }

  method ExportOptionsToEnv(o: Options, specs: seq<Spec>) returns (out: map<string, string>)
    requires Complete(o)
    ensures out == Export(specs, o)
  {
    out := map[];
    for i := 0 to |specs|
      invariant out == Export(specs[..i], o)
    {
      var spec := specs[i];
      assert specs[..i + 1][..i] == specs[..i];
      if !spec.secret {
        var current := o[spec.target];
        if current != Default(spec.target) {
          out := out[spec.envName := Emit(spec.kind, current)];
        }
      }
    }
    assert specs[..|specs|] == specs;
  }

  ghost predicate DistinctNames(specs: seq<Spec>) {
    forall i, j :: 0 <= i < j < |specs| ==> specs[i].envName != specs[j].envName
  }

  /** With distinct names each variable holds what its own row exports. */
  lemma {:induction false} ExportAt(specs: seq<Spec>, o: Options, j: nat)
    requires DistinctNames(specs) && j < |specs|
    ensures var name := specs[j].envName;
            (if name in Export(specs, o) then Some(Export(specs, o)[name]) else None) == Exported(specs[j], o)
  {
    var n := |specs| - 1;
    if j < n {
      ExportAt(specs[..n], o, j);
    } else {
      NameAbsent(specs[..n], o, specs[n].envName);
    }
  }

  lemma {:induction false} NameAbsent(specs: seq<Spec>, o: Options, name: string)
    requires forall i :: 0 <= i < |specs| ==> specs[i].envName != name
    ensures name !in Export(specs, o)
  {
    if specs != [] {
      NameAbsent(specs[..|specs| - 1], o, name);
    }
  }
}
