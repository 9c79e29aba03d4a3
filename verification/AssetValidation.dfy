/** Checking a published bundle against its manifest. */
module AssetValidating {
  import opened Prelude
  import opened Sequences
  import opened AssetManifests
  import opened AssetFiles

  datatype Severity = Error | Warning

  datatype Issue = Issue(severity: Severity, code: string, subject: string)

  datatype Report = Report(fileCount: int, totalBytes: int, issues: seq<Issue>)

  datatype Loading = Missing | Bad | Found(manifest: ManifestModel)

  function Payload(m: ManifestModel, tools: Tools): Bytes {
    tools.encode(ManifestToDict(m))
  }

  function LoadManifest(files: Files, tools: Tools): Loading {
    if MANIFEST_FILE !in files then Missing
    else
      match tools.decode(files[MANIFEST_FILE])
      case None => Bad
      case Some(j) =>
        (match ManifestFromDict(j, tools.show)
         case None => Bad
         case Some(m) => Found(m))
  }

  /** What is wrong with one entry: a missing file hides what else there is to say. */
  function EntryIssues(files: Files, tools: Tools, e: AssetMetadata): seq<Issue> {
    if e.file !in files then [Issue(Error, "missing-asset", e.file)]
    else
      (if |files[e.file]| != e.sizeBytes then [Issue(Error, "size-mismatch", e.file)] else [])
      + (if tools.hash(files[e.file]) != e.sha256 then [Issue(Error, "hash-mismatch", e.file)] else [])
  }

  function AllEntryIssues(files: Files, tools: Tools, entries: seq<AssetMetadata>): seq<Issue> {
    if entries == [] then []
    else AllEntryIssues(files, tools, entries[..|entries| - 1]) + EntryIssues(files, tools, entries[|entries| - 1])
  }

  function IndexIssues(files: Files): seq<Issue> {
    if INDEX_HTML in files then [] else [Issue(Error, "missing-required", INDEX_HTML)]
  }

  function HeaderIssues(m: ManifestModel): seq<Issue> {
    (if m.schemaVersion > MANIFEST_VERSION then [Issue(Error, "schema-too-new", "")] else [])
    + (if !HasIndex(m) then [Issue(Error, "missing-index-entry", INDEX_HTML)] else [])
  }

  function LoadingIssues(files: Files, tools: Tools, l: Loading): seq<Issue> {
    match l
    case Missing => [Issue(Warning, "missing-manifest", MANIFEST_FILE)]
    case Bad => [Issue(Error, "bad-manifest", MANIFEST_FILE)]
    case Found(m) => HeaderIssues(m) + AllEntryIssues(files, tools, m.entries)
  }

  /** Everything the validator reports, in its order. */
  function IssuesOf(present: bool, files: Files, tools: Tools): seq<Issue> {
    if !present then [Issue(Error, "missing-dir", "")]
    else IndexIssues(files) + LoadingIssues(files, tools, LoadManifest(files, tools))
  }

  predicate NoErrors(issues: seq<Issue>) {
    forall i :: 0 <= i < |issues| ==> issues[i].severity != Error
  }

  predicate Passes(r: Report) {
    NoErrors(r.issues)
  }

  /** The file of an entry is there with the bytes the entry describes. */
  predicate Intact(files: Files, tools: Tools, e: AssetMetadata) {
    e.file in files && |files[e.file]| == e.sizeBytes && tools.hash(files[e.file]) == e.sha256
  }

  ghost predicate AllIntact(files: Files, tools: Tools, entries: seq<AssetMetadata>) {
    forall i :: 0 <= i < |entries| ==> Intact(files, tools, entries[i])
  }

  /** These bytes read back as this manifest. */
  predicate ReadsAs(content: Bytes, m: ManifestModel, tools: Tools) {
    match tools.decode(content)
    case Some(j) => ManifestFromDict(j, tools.show) == Some(m)
    case None => false
  }

  lemma LoadExactly(files: Files, tools: Tools, m: ManifestModel)
    ensures LoadManifest(files, tools) == Found(m) <==> "build.json" in files && ReadsAs(files["build.json"], m, tools)
    ensures LoadManifest(files, tools) == Missing <==> "build.json" !in files
  {
  }

  /** What a bundle must be for the validator to find no error; a bundle without a manifest is only warned of. */
  ghost predicate BundleOk(present: bool, files: Files, tools: Tools) {
    && present && "index.html" in files
    && ("build.json" in files ==> exists m :: ReadsAs(files["build.json"], m, tools) && ManifestOk(files, tools, m))
  }

  ghost predicate ManifestOk(files: Files, tools: Tools, m: ManifestModel) {
    m.schemaVersion <= 1 && HasIndex(m) && AllIntact(files, tools, m.entries)
  }

  lemma NoErrorsConcat(a: seq<Issue>, b: seq<Issue>)
    ensures NoErrors(a + b) <==> NoErrors(a) && NoErrors(b)
  {
    if NoErrors(a + b) {
      assert forall i :: 0 <= i < |a| ==> (a + b)[i] == a[i];
      assert forall i :: 0 <= i < |b| ==> (a + b)[|a| + i] == b[i];
    }
  }

  lemma EntryIssuesExact(files: Files, tools: Tools, e: AssetMetadata)
    ensures NoErrors(EntryIssues(files, tools, e)) <==> Intact(files, tools, e)
  {
    var issues := EntryIssues(files, tools, e);
    if !Intact(files, tools, e) {
      assert issues[0].severity == Error;
    }
  }

  lemma {:induction false} EntryIssuesAll(files: Files, tools: Tools, entries: seq<AssetMetadata>)
    ensures NoErrors(AllEntryIssues(files, tools, entries)) <==> AllIntact(files, tools, entries)
  {
    if entries != [] {
      var n := |entries| - 1;
      EntryIssuesAll(files, tools, entries[..n]);
      EntryIssuesExact(files, tools, entries[n]);
      NoErrorsConcat(AllEntryIssues(files, tools, entries[..n]), EntryIssues(files, tools, entries[n]));
      assert forall i :: 0 <= i < n ==> entries[..n][i] == entries[i];
    }
  }

  lemma HeaderIssuesExact(m: ManifestModel)
    ensures NoErrors(HeaderIssues(m)) <==> m.schemaVersion <= MANIFEST_VERSION && HasIndex(m)
  {
    var issues := HeaderIssues(m);
    if issues != [] {
      assert issues[0].severity == Error;
    }
  }

  /** The validator finds no error exactly in the bundles that are in order. */
  lemma ValidatorExact(present: bool, files: Files, tools: Tools)
    ensures NoErrors(IssuesOf(present, files, tools)) <==> BundleOk(present, files, tools)
  {
    if !present {
      assert IssuesOf(present, files, tools)[0].severity == Error;
    } else {
      var loading := LoadManifest(files, tools);
      NoErrorsConcat(IndexIssues(files), LoadingIssues(files, tools, loading));
      if INDEX_HTML !in files {
        assert IndexIssues(files)[0].severity == Error;
      }
      if loading.Bad? {
        assert LoadingIssues(files, tools, loading)[0].severity == Error;
      } else if loading.Found? {
        var m := loading.manifest;
        LoadExactly(files, tools, m);
        HeaderIssuesExact(m);
        EntryIssuesAll(files, tools, m.entries);
        NoErrorsConcat(HeaderIssues(m), AllEntryIssues(files, tools, m.entries));
      }
    }
  }

  lemma NextEntry(files: Files, tools: Tools, entries: seq<AssetMetadata>, i: nat)
    requires i < |entries|
    ensures AllEntryIssues(files, tools, entries[..i + 1])
            == AllEntryIssues(files, tools, entries[..i]) + EntryIssues(files, tools, entries[i])
  {
    assert entries[..i + 1][..i] == entries[..i];
  }

  /** The loop over the manifest's entries. */
  method CheckEntries(files: Files, tools: Tools, entries: seq<AssetMetadata>) returns (issues: seq<Issue>)
    ensures issues == AllEntryIssues(files, tools, entries)
  {
    issues := [];
    for i := 0 to |entries|
      invariant issues == AllEntryIssues(files, tools, entries[..i])
    {
      var e := entries[i];
      NextEntry(files, tools, entries, i);
      ghost var before := issues;
      if e.file !in files {
        issues := issues + [Issue(Error, "missing-asset", e.file)];
        continue;
      }
      if |files[e.file]| != e.sizeBytes {
        issues := issues + [Issue(Error, "size-mismatch", e.file)];
      }
      if tools.hash(files[e.file]) != e.sha256 {
        issues := issues + [Issue(Error, "hash-mismatch", e.file)];
      }
      assert issues == before + EntryIssues(files, tools, e);
    }
    assert entries[..|entries|] == entries;
  }

  method CheckManifest(files: Files, tools: Tools, m: ManifestModel) returns (issues: seq<Issue>)
    ensures issues == HeaderIssues(m) + AllEntryIssues(files, tools, m.entries)
  {
    issues := [];
    if m.schemaVersion > MANIFEST_VERSION {
      issues := issues + [Issue(Error, "schema-too-new", "")];
    }
    if !HasIndex(m) {
      issues := issues + [Issue(Error, "missing-index-entry", INDEX_HTML)];
    }
    var broken := CheckEntries(files, tools, m.entries);
    issues := issues + broken;
  }

  /** The totals are the manifest's, or those of the files when there is no manifest to read. */
  ghost predicate TotalsOk(files: Files, tools: Tools, r: Report) {
    if "build.json" in files && exists m :: ReadsAs(files["build.json"], m, tools) then
      exists m :: ReadsAs(files["build.json"], m, tools) && r.fileCount == m.totalFiles && r.totalBytes == m.totalBytes
    else
      exists entries :: Collection(files, tools, entries) && r.fileCount == |entries| && r.totalBytes == Sum(Map(entries, SIZE_OF))
  }

  method ReportLoading(files: Files, tools: Tools, loading: Loading) returns (r: Report)
    requires loading == LoadManifest(files, tools)
    ensures r.issues == LoadingIssues(files, tools, loading) && TotalsOk(files, tools, r)
  {
    forall m ensures loading == Found(m) <==> "build.json" in files && ReadsAs(files["build.json"], m, tools) {
      LoadExactly(files, tools, m);
    }
    match loading {
      case Found(m) =>
        var checks := CheckManifest(files, tools, m);
        return Report(m.totalFiles, m.totalBytes, checks);
      case Missing =>
        var entries := CollectAssets(files, tools);
        return Report(|entries|, Sum(Map(entries, SIZE_OF)), [Issue(Warning, "missing-manifest", MANIFEST_FILE)]);
      case Bad =>
        var entries := CollectAssets(files, tools);
        return Report(|entries|, Sum(Map(entries, SIZE_OF)), [Issue(Error, "bad-manifest", MANIFEST_FILE)]);
    }
  }

  method ReportPresent(files: Files, tools: Tools) returns (r: Report)
    ensures r.issues == IssuesOf(true, files, tools) && TotalsOk(files, tools, r)
  {
    var issues := [];
    if INDEX_HTML !in files {
      issues := issues + [Issue(Error, "missing-required", INDEX_HTML)];
    }
    var loading := LoadManifest(files, tools);
    var rest := ReportLoading(files, tools, loading);
    return rest.(issues := issues + rest.issues);
  }

  method ValidatePublishedBundle(present: bool, files: Files, tools: Tools) returns (r: Report)
    ensures r.issues == IssuesOf(present, files, tools)
    ensures Passes(r) <==> BundleOk(present, files, tools)
    ensures if present then TotalsOk(files, tools, r) else r.fileCount == 0 && r.totalBytes == 0
  {
    ValidatorExact(present, files, tools);
    if present {
      r := ReportPresent(files, tools);
    } else {
      r := Report(0, 0, [Issue(Error, "missing-dir", "")]);
    }
  }

  /** After a change to a bundle with a manifest, the validator still passes exactly when the manifest is read
      as before, the index is there, and every file the manifest lists has its size and hash: files it does not
      list may come and go. */
  lemma TamperingDetected(files: Files, changed: Files, tools: Tools, m: ManifestModel)
    requires BundleOk(true, files, tools) && MANIFEST_FILE in files && ReadsAs(files[MANIFEST_FILE], m, tools)
    requires MANIFEST_FILE in changed && changed[MANIFEST_FILE] == files[MANIFEST_FILE]
    ensures NoErrors(IssuesOf(true, changed, tools)) <==> INDEX_HTML in changed && AllIntact(changed, tools, m.entries)
  {
    ValidatorExact(true, changed, tools);
    ReadsOnce(files[MANIFEST_FILE], m, tools);
  }

  lemma ReadsOnce(content: Bytes, m: ManifestModel, tools: Tools)
    requires ReadsAs(content, m, tools)
    ensures forall n :: ReadsAs(content, n, tools) ==> n == m
  {
  }
}
