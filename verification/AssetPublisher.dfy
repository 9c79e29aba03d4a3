/** Publishing a built frontend: clean, copy, collect, write the manifest, validate. */
module AssetPublishing {
  import opened Prelude
  import opened PythonText
  import opened Sequences
  import opened AssetManifests
  import opened AssetFiles
  import opened AssetPaths
  import opened AssetValidating

  /** Version, time, commit and id of a build, as the publisher finds them. */
  datatype BuildInfo = BuildInfo(version: Json, builtAt: string, commit: Json, bundleId: string)

  /** `build` is what the builder reports, None when the build is skipped. */
  datatype Request = Request(build: Option<bool>, skipClean: bool, dryRun: bool)

  datatype PublishResult = PublishResult(
    success: bool, manifest: Option<ManifestModel>, filesCopied: nat, filesRemoved: nat, validation: Report, notes: seq<string>)

  const NO_REPORT: Report := Report(0, 0, [])

  function Describe(entries: seq<AssetMetadata>, info: BuildInfo): ManifestModel {
    BuildManifest(entries, info.version, info.builtAt, info.commit, info.bundleId)
  }

  /** What the copy leaves in the published directory. */
  function CopiedFiles(before: Files, dist: Files, skipClean: bool): Files {
    Copied(dist, if skipClean then before else Wiped(before))
  }

  function PublishedFiles(before: Files, dist: Files, skipClean: bool, content: Bytes): Files {
    Written(CopiedFiles(before, dist, skipClean), content)
  }

  predicate Writes(req: Request, dist: Files) {
    req.build != Some(false) && INDEX_HTML in dist && !req.dryRun
  }

  /** JSON text gives back what was written. */
  ghost predicate Lossless(tools: Tools) {
    forall j: Json :: tools.decode(tools.encode(j)) == Some(j)
  }

  // ---- in the text of the paths ----

  /** The build brings the file, or it was there and is not wiped. */
  predicate Copies(before: Files, dist: Files, skipClean: bool, p: string) {
    (p in dist && !Hidden(p)) || (p in before && (skipClean || SurvivesWipe(p)))
  }

  /** The directory after a publish, path by path. */
  ghost predicate HoldsExactly(before: Files, dist: Files, skipClean: bool, after: Files) {
    && MANIFEST_FILE in after && MANIFEST_TEMP !in after
    && forall p :: p != MANIFEST_FILE && p != MANIFEST_TEMP ==> HoldsAt(before, dist, skipClean, after, p)
  }

  ghost predicate HoldsAt(before: Files, dist: Files, skipClean: bool, after: Files, p: string) {
    && (p in after <==> Copies(before, dist, skipClean, p))
    && (p in after ==> after[p] == if p in dist && !Hidden(p) then dist[p] else before[p])
  }

  ghost predicate Lists(entries: seq<AssetMetadata>, p: string) {
    exists i :: 0 <= i < |entries| && entries[i].file == p
  }

  /** The manifest lists the copied files that are not hidden, and nothing else. */
  ghost predicate ListsExactly(before: Files, dist: Files, skipClean: bool, entries: seq<AssetMetadata>) {
    forall p :: Lists(entries, p) <==> Copies(before, dist, skipClean, p) && !Hidden(p)
  }

  /** Every entry describes the bytes of the build's file, or of the one that was there, and the header is that of
      the build. */
  ghost predicate Reflects(m: ManifestModel, before: Files, dist: Files, info: BuildInfo, tools: Tools) {
    && Ordered(m.entries)
    && (forall i :: 0 <= i < |m.entries| ==> DescribesFile(m.entries[i], before, dist, tools))
    && m.schemaVersion == 1 && m.extras == map[] && m.totalFiles == |m.entries|
    && m.frontendVersion == info.version && m.builtAt == info.builtAt && m.commit == info.commit && m.bundleId == info.bundleId
  }

  ghost predicate DescribesFile(e: AssetMetadata, before: Files, dist: Files, tools: Tools) {
    if e.file in dist then DescribedAs(e, dist[e.file], tools)
    else e.file in before && DescribedAs(e, before[e.file], tools)
  }

  function Visible(dist: Files): set<string> {
    set p | p in dist && !Hidden(p)
  }

  lemma CopiedInText(before: Files, dist: Files, skipClean: bool, p: string)
    ensures HoldsAt(before, dist, skipClean, CopiedFiles(before, dist, skipClean), p)
  {
    IgnoredExactly(p);
    KeptExactly(p);
  }

  lemma PublishedInText(before: Files, dist: Files, skipClean: bool, content: Bytes)
    ensures HoldsExactly(before, dist, skipClean, PublishedFiles(before, dist, skipClean, content))
  {
    DistinctNames();
    forall p | p != MANIFEST_FILE && p != MANIFEST_TEMP
      ensures HoldsAt(before, dist, skipClean, PublishedFiles(before, dist, skipClean, content), p)
    {
      CopiedInText(before, dist, skipClean, p);
    }
  }

  lemma ListedInText(before: Files, dist: Files, skipClean: bool, tools: Tools, entries: seq<AssetMetadata>)
    requires Collection(CopiedFiles(before, dist, skipClean), tools, entries)
    ensures ListsExactly(before, dist, skipClean, entries)
  {
    forall p ensures Lists(entries, p) <==> Copies(before, dist, skipClean, p) && !Hidden(p) {
      CopiedInText(before, dist, skipClean, p);
      IgnoredExactly(p);
      CollectionCovers(CopiedFiles(before, dist, skipClean), tools, entries, p);
    }
  }

  lemma DescribedInText(before: Files, dist: Files, skipClean: bool, tools: Tools, entries: seq<AssetMetadata>)
    requires Collection(CopiedFiles(before, dist, skipClean), tools, entries)
    ensures Ordered(entries)
    ensures forall i :: 0 <= i < |entries| ==> DescribesFile(entries[i], before, dist, tools)
  {
    CollectionInText(CopiedFiles(before, dist, skipClean), tools, entries);
    forall i | 0 <= i < |entries| ensures DescribesFile(entries[i], before, dist, tools) {
      var p := entries[i].file;
      CopiedInText(before, dist, skipClean, p);
      IgnoredExactly(p);
      CollectionCovers(CopiedFiles(before, dist, skipClean), tools, entries, p);
    }
  }

  lemma TrackedInText(dist: Files)
    ensures Tracked(dist) == Visible(dist)
  {
    forall p ensures p in Tracked(dist) <==> p in Visible(dist) {
      IgnoredExactly(p);
    }
  }

  /** What a publish leaves and reports, in the text of the paths. */
  lemma PublishInText(before: Files, dist: Files, skipClean: bool, m: ManifestModel, info: BuildInfo, tools: Tools)
    requires Described(CopiedFiles(before, dist, skipClean), info, m, tools)
    ensures HoldsExactly(before, dist, skipClean, PublishedFiles(before, dist, skipClean, Payload(m, tools)))
    ensures ListsExactly(before, dist, skipClean, m.entries) && |Tracked(dist)| == |Visible(dist)|
    ensures Reflects(m, before, dist, info, tools)
  {
    var entries :| Collection(CopiedFiles(before, dist, skipClean), tools, entries) && m == Describe(entries, info);
    ListedInText(before, dist, skipClean, tools, entries);
    DescribedInText(before, dist, skipClean, tools, entries);
    PublishedInText(before, dist, skipClean, Payload(m, tools));
    TrackedInText(dist);
  }

  /** The manifest describes the copied files. */
  ghost predicate Described(copied: Files, info: BuildInfo, manifest: ManifestModel, tools: Tools) {
    exists entries :: Collection(copied, tools, entries) && manifest == Describe(entries, info)
  }

  /** Wipe unless cleaning is skipped, copy, collect, write the manifest. */
  method Install(bundle: Bundle, dist: Files, skipClean: bool, info: BuildInfo, tools: Tools)
    returns (copied: nat, removed: nat, manifest: ManifestModel)
    requires bundle.Valid()
    modifies bundle
    ensures bundle.Valid() && bundle.present && copied == |Tracked(dist)|
    ensures removed == if skipClean then 0 else |RootEntries(old(bundle.files))|
    ensures bundle.files == PublishedFiles(old(bundle.files), dist, skipClean, Payload(manifest, tools))
    ensures Described(CopiedFiles(old(bundle.files), dist, skipClean), info, manifest, tools)
  {
    removed := 0;
    if !skipClean {
      removed := bundle.Wipe();
    }
    copied := bundle.CopyFrom(dist);
    var entries := CollectAssets(bundle.files, tools);
    manifest := Describe(entries, info);
    bundle.WriteAtomically(Payload(manifest, tools));
  }

  /** A published directory holds the copied files and the manifest of them; the result says whether the
      validator passes it. */
  method Publish(bundle: Bundle, dist: Files, req: Request, info: BuildInfo, tools: Tools) returns (r: PublishResult)
    requires bundle.Valid()
    modifies bundle
    ensures bundle.Valid()
    ensures !Writes(req, dist) ==> bundle.present == old(bundle.present) && bundle.files == old(bundle.files)
                                   && r.filesCopied == 0 && r.filesRemoved == 0 && r.validation == NO_REPORT
    ensures !Writes(req, dist) ==> (r.success <==> r.manifest.Some?)
                                   && (r.success <==> req.build != Some(false) && INDEX_HTML in dist && req.dryRun)
    ensures !Writes(req, dist) && r.success ==> Described(dist, info, r.manifest.value, tools)
    ensures Writes(req, dist) ==> bundle.present && r.manifest.Some? && r.filesCopied == |Tracked(dist)|
    ensures Writes(req, dist) ==> r.filesRemoved == if req.skipClean then 0 else |RootEntries(old(bundle.files))|
    ensures Writes(req, dist) ==>
              bundle.files == PublishedFiles(old(bundle.files), dist, req.skipClean, Payload(r.manifest.value, tools))
              && Described(CopiedFiles(old(bundle.files), dist, req.skipClean), info, r.manifest.value, tools)
    ensures Writes(req, dist) ==> HoldsExactly(old(bundle.files), dist, req.skipClean, bundle.files)
    ensures Writes(req, dist) ==> r.filesCopied == |Visible(dist)|
    ensures Writes(req, dist) ==> ListsExactly(old(bundle.files), dist, req.skipClean, r.manifest.value.entries)
                                   && Reflects(r.manifest.value, old(bundle.files), dist, info, tools)
    ensures Writes(req, dist) ==> r.validation.issues == IssuesOf(true, bundle.files, tools) && r.success == Passes(r.validation)
    ensures Writes(req, dist) && Lossless(tools) ==>
              var copied := CopiedFiles(old(bundle.files), dist, req.skipClean);
              r.success <==> MANIFEST_TEMP !in copied && Coincides(copied, Payload(r.manifest.value, tools), tools)
    ensures Writes(req, dist) && Lossless(tools) && CollisionFree(tools)
            && FreshId(CopiedFiles(old(bundle.files), dist, req.skipClean), info.bundleId, tools) ==>
              (r.success <==> !Carried(old(bundle.files), dist, req.skipClean, MANIFEST_FILE)
                              && !Carried(old(bundle.files), dist, req.skipClean, MANIFEST_TEMP))
  {
    var notes: seq<string> := [];
    if req.build == Some(false) {
      return PublishResult(false, None, 0, 0, NO_REPORT, ["frontend build failed; see build_outcome.detail"]);
    }
    notes := notes + [if req.build.Some? then "frontend build succeeded" else "skipped frontend build (--skip-build)"];
    if INDEX_HTML !in dist {
      return PublishResult(false, None, 0, 0, NO_REPORT, notes + ["no dist/index.html"]);
    }
    if req.dryRun {
      var entries := CollectAssets(dist, tools);
      return PublishResult(true, Some(Describe(entries, info)), 0, 0, NO_REPORT, notes + ["dry-run; nothing written"]);
    }
    if req.skipClean {
      notes := notes + ["skipped clean (--skip-clean)"];
    }
    var copied, removed, manifest := Install(bundle, dist, req.skipClean, info, tools);
    notes := notes + ["copied " + PrintInt(copied) + " files"];
    var validation := ValidatePublishedBundle(bundle.present, bundle.files, tools);
    PublishInText(old(bundle.files), dist, req.skipClean, manifest, info, tools);
    InstalledExactly(old(bundle.files), dist, req.skipClean, manifest, info, tools);
    return PublishResult(NoErrors(validation.issues), Some(manifest), copied, removed, validation, notes);
  }

  // ---- when a published bundle validates ----

  /** A root file whose name is as long as neither of the ignored ones. */
  lemma RootFile(name: string)
    requires '/' !in name && |name| >= 10
    ensures RootPart(name) == name != KEEP && !Ignored(name)
  {
    SplitWhole(name, '/');
    assert |KEEP| == 8 && |".DS_Store"| == 9;
  }

  lemma IndexName()
    ensures RootPart(INDEX_HTML) == INDEX_HTML && !Ignored(INDEX_HTML)
  {
    RootFile(INDEX_HTML);
  }

  lemma ManifestName()
    ensures RootPart(MANIFEST_FILE) == MANIFEST_FILE != KEEP && !Ignored(MANIFEST_FILE)
  {
    RootFile(MANIFEST_FILE);
  }

  lemma TempName()
    ensures RootPart(MANIFEST_TEMP) == MANIFEST_TEMP != KEEP && !Ignored(MANIFEST_TEMP)
  {
    RootFile(MANIFEST_TEMP);
  }

  lemma DistinctNames()
    ensures MANIFEST_FILE != MANIFEST_TEMP && INDEX_HTML != MANIFEST_FILE && INDEX_HTML != MANIFEST_TEMP
  {
    assert |INDEX_HTML| == 10 && |MANIFEST_TEMP| == 14 && |MANIFEST_FILE| == 10 && INDEX_HTML[0] != MANIFEST_FILE[0];
  }

  lemma KnownNames()
    ensures !Ignored(INDEX_HTML) && !Ignored(MANIFEST_FILE) && !Ignored(MANIFEST_TEMP)
    ensures RootPart(MANIFEST_FILE) != KEEP && RootPart(MANIFEST_TEMP) != KEEP
    ensures MANIFEST_FILE != MANIFEST_TEMP && INDEX_HTML != MANIFEST_FILE && INDEX_HTML != MANIFEST_TEMP
  {
    IndexName();
    ManifestName();
    TempName();
    DistinctNames();
  }

  /** What is read back is the manifest that was written. */
  lemma WrittenManifestLoads(files: Files, m: ManifestModel, tools: Tools)
    requires Lossless(tools)
    ensures LoadManifest(Written(files, Payload(m, tools)), tools) == Found(m)
  {
    ManifestRoundTrip(m, tools.show);
    assert tools.decode(tools.encode(ManifestToDict(m))) == Some(ManifestToDict(m));
  }

  lemma IndexListed(files: Files, tools: Tools, entries: seq<AssetMetadata>)
    requires Collection(files, tools, entries) && INDEX_HTML in files && !Ignored(INDEX_HTML)
    ensures exists i :: 0 <= i < |entries| && IsIndex(entries[i])
  {
    CollectionCovers(files, tools, entries, INDEX_HTML);
    var i :| 0 <= i < |entries| && entries[i].file == INDEX_HTML;
    assert IsIndex(entries[i]);
  }

  /** The old manifest among the copied files keeps its description only if the new one has its size and hash. */
  ghost predicate Coincides(files: Files, content: Bytes, tools: Tools) {
    MANIFEST_FILE in files ==> |files[MANIFEST_FILE]| == |content| && tools.hash(files[MANIFEST_FILE]) == tools.hash(content)
  }

  /** Writing the manifest disturbs the copied files only at its own two names. */
  lemma EntryAfterWriting(files: Files, content: Bytes, tools: Tools, e: AssetMetadata)
    requires e.file in files && e == MetadataOf(tools, e.file, files[e.file]) && MANIFEST_FILE != MANIFEST_TEMP
    ensures Intact(Written(files, content), tools, e)
            <==> e.file != MANIFEST_TEMP && (e.file == MANIFEST_FILE ==> Coincides(files, content, tools))
  {
  }

  lemma EntriesAfterWriting(files: Files, content: Bytes, tools: Tools, entries: seq<AssetMetadata>)
    requires Collection(files, tools, entries) && !Ignored(MANIFEST_FILE) && !Ignored(MANIFEST_TEMP)
    requires MANIFEST_FILE != MANIFEST_TEMP
    ensures AllIntact(Written(files, content), tools, entries)
            <==> MANIFEST_TEMP !in files && Coincides(files, content, tools)
  {
    forall i | 0 <= i < |entries|
      ensures Intact(Written(files, content), tools, entries[i])
              <==> entries[i].file != MANIFEST_TEMP && (entries[i].file == MANIFEST_FILE ==> Coincides(files, content, tools))
    {
      EntryAfterWriting(files, content, tools, entries[i]);
    }
    ListedWhenThere(files, tools, entries, MANIFEST_TEMP);
    ListedWhenThere(files, tools, entries, MANIFEST_FILE);
  }

  lemma ListedWhenThere(files: Files, tools: Tools, entries: seq<AssetMetadata>, path: string)
    requires Collection(files, tools, entries) && !Ignored(path)
    ensures path in files <==> exists i :: 0 <= i < |entries| && entries[i].file == path
  {
    CollectionCovers(files, tools, entries, path);
  }

  /** A bundle written from copied files with an index validates exactly when the copy brought no
      build.json.tmp, and no build.json of another size or hash. */
  lemma WrittenBundleOk(copied: Files, entries: seq<AssetMetadata>, info: BuildInfo, tools: Tools)
    requires Lossless(tools) && Collection(copied, tools, entries) && INDEX_HTML in copied
    ensures var content := Payload(Describe(entries, info), tools);
            NoErrors(IssuesOf(true, Written(copied, content), tools))
            <==> MANIFEST_TEMP !in copied && Coincides(copied, content, tools)
  {
    KnownNames();
    WrittenManifestLoads(copied, Describe(entries, info), tools);
    HeaderInOrder(copied, tools, entries, info);
    WrittenOk(copied, Describe(entries, info), Payload(Describe(entries, info), tools), tools);
  }

  lemma WrittenOk(copied: Files, m: ManifestModel, content: Bytes, tools: Tools)
    requires LoadManifest(Written(copied, content), tools) == Found(m) && INDEX_HTML in copied
    requires m.schemaVersion <= MANIFEST_VERSION && HasIndex(m) && Collection(copied, tools, m.entries)
    ensures NoErrors(IssuesOf(true, Written(copied, content), tools))
            <==> MANIFEST_TEMP !in copied && Coincides(copied, content, tools)
  {
    KnownNames();
    PassesWithManifest(Written(copied, content), m, tools);
    EntriesAfterWriting(copied, content, tools, m.entries);
  }

  lemma PassesWithManifest(files: Files, m: ManifestModel, tools: Tools)
    requires INDEX_HTML in files && LoadManifest(files, tools) == Found(m)
    requires m.schemaVersion <= MANIFEST_VERSION && HasIndex(m)
    ensures NoErrors(IssuesOf(true, files, tools)) <==> AllIntact(files, tools, m.entries)
  {
    LoadExactly(files, tools, m);
    ReadsOnce(files[MANIFEST_FILE], m, tools);
    ValidatorExact(true, files, tools);
  }

  lemma HeaderInOrder(copied: Files, tools: Tools, entries: seq<AssetMetadata>, info: BuildInfo)
    requires Collection(copied, tools, entries) && INDEX_HTML in copied && !Ignored(INDEX_HTML)
    ensures var m := Describe(entries, info); m.schemaVersion <= MANIFEST_VERSION && HasIndex(m) && m.entries == entries
  {
    IndexListed(copied, tools, entries);
  }

  lemma IndexCopied(before: Files, dist: Files, skipClean: bool)
    requires INDEX_HTML in dist
    ensures INDEX_HTML in CopiedFiles(before, dist, skipClean)
  {
    KnownNames();
  }

  /** The result of a publish: exact, for a clean one and for one on top of what was there. */
  lemma PublishExact(before: Files, dist: Files, skipClean: bool, entries: seq<AssetMetadata>, info: BuildInfo, tools: Tools)
    requires Lossless(tools) && INDEX_HTML in dist
    requires Collection(CopiedFiles(before, dist, skipClean), tools, entries)
    ensures var copied := CopiedFiles(before, dist, skipClean);
            var content := Payload(Describe(entries, info), tools);
            NoErrors(IssuesOf(true, PublishedFiles(before, dist, skipClean, content), tools))
            <==> MANIFEST_TEMP !in copied && Coincides(copied, content, tools)
  {
    IndexCopied(before, dist, skipClean);
    WrittenBundleOk(CopiedFiles(before, dist, skipClean), entries, info, tools);
  }

  lemma CleanCopyNames(before: Files, dist: Files)
    ensures MANIFEST_FILE in CopiedFiles(before, dist, false) <==> MANIFEST_FILE in dist
    ensures MANIFEST_TEMP in CopiedFiles(before, dist, false) <==> MANIFEST_TEMP in dist
  {
    KnownNames();
  }

  /** Publish implies valid: a clean publish of a build with an index, without a root build.json or
      build.json.tmp of its own, ends with a bundle the validator passes. */
  lemma PublishImpliesValid(before: Files, dist: Files, entries: seq<AssetMetadata>, info: BuildInfo, tools: Tools)
    requires Lossless(tools) && INDEX_HTML in dist && MANIFEST_FILE !in dist && MANIFEST_TEMP !in dist
    requires Collection(CopiedFiles(before, dist, false), tools, entries)
    ensures NoErrors(IssuesOf(true, PublishedFiles(before, dist, false, Payload(Describe(entries, info), tools)), tools))
  {
    PublishExact(before, dist, false, entries, info, tools);
    CleanCopyNames(before, dist);
  }

  lemma CleanCopyAt(before: Files, dist: Files, p: string)
    ensures var copied := CopiedFiles(before, dist, false);
            && (p in copied <==> p in Tracked(dist) || (p in before && RootPart(p) == KEEP))
            && (p in Tracked(dist) ==> copied[p] == dist[p])
            && (p in before && RootPart(p) == KEEP && p !in Tracked(dist) ==> copied[p] == before[p])
  {
  }

  /** It then holds exactly the files of the build that are not ignored, the manifest, and what the wipe kept. */
  lemma PublishedExactly(before: Files, dist: Files, content: Bytes, p: string)
    requires MANIFEST_FILE !in dist && MANIFEST_TEMP !in dist
    ensures var after := PublishedFiles(before, dist, false, content);
            && (p in after <==> p == MANIFEST_FILE || p in Tracked(dist) || (p in before && RootPart(p) == KEEP))
            && (p in Tracked(dist) ==> after[p] == dist[p])
            && (p in before && RootPart(p) == KEEP && p !in Tracked(dist) ==> after[p] == before[p])
            && after[MANIFEST_FILE] == content
  {
    CleanCopyAt(before, dist, p);
    CleanCopyNames(before, dist);
    KnownNames();
    WrittenAt(CopiedFiles(before, dist, false), content, p);
  }

  lemma WrittenAt(files: Files, content: Bytes, p: string)
    requires MANIFEST_FILE != MANIFEST_TEMP && MANIFEST_TEMP !in files
    ensures var after := Written(files, content);
            && (p in after <==> p == MANIFEST_FILE || p in files) && after[MANIFEST_FILE] == content
            && (p in files && p != MANIFEST_FILE ==> after[p] == files[p])
  {
  }

  /** The totals of the manifest are the number of tracked files and the sum of their sizes, in whatever order
      they are added. */
  lemma TotalsCount(files: Files, tools: Tools, entries: seq<AssetMetadata>, info: BuildInfo, order: seq<string>, size: string -> int)
    requires Collection(files, tools, entries) && multiset(order) == multiset(Tracked(files))
    requires forall p | p in files :: size(p) == |files[p]|
    ensures Describe(entries, info).totalFiles == |Tracked(files)|
    ensures Describe(entries, info).totalBytes == Sum(Map(order, size))
  {
    CollectionCovers(files, tools, entries, INDEX_HTML);
    var paths := Map(entries, FILE_OF);
    forall i | 0 <= i < |entries| ensures Map(entries, SIZE_OF)[i] == Map(paths, size)[i] {
      assert entries[i] == MetadataOf(tools, entries[i].file, files[entries[i].file]);
      assert paths[i] == entries[i].file;
    }
    assert Map(entries, SIZE_OF) == Map(paths, size);
    MapPermutation(paths, order, size);
    SumPermutation(Map(paths, size), Map(order, size));
  }

  /** Publishing again without cleaning lists the old manifest as a file of the bundle, and then overwrites
      it: it validates only if the new manifest happens to have the old one's size and hash. */
  lemma RepublishWithoutCleaning(before: Files, dist: Files, entries: seq<AssetMetadata>, info: BuildInfo, tools: Tools)
    requires Lossless(tools) && INDEX_HTML in dist && MANIFEST_FILE in before && MANIFEST_FILE !in dist
    requires MANIFEST_TEMP !in before && MANIFEST_TEMP !in dist
    requires Collection(CopiedFiles(before, dist, true), tools, entries)
    ensures var content := Payload(Describe(entries, info), tools);
            NoErrors(IssuesOf(true, PublishedFiles(before, dist, true, content), tools))
            <==> |before[MANIFEST_FILE]| == |content| && tools.hash(before[MANIFEST_FILE]) == tools.hash(content)
  {
    PublishExact(before, dist, true, entries, info, tools);
  }

  // ---- the condition on the tree before the publish ----

  ghost predicate CollisionFree(tools: Tools) {
    forall a: Bytes, b: Bytes :: tools.hash(a) == tools.hash(b) ==> a == b
  }

  /** No manifest among these files carries the id drawn for the new one. */
  ghost predicate FreshId(files: Files, bundleId: string, tools: Tools) {
    MANIFEST_FILE in files ==> forall m :: ReadsAs(files[MANIFEST_FILE], m, tools) ==> m.bundleId != bundleId
  }

  /** The publish copies, or leaves in place, a root file of this name. */
  predicate Carried(before: Files, dist: Files, skipClean: bool, name: string) {
    name in dist || (skipClean && name in before)
  }

  lemma NameCopied(before: Files, dist: Files, skipClean: bool, name: string)
    requires !Ignored(name) && RootPart(name) != KEEP
    ensures name in CopiedFiles(before, dist, skipClean) <==> Carried(before, dist, skipClean, name)
  {
  }

  lemma CarriedExactly(before: Files, dist: Files, skipClean: bool)
    ensures MANIFEST_FILE in CopiedFiles(before, dist, skipClean) <==> Carried(before, dist, skipClean, MANIFEST_FILE)
    ensures MANIFEST_TEMP in CopiedFiles(before, dist, skipClean) <==> Carried(before, dist, skipClean, MANIFEST_TEMP)
  {
    KnownNames();
    NameCopied(before, dist, skipClean, MANIFEST_FILE);
    NameCopied(before, dist, skipClean, MANIFEST_TEMP);
  }

  /** With a fresh id the new manifest's bytes are not the old one's, so without collisions it never coincides. */
  lemma FreshNeverCoincides(copied: Files, m: ManifestModel, tools: Tools)
    requires Lossless(tools) && CollisionFree(tools) && FreshId(copied, m.bundleId, tools) && MANIFEST_FILE in copied
    ensures !Coincides(copied, Payload(m, tools), tools)
  {
    if Coincides(copied, Payload(m, tools), tools) {
      SameBytes(copied[MANIFEST_FILE], Payload(m, tools), tools);
      LoadsFrom(copied, m, tools);
    }
  }

  lemma SameBytes(a: Bytes, b: Bytes, tools: Tools)
    requires CollisionFree(tools) && tools.hash(a) == tools.hash(b)
    ensures a == b
  {
  }

  lemma LoadsFrom(files: Files, m: ManifestModel, tools: Tools)
    requires Lossless(tools) && MANIFEST_FILE in files
    ensures files[MANIFEST_FILE] == Payload(m, tools) ==> ReadsAs(files[MANIFEST_FILE], m, tools)
  {
    ManifestRoundTrip(m, tools.show);
    assert tools.decode(tools.encode(ManifestToDict(m))) == Some(ManifestToDict(m));
  }

  /** A publish that draws a fresh id validates exactly when neither the build nor, if cleaning is skipped, the
      directory before it holds a root build.json or build.json.tmp. */
  lemma PublishSucceedsExactly(before: Files, dist: Files, skipClean: bool, entries: seq<AssetMetadata>, info: BuildInfo,
                               tools: Tools)
    requires Lossless(tools) && CollisionFree(tools) && INDEX_HTML in dist
    requires FreshId(CopiedFiles(before, dist, skipClean), info.bundleId, tools)
    requires Collection(CopiedFiles(before, dist, skipClean), tools, entries)
    ensures NoErrors(IssuesOf(true, PublishedFiles(before, dist, skipClean, Payload(Describe(entries, info), tools)), tools))
            <==> !Carried(before, dist, skipClean, MANIFEST_FILE) && !Carried(before, dist, skipClean, MANIFEST_TEMP)
  {
    var copied := CopiedFiles(before, dist, skipClean);
    PublishExact(before, dist, skipClean, entries, info, tools);
    CarriedExactly(before, dist, skipClean);
    if MANIFEST_FILE in copied {
      FreshNeverCoincides(copied, Describe(entries, info), tools);
    }
  }

  /** Both conditions, of the manifest a publish has installed. */
  lemma InstalledExactly(before: Files, dist: Files, skipClean: bool, manifest: ManifestModel, info: BuildInfo, tools: Tools)
    requires INDEX_HTML in dist && Described(CopiedFiles(before, dist, skipClean), info, manifest, tools)
    ensures Lossless(tools) ==>
              var copied := CopiedFiles(before, dist, skipClean);
              var content := Payload(manifest, tools);
              NoErrors(IssuesOf(true, PublishedFiles(before, dist, skipClean, content), tools))
              <==> MANIFEST_TEMP !in copied && Coincides(copied, content, tools)
    ensures Lossless(tools) && CollisionFree(tools) && FreshId(CopiedFiles(before, dist, skipClean), info.bundleId, tools) ==>
              (NoErrors(IssuesOf(true, PublishedFiles(before, dist, skipClean, Payload(manifest, tools)), tools))
               <==> !Carried(before, dist, skipClean, MANIFEST_FILE) && !Carried(before, dist, skipClean, MANIFEST_TEMP))
  {
    var copied := CopiedFiles(before, dist, skipClean);
    var entries :| Collection(copied, tools, entries) && manifest == Describe(entries, info);
    if Lossless(tools) {
      PublishExact(before, dist, skipClean, entries, info, tools);
      if CollisionFree(tools) && FreshId(copied, info.bundleId, tools) {
        PublishSucceedsExactly(before, dist, skipClean, entries, info, tools);
      }
    }
  }

  /** Publishing over a published directory without cleaning it always fails its own validation. */
  lemma RepublishFails(before: Files, dist: Files, entries: seq<AssetMetadata>, info: BuildInfo, tools: Tools)
    requires Lossless(tools) && CollisionFree(tools) && INDEX_HTML in dist && MANIFEST_FILE in before
    requires FreshId(CopiedFiles(before, dist, true), info.bundleId, tools)
    requires Collection(CopiedFiles(before, dist, true), tools, entries)
    ensures !NoErrors(IssuesOf(true, PublishedFiles(before, dist, true, Payload(Describe(entries, info), tools)), tools))
  {
    PublishSucceedsExactly(before, dist, true, entries, info, tools);
  }
}
