/** Bundles of files, by POSIX path relative to their root: collecting, wiping, copying. */
module AssetFiles {
  import opened Prelude
  import opened PythonText
  import opened Sequences
  import opened Ordering
  import opened AssetManifests

  type Files = map<string, Bytes>

  const INDEX_HTML: string := "index.html"
  const MANIFEST_FILE: string := "build.json"
  const MANIFEST_TEMP: string := "build.json.tmp"
  const KEEP: string := ".gitkeep"

  /** The hash and the content type of a file are functions of its bytes and its path. */
  datatype Tools = Tools(
    hash: Bytes -> string, mime: string -> string, encode: Json -> Bytes, decode: Bytes -> Option<Json>, show: Json -> string)

  function RootPart(path: string): string {
    Split(path, '/')[0]
  }

  function Leaf(path: string): string {
    var parts := Split(path, '/');
    parts[|parts| - 1]
  }

  predicate Ignored(path: string) {
    Leaf(path) == ".DS_Store" || Leaf(path) == KEEP
  }

  predicate StartsWith(s: string, prefix: string) {
    prefix <= s
  }

  function Classify(path: string): Role {
    if path == INDEX_HTML then Index
    else if path == ".vite/manifest.json" then Manifest
    else if StartsWith(path, "assets/") then
      if StartsWith(Leaf(path), "index-") && (EndsWith(Leaf(path), ".js") || EndsWith(Leaf(path), ".mjs")) then Entry else Asset
    else Other
  }

  function MetadataOf(tools: Tools, path: string, content: Bytes): AssetMetadata {
    AssetMetadata(path, Classify(path), |content|, tools.hash(content), tools.mime(path))
  }

  function Tracked(files: Files): set<string> {
    set p | p in files && !Ignored(p)
  }

  // ---- order of paths ----

  predicate TextLeq(a: string, b: string) {
    if a == "" then true
    else if b == "" then false
    else if a[0] == b[0] then TextLeq(a[1..], b[1..])
    else a[0] < b[0]
  }

  const TEXT_LEQ: (string, string) -> bool := (a: string, b: string) => TextLeq(a, b)
  const FILE_OF: AssetMetadata -> string := (e: AssetMetadata) => e.file
  const BY_FILE: (AssetMetadata, AssetMetadata) -> bool := (a: AssetMetadata, b: AssetMetadata) => TextLeq(a.file, b.file)

  lemma {:induction false} TextTotal(a: string, b: string)
    ensures TextLeq(a, b) || TextLeq(b, a)
    ensures TextLeq(a, b) && TextLeq(b, a) ==> a == b
  {
    if a != "" && b != "" && a[0] == b[0] {
      TextTotal(a[1..], b[1..]);
      assert a == [a[0]] + a[1..] && b == [b[0]] + b[1..];
    }
  }

  lemma {:induction false} TextTransitive(a: string, b: string, c: string)
    requires TextLeq(a, b) && TextLeq(b, c)
    ensures TextLeq(a, c)
  {
    if a != "" && b != "" && c != "" && a[0] == b[0] == c[0] {
      TextTransitive(a[1..], b[1..], c[1..]);
    }
  }

  lemma TextOrder()
    ensures TotalOrder(TEXT_LEQ) && TotalPreorder(BY_FILE)
  {
    forall a: string, b: string ensures TEXT_LEQ(a, b) || TEXT_LEQ(b, a)
      ensures TEXT_LEQ(a, b) && TEXT_LEQ(b, a) ==> a == b
    {
      TextTotal(a, b);
    }
    forall a: string, b: string, c: string | TEXT_LEQ(a, b) && TEXT_LEQ(b, c) ensures TEXT_LEQ(a, c) {
      TextTransitive(a, b, c);
    }
    forall a: AssetMetadata, b: AssetMetadata ensures BY_FILE(a, b) || BY_FILE(b, a) {
      TextTotal(a.file, b.file);
    }
    forall a: AssetMetadata, b: AssetMetadata, c: AssetMetadata | BY_FILE(a, b) && BY_FILE(b, c) ensures BY_FILE(a, c) {
      TextTransitive(a.file, b.file, c.file);
    }
  }

  // ---- collecting ----

  /** The entries of a bundle: one for every tracked file, in the order of the paths, describing its bytes. */
  ghost predicate Collection(files: Files, tools: Tools, entries: seq<AssetMetadata>) {
    && multiset(Map(entries, FILE_OF)) == multiset(Tracked(files))
    && SortedBy(Map(entries, FILE_OF), TEXT_LEQ)
    && Describes(files, tools, entries)
  }

  ghost predicate Describes(files: Files, tools: Tools, entries: seq<AssetMetadata>) {
    forall i :: 0 <= i < |entries| ==> entries[i].file in files && entries[i] == MetadataOf(tools, entries[i].file, files[entries[i].file])
  }

  /** There is only one such list, so the order in which a directory is enumerated does not show. */
  lemma CollectionUnique(files: Files, tools: Tools, a: seq<AssetMetadata>, b: seq<AssetMetadata>)
    requires Collection(files, tools, a) && Collection(files, tools, b)
    ensures a == b
  {
    TextOrder();
    SortedIsUnique(Map(a, FILE_OF), Map(b, FILE_OF), TEXT_LEQ);
    forall i | 0 <= i < |a| ensures a[i] == b[i] {
      assert Map(a, FILE_OF)[i] == Map(b, FILE_OF)[i];
    }
  }

  /** A file has an entry exactly when it is tracked. */
  lemma CollectionCovers(files: Files, tools: Tools, entries: seq<AssetMetadata>, path: string)
    requires Collection(files, tools, entries)
    ensures path in Tracked(files) <==> exists i :: 0 <= i < |entries| && entries[i].file == path
    ensures |entries| == |Tracked(files)|
  {
    var paths := Map(entries, FILE_OF);
    assert |multiset(paths)| == |multiset(Tracked(files))|;
    if path in Tracked(files) {
      assert path in multiset(paths);
      var i :| 0 <= i < |paths| && paths[i] == path;
      assert entries[i].file == path;
    }
    if i :| 0 <= i < |entries| && entries[i].file == path {
      assert paths[i] in multiset(paths);
    }
  }

  lemma SortedFiles(entries: seq<AssetMetadata>)
    ensures SortedBy(Map(Sort(entries, BY_FILE), FILE_OF), TEXT_LEQ)
    ensures multiset(Map(Sort(entries, BY_FILE), FILE_OF)) == multiset(Map(entries, FILE_OF))
    ensures multiset(Sort(entries, BY_FILE)) == multiset(entries)
  {
    TextOrder();
    var sorted := Sort(entries, BY_FILE);
    SortSorts(entries, BY_FILE);
    SortPermutes(entries, BY_FILE);
    MapPermutation(sorted, entries, FILE_OF);
    forall i, j | 0 <= i < j < |sorted| ensures TEXT_LEQ(Map(sorted, FILE_OF)[i], Map(sorted, FILE_OF)[j]) {
      assert BY_FILE(sorted[i], sorted[j]);
    }
  }

  lemma DescribesSorted(files: Files, tools: Tools, entries: seq<AssetMetadata>, sorted: seq<AssetMetadata>)
    requires Describes(files, tools, entries) && multiset(sorted) == multiset(entries)
    ensures Describes(files, tools, sorted)
  {
    forall i | 0 <= i < |sorted|
      ensures sorted[i].file in files && sorted[i] == MetadataOf(tools, sorted[i].file, files[sorted[i].file])
    {
      assert sorted[i] in multiset(entries);
      var j :| 0 <= j < |entries| && entries[j] == sorted[i];
    }
  }

  lemma FileAdded(entries: seq<AssetMetadata>, e: AssetMetadata)
    ensures multiset(Map(entries + [e], FILE_OF)) == multiset(Map(entries, FILE_OF)) + multiset{e.file}
  {
    assert Map(entries + [e], FILE_OF) == Map(entries, FILE_OF) + [e.file];
  }

  /** The entries found when these paths have still to be walked. */
  ghost predicate FoundBefore(files: Files, tools: Tools, found: seq<AssetMetadata>, remaining: set<string>) {
    && remaining <= files.Keys
    && multiset(Map(found, FILE_OF)) == multiset(Tracked(files) - remaining)
    && Describes(files, tools, found)
  }

  /** Taking one path off a set takes it on to the rest. */
  lemma OneMore<T>(all: set<T>, remaining: set<T>, x: T)
    requires x in remaining
    ensures x !in all - remaining
    ensures all - (remaining - {x}) == if x in all then (all - remaining) + {x} else all - remaining
  {
  }

  lemma FoundOne(files: Files, tools: Tools, found: seq<AssetMetadata>, remaining: set<string>, path: string)
    requires FoundBefore(files, tools, found, remaining) && path in remaining
    ensures FoundBefore(files, tools, if Ignored(path) then found else found + [MetadataOf(tools, path, files[path])],
                        remaining - {path})
  {
    OneMore(Tracked(files), remaining, path);
    if !Ignored(path) {
      var e := MetadataOf(tools, path, files[path]);
      FileAdded(found, e);
      SetGrows(Tracked(files) - remaining, path);
    }
  }

  lemma SetGrows<T>(s: set<T>, x: T)
    requires x !in s
    ensures multiset(s + {x}) == multiset(s) + multiset{x}
  {
  }

  lemma FoundAll(files: Files, tools: Tools, found: seq<AssetMetadata>)
    requires FoundBefore(files, tools, found, {})
    ensures Collection(files, tools, Sort(found, BY_FILE))
  {
    assert Tracked(files) - {} == Tracked(files);
    SortedFiles(found);
    DescribesSorted(files, tools, found, Sort(found, BY_FILE));
  }

  /** Walk the files in any order, then sort by path. */
  method CollectAssets(files: Files, tools: Tools) returns (entries: seq<AssetMetadata>)
    ensures Collection(files, tools, entries)
  {
    var found: seq<AssetMetadata> := [];
    var remaining := files.Keys;
    assert Tracked(files) - remaining == {};
    while remaining != {}
      invariant FoundBefore(files, tools, found, remaining)
      decreases |remaining|
    {
      var path :| path in remaining;
      FoundOne(files, tools, found, remaining, path);
      remaining := remaining - {path};
      if !Ignored(path) {
        found := found + [MetadataOf(tools, path, files[path])];
      }
    }
    FoundAll(files, tools, found);
    entries := Sort(found, BY_FILE);
  }

  // ---- wiping and copying ----

  function Wiped(files: Files): Files {
    map p | p in files && RootPart(p) == KEEP :: files[p]
  }

  function RootEntries(files: Files): set<string> {
    (set p | p in files :: RootPart(p)) - {KEEP}
  }

  function WithoutRoots(files: Files, names: set<string>): Files {
    map p | p in files && RootPart(p) !in names :: files[p]
  }

  function Copied(source: Files, files: Files): Files {
    files + (map p | p in source && !Ignored(p) :: source[p])
  }

  /** The published directory; when it is absent it holds nothing. */
  class Bundle {
    var present: bool
    var files: Files

    ghost predicate Valid()
      reads this
    {
      !present ==> files == map[]
    }

    constructor (present: bool, files: Files)
      requires !present ==> files == map[]
      ensures Valid() && this.present == present && this.files == files
    {
      this.present := present;
      this.files := files;
    }

    /** Remove every root entry but the .gitkeep marker. */
    method Wipe() returns (removed: nat)
      requires Valid()
      modifies this
      ensures Valid() && present == old(present)
      ensures files == Wiped(old(files)) && removed == |RootEntries(old(files))|
    {
      removed := 0;
      if !present {
        NothingToWipe();
        return;
      }
      var names := RootEntries(files);
      NoneWiped(files);
      while names != {}
        invariant present && WipedBefore(old(files), files, names, removed)
        decreases |names|
      {
        var name :| name in names;
        WipedOne(old(files), files, names, removed, name);
        names := names - {name};
        files := WithoutRoots(files, {name});
        removed := removed + 1;
      }
      AllWiped(old(files), files, removed);
    }

    /** Mirror a source into the bundle. */
    method CopyFrom(source: Files) returns (copied: nat)
      requires Valid()
      modifies this
      ensures Valid() && present
      ensures files == Copied(source, old(files)) && copied == |Tracked(source)|
    {
      present := true;
      copied := 0;
      var remaining := source.Keys;
      NoneCopied(old(files), source);
      while remaining != {}
        invariant present && CopiedBefore(old(files), source, files, remaining, copied)
        decreases |remaining|
      {
        var path :| path in remaining;
        CopiedOne(old(files), source, files, remaining, copied, path);
        remaining := remaining - {path};
        if !Ignored(path) {
          files := files[path := source[path]];
          copied := copied + 1;
        }
      }
      AllCopied(old(files), source, files, copied);
    }

    /** Write a text beside its destination and rename it into place. */
    method WriteAtomically(content: Bytes)
      requires Valid() && present
      modifies this
      ensures Valid() && present
      ensures files == Written(old(files), content)
    {
      files := files[MANIFEST_TEMP := content];
      var moved := files[MANIFEST_TEMP];
      files := files[MANIFEST_FILE := moved];
      files := files - {MANIFEST_TEMP};
      NamesDiffer();
      assert files == Written(old(files), content);
    }
  }

  // ---- the loops, a step at a time ----

  ghost predicate WipedBefore(before: Files, files: Files, names: set<string>, removed: nat) {
    && names <= RootEntries(before)
    && files == WithoutRoots(before, RootEntries(before) - names) && removed == |RootEntries(before) - names|
  }

  lemma NothingToWipe()
    ensures RootEntries(map[]) == {} && Wiped(map[]) == map[]
  {
  }

  lemma NoneWiped(before: Files)
    ensures WipedBefore(before, before, RootEntries(before), 0)
  {
    var all := RootEntries(before);
    assert all - all == {};
    assert WithoutRoots(before, {}) == before;
  }

  lemma RootsCompose(before: Files, a: set<string>, name: string)
    ensures WithoutRoots(WithoutRoots(before, a), {name}) == WithoutRoots(before, a + {name})
  {
  }

  lemma WipedOne(before: Files, files: Files, names: set<string>, removed: nat, name: string)
    requires WipedBefore(before, files, names, removed) && name in names
    ensures WipedBefore(before, WithoutRoots(files, {name}), names - {name}, removed + 1)
  {
    var gone := RootEntries(before) - names;
    OneMore(RootEntries(before), names, name);
    RootsCompose(before, gone, name);
    assert |gone + {name}| == |gone| + 1;
  }

  lemma AllWiped(before: Files, files: Files, removed: nat)
    requires WipedBefore(before, files, {}, removed)
    ensures files == Wiped(before) && removed == |RootEntries(before)|
  {
    var all := RootEntries(before);
    assert all - {} == all;
    forall p | p in before ensures RootPart(p) !in all <==> RootPart(p) == KEEP {
    }
  }

  function Chosen(source: Files, paths: set<string>): Files {
    map p | p in source && p in paths :: source[p]
  }

  ghost predicate CopiedBefore(before: Files, source: Files, files: Files, remaining: set<string>, copied: nat) {
    && remaining <= source.Keys
    && files == before + Chosen(source, Tracked(source) - remaining) && copied == |Tracked(source) - remaining|
  }

  lemma NoneCopied(before: Files, source: Files)
    ensures CopiedBefore(before, source, before, source.Keys, 0)
  {
    assert Tracked(source) - source.Keys == {};
    assert Chosen(source, {}) == map[];
    assert before + map[] == before;
  }

  lemma ChosenGrows(before: Files, source: Files, paths: set<string>, path: string)
    requires path in source
    ensures before + Chosen(source, paths + {path}) == (before + Chosen(source, paths))[path := source[path]]
  {
  }

  lemma CopiedOne(before: Files, source: Files, files: Files, remaining: set<string>, copied: nat, path: string)
    requires CopiedBefore(before, source, files, remaining, copied) && path in remaining
    ensures CopiedBefore(before, source, if Ignored(path) then files else files[path := source[path]], remaining - {path},
                         if Ignored(path) then copied else copied + 1)
  {
    var done := Tracked(source) - remaining;
    OneMore(Tracked(source), remaining, path);
    if !Ignored(path) {
      ChosenGrows(before, source, done, path);
      assert |done + {path}| == |done| + 1;
    }
  }

  lemma AllCopied(before: Files, source: Files, files: Files, copied: nat)
    requires CopiedBefore(before, source, files, {}, copied)
    ensures files == Copied(source, before) && copied == |Tracked(source)|
  {
    assert Tracked(source) - {} == Tracked(source);
    assert Chosen(source, Tracked(source)) == map p | p in source && !Ignored(p) :: source[p];
  }

  function Written(files: Files, content: Bytes): Files {
    (files - {MANIFEST_TEMP})[MANIFEST_FILE := content]
  }

  lemma NamesDiffer()
    ensures MANIFEST_FILE != MANIFEST_TEMP
  {
    assert |MANIFEST_FILE| != |MANIFEST_TEMP|;
  }
}
