/** The paths a bundle keeps, ignores and classifies, in the text of the path itself. */
module AssetPaths {
  import opened Prelude
  import opened PythonText
  import opened Sequences
  import opened AssetManifests
  import opened AssetFiles

  /** The text ends a path as a name of its own. */
  predicate NamedAs(path: string, name: string) {
    path == name || EndsIn(path, ['/'] + name)
  }

  predicate EndsIn(s: string, tail: string) {
    |tail| <= |s| && s[|s| - |tail|..] == tail
  }

  /** The path is this root entry, or lies below it. */
  predicate Under(path: string, name: string) {
    path == name || name + ['/'] <= path
  }

  /** A marker or a leftover of the Finder, in any directory. */
  predicate Hidden(path: string) {
    || path == ".DS_Store" || path == ".gitkeep"
    || EndsIn(path, "/.DS_Store") || EndsIn(path, "/.gitkeep")
  }

  /** What a wipe leaves: the root marker, or what lies in a directory of its name. */
  predicate SurvivesWipe(path: string) {
    path == ".gitkeep" || ".gitkeep/" <= path
  }

  // ---- the first and the last part of a path ----

  lemma JoinFirst(parts: seq<string>, sep: char)
    requires |parts| > 1
    ensures parts[0] + [sep] <= Join(parts, sep)
  {
  }

  lemma {:induction false} JoinLast(parts: seq<string>, sep: char)
    requires |parts| > 1
    ensures Join(parts, sep) == Join(parts[..|parts| - 1], sep) + [sep] + parts[|parts| - 1]
  {
    var n := |parts| - 1;
    if n > 1 {
      JoinLast(parts[1..], sep);
      assert parts[1..][..n - 1] == parts[..n][1..];
      var rest, last := Join(parts[1..n], sep), parts[n];
      assert parts[1..][..n - 1] == parts[1..n];
      assert parts[0] + [sep] + (rest + [sep] + last) == (parts[0] + [sep] + rest) + [sep] + last;
    }
  }

  lemma NamedBelow(dir: string, name: string)
    ensures NamedAs(dir + ['/'] + name, name)
  {
    var path, tail := dir + ['/'] + name, ['/'] + name;
    assert path == dir + tail;
    assert path[|path| - |tail|..] == tail;
  }

  /** A path is its own last part, or ends with a slash and it. */
  lemma LeafOfText(path: string)
    ensures '/' !in Leaf(path) && NamedAs(path, Leaf(path))
  {
    JoinSplit(path, '/');
    LastPartNames(Split(path, '/'), path);
  }

  lemma LastPartNames(parts: seq<string>, path: string)
    requires parts != [] && path == Join(parts, '/')
    ensures NamedAs(path, parts[|parts| - 1])
  {
    if |parts| > 1 {
      JoinLast(parts, '/');
      NamedBelow(Join(parts[..|parts| - 1], '/'), parts[|parts| - 1]);
    }
  }

  lemma RootOfText(path: string)
    ensures '/' !in RootPart(path) && Under(path, RootPart(path))
  {
    JoinSplit(path, '/');
    if |Split(path, '/')| > 1 {
      JoinFirst(Split(path, '/'), '/');
    }
  }

  /** The last n characters are what follows the last slash. */
  predicate AfterSlash(path: string, n: nat) {
    && n <= |path| && (n < |path| ==> path[|path| - n - 1] == '/')
    && forall i :: |path| - n <= i < |path| ==> path[i] != '/'
  }

  predicate BeforeSlash(path: string, n: nat) {
    && n <= |path| && (n < |path| ==> path[n] == '/')
    && forall i :: 0 <= i < n ==> path[i] != '/'
  }

  lemma NameAfterSlash(path: string, name: string)
    requires '/' !in name && NamedAs(path, name)
    ensures AfterSlash(path, |name|) && path[|path| - |name|..] == name
  {
    if path != name {
      var tail := path[|path| - |name| - 1..];
      assert tail == ['/'] + name;
      assert tail[0] == '/' && tail[1..] == name;
      assert path[|path| - |name|..] == tail[1..];
    }
    var last := path[|path| - |name|..];
    forall i | |path| - |name| <= i < |path| ensures path[i] != '/' {
      assert path[i] == last[i - (|path| - |name|)];
    }
  }

  lemma RootBeforeSlash(path: string, name: string)
    requires '/' !in name && Under(path, name)
    ensures BeforeSlash(path, |name|) && path[..|name|] == name
  {
    if path != name {
      assert path[..|name| + 1] == name + ['/'];
      assert path[|name|] == (name + ['/'])[|name|];
      assert path[..|name|] == (name + ['/'])[..|name|];
    }
    forall i | 0 <= i < |name| ensures path[i] != '/' {
      assert path[i] == path[..|name|][i];
    }
  }

  lemma OneSlash(path: string, m: nat, n: nat)
    ensures AfterSlash(path, m) && AfterSlash(path, n) ==> m == n
    ensures BeforeSlash(path, m) && BeforeSlash(path, n) ==> m == n
  {
  }

  /** A path ends in only one name without a slash, and begins with only one. */
  lemma OneName(path: string, a: string, b: string)
    requires '/' !in a && '/' !in b && NamedAs(path, a) && NamedAs(path, b)
    ensures a == b
  {
    NameAfterSlash(path, a);
    NameAfterSlash(path, b);
    OneSlash(path, |a|, |b|);
  }

  lemma OneRoot(path: string, a: string, b: string)
    requires '/' !in a && '/' !in b && Under(path, a) && Under(path, b)
    ensures a == b
  {
    RootBeforeSlash(path, a);
    RootBeforeSlash(path, b);
    OneSlash(path, |a|, |b|);
  }

  lemma LeafIs(path: string, name: string)
    requires '/' !in name
    ensures Leaf(path) == name <==> NamedAs(path, name)
  {
    LeafOfText(path);
    if NamedAs(path, name) {
      OneName(path, Leaf(path), name);
    }
  }

  lemma RootIs(path: string, name: string)
    requires '/' !in name
    ensures RootPart(path) == name <==> Under(path, name)
  {
    RootOfText(path);
    if Under(path, name) {
      OneRoot(path, RootPart(path), name);
    }
  }

  lemma SlashAndName()
    ensures ['/'] + ".DS_Store" == "/.DS_Store" && ['/'] + ".gitkeep" == "/.gitkeep" && ".gitkeep" + ['/'] == ".gitkeep/"
  {
  }

  /** Ignored are exactly the files called .DS_Store or .gitkeep, wherever they are. */
  lemma IgnoredExactly(path: string)
    ensures Ignored(path) <==> Hidden(path)
  {
    SlashAndName();
    LeafIs(path, ".DS_Store");
    LeafIs(path, ".gitkeep");
  }

  /** The wipe keeps exactly the root entry .gitkeep. */
  lemma KeptExactly(path: string)
    ensures RootPart(path) == KEEP <==> SurvivesWipe(path)
  {
    SlashAndName();
    RootIs(path, ".gitkeep");
  }

  /** The root entries, each counted once however many files it holds. */
  lemma RootEntryExactly(files: Files, name: string)
    ensures name in RootEntries(files) <==> '/' !in name && name != ".gitkeep" && exists p :: p in files && Under(p, name)
  {
    if name in RootEntries(files) {
      var p :| p in files && RootPart(p) == name;
      RootOfText(p);
    }
    if '/' !in name && exists p :: p in files && Under(p, name) {
      var p :| p in files && Under(p, name);
      RootIs(p, name);
    }
  }

  /** The role of a file, from its path: the bootstrap chunk is a script called index- something under assets. */
  lemma ClassifiedExactly(path: string)
    ensures Classify(path) == Index <==> path == "index.html"
    ensures Classify(path) == Manifest <==> path == ".vite/manifest.json"
    ensures Classify(path) == Entry <==> "assets/" <= path && exists name :: Bootstrap(path, name)
    ensures Classify(path) == Asset <==> "assets/" <= path && !exists name :: Bootstrap(path, name)
  {
    LeafOfText(path);
    if name :| Bootstrap(path, name) {
      OneName(path, Leaf(path), name);
    }
    assert "index.html"[0] == 'i' && ".vite/manifest.json"[0] == '.' && "assets/"[0] == 'a';
    assert StartsWith(Leaf(path), "index-") && (EndsWith(Leaf(path), ".js") || EndsWith(Leaf(path), ".mjs"))
           <==> Bootstrap(path, Leaf(path));
  }

  ghost predicate Bootstrap(path: string, name: string) {
    '/' !in name && NamedAs(path, name) && "index-" <= name && (EndsIn(name, ".js") || EndsIn(name, ".mjs"))
  }

  // ---- the order of paths ----

  /** The texts agree up to position k and differ there. */
  predicate DifferAt(a: string, b: string, k: int) {
    0 <= k < |a| && k < |b| && a[..k] == b[..k] && a[k] != b[k]
  }

  /** Before in the order of characters: a prefix, or the smaller character where the two first differ. */
  ghost predicate Before(a: string, b: string) {
    a <= b || exists k :: DifferAt(a, b, k) && a[k] < b[k]
  }

  lemma {:induction false} TextLeqExactly(a: string, b: string)
    ensures TextLeq(a, b) <==> Before(a, b)
  {
    if a != "" && b != "" {
      if a[0] == b[0] {
        TextLeqExactly(a[1..], b[1..]);
        TailBefore(a, b);
      } else {
        assert DifferAt(a, b, 0);
        assert forall k :: DifferAt(a, b, k) ==> k == 0 by {
          assert forall k :: 0 < k < |a| && k < |b| ==> a[..k][0] == a[0] && b[..k][0] == b[0];
        }
      }
    }
  }

  lemma TailBefore(a: string, b: string)
    requires a != "" && b != "" && a[0] == b[0]
    ensures Before(a, b) <==> Before(a[1..], b[1..])
  {
    assert a == [a[0]] + a[1..] && b == [b[0]] + b[1..];
    assert a <= b <==> a[1..] <= b[1..];
    forall k: nat ensures DifferAt(a[1..], b[1..], k) <==> DifferAt(a, b, k + 1) {
      TailDiffers(a, b, k);
    }
    if exists k :: DifferAt(a, b, k) && a[k] < b[k] {
      var k :| DifferAt(a, b, k) && a[k] < b[k];
      assert DifferAt(a[1..], b[1..], k - 1);
    }
    if exists k :: DifferAt(a[1..], b[1..], k) && a[1..][k] < b[1..][k] {
      var k :| DifferAt(a[1..], b[1..], k) && a[1..][k] < b[1..][k];
      assert DifferAt(a, b, k + 1);
    }
  }

  lemma TailDiffers(a: string, b: string, k: nat)
    requires a != "" && b != "" && a[0] == b[0]
    ensures DifferAt(a[1..], b[1..], k) <==> DifferAt(a, b, k + 1)
  {
    if k + 1 < |a| && k + 1 < |b| {
      assert a[..k + 1] == [a[0]] + a[1..][..k] && b[..k + 1] == [b[0]] + b[1..][..k];
      assert a[..k + 1][1..] == a[1..][..k] && b[..k + 1][1..] == b[1..][..k];
    }
  }

  // ---- what a collection says of its files ----

  /** An entry describes these bytes: their number and hash, and the role and the type of the path. */
  ghost predicate DescribedAs(e: AssetMetadata, content: Bytes, tools: Tools) {
    && e.sizeBytes == |content| && e.sha256 == tools.hash(content) && e.contentType == tools.mime(e.file)
    && (e.role == Index <==> e.file == "index.html")
    && (e.role == Manifest <==> e.file == ".vite/manifest.json")
    && (e.role == Entry <==> "assets/" <= e.file && exists name :: Bootstrap(e.file, name))
    && (e.role == Asset <==> "assets/" <= e.file && !exists name :: Bootstrap(e.file, name))
  }

  /** Each path once, in the order of the characters. */
  ghost predicate Ordered(entries: seq<AssetMetadata>) {
    forall i, j :: 0 <= i < j < |entries| ==> entries[i].file != entries[j].file && Before(entries[i].file, entries[j].file)
  }

  lemma ListedOnce<T>(s: seq<T>, all: set<T>, i: nat, j: nat)
    requires multiset(s) == multiset(all) && i < j < |s|
    ensures s[i] != s[j]
  {
    assert s == s[..j] + s[j..];
    assert multiset(s) == multiset(s[..j]) + multiset(s[j..]);
    assert s[i] in s[..j] && s[j] in s[j..];
    assert multiset(s[..j])[s[i]] >= 1 && multiset(s[j..])[s[j]] >= 1 && multiset(all)[s[j]] <= 1;
  }

  lemma CollectionInText(files: Files, tools: Tools, entries: seq<AssetMetadata>)
    requires Collection(files, tools, entries)
    ensures Ordered(entries)
    ensures forall i :: 0 <= i < |entries| ==>
              entries[i].file in files && DescribedAs(entries[i], files[entries[i].file], tools)
  {
    var paths := Map(entries, FILE_OF);
    forall i, j | 0 <= i < j < |entries|
      ensures entries[i].file != entries[j].file && Before(entries[i].file, entries[j].file)
    {
      ListedOnce(paths, Tracked(files), i, j);
      assert TEXT_LEQ(paths[i], paths[j]);
      TextLeqExactly(paths[i], paths[j]);
    }
    forall i | 0 <= i < |entries| ensures DescribedAs(entries[i], files[entries[i].file], tools) {
      ClassifiedExactly(entries[i].file);
    }
  }
}
