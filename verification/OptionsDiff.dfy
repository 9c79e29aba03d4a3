/** Flattening nested options to dotted keys, and the difference of two option trees. */
module OptionsDiffing {
  import opened Prelude
  import opened PythonText

  /** Normalised options: a dictionary in its order, down to leaves that are not dictionaries. */
  datatype Tree<T> = Leaf(value: T) | Node(members: seq<(string, Tree<T>)>)

  /** A key under a prefix. */
  function Dotted(prefix: string, key: string): string {
    if prefix == "" then prefix + key else prefix + ['.'] + key
  }

  /** The leaves under the first n members. */
  function Flatten<T>(t: Tree<T>, n: nat, prefix: string): map<string, T>
    requires t.Node? && n <= |t.members|
    decreases t, n
  {
    if n == 0 then map[]
    else
      var (key, child) := t.members[n - 1];
      var before := Flatten(t, n - 1, prefix);
      var path := Dotted(prefix, key);
      match child
      case Leaf(v) => before[path := v]
      case Node(members) => before + Flatten(child, |members|, path)
  }

  function FlattenTree<T>(t: Tree<T>): map<string, T>
    requires t.Node?
  {
    Flatten(t, |t.members|, "")
  }

  method FlattenMembers<T>(t: Tree<T>, prefix: string) returns (out: map<string, T>)
    requires t.Node?
    ensures out == Flatten(t, |t.members|, prefix)
    decreases t
  {
    out := map[];
    for i := 0 to |t.members|
      invariant out == Flatten(t, i, prefix)
    {
      var (key, value) := t.members[i];
      var path := Dotted(prefix, key);
      if value.Node? {
        var inner := FlattenMembers(value, path);
        out := out + inner;
      } else {
        out := out[path := value.value];
      }
    }
  }

  // ---- paths ----

  predicate PlainKey(key: string) {
    key != "" && '.' !in key
  }

  ghost predicate PlainKeys(path: seq<string>) {
    forall i :: 0 <= i < |path| ==> PlainKey(path[i])
  }

  /** Keys are not empty, hold no dot, and differ within a dictionary. */
  ghost predicate WellFormed<T>(t: Tree<T>) {
    t.Node? ==>
      && (forall i :: 0 <= i < |t.members| ==> PlainKey(t.members[i].0) && WellFormed(t.members[i].1))
      && (forall i, j :: 0 <= i < j < |t.members| ==> t.members[i].0 != t.members[j].0)
  }

  /** The leaf a path of keys leads to. */
  function LeafAt<T>(t: Tree<T>, path: seq<string>): Option<T>
    decreases t, if t.Node? then |t.members| + 1 else 0
  {
    match t
    case Leaf(v) => if path == [] then Some(v) else None
    case Node(members) => if path == [] then None else LeafUnder(t, |members|, path)
  }

  function LeafUnder<T>(t: Tree<T>, n: nat, path: seq<string>): Option<T>
    requires t.Node? && n <= |t.members| && path != []
    decreases t, n
  {
    if n == 0 then None
    else if t.members[n - 1].0 == path[0] then LeafAt(t.members[n - 1].1, path[1..])
    else LeafUnder(t, n - 1, path)
  }

  lemma {:induction false} JoinOneMore(path: seq<string>, key: string)
    requires PlainKeys(path)
    ensures Dotted(Join(path, '.'), key) == Join(path + [key], '.')
  {
    if path == [] {
      assert [] + [key] == [key];
    } else {
      assert PlainKey(path[0]);
      assert (path + [key])[1..] == path[1..] + [key];
      if |path| > 1 {
        JoinOneMore(path[1..], key);
        assert PlainKey(path[1]);
        NonEmptyJoin(path[1..]);
      }
    }
  }

  lemma NonEmptyJoin(path: seq<string>)
    requires path != [] && PlainKeys(path)
    ensures Join(path, '.') != ""
  {
    assert PlainKey(path[0]);
  }

  lemma SplitDotted(path: seq<string>)
    requires path != [] && PlainKeys(path)
    ensures Split(Join(path, '.'), '.') == path
  {
    forall i | 0 <= i < |path| ensures '.' !in path[i] {
      assert PlainKey(path[i]);
    }
    SplitJoin(path, '.');
  }

  // ---- flattening is exact ----

  lemma SplitUnder(path: seq<string>, below: seq<string>, k: string)
    requires PlainKeys(path) && PlainKeys(below) && below != [] && k == Join(path + below, '.')
    ensures Split(k, '.') == path + below
  {
    SplitDotted(path + below);
  }

  lemma OwnLeaf<T>(t: Tree<T>, n: nat, rest: seq<string>)
    requires t.Node? && 0 < n <= |t.members|
    ensures LeafUnder(t, n, [t.members[n - 1].0] + rest) == LeafAt(t.members[n - 1].1, rest)
  {
    assert ([t.members[n - 1].0] + rest)[1..] == rest;
  }

  lemma StillUnder<T>(t: Tree<T>, n: nat, below: seq<string>)
    requires t.Node? && WellFormed(t) && 0 < n <= |t.members| && below != [] && LeafUnder(t, n - 1, below).Some?
    ensures LeafUnder(t, n, below) == LeafUnder(t, n - 1, below)
  {
    EarlierKey(t, n - 1, below);
  }

  /** A flat key is the dotted form of a path to a leaf. */
  ghost predicate Leads<T>(t: Tree<T>, n: nat, path: seq<string>, k: string, below: seq<string>, v: T)
    requires t.Node? && n <= |t.members|
  {
    below != [] && PlainKeys(below) && k == Join(path + below, '.') && LeafUnder(t, n, below) == Some(v)
  }

  lemma LeadsLeaf<T>(t: Tree<T>, n: nat, path: seq<string>, v: T)
    requires t.Node? && 0 < n <= |t.members| && PlainKeys(path)
    requires PlainKey(t.members[n - 1].0) && t.members[n - 1].1 == Leaf(v)
    ensures Leads(t, n, path, Dotted(Join(path, '.'), t.members[n - 1].0), [t.members[n - 1].0], v)
  {
    var key := t.members[n - 1].0;
    JoinOneMore(path, key);
    OwnLeaf(t, n, []);
    assert [key] + [] == [key];
  }

  lemma LeadsDown<T>(t: Tree<T>, n: nat, path: seq<string>, k: string, rest: seq<string>, v: T)
    requires t.Node? && 0 < n <= |t.members| && PlainKey(t.members[n - 1].0)
    requires var (key, child) := t.members[n - 1]; child.Node? && Leads(child, |child.members|, path + [key], k, rest, v)
    ensures Leads(t, n, path, k, [t.members[n - 1].0] + rest, v)
  {
    var key := t.members[n - 1].0;
    OwnLeaf(t, n, rest);
    assert path + ([key] + rest) == (path + [key]) + rest;
  }

  lemma LeadsStill<T>(t: Tree<T>, n: nat, path: seq<string>, k: string, below: seq<string>, v: T)
    requires t.Node? && WellFormed(t) && 0 < n <= |t.members| && Leads(t, n - 1, path, k, below, v)
    ensures Leads(t, n, path, k, below, v)
  {
    StillUnder(t, n, below);
  }

  lemma PlainPath(path: seq<string>, key: string)
    requires PlainKeys(path) && PlainKey(key)
    ensures PlainKeys(path + [key])
  {
  }

  lemma MemberOk<T>(t: Tree<T>, i: nat)
    requires t.Node? && WellFormed(t) && i < |t.members|
    ensures PlainKey(t.members[i].0) && WellFormed(t.members[i].1)
  {
  }

  /** The flat form of the first n members holds the value under the key. */
  ghost predicate FlatHas<T>(t: Tree<T>, n: nat, prefix: string, k: string, v: T)
    requires t.Node? && n <= |t.members|
  {
    k in Flatten(t, n, prefix) && Flatten(t, n, prefix)[k] == v
  }

  /** The flat key comes from the last member, from below it, or from an earlier one. */
  lemma FlatOrigin<T>(t: Tree<T>, n: nat, prefix: string, k: string, v: T)
    requires t.Node? && n <= |t.members| && FlatHas(t, n, prefix, k, v)
    ensures n > 0
    ensures var (key, child) := t.members[n - 1];
            || (child == Leaf(v) && k == Dotted(prefix, key))
            || (child.Node? && FlatHas(child, |child.members|, Dotted(prefix, key), k, v))
            || FlatHas(t, n - 1, prefix, k, v)
  {
    var (key, child) := t.members[n - 1];
    var before, full := Flatten(t, n - 1, prefix), Dotted(prefix, key);
    match child
    case Leaf(value) => assert Flatten(t, n, prefix) == before[full := value];
    case Node(members) => assert Flatten(t, n, prefix) == before + Flatten(child, |members|, full);
  }

  /** Every flat key is the dotted path of a leaf. */
  lemma {:induction false} FlatKeysArePaths<T>(t: Tree<T>, n: nat, path: seq<string>, prefix: string, k: string, v: T)
    returns (below: seq<string>)
    requires t.Node? && WellFormed(t) && n <= |t.members| && PlainKeys(path) && prefix == Join(path, '.')
    requires FlatHas(t, n, prefix, k, v)
    ensures Leads(t, n, path, k, below, v)
    decreases t, n
  {
    FlatOrigin(t, n, prefix, k, v);
    MemberOk(t, n - 1);
    var (key, child) := t.members[n - 1];
    if child == Leaf(v) && k == Dotted(prefix, key) {
      below := [key];
      LeadsLeaf(t, n, path, v);
    } else if child.Node? && FlatHas(child, |child.members|, Dotted(prefix, key), k, v) {
      JoinOneMore(path, key);
      PlainPath(path, key);
      var rest := FlatKeysArePaths(child, |child.members|, path + [key], Dotted(prefix, key), k, v);
      below := [key] + rest;
      LeadsDown(t, n, path, k, rest, v);
    } else {
      below := FlatKeysArePaths(t, n - 1, path, prefix, k, v);
      LeadsStill(t, n, path, k, below, v);
    }
  }

  /** A leaf found under the first members has the key of one of them. */
  lemma {:induction false} EarlierKey<T>(t: Tree<T>, n: nat, below: seq<string>)
    requires t.Node? && n <= |t.members| && below != [] && LeafUnder(t, n, below).Some?
    ensures exists i :: 0 <= i < n && t.members[i].0 == below[0]
  {
    if t.members[n - 1].0 != below[0] {
      EarlierKey(t, n - 1, below);
    }
  }

  /** Every leaf has its dotted path as a flat key, with its value. */
  lemma {:induction false} LeavesAreFlat<T>(t: Tree<T>, n: nat, path: seq<string>, below: seq<string>)
    requires t.Node? && WellFormed(t) && n <= |t.members| && PlainKeys(path) && PlainKeys(below) && below != []
    requires LeafUnder(t, n, below).Some?
    ensures var k := Join(path + below, '.');
            k in Flatten(t, n, Join(path, '.')) && Flatten(t, n, Join(path, '.'))[k] == LeafUnder(t, n, below).value
    decreases t, n
  {
    var (key, child) := t.members[n - 1];
    var prefix, k := Join(path, '.'), Join(path + below, '.');
    assert PlainKey(key) && WellFormed(child);
    JoinOneMore(path, key);
    if key == below[0] {
      assert below == [key] + below[1..];
      if child.Node? {
        assert path + below == (path + [key]) + below[1..];
        LeavesAreFlat(child, |child.members|, path + [key], below[1..]);
      } else {
        assert below == [key];
      }
    } else {
      LeavesAreFlat(t, n - 1, path, below);
      NotShadowed(t, n, path, below);
    }
  }

  /** The last member writes no key of another member. */
  lemma NotShadowed<T>(t: Tree<T>, n: nat, path: seq<string>, below: seq<string>)
    requires t.Node? && WellFormed(t) && 0 < n <= |t.members| && PlainKeys(path) && PlainKeys(below) && below != []
    requires t.members[n - 1].0 != below[0]
    ensures var k, path2 := Join(path + below, '.'), Dotted(Join(path, '.'), t.members[n - 1].0);
            var child := t.members[n - 1].1;
            if child.Leaf? then k != path2 else k !in Flatten(child, |child.members|, path2)
  {
    var (key, child) := t.members[n - 1];
    var k := Join(path + below, '.');
    assert PlainKey(key) && WellFormed(child);
    JoinOneMore(path, key);
    SplitUnder(path, below, k);
    assert (path + below)[|path|] == below[0];
    if child.Leaf? {
      SplitUnder(path, [key], Dotted(Join(path, '.'), key));
      assert (path + [key])[|path|] == key;
    } else if k in Flatten(child, |child.members|, Dotted(Join(path, '.'), key)) {
      KeyOfChild(child, path, key, k);
    }
  }

  /** A flat key below a member names the member after the path. */
  lemma KeyOfChild<T>(child: Tree<T>, path: seq<string>, key: string, k: string)
    requires child.Node? && WellFormed(child) && PlainKeys(path) && PlainKey(key)
    requires k in Flatten(child, |child.members|, Dotted(Join(path, '.'), key))
    ensures |Split(k, '.')| > |path| && Split(k, '.')[|path|] == key
  {
    JoinOneMore(path, key);
    var full := Dotted(Join(path, '.'), key);
    var rest := FlatKeysArePaths(child, |child.members|, path + [key], full, k, Flatten(child, |child.members|, full)[k]);
    SplitUnder(path + [key], rest, k);
    assert ((path + [key]) + rest)[|path|] == key;
  }

  /** The flat form of a tree has exactly the dotted paths of its leaves as keys, with their values. */
  lemma FlattenExact<T>(t: Tree<T>, k: string)
    requires t.Node? && WellFormed(t)
    ensures k in FlattenTree(t) <==> PlainKeys(Split(k, '.')) && LeafAt(t, Split(k, '.')).Some?
    ensures k in FlattenTree(t) ==> LeafAt(t, Split(k, '.')) == Some(FlattenTree(t)[k])
  {
    assert Join([], '.') == "";
    if k in FlattenTree(t) {
      var below := FlatKeysArePaths(t, |t.members|, [], "", k, FlattenTree(t)[k]);
      assert [] + below == below;
      SplitDotted(below);
    }
    if PlainKeys(Split(k, '.')) && LeafAt(t, Split(k, '.')).Some? {
      LeavesAreFlat(t, |t.members|, [], Split(k, '.'));
      assert [] + Split(k, '.') == Split(k, '.');
      JoinSplit(k, '.');
    }
  }

  /** Different paths have different dotted keys. */
  lemma DottedInjective(a: seq<string>, b: seq<string>)
    requires a != [] && b != [] && PlainKeys(a) && PlainKeys(b) && Join(a, '.') == Join(b, '.')
    ensures a == b
  {
    SplitDotted(a);
    SplitDotted(b);
  }

  // ---- differences ----

  /** The value of a flat key, or `none`, as dict.get gives it. */
  function GetOr<T>(m: map<string, T>, k: string, none: T): T {
    if k in m then m[k] else none
  }

  function DiffFlat<T(==)>(a: map<string, T>, b: map<string, T>, none: T): map<string, (T, T)> {
    map k | k in a.Keys + b.Keys && GetOr(a, k, none) != GetOr(b, k, none) :: (GetOr(a, k, none), GetOr(b, k, none))
  }

  /** The difference of two snapshots by dotted key. */
  function DiffOptions<T(==)>(a: Tree<T>, b: Tree<T>, none: T): map<string, (T, T)>
    requires a.Node? && b.Node?
  {
    DiffFlat(FlattenTree(a), FlattenTree(b), none)
  }

  method Diff<T(==)>(a: Tree<T>, b: Tree<T>, none: T) returns (diff: map<string, (T, T)>)
    requires a.Node? && b.Node?
    ensures diff == DiffOptions(a, b, none)
  {
    var flatA := FlattenMembers(a, "");
    var flatB := FlattenMembers(b, "");
    diff := map[];
    var keys := flatA.Keys + flatB.Keys;
    ghost var all := keys;
    while keys != {}
      invariant keys <= all
      invariant diff == map k | k in all && k !in keys && GetOr(flatA, k, none) != GetOr(flatB, k, none)
                          :: (GetOr(flatA, k, none), GetOr(flatB, k, none))
      decreases |keys|
    {
      var k :| k in keys;
      keys := keys - {k};
      if GetOr(flatA, k, none) != GetOr(flatB, k, none) {
        diff := diff[k := (GetOr(flatA, k, none), GetOr(flatB, k, none))];
      }
    }
  }

  /** The same dictionaries down to the leaves, whose values may differ. */
  ghost predicate SameShape<T>(a: Tree<T>, b: Tree<T>)
    decreases a
  {
    match a
    case Leaf(_) => b.Leaf?
    case Node(members) =>
      && b.Node? && |b.members| == |members|
      && forall i :: 0 <= i < |members| ==> members[i].0 == b.members[i].0 && SameShape(members[i].1, b.members[i].1)
  }

  lemma {:induction false} SameShapeKeys<T>(a: Tree<T>, b: Tree<T>, n: nat, prefix: string)
    requires a.Node? && SameShape(a, b) && n <= |a.members|
    ensures Flatten(a, n, prefix).Keys == Flatten(b, n, prefix).Keys
    decreases a, n
  {
    if n > 0 {
      var (key, child) := a.members[n - 1];
      SameShapeKeys(a, b, n - 1, prefix);
      assert SameShape(child, b.members[n - 1].1);
      if child.Node? {
        SameShapeKeys(child, b.members[n - 1].1, |child.members|, Dotted(prefix, key));
      }
    }
  }

  ghost predicate SameLeaves<T>(a: Tree<T>, b: Tree<T>) {
    forall p: seq<string> | PlainKeys(p) :: LeafAt(a, p) == LeafAt(b, p)
  }

  lemma OwnMember<T>(t: Tree<T>, i: nat, n: nat, p: seq<string>)
    requires t.Node? && WellFormed(t) && i < n <= |t.members|
    ensures LeafUnder(t, n, [t.members[i].0] + p) == LeafAt(t.members[i].1, p)
    decreases n
  {
    if i == n - 1 {
      OwnLeaf(t, n, p);
    } else {
      OwnMember(t, i, n - 1, p);
    }
  }

  lemma ChildLeaves<T>(a: Tree<T>, b: Tree<T>, i: nat)
    requires a.Node? && b.Node? && WellFormed(a) && WellFormed(b) && SameShape(a, b) && SameLeaves(a, b) && i < |a.members|
    ensures SameLeaves(a.members[i].1, b.members[i].1)
  {
    forall p: seq<string> | PlainKeys(p) ensures LeafAt(a.members[i].1, p) == LeafAt(b.members[i].1, p) {
      var q := [a.members[i].0] + p;
      assert PlainKey(a.members[i].0);
      assert PlainKeys(q);
      OwnMember(a, i, |a.members|, p);
      OwnMember(b, i, |b.members|, p);
      assert LeafAt(a, q) == LeafAt(b, q);
    }
  }

  /** Trees of one shape with the same leaves are equal. */
  lemma {:induction false} LeavesDecide<T>(a: Tree<T>, b: Tree<T>)
    requires WellFormed(a) && WellFormed(b) && SameShape(a, b) && SameLeaves(a, b)
    ensures a == b
    decreases a
  {
    if a.Leaf? {
      assert PlainKeys([]);
      assert LeafAt(a, []) == LeafAt(b, []);
    } else {
      forall i | 0 <= i < |a.members| ensures a.members[i] == b.members[i] {
        assert WellFormed(a.members[i].1) && WellFormed(b.members[i].1);
        ChildLeaves(a, b, i);
        LeavesDecide(a.members[i].1, b.members[i].1);
      }
      assert a.members == b.members;
    }
  }

  lemma FlatDecides<T>(a: Tree<T>, b: Tree<T>)
    requires a.Node? && b.Node? && WellFormed(a) && WellFormed(b) && FlattenTree(a) == FlattenTree(b)
    ensures SameLeaves(a, b)
  {
    forall p: seq<string> | PlainKeys(p) ensures LeafAt(a, p) == LeafAt(b, p) {
      if p != [] {
        SplitDotted(p);
        FlattenExact(a, Join(p, '.'));
        FlattenExact(b, Join(p, '.'));
      }
    }
  }

  lemma NoDifference<T>(a: map<string, T>, b: map<string, T>, none: T)
    requires a.Keys == b.Keys
    ensures DiffFlat(a, b, none) == map[] <==> a == b
  {
    if DiffFlat(a, b, none) == map[] {
      forall k | k in a ensures a[k] == b[k] {
        assert k !in DiffFlat(a, b, none);
      }
    }
  }

  /** Two snapshots of one shape differ nowhere exactly when they are equal. */
  lemma DiffEmptyExact<T>(a: Tree<T>, b: Tree<T>, none: T)
    requires a.Node? && SameShape(a, b) && WellFormed(a) && WellFormed(b)
    ensures DiffOptions(a, b, none) == map[] <==> a == b
  {
    SameShapeKeys(a, b, |a.members|, "");
    NoDifference(FlattenTree(a), FlattenTree(b), none);
    if FlattenTree(a) == FlattenTree(b) {
      FlatDecides(a, b);
      LeavesDecide(a, b);
    }
  }

  /** Overwriting with the second components of a difference. */
  function Patched<T>(flat: map<string, T>, diff: map<string, (T, T)>): map<string, T> {
    flat + (map k | k in diff :: diff[k].1)
  }

  /** A difference is a patch: it turns the first flat form into the second. */
  lemma DiffIsPatch<T>(a: Tree<T>, b: Tree<T>, none: T)
    requires a.Node? && SameShape(a, b)
    ensures b.Node? && Patched(FlattenTree(a), DiffOptions(a, b, none)) == FlattenTree(b)
  {
    SameShapeKeys(a, b, |a.members|, "");
    var fa, fb := FlattenTree(a), FlattenTree(b);
    forall k | k in fa ensures Patched(fa, DiffFlat(fa, fb, none))[k] == fb[k] {
    }
    assert Patched(fa, DiffFlat(fa, fb, none)).Keys == fb.Keys;
  }

  /** Overwriting with the first components of a difference. */
  function Reverted<T>(flat: map<string, T>, diff: map<string, (T, T)>): map<string, T> {
    flat + (map k | k in diff :: diff[k].0)
  }

  /** Read backwards, a difference turns the second flat form into the first. */
  lemma DiffReverts<T>(a: Tree<T>, b: Tree<T>, none: T)
    requires a.Node? && SameShape(a, b)
    ensures b.Node? && Reverted(FlattenTree(b), DiffOptions(a, b, none)) == FlattenTree(a)
  {
    SameShapeKeys(a, b, |a.members|, "");
    var fa, fb := FlattenTree(a), FlattenTree(b);
    forall k | k in fa ensures Reverted(fb, DiffFlat(fa, fb, none))[k] == fa[k] {
    }
    assert Reverted(fb, DiffFlat(fa, fb, none)).Keys == fa.Keys;
  }

  /** Whatever the shapes: a key is in the difference exactly when it is in one of the flat forms and its values,
      a missing one being `none`, differ; and it holds the two values in their order. */
  lemma DiffAt<T>(a: Tree<T>, b: Tree<T>, none: T, k: string)
    requires a.Node? && b.Node?
    ensures var fa, fb, diff := FlattenTree(a), FlattenTree(b), DiffOptions(a, b, none);
            var left, right := if k in fa then fa[k] else none, if k in fb then fb[k] else none;
            && (k in diff <==> (k in fa || k in fb) && left != right)
            && (k in diff ==> diff[k] == (left, right))
  {
  }

  const EMPTY: Tree<int> := Node([])
  const HOLLOW: Tree<int> := Node([("x", EMPTY)])

  /** An empty dictionary has no leaf: where the keys differ, an empty difference does not mean equal trees. */
  lemma EmptyNodeInvisible(none: int)
    ensures EMPTY != HOLLOW && DiffOptions(EMPTY, HOLLOW, none) == map[]
  {
    assert EMPTY.members != HOLLOW.members;
    assert FlattenTree(EMPTY) == map[];
    assert HOLLOW.members[0] == ("x", EMPTY);
    assert Flatten(HOLLOW, 1, "") == map[] + map[];
  }
}
