/**
 The bounded LRU cache of asset payloads. The ordered dictionary is a sequence of entries with
 distinct keys, least recently used first.
 */
module AssetCaching {
  import opened Prelude

  datatype CachedAsset = CachedAsset(relative: string, sizeBytes: nat, payload: Bytes)

  /** A call on the cache. A read of None stands for the OSError that put() swallows. */
  datatype Call = Get(key: string) | Put(key: string, read: Option<Bytes>) | Invalidate(target: Option<string>)

  type Entries = seq<CachedAsset>

  function Lookup(s: Entries, key: string): Option<CachedAsset> {
    if s == [] then None
    else if s[0].relative == key then Some(s[0])
    else Lookup(s[1..], key)
  }

  function Without(s: Entries, key: string): (r: Entries)
    ensures |r| <= |s|
  {
    if s == [] then []
    else if s[0].relative == key then Without(s[1..], key)
    else [s[0]] + Without(s[1..], key)
  }

  ghost predicate DistinctKeys(s: Entries) {
    s == [] || (Lookup(s[1..], s[0].relative) == None && DistinctKeys(s[1..]))
  }

  function Touch(s: Entries, key: string): Entries {
    match Lookup(s, key)
    case Some(asset) => Without(s, key) + [asset]
    case None => s
  }

  function Newest(s: Entries, capacity: nat): Entries {
    if |s| > capacity then s[|s| - capacity..] else s
  }

  function Admit(s: Entries, capacity: nat, asset: CachedAsset): Entries {
    Newest(Without(s, asset.relative) + [asset], capacity)
  }

  /** The entries after a call and what the call returns. */
  function Apply(s: Entries, capacity: nat, maxPayload: int, call: Call): (Entries, Option<CachedAsset>) {
    match call
    case Get(key) => (Touch(s, key), Lookup(s, key))
    case Put(key, None) => (s, None)
    case Put(key, Some(payload)) =>
      if |payload| > maxPayload then (s, None)
      else
        var asset := CachedAsset(key, |payload|, payload);
        (Admit(s, capacity, asset), Some(asset))
    case Invalidate(None) => ([], None)
    case Invalidate(Some(key)) => (Without(s, key), None)
  }

  function Run(s: Entries, capacity: nat, maxPayload: int, calls: seq<Call>): (Entries, seq<Option<CachedAsset>>)
    decreases |calls|
  {
    if calls == [] then (s, [])
    else
      var (t, answer) := Apply(s, capacity, maxPayload, calls[0]);
      var (u, answers) := Run(t, capacity, maxPayload, calls[1..]);
      (u, [answer] + answers)
  }

  /** The cache object. */
  class AssetCache {
    const maxEntries: nat
    const maxPayload: int
    var items: Entries

    ghost predicate Valid()
      reads this
    {
      maxEntries >= 1 && |items| <= maxEntries && WellFormed(items, maxPayload)
    }

    constructor (entries: nat, payload: int)
      requires entries >= 1
      ensures Valid() && items == [] && maxEntries == entries && maxPayload == payload
    {
      maxEntries, maxPayload := entries, payload;
      items := [];
    }

    /** The checked constructor: a capacity below one is the source's ValueError. */
    static method Create(entries: int, payload: int) returns (cache: Result<AssetCache>)
      ensures cache.Ok? <==> entries >= 1
      ensures cache.Ok? ==> fresh(cache.value) && cache.value.Valid() && cache.value.items == []
      ensures cache.Ok? ==> cache.value.maxEntries == entries && cache.value.maxPayload == payload
    {
      if entries < 1 {
        return Err("max_entries must be at least 1");
      }
      var empty := new AssetCache(entries, payload);
      return Ok(empty);
    }

    method Get(relative: string) returns (cached: Option<CachedAsset>)
      requires Valid()
      modifies this
      ensures Valid()
      ensures (items, cached) == Apply(old(items), maxEntries, maxPayload, Call.Get(relative))
    {
      cached := Lookup(items, relative);
      if cached.Some? {
        LookupMember(items, relative);
        TouchKeeps(items, cached.value, maxPayload);
        items := Without(items, relative);
        items := items + [cached.value];
      }
    }

    method Put(relative: string, read: Option<Bytes>) returns (cached: Option<CachedAsset>)
      requires Valid()
      modifies this
      ensures Valid()
      ensures (items, cached) == Apply(old(items), maxEntries, maxPayload, Call.Put(relative, read))
    {
      if read.None? || |read.value| > maxPayload {
        return None;
      }
      var asset := CachedAsset(relative, |read.value|, read.value);
      TouchKeeps(items, asset, maxPayload);
      if Lookup(items, relative).Some? {
        items := Without(items, relative);
      } else {
        WithoutAbsent(items, relative);
      }
      items := items + [asset];
      ghost var appended := items;
      while |items| > maxEntries
        invariant |appended| >= |items| >= Min(|appended|, maxEntries)
        invariant items == appended[|appended| - |items|..]
      {
        items := items[1..];
      }
      WellFormedSuffix(appended, |appended| - |items|, maxPayload);
      cached := Some(asset);
    }

    method Invalidate(relative: Option<string>)
      requires Valid()
      modifies this
      ensures Valid()
      ensures items == Apply(old(items), maxEntries, maxPayload, Call.Invalidate(relative)).0
    {
      if relative.None? {
        items := [];
      } else {
        WithoutKeeps(items, relative.value, maxPayload);
        items := Without(items, relative.value);
      }
    }
  }

  predicate Fits(asset: CachedAsset, maxPayload: int) {
    |asset.payload| == asset.sizeBytes <= maxPayload
  }

  /** Keys are distinct, and every entry records its own payload's size, within the cap. */
  ghost predicate WellFormed(s: Entries, maxPayload: int) {
    DistinctKeys(s) && forall x :: x in s ==> Fits(x, maxPayload)
  }

  lemma {:induction false} LookupMember(s: Entries, key: string)
    ensures Lookup(s, key).Some? ==> Lookup(s, key).value in s && Lookup(s, key).value.relative == key
  {
    if s != [] && s[0].relative != key {
      LookupMember(s[1..], key);
    }
  }

  lemma {:induction false} LookupWithout(s: Entries, key: string, other: string)
    ensures Lookup(Without(s, key), other) == if other == key then None else Lookup(s, other)
  {
    if s != [] {
      LookupWithout(s[1..], key, other);
      assert ([s[0]] + Without(s[1..], key))[1..] == Without(s[1..], key);
    }
  }

  lemma {:induction false} WithoutAbsent(s: Entries, key: string)
    requires Lookup(s, key).None?
    ensures Without(s, key) == s
  {
    if s != [] {
      WithoutAbsent(s[1..], key);
    }
  }

  lemma {:induction false} WithoutMembers(s: Entries, key: string)
    ensures forall x :: x in Without(s, key) ==> x in s
  {
    if s != [] {
      WithoutMembers(s[1..], key);
    }
  }

  lemma {:induction false} WithoutDistinct(s: Entries, key: string)
    requires DistinctKeys(s)
    ensures DistinctKeys(Without(s, key))
    ensures |Without(s, key)| == if Lookup(s, key).Some? then |s| - 1 else |s|
  {
    if s != [] {
      WithoutDistinct(s[1..], key);
      LookupWithout(s[1..], key, s[0].relative);
      assert ([s[0]] + Without(s[1..], key))[1..] == Without(s[1..], key);
    }
  }

  lemma {:induction false} DistinctAppend(s: Entries, x: CachedAsset)
    requires DistinctKeys(s) && Lookup(s, x.relative).None?
    ensures DistinctKeys(s + [x])
  {
    if s != [] {
      DistinctAppend(s[1..], x);
      assert (s + [x])[1..] == s[1..] + [x];
      LookupAppend(s[1..], x, s[0].relative);
    }
  }

  lemma {:induction false} LookupAppend(s: Entries, x: CachedAsset, key: string)
    ensures Lookup(s + [x], key)
         == if Lookup(s, key).Some? then Lookup(s, key) else if x.relative == key then Some(x) else None
  {
    if s != [] {
      LookupAppend(s[1..], x, key);
      assert (s + [x])[1..] == s[1..] + [x];
    } else {
      assert s + [x] == [x];
    }
  }

  lemma WithoutKeeps(s: Entries, key: string, maxPayload: int)
    requires WellFormed(s, maxPayload)
    ensures WellFormed(Without(s, key), maxPayload)
  {
    WithoutDistinct(s, key);
    WithoutMembers(s, key);
  }

  lemma TouchKeeps(s: Entries, x: CachedAsset, maxPayload: int)
    requires WellFormed(s, maxPayload) && (x in s || Fits(x, maxPayload))
    ensures WellFormed(Without(s, x.relative) + [x], maxPayload)
    ensures |Without(s, x.relative)| == if Lookup(s, x.relative).Some? then |s| - 1 else |s|
  {
    WithoutKeeps(s, x.relative, maxPayload);
    WithoutDistinct(s, x.relative);
    LookupWithout(s, x.relative, x.relative);
    DistinctAppend(Without(s, x.relative), x);
  }

  lemma {:induction false} WellFormedSuffix(s: Entries, n: nat, maxPayload: int)
    requires WellFormed(s, maxPayload) && n <= |s|
    ensures WellFormed(s[n..], maxPayload)
    decreases n
  {
    if n > 0 {
      WellFormedSuffix(s[1..], n - 1, maxPayload);
      assert s[1..][n - 1..] == s[n..];
    }
  }

  lemma ApplyKeeps(s: Entries, capacity: nat, maxPayload: int, call: Call)
    requires WellFormed(s, maxPayload) && |s| <= capacity
    ensures var t := Apply(s, capacity, maxPayload, call).0; WellFormed(t, maxPayload) && |t| <= capacity
  {
    match call
    case Get(key) =>
      LookupMember(s, key);
      if Lookup(s, key).Some? {
        TouchKeeps(s, Lookup(s, key).value, maxPayload);
      }
    case Put(key, Some(payload)) =>
      if |payload| <= maxPayload {
        var x := CachedAsset(key, |payload|, payload);
        TouchKeeps(s, x, maxPayload);
        var t := Without(s, key) + [x];
        WellFormedSuffix(t, |t| - |Newest(t, capacity)|, maxPayload);
      }
    case Put(key, None) =>
    case Invalidate(Some(key)) => WithoutKeeps(s, key, maxPayload);
    case Invalidate(None) =>
  }

  // ---- inclusion between two capacities ----

  /** s is what is left of t after dropping some entries. */
  predicate Subsequence(s: Entries, t: Entries) {
    if s == [] then true
    else if t == [] then false
    else if s[0] == t[0] then Subsequence(s[1..], t[1..])
    else Subsequence(s, t[1..])
  }

  lemma {:induction false} SubsequenceLength(s: Entries, t: Entries)
    requires Subsequence(s, t)
    ensures |s| <= |t|
  {
    if s != [] && s[0] == t[0] {
      SubsequenceLength(s[1..], t[1..]);
    } else if s != [] {
      SubsequenceLength(s, t[1..]);
    }
  }

  /** Keys present in the smaller sequence have the same entry in the larger. */
  lemma {:induction false} LookupSubsequence(s: Entries, t: Entries, key: string)
    requires Subsequence(s, t) && DistinctKeys(t)
    ensures Lookup(s, key).Some? ==> Lookup(t, key) == Lookup(s, key)
  {
    if s != [] && s[0] == t[0] {
      LookupSubsequence(s[1..], t[1..], key);
    } else if s != [] {
      LookupSubsequence(s, t[1..], key);
    }
  }

  /** Removing a key from both keeps a subsequence. */
  lemma {:induction false} WithoutSubsequence(s: Entries, t: Entries, key: string)
    requires Subsequence(s, t)
    ensures Subsequence(Without(s, key), Without(t, key))
  {
    if s == [] {
    } else if s[0] == t[0] {
      WithoutSubsequence(s[1..], t[1..], key);
      SubsequenceCons(s[0], Without(s[1..], key), Without(t[1..], key));
    } else {
      WithoutSubsequence(s, t[1..], key);
      if t[0].relative != key {
        SubsequenceSkip(Without(s, key), [t[0]] + Without(t[1..], key));
      }
    }
  }

  lemma SubsequenceCons(x: CachedAsset, s: Entries, t: Entries)
    requires Subsequence(s, t)
    ensures Subsequence([x] + s, [x] + t)
  {
    assert ([x] + s)[1..] == s && ([x] + t)[1..] == t;
  }

  /** A subsequence of the tail is a subsequence of the whole. */
  lemma {:induction false} SubsequenceSkip(s: Entries, t: Entries)
    requires t != [] && Subsequence(s, t[1..])
    ensures Subsequence(s, t)
  {
    if s != [] && s[0] == t[0] {
      SubsequenceTail(s, t[1..]);
    }
  }

  lemma {:induction false} SubsequenceTail(s: Entries, t: Entries)
    requires s != [] && Subsequence(s, t)
    ensures Subsequence(s[1..], t)
  {
    if s[0] == t[0] {
      SubsequenceSkip(s[1..], t);
    } else {
      SubsequenceTail(s, t[1..]);
      SubsequenceSkip(s[1..], t);
    }
  }

  lemma {:induction false} SubsequenceAppend(s: Entries, t: Entries, x: CachedAsset)
    requires Subsequence(s, t)
    ensures Subsequence(s + [x], t + [x])
  {
    if s == [] {
      if t == [] {
      } else {
        SubsequenceAppend(s, t[1..], x);
        assert (t + [x])[1..] == t[1..] + [x];
        SubsequenceSkip(s + [x], t + [x]);
      }
    } else {
      assert (t + [x])[1..] == t[1..] + [x];
      assert (s + [x])[1..] == s[1..] + [x];
      if s[0] == t[0] {
        SubsequenceAppend(s[1..], t[1..], x);
      } else {
        SubsequenceAppend(s, t[1..], x);
      }
    }
  }

  /** The relation two caches of capacities m <= n keep when they are driven by the same calls. */
  ghost predicate Included(small: Entries, large: Entries, m: nat, n: nat) {
    && |small| <= m && |large| <= n
    && Subsequence(small, large)
    && |large| - |small| <= n - m
  }

  /** Evicting from both keeps the inclusion: the larger only evicts an entry of the smaller when
      the smaller evicts it too. */
  lemma EvictionKeepsInclusion(small: Entries, large: Entries, m: nat, n: nat)
    requires 1 <= m <= n
    requires Subsequence(small, large)
    requires |small| <= m + 1 && |large| <= n + 1
    requires |large| - |small| <= n - m
    ensures Subsequence(Newest(small, m), Newest(large, n))
    ensures |Newest(large, n)| - |Newest(small, m)| <= n - m
  {
    SubsequenceLength(small, large);
    if |large| == n + 1 {
      assert |small| == m + 1;
      if small[0] != large[0] {
        SubsequenceTail(small, large[1..]);
      }
    } else if |small| == m + 1 {
      SubsequenceTail(small, large);
    }
  }

  lemma WithoutKeepsGap(small: Entries, large: Entries, key: string)
    requires Subsequence(small, large) && DistinctKeys(small) && DistinctKeys(large)
    ensures Subsequence(Without(small, key), Without(large, key))
    ensures |Without(large, key)| - |Without(small, key)| <= |large| - |small|
  {
    LookupSubsequence(small, large, key);
    WithoutSubsequence(small, large, key);
    WithoutDistinct(small, key);
    WithoutDistinct(large, key);
  }

  lemma AdmitKeepsInclusion(small: Entries, large: Entries, m: nat, n: nat, asset: CachedAsset)
    requires 1 <= m <= n && Included(small, large, m, n)
    requires DistinctKeys(small) && DistinctKeys(large)
    ensures Included(Admit(small, m, asset), Admit(large, n, asset), m, n)
  {
    var key := asset.relative;
    WithoutKeepsGap(small, large, key);
    SubsequenceAppend(Without(small, key), Without(large, key), asset);
    EvictionKeepsInclusion(Without(small, key) + [asset], Without(large, key) + [asset], m, n);
  }

  lemma TouchKeepsInclusion(small: Entries, large: Entries, m: nat, n: nat, key: string)
    requires 1 <= m <= n && Included(small, large, m, n)
    requires DistinctKeys(small) && DistinctKeys(large)
    ensures Included(Touch(small, key), Touch(large, key), m, n)
  {
    LookupSubsequence(small, large, key);
    WithoutKeepsGap(small, large, key);
    WithoutDistinct(small, key);
    WithoutDistinct(large, key);
    if Lookup(small, key).Some? {
      SubsequenceAppend(Without(small, key), Without(large, key), Lookup(small, key).value);
    } else if Lookup(large, key).Some? {
      WithoutAbsent(small, key);
      SubsequenceWiden(small, Without(large, key), Lookup(large, key).value);
    }
  }

  lemma StepKeepsInclusion(small: Entries, large: Entries, m: nat, n: nat, maxPayload: int, call: Call)
    requires 1 <= m <= n && Included(small, large, m, n)
    requires DistinctKeys(small) && DistinctKeys(large)
    ensures Included(Apply(small, m, maxPayload, call).0, Apply(large, n, maxPayload, call).0, m, n)
  {
    match call
    case Get(key) => TouchKeepsInclusion(small, large, m, n, key);
    case Put(key, Some(payload)) => AdmitKeepsInclusion(small, large, m, n, CachedAsset(key, |payload|, payload));
    case Put(key, None) =>
    case Invalidate(Some(key)) => WithoutKeepsGap(small, large, key);
    case Invalidate(None) =>
  }

  lemma {:induction false} SubsequenceWiden(s: Entries, t: Entries, x: CachedAsset)
    requires Subsequence(s, t)
    ensures Subsequence(s, t + [x])
  {
    if s != [] {
      assert (t + [x])[1..] == t[1..] + [x];
      if s[0] == t[0] {
        SubsequenceWiden(s[1..], t[1..], x);
      } else {
        SubsequenceWiden(s, t[1..], x);
      }
    }
  }

  /** What one call returns in two caches: a hit in the smaller is the same hit in the larger. */
  ghost predicate HitImpliesHit(small: Option<CachedAsset>, large: Option<CachedAsset>) {
    small.Some? ==> large == small
  }

  /** LRU inclusion over whole runs: on the same calls, the smaller cache's entries stay a
      subsequence of the larger's, and each of its hits is the larger's hit with the same payload. */
  lemma {:induction false} LruInclusion(small: Entries, large: Entries, m: nat, n: nat, maxPayload: int, calls: seq<Call>)
    requires 1 <= m <= n && Included(small, large, m, n)
    requires WellFormed(small, maxPayload) && WellFormed(large, maxPayload)
    ensures var (s, answers) := Run(small, m, maxPayload, calls);
            var (l, answers') := Run(large, n, maxPayload, calls);
      && Included(s, l, m, n)
      && |answers| == |answers'| == |calls|
      && forall i :: 0 <= i < |calls| ==> HitImpliesHit(answers[i], answers'[i])
    decreases |calls|
  {
    if calls != [] {
      StepKeepsInclusion(small, large, m, n, maxPayload, calls[0]);
      ApplyKeeps(small, m, maxPayload, calls[0]);
      ApplyKeeps(large, n, maxPayload, calls[0]);
      if calls[0].Get? {
        LookupSubsequence(small, large, calls[0].key);
      }
      LruInclusion(Apply(small, m, maxPayload, calls[0]).0, Apply(large, n, maxPayload, calls[0]).0,
                   m, n, maxPayload, calls[1..]);
    }
  }

  /** The inclusion theorem for two caches that start empty. */
  lemma LruInclusionFromEmpty(m: nat, n: nat, maxPayload: int, calls: seq<Call>)
    requires 1 <= m <= n
    ensures var (s, answers) := Run([], m, maxPayload, calls);
            var (l, answers') := Run([], n, maxPayload, calls);
      && Subsequence(s, l) && |s| <= m && |l| <= n
      && |answers| == |answers'| == |calls|
      && forall i :: 0 <= i < |calls| && answers[i].Some? ==> answers'[i] == answers[i]
  {
    LruInclusion([], [], m, n, maxPayload, calls);
    var answers, answers' := Run([], m, maxPayload, calls).1, Run([], n, maxPayload, calls).1;
    assert forall i :: 0 <= i < |calls| ==> HitImpliesHit(answers[i], answers'[i]);
  }

  // ---- the timestamp model ----

  /** The reference: a plain map whose entries carry the time of their last use. */
  datatype Stamp = Stamp(asset: CachedAsset, usedAt: nat)

  type Stamped = map<string, Stamp>

  ghost predicate LeastRecent(m: Stamped, victim: string) {
    victim in m && forall key :: key in m ==> m[victim].usedAt <= m[key].usedAt
  }

  ghost predicate StampedPut(m: Stamped, m': Stamped, capacity: nat) {
    if |m| <= capacity then m' == m else exists victim :: LeastRecent(m, victim) && m' == m - {victim}
  }

  /** One call at time `clock`: uses restamp, and a put over capacity drops the oldest stamp. */
  ghost predicate StampedStep(m: Stamped, clock: nat, capacity: nat, maxPayload: int, call: Call, m': Stamped) {
    match call
    case Get(key) => m' == if key in m then m[key := Stamp(m[key].asset, clock)] else m
    case Put(key, None) => m' == m
    case Put(key, Some(payload)) =>
      if |payload| > maxPayload then m' == m
      else StampedPut(m[key := Stamp(CachedAsset(key, |payload|, payload), clock)], m', capacity)
    case Invalidate(None) => m' == map[]
    case Invalidate(Some(key)) => m' == m - {key}
  }

  /** What the timestamped map answers to a call. */
  function StampedAnswer(m: Stamped, maxPayload: int, call: Call): Option<CachedAsset> {
    match call
    case Get(key) => if key in m then Some(m[key].asset) else None
    case Put(key, Some(payload)) => if |payload| > maxPayload then None else Some(CachedAsset(key, |payload|, payload))
    case _ => None
  }

  /** The map holds exactly the entries of s, with stamps that grow from its front to its back and
      stay before the clock. */
  ghost predicate Stamps(s: Entries, m: Stamped, clock: nat) {
    if s == [] then m == map[]
    else
      var x := s[|s| - 1];
      && x.relative in m && m[x.relative].asset == x && m[x.relative].usedAt < clock
      && Stamps(s[..|s| - 1], m - {x.relative}, m[x.relative].usedAt)
  }

  lemma {:induction false} StampsSize(s: Entries, m: Stamped, clock: nat)
    requires Stamps(s, m, clock)
    ensures |m| == |s|
  {
    if s != [] {
      var x := s[|s| - 1];
      StampsSize(s[..|s| - 1], m - {x.relative}, m[x.relative].usedAt);
      assert m == (m - {x.relative})[x.relative := m[x.relative]];
    }
  }

  lemma {:induction false} StampsLookup(s: Entries, m: Stamped, clock: nat, key: string)
    requires Stamps(s, m, clock)
    ensures Lookup(s, key) == if key in m then Some(m[key].asset) else None
    ensures key in m ==> m[key].usedAt < clock
  {
    if s != [] {
      var t, x := s[..|s| - 1], s[|s| - 1];
      StampsLookup(t, m - {x.relative}, m[x.relative].usedAt, key);
      LookupAppend(t, x, key);
      assert s == t + [x];
    }
  }

  lemma StampsLater(s: Entries, m: Stamped, clock: nat, later: nat)
    requires Stamps(s, m, clock) && clock <= later
    ensures Stamps(s, m, later)
  {
  }

  lemma StampsAppend(s: Entries, m: Stamped, clock: nat, asset: CachedAsset)
    requires Stamps(s, m, clock) && asset.relative !in m
    ensures Stamps(s + [asset], m[asset.relative := Stamp(asset, clock)], clock + 1)
  {
    assert (s + [asset])[..|s|] == s;
    assert m[asset.relative := Stamp(asset, clock)] - {asset.relative} == m;
  }

  lemma {:induction false} WithoutAppend(s: Entries, x: CachedAsset, key: string)
    ensures Without(s + [x], key) == Without(s, key) + (if x.relative == key then [] else [x])
  {
    if s != [] {
      WithoutAppend(s[1..], x, key);
      assert (s + [x])[1..] == s[1..] + [x];
    } else {
      assert s + [x] == [x];
    }
  }

  lemma {:induction false} StampsWithout(s: Entries, m: Stamped, clock: nat, key: string)
    requires Stamps(s, m, clock)
    ensures Stamps(Without(s, key), m - {key}, clock)
  {
    if s != [] {
      var t, x := s[..|s| - 1], s[|s| - 1];
      var n, at := m - {x.relative}, m[x.relative].usedAt;
      assert s == t + [x];
      WithoutAppend(t, x, key);
      StampsWithout(t, n, at, key);
      if x.relative == key {
        assert n - {key} == m - {key};
        assert Without(s, key) == Without(t, key);
        StampsLater(Without(t, key), m - {key}, at, clock);
      } else {
        assert n - {key} == m - {key} - {x.relative};
        assert Without(s, key) == Without(t, key) + [x];
        assert (Without(t, key) + [x])[..|Without(t, key)|] == Without(t, key);
      }
    }
  }

  lemma StampsTouch(s: Entries, m: Stamped, clock: nat, asset: CachedAsset)
    requires Stamps(s, m, clock)
    ensures Stamps(Without(s, asset.relative) + [asset], m[asset.relative := Stamp(asset, clock)], clock + 1)
  {
    StampsWithout(s, m, clock, asset.relative);
    StampsAppend(Without(s, asset.relative), m - {asset.relative}, clock, asset);
    assert (m - {asset.relative})[asset.relative := Stamp(asset, clock)] == m[asset.relative := Stamp(asset, clock)];
  }

  /** The oldest stamp belongs to the first entry, and to no other. */
  lemma {:induction false} OldestIsFirst(s: Entries, m: Stamped, clock: nat)
    requires Stamps(s, m, clock) && s != []
    ensures s[0].relative in m
    ensures forall key :: key in m && key != s[0].relative ==> m[s[0].relative].usedAt < m[key].usedAt
  {
    var t, x := s[..|s| - 1], s[|s| - 1];
    var n := m - {x.relative};
    if |s| == 1 {
      assert n == map[];
    } else {
      OldestIsFirst(t, n, m[x.relative].usedAt);
      StampsLookup(t, n, m[x.relative].usedAt, s[0].relative);
    }
    forall key | key in m && key != s[0].relative ensures m[s[0].relative].usedAt < m[key].usedAt {
      assert key == x.relative || key in n;
    }
  }

  lemma StampsEvict(s: Entries, m: Stamped, m': Stamped, clock: nat, capacity: nat)
    requires Stamps(s, m, clock) && |s| <= capacity + 1 && StampedPut(m, m', capacity)
    requires DistinctKeys(s)
    ensures Stamps(Newest(s, capacity), m', clock)
  {
    StampsSize(s, m, clock);
    if |s| == capacity + 1 {
      var victim :| LeastRecent(m, victim) && m' == m - {victim};
      OldestIsFirst(s, m, clock);
      StampsDropFirst(s, m, clock);
      assert victim == s[0].relative;
    }
  }

  lemma StampsDropFirst(s: Entries, m: Stamped, clock: nat)
    requires Stamps(s, m, clock) && s != [] && DistinctKeys(s)
    ensures Stamps(s[1..], m - {s[0].relative}, clock)
  {
    StampsWithout(s, m, clock, s[0].relative);
    WithoutAbsent(s[1..], s[0].relative);
  }

  /** One call keeps the correspondence, and answers as the timestamped map would. */
  lemma StepRefinesStamps(s: Entries, m: Stamped, m': Stamped, clock: nat, capacity: nat, maxPayload: int, call: Call)
    requires Stamps(s, m, clock) && WellFormed(s, maxPayload) && |s| <= capacity
    requires StampedStep(m, clock, capacity, maxPayload, call, m')
    ensures Stamps(Apply(s, capacity, maxPayload, call).0, m', clock + 1)
    ensures Apply(s, capacity, maxPayload, call).1 == StampedAnswer(m, maxPayload, call)
  {
    match call
    case Get(key) =>
      StampsLookup(s, m, clock, key);
      if key in m {
        LookupMember(s, key);
        StampsTouch(s, m, clock, m[key].asset);
      } else {
        StampsLater(s, m, clock, clock + 1);
      }
    case Put(key, Some(payload)) =>
      if |payload| <= maxPayload {
        var asset := CachedAsset(key, |payload|, payload);
        StampsTouch(s, m, clock, asset);
        TouchKeeps(s, asset, maxPayload);
        StampsEvict(Without(s, key) + [asset], m[key := Stamp(asset, clock)], m', clock + 1, capacity);
      } else {
        StampsLater(s, m, clock, clock + 1);
      }
    case Put(key, None) => StampsLater(s, m, clock, clock + 1);
    case Invalidate(Some(key)) =>
      StampsWithout(s, m, clock, key);
      StampsLater(Without(s, key), m', clock, clock + 1);
    case Invalidate(None) =>
  }

  ghost predicate StampedRun(maps: seq<Stamped>, start: nat, capacity: nat, maxPayload: int, calls: seq<Call>)
    decreases |calls|
  {
    && |maps| == |calls| + 1
    && (calls != [] ==>
      && StampedStep(maps[0], start, capacity, maxPayload, calls[0], maps[1])
      && StampedRun(maps[1..], start + 1, capacity, maxPayload, calls[1..]))
  }

  /** A map over capacity has an oldest stamp to drop. */
  lemma EvictionExists(s: Entries, m: Stamped, clock: nat, capacity: nat) returns (m': Stamped)
    requires Stamps(s, m, clock)
    ensures StampedPut(m, m', capacity)
  {
    if |m| <= capacity {
      m' := m;
    } else {
      StampsSize(s, m, clock);
      OldestIsFirst(s, m, clock);
      assert LeastRecent(m, s[0].relative);
      m' := m - {s[0].relative};
    }
  }

  lemma StampedStepExists(s: Entries, m: Stamped, clock: nat, capacity: nat, maxPayload: int, call: Call)
    returns (m': Stamped)
    requires Stamps(s, m, clock)
    ensures StampedStep(m, clock, capacity, maxPayload, call, m')
  {
    match call
    case Get(key) => m' := if key in m then m[key := Stamp(m[key].asset, clock)] else m;
    case Put(key, Some(payload)) =>
      if |payload| > maxPayload {
        m' := m;
      } else {
        var asset := CachedAsset(key, |payload|, payload);
        StampsTouch(s, m, clock, asset);
        m' := EvictionExists(Without(s, key) + [asset], m[key := Stamp(asset, clock)], clock + 1, capacity);
      }
    case Put(key, None) => m' := m;
    case Invalidate(Some(key)) => m' := m - {key};
    case Invalidate(None) => m' := map[];
  }

  /** Every list of calls has a run of the timestamped map. */
  lemma {:induction false} StampedRunExists(s: Entries, m: Stamped, clock: nat, capacity: nat, maxPayload: int, calls: seq<Call>)
    returns (maps: seq<Stamped>)
    requires WellFormed(s, maxPayload) && |s| <= capacity && Stamps(s, m, clock)
    ensures StampedRun(maps, clock, capacity, maxPayload, calls) && maps[0] == m
    decreases |calls|
  {
    if calls == [] {
      maps := [m];
    } else {
      var m' := StampedStepExists(s, m, clock, capacity, maxPayload, calls[0]);
      StepRefinesStamps(s, m, m', clock, capacity, maxPayload, calls[0]);
      ApplyKeeps(s, capacity, maxPayload, calls[0]);
      var rest := StampedRunExists(Apply(s, capacity, maxPayload, calls[0]).0, m', clock + 1, capacity, maxPayload, calls[1..]);
      maps := [m] + rest;
      assert maps[1..] == rest;
    }
  }

  /** Over whole runs the order of the dictionary is the order of last use: whatever eviction choices
      the timestamped map makes, it answers every call as the cache does and ends with the cache's entries,
      stamped in their order. */
  lemma {:induction false} LruRefinesTimestamps(s: Entries, maps: seq<Stamped>, clock: nat, capacity: nat,
                                               maxPayload: int, calls: seq<Call>)
    requires WellFormed(s, maxPayload) && |s| <= capacity
    requires StampedRun(maps, clock, capacity, maxPayload, calls) && Stamps(s, maps[0], clock)
    ensures var (t, answers) := Run(s, capacity, maxPayload, calls);
      && Stamps(t, maps[|calls|], clock + |calls|)
      && |answers| == |calls|
      && forall i :: 0 <= i < |calls| ==> answers[i] == StampedAnswer(maps[i], maxPayload, calls[i])
    decreases |calls|
  {
    if calls != [] {
      StepRefinesStamps(s, maps[0], maps[1], clock, capacity, maxPayload, calls[0]);
      ApplyKeeps(s, capacity, maxPayload, calls[0]);
      LruRefinesTimestamps(Apply(s, capacity, maxPayload, calls[0]).0, maps[1..], clock + 1, capacity, maxPayload,
                           calls[1..]);
    }
  }
}
