/** Result types and the sequence operations the modules share. */
module Prelude {
  datatype Option<+T> = None | Some(value: T)

  /** Stands for a value or for the exception the source raises instead. */
  datatype Result<+T> = Ok(value: T) | Err(error: string)

  function Max(a: int, b: int): int {
    if a >= b then a else b
  }

  function Min(a: int, b: int): int {
    if a <= b then a else b
  }

  function Least(a: real, b: real): real {
    if a <= b then a else b
  }

  function One(b: bool): nat {
    if b then 1 else 0
  }

  /** int() of a float: truncation towards zero. */
  function Truncate(x: real): int {
    if x >= 0.0 then x.Floor else -((-x).Floor)
  }

  newtype byte = x: int | 0 <= x < 256

  type Bytes = seq<byte>

  function Abs(x: int): int {
    if x >= 0 then x else -x
  }
}

module Sequences {
  function Filter<T>(s: seq<T>, p: T -> bool): (r: seq<T>)
    ensures |r| <= |s|
  {
    if s == [] then [] else (if p(s[0]) then [s[0]] else []) + Filter(s[1..], p)
  }

  function Map<T, U>(s: seq<T>, f: T -> U): (r: seq<U>)
    ensures |r| == |s|
    ensures forall i :: 0 <= i < |s| ==> r[i] == f(s[i])
  {
    seq(|s|, i requires 0 <= i < |s| => f(s[i]))
  }

  function Sum(s: seq<int>): int {
    if s == [] then 0 else s[0] + Sum(s[1..])
  }

  lemma {:induction false} FilterAppend<T>(a: seq<T>, b: seq<T>, p: T -> bool)
    ensures Filter(a + b, p) == Filter(a, p) + Filter(b, p)
  {
    if a == [] {
      assert a + b == b;
    } else {
      var head := if p(a[0]) then [a[0]] else [];
      FilterAppend(a[1..], b, p);
      assert (a + b)[1..] == a[1..] + b;
      assert Filter(a + b, p) == head + Filter(a[1..] + b, p);
      assert head + (Filter(a[1..], p) + Filter(b, p)) == (head + Filter(a[1..], p)) + Filter(b, p);
    }
  }

  lemma FilterOne<T>(x: T, p: T -> bool)
    ensures Filter([x], p) == if p(x) then [x] else []
  {
  }

  lemma FilterLast<T>(s: seq<T>, p: T -> bool)
    requires s != []
    ensures Filter(s, p) == Filter(s[..|s| - 1], p) + (if p(s[|s| - 1]) then [s[|s| - 1]] else [])
  {
    var front, last := s[..|s| - 1], s[|s| - 1];
    assert s == front + [last];
    FilterAppend(front, [last], p);
    FilterOne(last, p);
  }

  lemma {:induction false} FilterNone<T>(s: seq<T>, p: T -> bool)
    requires forall i :: 0 <= i < |s| ==> !p(s[i])
    ensures Filter(s, p) == []
  {
    if s != [] {
      FilterNone(s[1..], p);
    }
  }

  /** One element satisfies the test, and every other one fails it. */
  lemma {:induction false} FilterSingle<T>(s: seq<T>, p: T -> bool, i: nat)
    requires i < |s| && p(s[i])
    requires forall j :: 0 <= j < |s| && j != i ==> !p(s[j])
    ensures Filter(s, p) == [s[i]]
  {
    if i == 0 {
      FilterNone(s[1..], p);
    } else {
      FilterSingle(s[1..], p, i - 1);
    }
  }

  /** Two elements satisfy the test; the filter keeps their order. */
  lemma {:induction false} FilterPair<T>(s: seq<T>, p: T -> bool, i: nat, j: nat)
    requires i < j < |s| && p(s[i]) && p(s[j])
    requires forall k :: 0 <= k < |s| && k != i && k != j ==> !p(s[k])
    ensures Filter(s, p) == [s[i], s[j]]
  {
    if i == 0 {
      FilterSingle(s[1..], p, j - 1);
    } else {
      FilterPair(s[1..], p, i - 1, j - 1);
    }
  }

  /** A filter keeps the order of what it keeps. */
  lemma FilterOrder<T>(s: seq<T>, p: T -> bool, i: nat, j: nat) returns (k: nat, l: nat)
    requires i < j < |s| && p(s[i]) && p(s[j])
    ensures k < l < |Filter(s, p)| && Filter(s, p)[k] == s[i] && Filter(s, p)[l] == s[j]
  {
    var before, after := s[..j], s[j..];
    assert s == before + after;
    FilterAppend(before, after, p);
    FilterMembers(before, p);
    FilterMembers(after, p);
    assert before[i] in before && after[0] in after;
    assert s[i] in Filter(before, p) && s[j] in Filter(after, p);
    k :| 0 <= k < |Filter(before, p)| && Filter(before, p)[k] == s[i];
    var m :| 0 <= m < |Filter(after, p)| && Filter(after, p)[m] == s[j];
    l := |Filter(before, p)| + m;
  }

  /** A filter keeps at least every element of a stretch that satisfies it. */
  lemma {:induction false} FilterKeepsRange<T>(s: seq<T>, p: T -> bool, lo: nat, hi: nat)
    requires lo <= hi <= |s|
    requires forall i :: lo <= i < hi ==> p(s[i])
    ensures |Filter(s, p)| >= hi - lo
  {
    if hi > 0 {
      if lo == 0 {
        FilterKeepsRange(s[1..], p, 0, hi - 1);
      } else {
        FilterKeepsRange(s[1..], p, lo - 1, hi - 1);
      }
    }
  }

  /** Filtering images counts as many elements as filtering through the function. */
  lemma {:induction false} FilterMapLength<T, U>(s: seq<T>, f: T -> U, q: U -> bool, p: T -> bool)
    requires forall x :: p(x) == q(f(x))
    ensures |Filter(Map(s, f), q)| == |Filter(s, p)|
  {
    if s != [] {
      assert Map(s, f)[1..] == Map(s[1..], f);
      FilterMapLength(s[1..], f, q, p);
    }
  }

  lemma {:induction false} FilterImplies<T>(s: seq<T>, p: T -> bool, q: T -> bool)
    requires forall x :: p(x) ==> q(x)
    ensures multiset(Filter(s, p)) <= multiset(Filter(s, q))
  {
    if s != [] {
      FilterImplies(s[1..], p, q);
    }
  }

  lemma {:induction false} FilterMembers<T>(s: seq<T>, p: T -> bool)
    ensures forall x :: x in Filter(s, p) <==> x in s && p(x)
  {
    if s != [] {
      FilterMembers(s[1..], p);
    }
  }

  lemma {:induction false} SumAppend(a: seq<int>, b: seq<int>)
    ensures Sum(a + b) == Sum(a) + Sum(b)
  {
    if a == [] {
      assert a + b == b;
    } else {
      assert (a + b)[1..] == a[1..] + b;
      SumAppend(a[1..], b);
    }
  }

  /** Where a permutation put the first element of the other sequence. */
  lemma PermutationHead<T>(s: seq<T>, t: seq<T>) returns (i: nat)
    requires s != [] && multiset(s) == multiset(t)
    ensures i < |t| && t[i] == s[0]
    ensures multiset(s[1..]) == multiset(t[..i] + t[i + 1..])
    ensures |s| == |t|
  {
    assert s[0] in multiset(s);
    i :| 0 <= i < |t| && t[i] == s[0];
    assert s == [s[0]] + s[1..];
    assert t == t[..i] + [t[i]] + t[i + 1..];
    assert |multiset(s)| == |multiset(t)|;
    assert multiset(s) == multiset{s[0]} + multiset(s[1..]);
    assert multiset(t) == multiset{s[0]} + multiset(t[..i] + t[i + 1..]);
    assert multiset(s[1..]) == multiset(s) - multiset{s[0]};
  }

  /** What a filter keeps depends only on the multiset it is given. */
  lemma {:induction false} FilterPermutation<T>(s: seq<T>, t: seq<T>, p: T -> bool)
    requires multiset(s) == multiset(t)
    ensures multiset(Filter(s, p)) == multiset(Filter(t, p))
    ensures |Filter(s, p)| == |Filter(t, p)|
    decreases |s|
  {
    if s == [] {
      assert |multiset(t)| == 0;
      assert t == [];
    } else {
      var i := PermutationHead(s, t);
      FilterPermutation(s[1..], t[..i] + t[i + 1..], p);
      assert t == t[..i] + ([t[i]] + t[i + 1..]);
      FilterAppend(t[..i], [t[i]] + t[i + 1..], p);
      FilterAppend(t[..i], t[i + 1..], p);
      assert ([t[i]] + t[i + 1..])[1..] == t[i + 1..];
    }
  }

  lemma {:induction false} MapPermutation<T, U>(s: seq<T>, t: seq<T>, f: T -> U)
    requires multiset(s) == multiset(t)
    ensures multiset(Map(s, f)) == multiset(Map(t, f))
    decreases |s|
  {
    if s == [] {
      assert |multiset(t)| == 0;
      assert t == [];
    } else {
      var i := PermutationHead(s, t);
      MapPermutation(s[1..], t[..i] + t[i + 1..], f);
      assert Map(s, f) == [f(s[0])] + Map(s[1..], f);
      assert Map(t, f) == Map(t[..i], f) + [f(t[i])] + Map(t[i + 1..], f);
      assert Map(t[..i] + t[i + 1..], f) == Map(t[..i], f) + Map(t[i + 1..], f);
    }
  }

  lemma {:induction false} SumPermutation(s: seq<int>, t: seq<int>)
    requires multiset(s) == multiset(t)
    ensures Sum(s) == Sum(t)
    decreases |s|
  {
    if s == [] {
      assert |multiset(t)| == 0;
      assert t == [];
    } else {
      var i := PermutationHead(s, t);
      SumPermutation(s[1..], t[..i] + t[i + 1..]);
      assert t == t[..i] + ([t[i]] + t[i + 1..]);
      SumAppend(t[..i], [t[i]] + t[i + 1..]);
      SumAppend(t[..i], t[i + 1..]);
      assert ([t[i]] + t[i + 1..])[1..] == t[i + 1..];
    }
  }
}

/** Nonlinear facts, kept apart so that the solver meets each of them alone. */
module Arithmetic {
  lemma MulOrder(a: real, x: real, y: real)
    requires a >= 0.0 && x <= y
    ensures a * x <= a * y
  {
  }

  lemma MulCancel(n: real, a: real, b: real)
    requires n > 0.0 && a * n <= b * n
    ensures a <= b
  {
  }

  lemma DivMul(x: real, n: real)
    requires n > 0.0
    ensures x / n * n == x
  {
  }

  lemma DivideBounds(x: real, n: real, lo: real, hi: real)
    requires n > 0.0 && lo * n <= x <= hi * n
    ensures lo <= x / n <= hi
  {
    DivMul(x, n);
    MulCancel(n, lo, x / n);
    MulCancel(n, x / n, hi);
  }

  lemma ProductAsReal(a: int, b: int)
    ensures (a * b) as real == a as real * b as real
  {
  }

  lemma SquareOrder(a: nat, b: nat)
    requires a * a < (b + 1) * (b + 1)
    ensures a <= b
  {
  }

  lemma SquareMonotone(x: real, y: real)
    requires 0.0 <= x <= y
    ensures x * x <= y * y
  {
  }

  lemma MulStrict(a: real, x: real, y: real)
    requires a > 0.0 && x < y
    ensures a * x < a * y
  {
  }

  lemma SquareStrict(x: real, y: real)
    requires 0.0 <= x < y
    ensures x * x < y * y
  {
    calc {
      x * x;
    <= { MulOrder(x, x, y); }
      x * y;
    ==
      y * x;
    <  { MulStrict(y, x, y); }
      y * y;
    }
  }

  lemma HalfRoot(r: nat, range: nat)
    requires 4 * (r * r) <= range * range
    ensures 2 * r <= range
  {
  }
}

/** Python's sorted(), for any total order. */
module Ordering {
  ghost predicate TotalPreorder<T(!new)>(leq: (T, T) -> bool) {
    && (forall a, b :: leq(a, b) || leq(b, a))
    && (forall a, b, c :: leq(a, b) && leq(b, c) ==> leq(a, c))
  }

  ghost predicate TotalOrder<T(!new)>(leq: (T, T) -> bool) {
    TotalPreorder(leq) && (forall a, b :: leq(a, b) && leq(b, a) ==> a == b)
  }

  ghost predicate SortedBy<T>(s: seq<T>, leq: (T, T) -> bool) {
    forall i, j :: 0 <= i < j < |s| ==> leq(s[i], s[j])
  }

  function Insert<T>(x: T, s: seq<T>, leq: (T, T) -> bool): (r: seq<T>)
    ensures |r| == |s| + 1
  {
    if s == [] then [x]
    else if leq(x, s[0]) then [x] + s
    else [s[0]] + Insert(x, s[1..], leq)
  }

  function Sort<T>(s: seq<T>, leq: (T, T) -> bool): (r: seq<T>)
    ensures |r| == |s|
  {
    if s == [] then [] else Insert(s[0], Sort(s[1..], leq), leq)
  }

  lemma {:induction false} InsertPermutes<T>(x: T, s: seq<T>, leq: (T, T) -> bool)
    ensures multiset(Insert(x, s, leq)) == multiset{x} + multiset(s)
  {
    if s != [] {
      assert s == [s[0]] + s[1..];
      InsertPermutes(x, s[1..], leq);
    }
  }

  lemma {:induction false} SortPermutes<T>(s: seq<T>, leq: (T, T) -> bool)
    ensures multiset(Sort(s, leq)) == multiset(s)
  {
    if s != [] {
      assert s == [s[0]] + s[1..];
      SortPermutes(s[1..], leq);
      InsertPermutes(s[0], Sort(s[1..], leq), leq);
    }
  }

  lemma {:induction false} InsertKeepsSorted<T(!new)>(x: T, s: seq<T>, leq: (T, T) -> bool)
    requires TotalPreorder(leq) && SortedBy(s, leq)
    ensures SortedBy(Insert(x, s, leq), leq)
  {
    if s != [] && !leq(x, s[0]) {
      InsertKeepsSorted(x, s[1..], leq);
      InsertPermutes(x, s[1..], leq);
      var t := Insert(x, s[1..], leq);
      forall i | 0 <= i < |t| ensures leq(s[0], t[i]) {
        assert t[i] in multiset(t);
        assert t[i] == x || t[i] in s[1..];
      }
    }
  }

  lemma {:induction false} SortSorts<T(!new)>(s: seq<T>, leq: (T, T) -> bool)
    requires TotalPreorder(leq)
    ensures SortedBy(Sort(s, leq), leq)
  {
    if s != [] {
      SortSorts(s[1..], leq);
      InsertKeepsSorted(s[0], Sort(s[1..], leq), leq);
    }
  }

  lemma SortedHeadIsLeast<T(!new)>(s: seq<T>, leq: (T, T) -> bool, x: T)
    requires TotalOrder(leq) && SortedBy(s, leq) && x in s
    ensures leq(s[0], x)
  {
    var i :| 0 <= i < |s| && s[i] == x;
    assert leq(x, x);
  }

  lemma SameHeads<T(!new)>(s: seq<T>, t: seq<T>, leq: (T, T) -> bool)
    requires TotalOrder(leq) && SortedBy(s, leq) && SortedBy(t, leq)
    requires s != [] && t != [] && multiset(s) == multiset(t)
    ensures s[0] == t[0]
  {
    assert s[0] in multiset(t) && t[0] in multiset(s);
    SortedHeadIsLeast(s, leq, t[0]);
    SortedHeadIsLeast(t, leq, s[0]);
  }

  lemma SameTails<T>(s: seq<T>, t: seq<T>)
    requires s != [] && t != [] && multiset(s) == multiset(t) && s[0] == t[0]
    ensures multiset(s[1..]) == multiset(t[1..])
  {
    assert s == [s[0]] + s[1..] && t == [t[0]] + t[1..];
    assert multiset(s[1..]) == multiset(s) - multiset{s[0]};
    assert multiset(t[1..]) == multiset(t) - multiset{t[0]};
  }

  /** A multiset has only one sorted arrangement. */
  lemma {:induction false} SortedIsUnique<T(!new)>(s: seq<T>, t: seq<T>, leq: (T, T) -> bool)
    requires TotalOrder(leq) && SortedBy(s, leq) && SortedBy(t, leq)
    requires multiset(s) == multiset(t)
    ensures s == t
  {
    assert |multiset(s)| == |multiset(t)|;
    if s != [] {
      SameHeads(s, t, leq);
      SameTails(s, t);
      SortedIsUnique(s[1..], t[1..], leq);
    }
  }

  lemma SortPermutation<T(!new)>(s: seq<T>, t: seq<T>, leq: (T, T) -> bool)
    requires TotalOrder(leq) && multiset(s) == multiset(t)
    ensures Sort(s, leq) == Sort(t, leq)
  {
    SortSorts(s, leq);
    SortSorts(t, leq);
    SortPermutes(s, leq);
    SortPermutes(t, leq);
    SortedIsUnique(Sort(s, leq), Sort(t, leq), leq);
  }
}
