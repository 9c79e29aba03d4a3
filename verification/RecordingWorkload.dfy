/**
 The chunk and snapshot indexing of synthetic recordings. Frame contents, hashes and byte sizes are
 left out; what remains is the arithmetic that the replay benchmarks rely on.
 */
module RecordingWorkload {
  import opened Prelude

  datatype Chunk = Chunk(index: int, eventCount: nat, firstSequence: int, lastSequence: int)

  datatype Snapshot = Snapshot(index: int, sequence: int)

  datatype Recording = Recording(
    chunks: seq<Chunk>, snapshots: seq<Snapshot>,
    eventCount: int, lastSequence: int, stoppedAtNs: int)

  function SumEvents(chunks: seq<Chunk>): nat {
    if chunks == [] then 0 else SumEvents(chunks[..|chunks| - 1]) + chunks[|chunks| - 1].eventCount
  }

  /** The chunk of index k, when every chunk has f frames. */
  function ChunkAt(f: int, k: int): Chunk {
    Chunk(k, Max(0, f), (k - 1) * f + 1, k * f)
  }

  /** The snapshots taken in the first k chunks: one at each chunk end that is a multiple of s. */
  function SnapshotsUpTo(f: int, s: int, k: nat): seq<Snapshot> {
    if k == 0 then []
    else
      var before := SnapshotsUpTo(f, s, k - 1);
      if s > 0 && (k * f) % s == 0 then before + [Snapshot(|before| + 1, k * f)] else before
  }

  method BuildSyntheticRecording(framesPerChunk: int, chunks: int, snapshotEvery: int) returns (r: Recording)
    ensures |r.chunks| == Max(0, chunks)
    ensures forall k :: 0 <= k < |r.chunks| ==> r.chunks[k] == ChunkAt(framesPerChunk, k + 1)
    ensures r.snapshots == SnapshotsUpTo(framesPerChunk, snapshotEvery, Max(0, chunks))
    ensures r.eventCount == Max(0, chunks) * Max(0, framesPerChunk)
    ensures r.lastSequence == Max(0, chunks) * framesPerChunk
    ensures r.stoppedAtNs == (r.lastSequence + 1) * 1000
  {
    var chunkRecords: seq<Chunk> := [];
    var snapshotRecords: seq<Snapshot> := [];
    var nextSequence, nextSnapshot := 1, 1;
    var chunkIndex := 1;
    while chunkIndex <= chunks
      invariant 1 <= chunkIndex <= Max(1, chunks + 1)
      invariant |chunkRecords| == chunkIndex - 1
      invariant forall k :: 0 <= k < |chunkRecords| ==> chunkRecords[k] == ChunkAt(framesPerChunk, k + 1)
      invariant nextSequence == (chunkIndex - 1) * framesPerChunk + 1
      invariant snapshotRecords == SnapshotsUpTo(framesPerChunk, snapshotEvery, chunkIndex - 1)
      invariant nextSnapshot == |snapshotRecords| + 1
      invariant SumEvents(chunkRecords) == (chunkIndex - 1) * Max(0, framesPerChunk)
    {
      var start := nextSequence;
      var stop := start + framesPerChunk - 1;
      assert stop == chunkIndex * framesPerChunk;
      var chunk := Chunk(chunkIndex, Max(0, stop + 1 - start), start, stop);
      assert (chunkRecords + [chunk])[..|chunkRecords|] == chunkRecords;
      assert chunkIndex * Max(0, framesPerChunk) == (chunkIndex - 1) * Max(0, framesPerChunk) + Max(0, framesPerChunk);
      chunkRecords := chunkRecords + [chunk];
      if snapshotEvery > 0 && stop % snapshotEvery == 0 {
        snapshotRecords := snapshotRecords + [Snapshot(nextSnapshot, stop)];
        nextSnapshot := nextSnapshot + 1;
      }
      nextSequence := stop + 1;
      chunkIndex := chunkIndex + 1;
    }
    r := Recording(chunkRecords, snapshotRecords, SumEvents(chunkRecords), nextSequence - 1, nextSequence * 1000);
  }

  // ---- the chunks partition the sequence numbers ----

  /** The sequence number i is one of those of chunk k. */
  ghost predicate InChunk(f: int, k: int, i: int) {
    ChunkAt(f, k).firstSequence <= i <= ChunkAt(f, k).lastSequence
  }

  /** Every sequence number from 1 to chunks * f lies in exactly one chunk, and no other does. */
  lemma ChunksPartition(f: int, chunks: nat, i: int)
    requires f >= 1
    ensures 1 <= i <= chunks * f <==> exists k :: 1 <= k <= chunks && InChunk(f, k, i)
    ensures forall j, k :: InChunk(f, j, i) && InChunk(f, k, i) ==> j == k
  {
    if 1 <= i <= chunks * f {
      QuotientChunk(f, chunks, i);
    }
    forall k | 1 <= k <= chunks && InChunk(f, k, i) ensures 1 <= i <= chunks * f {
      ChunkRange(f, k, chunks, i);
    }
    forall j, k | InChunk(f, j, i) && InChunk(f, k, i) ensures j == k {
      SameChunk(f, j, k, i);
    }
  }

  lemma QuotientChunk(f: int, chunks: nat, i: int)
    requires f >= 1 && 1 <= i <= chunks * f
    ensures 1 <= (i - 1) / f + 1 <= chunks && InChunk(f, (i - 1) / f + 1, i)
  {
    var q, r := (i - 1) / f, (i - 1) % f;
    assert i - 1 == q * f + r;
    QuotientBelow(q, r, f, chunks);
  }

  lemma QuotientBelow(q: int, r: int, f: int, chunks: nat)
    requires f >= 1 && 0 <= r < f && 0 <= q * f + r < chunks * f
    ensures 0 <= q < chunks
  {
    CompareMultiples(-1, q, f);
    CompareMultiples(q, chunks, f);
  }

  lemma CompareMultiples(a: int, b: int, f: int)
    requires f >= 1 && a * f < b * f
    ensures a < b
  {
  }

  lemma ChunkRange(f: int, k: int, chunks: int, i: int)
    requires f >= 1 && 1 <= k <= chunks && InChunk(f, k, i)
    ensures 1 <= i <= chunks * f
  {
    assert 0 <= (k - 1) * f && k * f <= chunks * f;
  }

  lemma SameChunk(f: int, j: int, k: int, i: int)
    requires f >= 1 && InChunk(f, j, i) && InChunk(f, k, i)
    ensures j == k
  {
    CompareMultiples(j - 1, k, f);
    CompareMultiples(k - 1, j, f);
  }

  // ---- snapshots ----

  ghost predicate SnapshotAfter(f: int, s: int, j: int) {
    s > 0 && (j * f) % s == 0
  }

  ghost predicate EndsAt(f: int, j: int, sequence: int) {
    sequence == j * f
  }

  /** Some chunk among the first k ends at this sequence number, a multiple of s. */
  ghost predicate SnapshotDue(f: int, s: int, k: nat, sequence: int) {
    exists j :: 1 <= j <= k && EndsAt(f, j, sequence) && SnapshotAfter(f, s, j)
  }

  ghost predicate TakenAt(t: seq<Snapshot>, i: int, sequence: int) {
    0 <= i < |t| && t[i].sequence == sequence
  }

  /** Indices count from 1, and the snapshots sit at exactly the chunk ends that are due. */
  ghost predicate SnapshotsExact(t: seq<Snapshot>, f: int, s: int, k: nat) {
    && (forall i :: 0 <= i < |t| ==> t[i].index == i + 1 && SnapshotDue(f, s, k, t[i].sequence))
    && (forall sequence :: SnapshotDue(f, s, k, sequence) ==> exists i :: TakenAt(t, i, sequence))
  }

  /** Later snapshots have greater sequence numbers exactly when a chunk has frames. */
  ghost predicate InOrder(t: seq<Snapshot>, f: int) {
    forall i, j :: 0 <= i < j < |t| ==> (t[i].sequence < t[j].sequence <==> f >= 1)
  }

  lemma {:induction false} SnapshotIndices(f: int, s: int, k: nat)
    ensures SnapshotsExact(SnapshotsUpTo(f, s, k), f, s, k)
    ensures InOrder(SnapshotsUpTo(f, s, k), f)
  {
    if k > 0 {
      SnapshotIndices(f, s, k - 1);
      SnapshotStep(SnapshotsUpTo(f, s, k - 1), SnapshotsUpTo(f, s, k), f, s, k);
      OrderStep(SnapshotsUpTo(f, s, k - 1), SnapshotsUpTo(f, s, k), f, s, k);
    }
  }

  lemma OrderStep(before: seq<Snapshot>, t: seq<Snapshot>, f: int, s: int, k: nat)
    requires k > 0 && SnapshotsExact(before, f, s, k - 1) && InOrder(before, f)
    requires t == before || t == before + [Snapshot(|before| + 1, k * f)]
    ensures InOrder(t, f)
  {
    forall i | 0 <= i < |before| ensures before[i].sequence < k * f <==> f >= 1 {
      DueBelow(f, s, k, before[i].sequence);
    }
  }

  lemma DueBelow(f: int, s: int, k: nat, sequence: int)
    requires k > 0 && SnapshotDue(f, s, k - 1, sequence)
    ensures sequence < k * f <==> f >= 1
  {
    var j :| 1 <= j <= k - 1 && EndsAt(f, j, sequence) && SnapshotAfter(f, s, j);
    assert k * f - j * f == (k - j) * f;
  }

  lemma SnapshotStep(before: seq<Snapshot>, t: seq<Snapshot>, f: int, s: int, k: nat)
    requires k > 0 && SnapshotsExact(before, f, s, k - 1)
    requires t == if SnapshotAfter(f, s, k) then before + [Snapshot(|before| + 1, k * f)] else before
    ensures SnapshotsExact(t, f, s, k)
  {
    assert EndsAt(f, k, k * f);
    forall i | 0 <= i < |before| ensures SnapshotDue(f, s, k, before[i].sequence) {
      assert SnapshotDue(f, s, k - 1, before[i].sequence);
    }
    forall sequence | SnapshotDue(f, s, k, sequence) ensures exists i :: TakenAt(t, i, sequence) {
      if SnapshotDue(f, s, k - 1, sequence) {
        var i :| TakenAt(before, i, sequence);
        assert TakenAt(t, i, sequence);
      } else {
        assert TakenAt(t, |before|, sequence);
      }
    }
  }

  // ---- counting the snapshots ----

  function Gcd(a: nat, b: nat): (g: nat)
    requires a > 0 || b > 0
    ensures g > 0
    decreases b
  {
    if b == 0 then a else Gcd(b, a % b)
  }

  ghost predicate Divides(d: int, x: int) {
    exists q :: Multiple(d, q, x)
  }

  ghost predicate Multiple(d: int, q: int, x: int) {
    x == q * d
  }

  /** The greatest common divisor is an integer combination of its arguments, and divides both. */
  lemma {:induction false} Bezout(a: nat, b: nat) returns (x: int, y: int)
    requires a > 0 || b > 0
    ensures Gcd(a, b) == x * a + y * b
    ensures Divides(Gcd(a, b), a) && Divides(Gcd(a, b), b)
    decreases b
  {
    var g := Gcd(a, b);
    if b == 0 {
      x, y := 1, 0;
      assert Multiple(g, 1, a) && Multiple(g, 0, b);
    } else {
      var q := a / b;
      var u, v := Bezout(b, a % b);
      x, y := v, u - v * q;
      CombineBezout(a, b, q, u, v);
      var m :| Multiple(g, m, b);
      var n :| Multiple(g, n, a % b);
      DividesCombination(g, m, n, q, a, b);
    }
  }

  lemma CombineBezout(a: nat, b: nat, q: int, u: int, v: int)
    requires b > 0 && q == a / b
    ensures u * b + v * (a % b) == v * a + (u - v * q) * b
  {
    assert a % b == a - q * b;
    assert v * (a - q * b) == v * a - v * q * b;
  }

  lemma DividesCombination(g: int, m: int, n: int, q: int, a: nat, b: nat)
    requires b > 0 && q == a / b && Multiple(g, m, b) && Multiple(g, n, a % b)
    ensures Divides(g, a)
  {
    assert a == q * b + a % b;
    assert q * (m * g) + n * g == (q * m + n) * g;
    assert Multiple(g, q * m + n, a);
  }

  /** A chunk end k * f is a multiple of s exactly when k is a multiple of s / gcd(f, s). */
  lemma SnapshotPeriod(f: nat, s: nat, k: int)
    requires f >= 1 && s >= 1
    ensures s / Gcd(f, s) >= 1
    ensures (k * f) % s == 0 <==> k % (s / Gcd(f, s)) == 0
  {
    var g := Gcd(f, s);
    var x, y := Bezout(f, s);
    var fg :| Multiple(g, fg, f);
    var d :| Multiple(g, d, s);
    QuotientIs(s, g, d);
    if (k * f) % s == 0 {
      var q := k * f / s;
      EuclidStep(k, f, s, g, x, y, d, q);
      ModOfMultiple(d, x * q + y * k);
    }
    if k % d == 0 {
      var q := k / d;
      MultipleStep(k, f, s, g, fg, d, q);
      ModOfMultiple(s, q * fg);
    }
  }

  lemma QuotientIs(s: nat, g: nat, d: int)
    requires s >= 1 && g > 0 && Multiple(g, d, s)
    ensures s / g == d >= 1
  {
    UniqueQuotient(s, g, d, 0);
    assert d >= 1;
  }

  /** g = x f + y s and k f = q s give k g = (x q + y k) s, so k = (x q + y k) d. */
  lemma EuclidStep(k: int, f: int, s: int, g: int, x: int, y: int, d: int, q: int)
    requires g > 0 && s == d * g && g == x * f + y * s && k * f == q * s
    ensures k == (x * q + y * k) * d
  {
    calc {
      k * g;
    ==
      k * (x * f + y * s);
    ==  { Spread(k, x, f, y, s); }
      x * (k * f) + y * k * s;
    ==
      x * (q * s) + y * k * s;
    ==  { Gather(x, q, s, y * k); }
      (x * q + y * k) * s;
    ==  { Regroup(x * q + y * k, d, g); }
      (x * q + y * k) * d * g;
    }
    CancelFactor(k, (x * q + y * k) * d, g);
  }

  lemma Spread(k: int, x: int, f: int, y: int, s: int)
    ensures k * (x * f + y * s) == x * (k * f) + y * k * s
  {
    assert k * (x * f) == x * (k * f);
    assert k * (y * s) == y * k * s;
  }

  lemma Gather(x: int, q: int, s: int, z: int)
    ensures x * (q * s) + z * s == (x * q + z) * s
  {
  }

  lemma Regroup(a: int, d: int, g: int)
    ensures a * (d * g) == a * d * g
  {
  }

  lemma CancelFactor(a: int, b: int, g: int)
    requires g > 0 && a * g == b * g
    ensures a == b
  {
  }

  lemma MultipleStep(k: int, f: int, s: int, g: int, fg: int, d: int, q: int)
    requires k == q * d && f == fg * g && s == d * g
    ensures k * f == q * fg * s
  {
    assert q * d * (fg * g) == q * fg * (d * g);
  }

  lemma ModOfMultiple(d: int, q: int)
    requires d > 0
    ensures (q * d) % d == 0
  {
    UniqueQuotient(q * d, d, q, 0);
  }

  lemma {:induction false} SnapshotCountStep(f: nat, s: nat, k: nat)
    requires f >= 1 && s >= 1 && s / Gcd(f, s) >= 1
    ensures |SnapshotsUpTo(f, s, k)| == k / (s / Gcd(f, s))
  {
    var d := s / Gcd(f, s);
    SnapshotPeriod(f, s, k);
    if k > 0 {
      SnapshotCountStep(f, s, k - 1);
      CountStep(k, d);
    } else {
      assert 0 / d == 0;
    }
  }

  lemma CountStep(k: int, d: int)
    requires k > 0 && d >= 1
    ensures k / d == if k % d == 0 then (k - 1) / d + 1 else (k - 1) / d
  {
    var q, r := k / d, k % d;
    assert k == q * d + r;
    if r == 0 {
      UniqueQuotient(k - 1, d, q - 1, d - 1);
    } else {
      UniqueQuotient(k - 1, d, q, r - 1);
    }
  }

  lemma UniqueQuotient(k: int, d: int, q: int, r: int)
    requires d >= 1 && k == q * d + r && 0 <= r < d
    ensures k / d == q && k % d == r
  {
    var q', r' := k / d, k % d;
    assert k == q' * d + r';
    SameQuotient(d, q, r, q', r');
  }

  lemma SameQuotient(d: int, q: int, r: int, q': int, r': int)
    requires d >= 1 && 0 <= r < d && 0 <= r' < d && q * d + r == q' * d + r'
    ensures q == q' && r == r'
  {
    assert (q' + 1) * d == q' * d + d && (q + 1) * d == q * d + d;
    CompareMultiples(q, q' + 1, d);
    CompareMultiples(q', q + 1, d);
  }

  /** The number of snapshots of a recording, in closed form. */
  lemma SnapshotCount(f: nat, s: nat, chunks: nat)
    requires f >= 1 && s >= 1
    ensures s / Gcd(f, s) >= 1
    ensures |SnapshotsUpTo(f, s, chunks)| == chunks / (s / Gcd(f, s))
  {
    SnapshotPeriod(f, s, 1);
    SnapshotCountStep(f, s, chunks);
  }
}
