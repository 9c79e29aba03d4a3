/** Facts about the core table: which row touches which option, and what its names are. */
module CoreTable {
  import opened Prelude
  import opened Sequences
  import opened RuntimeOptions
  import opened Provenance
  import opened EnvironmentParsing
  import opened EnvironmentMapping
  import opened EnvironmentLoading
  import opened EnvironmentApplying
  import opened EnvironmentOrder

  /** The row that touches an option; the browser policy has a second one. */
  function RowOf(f: Field): Option<nat> {
    match f
    case NetworkHost => Some(0)
    case NetworkPort => Some(1)
    case DashboardDebug => Some(2)
    case DashboardLogLevel => Some(3)
    case DashboardFrontendMode => Some(4)
    case DashboardHeartbeat => Some(5)
    case DashboardStartupTimeout => Some(6)
    case BrowserPolicy => Some(7)
    case MonitoringInstrumentation => Some(9)
    case MonitoringLagWarning => Some(10)
    case MonitoringLagCritical => Some(11)
    case MonitoringLagFreeze => Some(12)
    case MonitoringLagSample => Some(13)
    case MonitoringStackTraces => Some(14)
    case RecordingOutputPath => Some(15)
    case RecordingCompression => Some(16)
    case RecordingChunkEvents => Some(17)
    case RecordingChunkBytes => Some(18)
    case RecordingQueueCapacity => Some(19)
    case RecordingBackpressure => Some(20)
    case RecordingInclude => Some(21)
    case RecordingExclude => Some(22)
    case ReplayBufferCapacity => Some(23)
    case ReplayRetention => Some(24)
    case SecurityLoopbackOnly => Some(25)
    case SecurityAllowRemote => Some(26)
    case RecordingEnabled => Some(15)
    case _ => None
  }

  predicate IsTarget(f: Field) {
    RowOf(f).Some? && f != RecordingEnabled
  }

  /** How an option is read from its variable, and printed to it. */
  function KindOf(f: Field): ParseKind {
    match f
    case NetworkHost => Text
    case NetworkPort => Int
    case DashboardDebug => Bool
    case DashboardLogLevel => Enum
    case DashboardFrontendMode => Enum
    case DashboardHeartbeat => Seconds
    case DashboardStartupTimeout => Seconds
    case BrowserPolicy => Enum
    case MonitoringInstrumentation => Bool
    case MonitoringLagWarning => Milliseconds
    case MonitoringLagCritical => Milliseconds
    case MonitoringLagFreeze => Milliseconds
    case MonitoringLagSample => Milliseconds
    case MonitoringStackTraces => Bool
    case RecordingOutputPath => Path
    case RecordingCompression => Enum
    case RecordingChunkEvents => Int
    case RecordingChunkBytes => Int
    case RecordingQueueCapacity => Int
    case RecordingBackpressure => Enum
    case RecordingInclude => List
    case RecordingExclude => List
    case ReplayBufferCapacity => Int
    case ReplayRetention => Seconds
    case SecurityLoopbackOnly => Bool
    case SecurityAllowRemote => Bool
    case _ => Text
  }

  function ChoicesOf(f: Field): seq<string> {
    match f
    case DashboardLogLevel => LOG_LEVELS
    case DashboardFrontendMode => FRONTEND_MODES
    case BrowserPolicy => POLICIES
    case RecordingCompression => COMPRESSIONS
    case RecordingBackpressure => BACKPRESSURES
    case _ => []
  }

  /** Which row a variable's name belongs to, from its length and a telling character. */
  function RowOfName(s: string): int {
    var n := |s|;
    if n < 13 then -1
    else if n == 13 then (if s[9] == 'H' then 0 else 1)
    else if n == 14 then 2
    else if n == 16 then 7
    else if n == 18 then 3
    else if n == 19 then 8
    else if n == 21 then 26
    else if n == 22 then (if s[21] == 'S' then 12 else 4)
    else if n == 23 then 10
    else if n == 24 then (if s[9] == 'L' then 11 else 6)
    else if n == 25 then (if s[24] == 'N' then 24 else 15)
    else if n == 27 then (if s[9] == 'H' then 5 else 25)
    else if n == 29 then 14
    else if n == 30 then (if s[29] == 'S' then 18 else 16)
    else if n == 31 then
      if s[30] == 'N' then 9 else if s[30] == 'E' then 20 else if s[30] == 'Y' then 23 else if s[9] == 'L' then 13 else 17
    else if n == 33 then (if s[32] == 'Y' then 19 else if s[19] == 'I' then 21 else 22)
    else -1
  }

  /** No name ends the way a secret's does. */
  predicate PlainName(s: string) {
    |s| > 9 && var a, b := s[|s| - 2], s[|s| - 1]; 'A' <= a <= 'Z' && 'A' <= b <= 'Z' && (a, b) !in {('E', 'N'), ('E', 'T'), ('R', 'D'), ('E', 'Y')}
  }

  predicate RowOk(s: Spec, j: nat) {
    && s.aliases == [] && !s.secret && s.separator == ',' && RowOfName(s.envName) == j && PlainName(s.envName)
    && (j == 8 ==> s.target == BrowserPolicy && s.kind == Bool && IsNoBrowser(s))
    && (j != 8 ==> && RowOf(s.target) == Some(j) && s.kind == KindOf(s.target) && s.choices == ChoicesOf(s.target)
                   && IsTarget(s.target) && !IsNoBrowser(s))
  }

  lemma Row0()
    ensures RowOk(CORE_SPECS[0], 0)
  {
  }

  lemma Row1()
    ensures RowOk(CORE_SPECS[1], 1)
  {
  }

  lemma Row2()
    ensures RowOk(CORE_SPECS[2], 2)
  {
  }

  lemma Row3()
    ensures RowOk(CORE_SPECS[3], 3)
  {
  }

  lemma Row4()
    ensures RowOk(CORE_SPECS[4], 4)
  {
  }

  lemma Row5()
    ensures RowOk(CORE_SPECS[5], 5)
  {
  }

  lemma Row6()
    ensures RowOk(CORE_SPECS[6], 6)
  {
  }

  lemma Row7()
    ensures RowOk(CORE_SPECS[7], 7)
  {
  }

  lemma Row8()
    ensures RowOk(CORE_SPECS[8], 8)
  {
  }

  lemma Row9()
    ensures RowOk(CORE_SPECS[9], 9)
  {
  }

  lemma Row10()
    ensures RowOk(CORE_SPECS[10], 10)
  {
  }

  lemma Row11()
    ensures RowOk(CORE_SPECS[11], 11)
  {
  }

  lemma Row12()
    ensures RowOk(CORE_SPECS[12], 12)
  {
  }

  lemma Row13()
    ensures RowOk(CORE_SPECS[13], 13)
  {
  }

  lemma Row14()
    ensures RowOk(CORE_SPECS[14], 14)
  {
  }

  lemma Row15()
    ensures RowOk(CORE_SPECS[15], 15)
  {
  }

  lemma Row16()
    ensures RowOk(CORE_SPECS[16], 16)
  {
  }

  lemma Row17()
    ensures RowOk(CORE_SPECS[17], 17)
  {
  }

  lemma Row18()
    ensures RowOk(CORE_SPECS[18], 18)
  {
  }

  lemma Row19()
    ensures RowOk(CORE_SPECS[19], 19)
  {
  }

  lemma Row20()
    ensures RowOk(CORE_SPECS[20], 20)
  {
  }

  lemma Row21()
    ensures RowOk(CORE_SPECS[21], 21)
  {
  }

  lemma Row22()
    ensures RowOk(CORE_SPECS[22], 22)
  {
  }

  lemma Row23()
    ensures RowOk(CORE_SPECS[23], 23)
  {
  }

  lemma Row24()
    ensures RowOk(CORE_SPECS[24], 24)
  {
  }

  lemma Row25()
    ensures RowOk(CORE_SPECS[25], 25)
  {
  }

  lemma Row26()
    ensures RowOk(CORE_SPECS[26], 26)
  {
  }

  ghost predicate CoreLike(specs: seq<Spec>) {
    |specs| == 27 && forall j :: 0 <= j < 27 ==> RowOk(specs[j], j)
  }

  /** Every row of the core table is what RowOk says of it. */
  lemma CoreRow(j: nat)
    requires j < 27
    ensures |CORE_SPECS| == 27 && RowOk(CORE_SPECS[j], j)
  {
    match j {
      case 0 => Row0();
      case 1 => Row1();
      case 2 => Row2();
      case 3 => Row3();
      case 4 => Row4();
      case 5 => Row5();
      case 6 => Row6();
      case 7 => Row7();
      case 8 => Row8();
      case 9 => Row9();
      case 10 => Row10();
      case 11 => Row11();
      case 12 => Row12();
      case 13 => Row13();
      case 14 => Row14();
      case 15 => Row15();
      case 16 => Row16();
      case 17 => Row17();
      case 18 => Row18();
      case 19 => Row19();
      case 20 => Row20();
      case 21 => Row21();
      case 22 => Row22();
      case 23 => Row23();
      case 24 => Row24();
      case 25 => Row25();
      case 26 => Row26();
    }
  }

  lemma CoreIsCoreLike()
    ensures CoreLike(CORE_SPECS)
  {
    CoreRow(0);
    forall j | 0 <= j < 27 ensures RowOk(CORE_SPECS[j], j) {
      CoreRow(j);
    }
  }

  // ---- the order of the core table ----

  /** The only option that shares a row with a target is recording.enabled, with the output path. */
  lemma SameRow(f: Field, g: Field)
    requires RowOf(f) == RowOf(g) && RowOf(f).Some? && IsTarget(g)
    ensures f == g || (f == RecordingEnabled && g == RecordingOutputPath)
  {
  }

  lemma CoreTouched(core: seq<Spec>, f: Field, j: nat)
    requires CoreLike(core) && j < 27
    ensures Touches(core[j], f) <==> RowOf(f) == Some(j) || (f == BrowserPolicy && j == 8)
  {
    var target := core[j].target;
    assert RowOk(core[j], j);
    if RowOf(f) == Some(j) && j != 8 {
      SameRow(f, target);
    }
  }

  lemma RowInTable(f: Field)
    ensures RowOf(f).Some? ==> RowOf(f).value < 27 && RowOf(f).value != 8
    ensures f == BrowserPolicy <==> RowOf(f) == Some(7)
  {
  }

  lemma TouchingRows(core: seq<Spec>, f: Field)
    requires CoreLike(core)
    ensures f == BrowserPolicy ==> Filter(core, Touching(f)) == [core[7], core[8]]
    ensures f != BrowserPolicy && RowOf(f).Some? ==> RowOf(f).value < 27 && Filter(core, Touching(f)) == [core[RowOf(f).value]]
    ensures RowOf(f).None? ==> Filter(core, Touching(f)) == []
  {
    RowInTable(f);
    forall j | 0 <= j < 27 ensures Touching(f)(core[j]) <==> RowOf(f) == Some(j) || (f == BrowserPolicy && j == 8) {
      CoreTouched(core, f, j);
    }
    if f == BrowserPolicy {
      FilterPair(core, Touching(f), 7, 8);
    } else if RowOf(f).Some? {
      FilterSingle(core, Touching(f), RowOf(f).value);
    } else {
      FilterNone(core, Touching(f));
    }
  }

  predicate IsBrowser(s: Spec) {
    s.target == BrowserPolicy && !IsNoBrowser(s)
  }

  /** No NO_BROWSER row stands before a BROWSER row. */
  ghost predicate BrowserFirst(specs: seq<Spec>) {
    forall i, j :: 0 <= i < j < |specs| && IsNoBrowser(specs[i]) ==> !IsBrowser(specs[j])
  }

  lemma PolicyRowKinds(core: seq<Spec>)
    requires CoreLike(core)
    ensures IsBrowser(core[7]) && IsNoBrowser(core[8])
  {
    assert RowOk(core[7], 7) && RowOk(core[8], 8);
    RowInTable(core[7].target);
  }

  lemma SmallPermutation<T>(a: seq<T>, b: seq<T>)
    requires multiset(a) == multiset(b) && |b| <= 1
    ensures a == b
  {
    assert |multiset(a)| == |multiset(b)|;
    if |b| == 1 {
      assert b[0] in multiset(a);
    }
  }

  lemma InPermutation<T>(a: seq<T>, b: seq<T>, j: nat) returns (i: nat)
    requires multiset(a) == multiset(b) && j < |b|
    ensures i < |a| && a[i] == b[j]
  {
    assert b[j] in multiset(b);
    i :| 0 <= i < |a| && a[i] == b[j];
  }

  /** A pair is known from the element that stands first. */
  lemma TwoOf<T>(s: seq<T>, x: T, y: T, k: nat, l: nat)
    requires multiset(s) == multiset([x, y]) && k < l < |s|
    ensures s == [s[k], s[l]] && s[k] in [x, y] && s[l] in [x, y]
  {
    assert |multiset(s)| == |multiset([x, y])|;
    assert s[k] in multiset([x, y]) && s[l] in multiset([x, y]);
  }

  lemma PolicyFilter(a: seq<Spec>, core: seq<Spec>, i: nat, j: nat)
    requires CoreLike(core) && multiset(a) == multiset(core)
    requires i < j < |a| && a[i].target == BrowserPolicy && a[j].target == BrowserPolicy
    ensures Filter(a, Touching(BrowserPolicy)) == [a[i], a[j]]
    ensures a[i] in [core[7], core[8]] && a[j] in [core[7], core[8]]
  {
    var own := Filter(a, Touching(BrowserPolicy));
    FilterPermutation(a, core, Touching(BrowserPolicy));
    TouchingRows(core, BrowserPolicy);
    var k, l := FilterOrder(a, Touching(BrowserPolicy), i, j);
    TwoOf(own, core[7], core[8], k, l);
  }

  lemma PolicyRowsKept(a: seq<Spec>, core: seq<Spec>)
    requires CoreLike(core) && multiset(a) == multiset(core) && BrowserFirst(a)
    ensures Filter(a, Touching(BrowserPolicy)) == [core[7], core[8]]
  {
    PolicyRowKinds(core);
    var i := InPermutation(a, core, 7);
    var j := InPermutation(a, core, 8);
    PolicyFilter(a, core, i, j);
  }

  lemma SwappedPair(a: seq<Spec>) returns (i: nat, j: nat)
    requires !BrowserFirst(a)
    ensures i < j < |a| && IsNoBrowser(a[i]) && IsBrowser(a[j])
  {
    i, j :| 0 <= i < j < |a| && IsNoBrowser(a[i]) && IsBrowser(a[j]);
  }

  lemma PolicyRowsSwapped(a: seq<Spec>, core: seq<Spec>)
    requires CoreLike(core) && multiset(a) == multiset(core) && !BrowserFirst(a)
    ensures Filter(a, Touching(BrowserPolicy)) == [core[8], core[7]]
  {
    PolicyRowKinds(core);
    var i, j := SwappedPair(a);
    PolicyFilter(a, core, i, j);
    assert a[i] == core[8] && a[j] == core[7];
  }

  lemma SameRows(a: seq<Spec>, core: seq<Spec>)
    requires CoreLike(core) && multiset(a) == multiset(core) && BrowserFirst(a)
    ensures SameTouchingRows(a, core)
  {
    forall f: Field ensures Filter(a, Touching(f)) == Filter(core, Touching(f)) {
      TouchingRows(core, f);
      if f == BrowserPolicy {
        PolicyRowsKept(a, core);
      } else {
        FilterPermutation(a, core, Touching(f));
        SmallPermutation(Filter(a, Touching(f)), Filter(core, Touching(f)));
      }
    }
  }

  /** Any order of the core table that keeps BROWSER before NO_BROWSER gives the same options, provenance and
      count, in every environment. */
  lemma CoreOrderIndependence(src: Source, a: seq<Spec>, base: Options, entries: Entries)
    requires multiset(a) == multiset(CORE_SPECS) && BrowserFirst(a)
    ensures RunOptions(base, TableEvents(src, a)) == RunOptions(base, TableEvents(src, CORE_SPECS))
    ensures RunEntries(entries, TableEvents(src, a)) == RunEntries(entries, TableEvents(src, CORE_SPECS))
    ensures |Filter(LoadedOf(src, a), APPLIES)| == |Filter(LoadedOf(src, CORE_SPECS), APPLIES)|
  {
    CoreIsCoreLike();
    SameRows(a, CORE_SPECS);
    OrderIndependence(src, a, CORE_SPECS, base, entries);
    AppliedCountOrderFree(src, a, CORE_SPECS);
  }
}
