/** The publish manifest and its JSON form. */
module AssetManifests {
  import opened Prelude
  import opened PythonText
  import opened Sequences
  import opened Decimals
  import opened EnvironmentParsing

  type Number = d: Decimal | Normal(d) witness Decimal(0, 0)

  datatype Json =
    | JNull
    | JBool(b: bool)
    | JInt(n: int)
    | JFloat(d: Number)
    | JText(s: string)
    | JList(items: seq<Json>)
    | JObject(members: map<string, Json>)

  datatype Role = Entry | Asset | Index | Manifest | Other

  datatype AssetMetadata = AssetMetadata(file: string, role: Role, sizeBytes: int, sha256: string, contentType: string)

  datatype ManifestModel = ManifestModel(
    schemaVersion: int, frontendVersion: Json, builtAt: string, commit: Json, bundleId: string,
    entries: seq<AssetMetadata>, totalFiles: int, totalBytes: int, extras: map<string, Json>)

  const MANIFEST_VERSION: int := 1

  predicate IsIndex(e: AssetMetadata) {
    e.role == Index
  }

  predicate HasIndex(m: ManifestModel) {
    exists i :: 0 <= i < |m.entries| && IsIndex(m.entries[i])
  }

  const SIZE_OF: AssetMetadata -> int := (e: AssetMetadata) => e.sizeBytes

  function BuildManifest(entries: seq<AssetMetadata>, version: Json, builtAt: string, commit: Json, bundleId: string): ManifestModel {
    ManifestModel(MANIFEST_VERSION, version, builtAt, commit, bundleId, entries, |entries|, Sum(Map(entries, SIZE_OF)), map[])
  }

  // ---- to a dictionary ----

  function RoleName(r: Role): string {
    match r
    case Entry => "entry"
    case Asset => "asset"
    case Index => "index"
    case Manifest => "manifest"
    case Other => "other"
  }

  function EntryToDict(e: AssetMetadata): Json {
    JObject(map["file" := JText(e.file), "role" := JText(RoleName(e.role)), "size_bytes" := JInt(e.sizeBytes),
                "sha256" := JText(e.sha256), "content_type" := JText(e.contentType)])
  }

  function ManifestMembers(m: ManifestModel): map<string, Json> {
    map["schema_version" := JInt(m.schemaVersion), "frontend_version" := m.frontendVersion,
        "built_at_iso" := JText(m.builtAt), "commit" := m.commit, "bundle_id" := JText(m.bundleId),
        "total_files" := JInt(m.totalFiles), "total_bytes" := JInt(m.totalBytes),
        "entries" := JList(Map(m.entries, EntryToDict)), "extras" := JObject(m.extras)]
  }

  function ManifestToDict(m: ManifestModel): Json {
    JObject(ManifestMembers(m))
  }

  // ---- from a dictionary ----

  function Get(members: map<string, Json>, key: string, default: Json): Json {
    if key in members then members[key] else default
  }

  /** int() of a float: the digits before the point. */
  function WholePart(d: Decimal): int {
    var whole := Abs(d.mantissa) / Power10(d.places);
    if d.mantissa < 0 then -whole else whole
  }

  /** int(value), for the values a JSON text can hold; a list, an object or null raises. */
  function IntOf(j: Json): Option<int> {
    match j
    case JInt(n) => Some(n)
    case JFloat(d) => Some(WholePart(d))
    case JBool(b) => Some(if b then 1 else 0)
    case JText(s) =>
      (match ParseInt(s)
       case Some(v) => if v.IntValue? then Some(v.i) else None
       case None => None)
    case _ => None
  }

  /** str(value); `show` is the text of a list or an object. */
  function TextOf(j: Json, show: Json -> string): string {
    match j
    case JText(s) => s
    case JInt(n) => PrintInt(n)
    case JFloat(d) => PrintDecimal(d)
    case JBool(b) => if b then "True" else "False"
    case JNull => "None"
    case _ => show(j)
  }

  /** Any other value is filed as `other`. */
  function RoleOf(j: Json): Role {
    if j == JText("entry") then Entry
    else if j == JText("asset") then Asset
    else if j == JText("index") then Index
    else if j == JText("manifest") then Manifest
    else Other
  }

  /** An entry must be an object with a file. */
  function EntryFromDict(j: Json, show: Json -> string): Option<AssetMetadata> {
    if !j.JObject? || "file" !in j.members then None
    else
      match IntOf(Get(j.members, "size_bytes", JInt(0)))
      case None => None
      case Some(size) =>
        Some(AssetMetadata(TextOf(j.members["file"], show), RoleOf(Get(j.members, "role", JText("other"))), size,
                           TextOf(Get(j.members, "sha256", JText("")), show),
                           TextOf(Get(j.members, "content_type", JText("application/octet-stream")), show)))
  }

  function EntriesFrom(items: seq<Json>, show: Json -> string): Option<seq<AssetMetadata>> {
    if items == [] then Some([])
    else
      var before := EntriesFrom(items[..|items| - 1], show);
      var last := EntryFromDict(items[|items| - 1], show);
      if before.None? || last.None? then None else Some(before.value + [last.value])
  }

  /** The items of `payload.get("entries") or []`; None when they cannot be iterated as entries. */
  function EntryItems(j: Json): Option<seq<Json>> {
    match j
    case JList(items) => Some(items)
    case JNull => Some([])
    case JBool(b) => if b then None else Some([])
    case JInt(n) => if n == 0 then Some([]) else None
    case JFloat(d) => if d.mantissa == 0 then Some([]) else None
    case JText(s) => if s == "" then Some([]) else None
    case JObject(members) => if members == map[] then Some([]) else None
  }

  /** A key and its value, as dict() takes them from an element of a list. */
  function PairOf(j: Json): Option<(string, Json)> {
    match j
    case JList(items) => if |items| == 2 && items[0].JText? then Some((items[0].s, items[1])) else None
    case JText(s) => if |s| == 2 then Some(([s[0]], JText([s[1]]))) else None
    case _ => None
  }

  function PairsOf(items: seq<Json>): Option<map<string, Json>> {
    if items == [] then Some(map[])
    else
      var before := PairsOf(items[..|items| - 1]);
      var last := PairOf(items[|items| - 1]);
      if before.None? || last.None? then None else Some(before.value[last.value.0 := last.value.1])
  }

  /** dict(value): an object, a list of pairs, or an empty text. */
  function DictOf(j: Json): Option<map<string, Json>> {
    match j
    case JObject(members) => Some(members)
    case JList(items) => PairsOf(items)
    case JText(s) => if s == "" then Some(map[]) else None
    case _ => None
  }

  function ManifestOf(members: map<string, Json>, entries: seq<AssetMetadata>, show: Json -> string): Option<ManifestModel> {
    var schema := IntOf(Get(members, "schema_version", JInt(MANIFEST_VERSION)));
    var built := TextOf(Get(members, "built_at_iso", JText("")), show);
    var id := TextOf(Get(members, "bundle_id", JText("")), show);
    var files := IntOf(Get(members, "total_files", JInt(|entries|)));
    var bytes := IntOf(Get(members, "total_bytes", JInt(Sum(Map(entries, SIZE_OF)))));
    var extras := DictOf(Get(members, "extras", JObject(map[])));
    if schema.None? || files.None? || bytes.None? || extras.None? then None
    else
      Some(ManifestModel(schema.value, Get(members, "frontend_version", JNull), built, Get(members, "commit", JNull),
                         id, entries, files.value, bytes.value, extras.value))
  }

  /** None where the source raises. */
  function ManifestFromDict(j: Json, show: Json -> string): Option<ManifestModel> {
    if !j.JObject? then None
    else
      var items := EntryItems(Get(j.members, "entries", JNull));
      if items.None? then None
      else
        match EntriesFrom(items.value, show)
        case Some(entries) => ManifestOf(j.members, entries, show)
        case None => None
  }

  /** The loop over the raw entries. */
  method ReadEntries(items: seq<Json>, show: Json -> string) returns (r: Option<seq<AssetMetadata>>)
    ensures r == EntriesFrom(items, show)
    ensures r.None? <==> exists i :: 0 <= i < |items| && EntryFromDict(items[i], show).None?
    ensures r.Some? ==> |r.value| == |items| && forall i :: 0 <= i < |items| ==> EntryFromDict(items[i], show) == Some(r.value[i])
  {
    var entries := [];
    for i := 0 to |items|
      invariant EntriesFrom(items[..i], show) == Some(entries)
      invariant |entries| == i && forall j :: 0 <= j < i ==> EntryFromDict(items[j], show) == Some(entries[j])
    {
      assert items[..i + 1][..i] == items[..i];
      var e := EntryFromDict(items[i], show);
      if e.None? {
        FailedPrefix(items, i + 1, show);
        return None;
      }
      entries := entries + [e.value];
    }
    assert items[..|items|] == items;
    return Some(entries);
  }

  lemma {:induction false} FailedPrefix(items: seq<Json>, n: nat, show: Json -> string)
    requires n <= |items| && EntriesFrom(items[..n], show) == None
    ensures EntriesFrom(items, show) == None
    decreases |items| - n
  {
    if n == |items| {
      assert items[..n] == items;
    } else {
      assert items[..n + 1][..n] == items[..n];
      FailedPrefix(items, n + 1, show);
    }
  }

  // ---- round trip ----

  lemma RoleRoundTrip(r: Role)
    ensures RoleOf(JText(RoleName(r))) == r
  {
  }

  lemma EntryRoundTrip(e: AssetMetadata, show: Json -> string)
    ensures EntryFromDict(EntryToDict(e), show) == Some(e)
  {
    RoleRoundTrip(e.role);
  }

  lemma EntriesAppend(items: seq<Json>, before: seq<AssetMetadata>, last: AssetMetadata, show: Json -> string)
    requires items != [] && EntriesFrom(items[..|items| - 1], show) == Some(before)
    requires EntryFromDict(items[|items| - 1], show) == Some(last)
    ensures EntriesFrom(items, show) == Some(before + [last])
  {
  }

  ghost predicate Reads(item: Json, e: AssetMetadata, show: Json -> string) {
    EntryFromDict(item, show) == Some(e)
  }

  lemma {:induction false} EntriesRead(items: seq<Json>, entries: seq<AssetMetadata>, show: Json -> string)
    requires |items| == |entries| && forall i :: 0 <= i < |items| ==> Reads(items[i], entries[i], show)
    ensures EntriesFrom(items, show) == Some(entries)
  {
    if items == [] {
      assert entries == [];
    } else {
      var n := |items| - 1;
      assert Reads(items[n], entries[n], show);
      EntriesRead(items[..n], entries[..n], show);
      EntriesAppend(items, entries[..n], entries[n], show);
      FrontAndLast(entries);
    }
  }

  lemma FrontAndLast<T>(s: seq<T>)
    requires s != []
    ensures s[..|s| - 1] + [s[|s| - 1]] == s
  {
  }

  lemma EntriesRoundTrip(entries: seq<AssetMetadata>, show: Json -> string)
    ensures EntriesFrom(Map(entries, EntryToDict), show) == Some(entries)
  {
    var items := Map(entries, EntryToDict);
    forall i | 0 <= i < |items| ensures Reads(items[i], entries[i], show) {
      EntryRoundTrip(entries[i], show);
    }
    EntriesRead(items, entries, show);
  }

  lemma NumberMembers(m: ManifestModel, default: Json)
    ensures Get(ManifestMembers(m), "schema_version", default) == JInt(m.schemaVersion)
    ensures Get(ManifestMembers(m), "total_files", default) == JInt(m.totalFiles)
    ensures Get(ManifestMembers(m), "total_bytes", default) == JInt(m.totalBytes)
  {
  }

  lemma TextMembers(m: ManifestModel, default: Json)
    ensures Get(ManifestMembers(m), "built_at_iso", default) == JText(m.builtAt)
    ensures Get(ManifestMembers(m), "bundle_id", default) == JText(m.bundleId)
    ensures Get(ManifestMembers(m), "frontend_version", default) == m.frontendVersion
  {
  }

  lemma OtherMembers(m: ManifestModel, default: Json)
    ensures Get(ManifestMembers(m), "commit", default) == m.commit
    ensures Get(ManifestMembers(m), "entries", default) == JList(Map(m.entries, EntryToDict))
    ensures Get(ManifestMembers(m), "extras", default) == JObject(m.extras)
  {
  }

  lemma ManifestOfMembers(members: map<string, Json>, m: ManifestModel, show: Json -> string)
    requires Get(members, "schema_version", JInt(MANIFEST_VERSION)) == JInt(m.schemaVersion)
    requires Get(members, "built_at_iso", JText("")) == JText(m.builtAt)
    requires Get(members, "bundle_id", JText("")) == JText(m.bundleId)
    requires Get(members, "total_files", JInt(|m.entries|)) == JInt(m.totalFiles)
    requires Get(members, "total_bytes", JInt(Sum(Map(m.entries, SIZE_OF)))) == JInt(m.totalBytes)
    requires Get(members, "extras", JObject(map[])) == JObject(m.extras)
    requires Get(members, "frontend_version", JNull) == m.frontendVersion && Get(members, "commit", JNull) == m.commit
    ensures ManifestOf(members, m.entries, show) == Some(m)
  {
  }

  /** Reading back what was written gives the manifest back, every field of it. */
  lemma ManifestRoundTrip(m: ManifestModel, show: Json -> string)
    ensures ManifestFromDict(ManifestToDict(m), show) == Some(m)
  {
    EntriesRoundTrip(m.entries, show);
    NumberMembers(m, JInt(MANIFEST_VERSION));
    NumberMembers(m, JInt(|m.entries|));
    NumberMembers(m, JInt(Sum(Map(m.entries, SIZE_OF))));
    TextMembers(m, JText(""));
    TextMembers(m, JNull);
    OtherMembers(m, JNull);
    OtherMembers(m, JObject(map[]));
    ManifestOfMembers(ManifestMembers(m), m, show);
  }

  // ---- numbers in other clothes ----

  /** Truth values and printed numbers are read as the numbers they stand for. */
  lemma NumbersRead(b: bool, n: int)
    ensures IntOf(JBool(b)) == Some(One(b)) && IntOf(JText(PrintInt(n))) == Some(n)
  {
    IntRoundTrip(n);
  }

  /** A float is cut off towards zero. */
  lemma WholePartExactly(d: Decimal)
    ensures var w, p := WholePart(d), Power10(d.places);
            0 <= Abs(d.mantissa) - Abs(w) * p < p && (w > 0 ==> d.mantissa > 0) && (w < 0 ==> d.mantissa < 0)
  {
    QuotientRange(Abs(d.mantissa), Power10(d.places));
  }

  lemma QuotientRange(n: nat, p: nat)
    requires p > 0
    ensures n / p >= 0 && 0 <= n - n / p * p < p
  {
  }

  // ---- what is read when members are missing ----

  /** An entry without a file cannot be read; its other members have defaults. */
  lemma PartialEntry(e: AssetMetadata, keys: set<string>, show: Json -> string)
    ensures EntryFromDict(JObject(EntryToDict(e).members - keys), show)
            == if "file" in keys then None
               else Some(AssetMetadata(e.file,
                                       if "role" in keys then Other else e.role,
                                       if "size_bytes" in keys then 0 else e.sizeBytes,
                                       if "sha256" in keys then "" else e.sha256,
                                       if "content_type" in keys then "application/octet-stream" else e.contentType))
  {
    RoleRoundTrip(e.role);
  }

  /** What is read of a manifest without some of its members: totals are taken from the entries that are left. */
  function Partial(m: ManifestModel, keys: set<string>): ManifestModel {
    var entries := if "entries" in keys then [] else m.entries;
    ManifestModel(
      if "schema_version" in keys then 1 else m.schemaVersion,
      if "frontend_version" in keys then JNull else m.frontendVersion,
      if "built_at_iso" in keys then "" else m.builtAt,
      if "commit" in keys then JNull else m.commit,
      if "bundle_id" in keys then "" else m.bundleId,
      entries,
      if "total_files" in keys then |entries| else m.totalFiles,
      if "total_bytes" in keys then Sum(Map(entries, SIZE_OF)) else m.totalBytes,
      if "extras" in keys then map[] else m.extras)
  }

  lemma PartialNumbers(m: ManifestModel, keys: set<string>, default: Json)
    ensures Get(ManifestMembers(m) - keys, "schema_version", default)
            == if "schema_version" in keys then default else JInt(m.schemaVersion)
    ensures Get(ManifestMembers(m) - keys, "total_files", default)
            == if "total_files" in keys then default else JInt(m.totalFiles)
    ensures Get(ManifestMembers(m) - keys, "total_bytes", default)
            == if "total_bytes" in keys then default else JInt(m.totalBytes)
  {
    NumberMembers(m, default);
  }

  lemma PartialTexts(m: ManifestModel, keys: set<string>, default: Json)
    ensures Get(ManifestMembers(m) - keys, "built_at_iso", default)
            == if "built_at_iso" in keys then default else JText(m.builtAt)
    ensures Get(ManifestMembers(m) - keys, "bundle_id", default)
            == if "bundle_id" in keys then default else JText(m.bundleId)
    ensures Get(ManifestMembers(m) - keys, "frontend_version", default)
            == if "frontend_version" in keys then default else m.frontendVersion
  {
    TextMembers(m, default);
  }

  lemma PartialOthers(m: ManifestModel, keys: set<string>, default: Json)
    ensures Get(ManifestMembers(m) - keys, "commit", default)
            == if "commit" in keys then default else m.commit
    ensures Get(ManifestMembers(m) - keys, "entries", default)
            == if "entries" in keys then default else JList(Map(m.entries, EntryToDict))
    ensures Get(ManifestMembers(m) - keys, "extras", default)
            == if "extras" in keys then default else JObject(m.extras)
  {
    OtherMembers(m, default);
  }

  /** Whatever members a manifest's dictionary lacks, the rest is read as it was written. */
  lemma PartialRoundTrip(m: ManifestModel, keys: set<string>, show: Json -> string)
    ensures ManifestFromDict(JObject(ManifestMembers(m) - keys), show) == Some(Partial(m, keys))
  {
    var members, entries := ManifestMembers(m) - keys, if "entries" in keys then [] else m.entries;
    EntriesRoundTrip(m.entries, show);
    PartialNumbers(m, keys, JInt(MANIFEST_VERSION));
    PartialNumbers(m, keys, JInt(|entries|));
    PartialNumbers(m, keys, JInt(Sum(Map(entries, SIZE_OF))));
    PartialTexts(m, keys, JText(""));
    PartialTexts(m, keys, JNull);
    PartialOthers(m, keys, JNull);
    PartialOthers(m, keys, JObject(map[]));
    ManifestOfMembers(members, Partial(m, keys), show);
  }
}
