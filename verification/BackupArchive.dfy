/** Building and parsing backup archives. ZIP, JSON and the digest are parameters. */
module BackupArchive {
  import opened Graphs
  import opened Manifest
  import opened ManifestRelations
  import opened Texts
  import opened Arrangements
  import ChecksumList
  import opened BackupFiles
  import opened BackupSources

  datatype Entry = Entry(name: string, body: Body)

  // `rest` stands for the parts of a manifest that concern neither the family graph nor the files.
  datatype Document = Document(schemaName: string, schemaVersion: int, format: string, treeId: Uuid, persons: seq<Uuid>,
                               relations: seq<Relation>, assets: seq<Asset>, variants: seq<Variant>, rest: string)

  // `otherChecks` are the checks of the manifest's remaining parts.
  datatype Env = Env(pack: seq<Entry> -> Body, unpack: Body -> Option<seq<Entry>>, encode: Document -> Body,
                     decode: Body -> Option<Document>, sha: Body -> string, uuid: Printer, otherChecks: Document -> bool)

  ghost predicate GoodEnv(e: Env) {
    && (forall es :: e.unpack(e.pack(es)) == Some(es) && e.pack(es) != "")
    && (forall d :: e.decode(e.encode(d)) == Some(d))
    && (forall b :: ChecksumList.ValidChecksum(e.sha(b)))
    && GoodPrinter(e.uuid)
  }

  type Store = map<string, Body>

  const MAX_ENTRIES := 10000

  // ---- Building ----

  function ApplyPaths(d: Document, order: seq<Source>): Document {
    d.(assets := WithAssetPaths(d.assets, order), variants := WithVariantPaths(d.variants, order))
  }

  predicate Usable(s: Source) {
    s.objectKey != "" && s.archivePath != "" && s.sizeBytes > 0 && |s.checksum| == 64
  }

  predicate Intact(e: Env, store: Store, s: Source) {
    s.objectKey in store && |store[s.objectKey]| == s.sizeBytes && e.sha(store[s.objectKey]) == s.checksum
  }

  function SourceTotal(order: seq<Source>): int {
    if order == [] then 0 else SourceTotal(order[..|order| - 1]) + order[|order| - 1].sizeBytes
  }

  function FileEntries(order: seq<Source>, store: Store): seq<Entry>
    requires forall s :: s in order ==> s.objectKey in store
  {
    seq(|order|, i requires 0 <= i < |order| => Entry(order[i].archivePath, store[order[i].objectKey]))
  }

  function ListedEntries(e: Env, d: Document, order: seq<Source>, store: Store): seq<Entry>
    requires forall s :: s in order ==> s.objectKey in store
  {
    [Entry(MANIFEST, e.encode(ApplyPaths(d, order)))] + FileEntries(order, store)
  }

  function ChecksumLines(e: Env, es: seq<Entry>): seq<ChecksumList.Line> {
    seq(|es|, i requires 0 <= i < |es| => ChecksumList.Line(es[i].name, e.sha(es[i].body)))
  }

  // The archive's entries: the manifest, the files and the list of their checksums.
  function Entries(e: Env, d: Document, order: seq<Source>, store: Store): seq<Entry>
    requires forall s :: s in order ==> s.objectKey in store
  {
    var listed := ListedEntries(e, d, order, store);
    listed + [Entry(ChecksumList.CHECKSUMS, ChecksumList.Print(ChecksumLines(e, listed)))]
  }

  ghost predicate Buildable(e: Env, d: Document, order: seq<Source>, store: Store, limit: int) {
    && PathsDistinct(order)
    && (forall s :: s in order ==> Usable(s) && Intact(e, store, s))
    && |e.encode(ApplyPaths(d, order))| + SourceTotal(order) <= limit
    && |e.pack(Entries(e, d, order, store))| <= limit
  }

  datatype BuildResult = Built(body: Body) | SourceInvalid | SourceMissing | ArchiveTooLarge

  lemma {:induction false} TotalGrows(order: seq<Source>, i: nat)
    requires i <= |order| && forall s :: s in order ==> Usable(s)
    ensures SourceTotal(order[..i]) <= SourceTotal(order)
    decreases |order| - i
  {
    if i == |order| {
      assert order[..i] == order;
    } else {
      assert order[..i + 1][..i] == order[..i];
      assert order[i] in order;
      TotalGrows(order, i + 1);
    }
  }

  ghost predicate Permutes(order: seq<Source>, files: seq<Source>, places: seq<int>) {
    && |places| == |order|
    && (forall i :: 0 <= i < |places| ==> 0 <= places[i] < |files| && order[i] == files[places[i]])
    && (forall i, j :: 0 <= i < j < |places| ==> places[i] != places[j])
  }

  // Paths ascend; files with one path stand next to each other.
  ghost predicate PathsAscend(order: seq<Source>) {
    forall i, j :: 0 <= i < j < |order| ==> !Less(order[j].archivePath, order[i].archivePath)
  }

  lemma NotLessIsTransitive(a: string, b: string, c: string)
    requires !Less(b, a) && !Less(c, b)
    ensures !Less(c, a)
  {
    LessIsTotal(a, b);
    LessIsTotal(b, c);
    LessIsTotal(a, c);
    if Less(a, b) && Less(b, c) {
      LessIsTransitive(a, b, c);
      if Less(c, a) {
        LessIsTransitive(a, c, a);
      }
    }
  }

  lemma NotAfterRest(order: seq<Source>, path: string, k: nat, j: nat)
    requires PathsAscend(order) && k <= j < |order| && Less(path, order[k].archivePath)
    ensures !Less(order[j].archivePath, path)
  {
    if Less(order[k].archivePath, path) {
      LessIsTransitive(path, order[k].archivePath, path);
      LessIsTotal(path, path);
    }
    if k < j {
      NotLessIsTransitive(path, order[k].archivePath, order[j].archivePath);
    }
  }

  lemma InsertPath(order: seq<Source>, s: Source, k: nat)
    requires PathsAscend(order) && k <= |order|
    requires forall j :: 0 <= j < k ==> !Less(s.archivePath, order[j].archivePath)
    requires k < |order| ==> Less(s.archivePath, order[k].archivePath)
    ensures PathsAscend(order[..k] + [s] + order[k..])
  {
    forall j | k <= j < |order| ensures !Less(order[j].archivePath, s.archivePath) {
      NotAfterRest(order, s.archivePath, k, j);
    }
  }

  lemma InsertedAt<T>(xs: seq<T>, x: T, k: nat)
    requires k <= |xs|
    ensures var r := xs[..k] + [x] + xs[k..];
      |r| == |xs| + 1 && forall j :: 0 <= j < |r| ==> r[j] == if j < k then xs[j] else if j == k then x else xs[j - 1]
    ensures forall y :: y in xs[..k] + [x] + xs[k..] <==> y in xs || y == x
  {
    assert xs == xs[..k] + xs[k..];
  }

  lemma InsertPlace(order: seq<Source>, files: seq<Source>, places: seq<int>, i: nat, k: nat)
    requires Permutes(order, files, places) && i < |files| && i !in places && k <= |order|
    ensures Permutes(order[..k] + [files[i]] + order[k..], files, places[..k] + [i] + places[k..])
    ensures forall n :: n in places[..k] + [i] + places[k..] <==> n in places || n == i
  {
    InsertedAt(order, files[i], k);
    InsertedAt(places, i, k);
  }

  lemma PermutedAre(order: seq<Source>, files: seq<Source>, places: seq<int>)
    requires Permutes(order, files, places) && forall i :: i in places <==> 0 <= i < |files|
    ensures Arrangement(order, files) && (PathsDistinct(order) <==> PathsDistinct(files))
  {
    forall s | s in files ensures s in order {
      var i :| 0 <= i < |files| && files[i] == s;
      assert i in places;
      var j :| 0 <= j < |places| && places[j] == i;
      assert order[j] == s;
    }
    if PathsDistinct(files) {
      forall i, j | 0 <= i < j < |order| ensures order[i].archivePath != order[j].archivePath {
        assert places[i] != places[j];
      }
    }
    if PathsDistinct(order) {
      forall i, j | 0 <= i < j < |files| ensures files[i].archivePath != files[j].archivePath {
        assert i in places && j in places;
        var m :| 0 <= m < |places| && places[m] == i;
        var n :| 0 <= n < |places| && places[n] == j;
        assert order[m] == files[i] && order[n] == files[j];
      }
    }
  }

  // The files by path.
  method Arrange(files: seq<Source>) returns (order: seq<Source>)
    ensures Arrangement(order, files) && PathsAscend(order)
    ensures PathsDistinct(order) <==> PathsDistinct(files)
  {
    order := [];
    ghost var places: seq<int> := [];
    for i := 0 to |files|
      invariant Permutes(order, files, places) && PathsAscend(order)
      invariant forall n :: n in places <==> 0 <= n < i
    {
      var k := 0;
      while k < |order| && !Less(files[i].archivePath, order[k].archivePath)
        invariant 0 <= k <= |order|
        invariant forall j :: 0 <= j < k ==> !Less(files[i].archivePath, order[j].archivePath)
      {
        k := k + 1;
      }
      InsertPath(order, files[i], k);
      InsertPlace(order, files, places, i, k);
      order := order[..k] + [files[i]] + order[k..];
      places := places[..k] + [i] + places[k..];
    }
    PermutedAre(order, files, places);
  }

  function PathOrder(): (Source, Source) -> bool {
    (a: Source, b: Source) => Less(a.archivePath, b.archivePath)
  }

  // Files with different paths have one order, whatever order they come in.
  lemma OrderUnique(files: seq<Source>, a: seq<Source>, b: seq<Source>)
    requires PathsDistinct(a) && PathsDistinct(b) && PathsAscend(a) && PathsAscend(b)
    requires Arrangement(a, files) && Arrangement(b, files)
    ensures a == b
  {
    StringsAreOrdered();
    forall i, j | 0 <= i < j < |a| ensures PathOrder()(a[i], a[j]) {
      LessIsTotal(a[i].archivePath, a[j].archivePath);
    }
    forall i, j | 0 <= i < j < |b| ensures PathOrder()(b[i], b[j]) {
      LessIsTotal(b[i].archivePath, b[j].archivePath);
    }
    AscendingUnique(PathOrder(), a, b);
  }

  // The manifest and the first few files are already too large.
  ghost predicate Overflows(manifestSize: nat, order: seq<Source>, limit: int) {
    exists i :: 0 <= i <= |order| && manifestSize + SourceTotal(order[..i]) > limit
  }

  // Sizes are checked before anything is downloaded.
  method CheckSizes(e: Env, manifestSize: nat, order: seq<Source>, limit: int) returns (result: Option<BuildResult>)
    ensures result == None <==>
      (forall s :: s in order ==> Usable(s)) && manifestSize + SourceTotal(order) <= limit
    ensures result.Some? ==> result.value == ArchiveTooLarge || result.value == SourceInvalid
    ensures result == Some(SourceInvalid) ==> exists s :: s in order && !Usable(s)
    ensures result == Some(ArchiveTooLarge) ==> Overflows(manifestSize, order, limit)
  {
    var expected := manifestSize;
    if expected > limit {
      assert SourceTotal(order[..0]) == 0;
      if forall s :: s in order ==> Usable(s) {
        TotalGrows(order, 0);
      }
      return Some(ArchiveTooLarge);
    }
    for i := 0 to |order|
      invariant expected == manifestSize + SourceTotal(order[..i]) && expected <= limit
      invariant forall s :: s in order[..i] ==> Usable(s)
    {
      assert order[..i + 1][..i] == order[..i];
      assert order[i] in order && order[..i + 1] == order[..i] + [order[i]];
      if !Usable(order[i]) {
        return Some(SourceInvalid);
      }
      if order[i].sizeBytes > limit - expected {
        assert manifestSize + SourceTotal(order[..i + 1]) > limit;
        if forall s :: s in order ==> Usable(s) {
          TotalGrows(order, i + 1);
        }
        return Some(ArchiveTooLarge);
      }
      expected := expected + order[i].sizeBytes;
    }
    assert order[..|order|] == order;
    result := None;
  }

  // Builds exactly what can be built, with the files by path; every refusal is founded.
  method BuildZIP(e: Env, d: Document, files: seq<Source>, store: Store, limit: int)
      returns (result: BuildResult, order: seq<Source>)
    ensures Arrangement(order, files) && PathsAscend(order) && (PathsDistinct(order) <==> PathsDistinct(files))
    ensures result.Built? <==> Buildable(e, d, order, store, limit)
    ensures result.Built? ==> result.body == e.pack(Entries(e, d, order, store))
    ensures result == SourceMissing ==> exists s :: s in order && s.objectKey !in store
    ensures result == SourceInvalid ==>
      !PathsDistinct(order) || exists s :: s in order && (!Usable(s) || (s.objectKey in store && !Intact(e, store, s)))
    ensures result == ArchiveTooLarge ==>
      || Overflows(|e.encode(ApplyPaths(d, order))|, order, limit)
      || ((forall s :: s in order ==> s.objectKey in store) && |e.pack(Entries(e, d, order, store))| > limit)
  {
    var sorted := Arrange(files);
    order := sorted;
    var ok, assets, variants := ApplyArchivePaths(d.assets, d.variants, sorted);
    if !ok {
      return SourceInvalid, order;
    }
    var manifestBody := e.encode(d.(assets := assets, variants := variants));
    var refused := CheckSizes(e, |manifestBody|, sorted, limit);
    if refused.Some? {
      return refused.value, order;
    }
    var entries := [Entry(MANIFEST, manifestBody)];
    var lines := [ChecksumList.Line(MANIFEST, e.sha(manifestBody))];
    for i := 0 to |sorted|
      invariant forall s :: s in sorted[..i] ==> Intact(e, store, s)
      invariant entries == [Entry(MANIFEST, manifestBody)] + FileEntries(sorted[..i], store)
      invariant lines == ChecksumLines(e, entries)
    {
      var file := sorted[i];
      assert file in sorted && sorted[..i + 1] == sorted[..i] + [file];
      if file.objectKey !in store {
        return SourceMissing, order;
      }
      var body := store[file.objectKey];
      if |body| != file.sizeBytes || e.sha(body) != file.checksum {
        return SourceInvalid, order;
      }
      entries := entries + [Entry(file.archivePath, body)];
      lines := lines + [ChecksumList.Line(file.archivePath, e.sha(body))];
    }
    assert sorted[..|sorted|] == sorted;
    entries := entries + [Entry(ChecksumList.CHECKSUMS, ChecksumList.Print(lines))];
    var body := e.pack(entries);
    if |body| > limit {
      return ArchiveTooLarge, order;
    }
    result := Built(body);
  }

  // ---- Parsing ----

  type Contents = map<string, Body>

  datatype Opening = Opened(entries: Contents, total: int) | Refused(tooLarge: bool)

  function OpenEntry(o: Opening, entry: Entry, limit: int): Opening
    requires o.Opened?
  {
    if !ChecksumList.SafePath(entry.name) || entry.name in o.entries then Refused(false)
    else if |entry.body| > limit - o.total then Refused(true)
    else Opened(o.entries[entry.name := entry.body], o.total + |entry.body|)
  }

  // All entries in turn; the first refusal stands.
  function OpenAll(es: seq<Entry>, limit: int): Opening {
    if es == [] then Opened(map[], 0) else
      var before := OpenAll(es[..|es| - 1], limit);
      if before.Refused? then before else OpenEntry(before, es[|es| - 1], limit)
  }

  lemma {:induction false} RefusalStands(es: seq<Entry>, limit: int, i: nat)
    requires i <= |es| && OpenAll(es[..i], limit).Refused?
    ensures OpenAll(es, limit) == OpenAll(es[..i], limit)
    decreases |es| - i
  {
    if i == |es| {
      assert es[..i] == es;
    } else {
      assert es[..i + 1][..i] == es[..i];
      RefusalStands(es, limit, i + 1);
    }
  }

  predicate Supported(d: Document) {
    d.schemaName == "family_tree_backup" && d.schemaVersion == 1 && d.format == "zip_backup"
  }

  predicate SumMatches(e: Env, entries: Contents, sums: map<string, string>, name: string)
    requires name in entries
  {
    name == ChecksumList.CHECKSUMS || (name in sums && e.sha(entries[name]) == sums[name])
  }

  predicate FileMatches(e: Env, entries: Contents, expected: Expected, name: string)
    requires name in expected
  {
    name in entries && |entries[name]| == expected[name].sizeBytes && e.sha(entries[name]) == expected[name].checksum
  }

  ghost predicate GoodManifest(e: Env, d: Document) {
    Restorable(d.persons, d.relations) && e.otherChecks(d)
  }

  ghost predicate ValidArchive(e: Env, d: Document, files: Contents) {
    && Supported(d) && GoodManifest(e, d)
    && var expected := Expect(e.uuid, d.assets, d.variants);
       expected.Some? && |expected.value| == |files| && forall name :: name in expected.value ==> FileMatches(e, files, expected.value, name)
  }

  datatype ParseResult = Parsed(document: Document, files: Contents) | Invalid | TooLarge

  function FilesOf(entries: Contents, expected: Expected): Contents
    requires forall name :: name in expected ==> name in entries
  {
    map name | name in expected :: entries[name]
  }

  ghost function ParseDocument(e: Env, entries: Contents, d: Document): ParseResult {
    if !Supported(d) || d.treeId == 0 || !GoodManifest(e, d) then Invalid else
    match Expect(e.uuid, d.assets, d.variants)
    case None => Invalid
    case Some(expected) =>
      if |entries| == |expected| + 2 && (forall name :: name in expected ==> FileMatches(e, entries, expected, name))
      then Parsed(d, FilesOf(entries, expected)) else Invalid
  }

  ghost function ParseEntries(e: Env, entries: Contents): ParseResult {
    if MANIFEST !in entries || ChecksumList.CHECKSUMS !in entries then Invalid else
    match ChecksumList.Read(entries[ChecksumList.CHECKSUMS])
    case None => Invalid
    case Some(sums) =>
      if |sums| != |entries| - 1 || !(forall name :: name in entries ==> SumMatches(e, entries, sums, name)) then Invalid else
      match e.decode(entries[MANIFEST])
      case None => Invalid
      case Some(d) => ParseDocument(e, entries, d)
  }

  // What the restorer makes of a body under a limit.
  ghost function Parse(e: Env, body: Body, limit: int): ParseResult {
    if body == "" || limit < 1 || |body| > limit then TooLarge else
    match e.unpack(body)
    case None => Invalid
    case Some(es) =>
      if |es| < 2 || |es| > MAX_ENTRIES then Invalid else
      match OpenAll(es, limit)
      case Refused(tooLarge) => if tooLarge then TooLarge else Invalid
      case Opened(entries, _) => ParseEntries(e, entries)
  }

  method CheckSums(e: Env, entries: Contents, sums: map<string, string>) returns (ok: bool)
    ensures ok <==> forall name :: name in entries ==> SumMatches(e, entries, sums, name)
  {
    var rest := entries.Keys;
    while rest != {}
      invariant rest <= entries.Keys
      invariant forall name :: name in entries && name !in rest ==> SumMatches(e, entries, sums, name)
      decreases rest
    {
      var name :| name in rest;
      rest := rest - {name};
      if name != ChecksumList.CHECKSUMS {
        if name !in sums || e.sha(entries[name]) != sums[name] {
          return false;
        }
      }
    }
    ok := true;
  }

  method CheckFiles(e: Env, entries: Contents, expected: Expected) returns (ok: bool, files: Contents)
    ensures ok <==> forall name :: name in expected ==> FileMatches(e, entries, expected, name)
    ensures ok ==> files == FilesOf(entries, expected)
  {
    files := map[];
    var rest := expected.Keys;
    while rest != {}
      invariant rest <= expected.Keys && files.Keys == expected.Keys - rest
      invariant forall name :: name in expected && name !in rest ==>
        FileMatches(e, entries, expected, name) && files[name] == entries[name]
      decreases rest
    {
      var name :| name in rest;
      rest := rest - {name};
      if !FileMatches(e, entries, expected, name) {
        return false, files;
      }
      files := files[name := entries[name]];
    }
    ok := true;
  }

  method ManifestIsGood(e: Env, d: Document) returns (ok: bool)
    ensures ok <==> GoodManifest(e, d)
  {
    var check := ValidateManifestRelations(d.persons, d.relations);
    ok := check == Valid && e.otherChecks(d);
  }

  method ValidateArchive(e: Env, d: Document, files: Contents) returns (ok: bool)
    ensures ok <==> ValidArchive(e, d, files)
  {
    ok := false;
    if Supported(d) {
      ok := ManifestIsGood(e, d);
      if ok {
        var expected := ExpectedManifestFiles(e.uuid, d.assets, d.variants);
        ok := expected.Some? && |expected.value| == |files|;
        if ok {
          var matched;
          ok, matched := CheckFiles(e, files, expected.value);
        }
      }
    }
  }

  // The validation of the finished archive repeats checks that have passed: it never refuses.
  lemma ParsedIsValid(e: Env, entries: Contents, d: Document)
    requires ParseDocument(e, entries, d).Parsed?
    ensures ValidArchive(e, d, ParseDocument(e, entries, d).files)
  {
    var expected := Expect(e.uuid, d.assets, d.variants).value;
    assert FilesOf(entries, expected).Keys == expected.Keys;
  }

  method ParseManifest(e: Env, entries: Contents, d: Document) returns (result: ParseResult)
    ensures result == ParseDocument(e, entries, d)
  {
    if !Supported(d) || d.treeId == 0 {
      return Invalid;
    }
    var good := ManifestIsGood(e, d);
    if !good {
      return Invalid;
    }
    var expected := ExpectedManifestFiles(e.uuid, d.assets, d.variants);
    if expected == None || |entries| != |expected.value| + 2 {
      return Invalid;
    }
    var matching, files := CheckFiles(e, entries, expected.value);
    if !matching {
      return Invalid;
    }
    ParsedIsValid(e, entries, d);
    var valid := ValidateArchive(e, d, files);
    if !valid {
      return Invalid;
    }
    result := Parsed(d, files);
  }

  method OpenEntries(es: seq<Entry>, limit: int) returns (result: Opening)
    ensures result == OpenAll(es, limit)
  {
    result := Opened(map[], 0);
    for i := 0 to |es|
      invariant result.Opened? && result == OpenAll(es[..i], limit)
    {
      assert es[..i + 1][..i] == es[..i];
      result := OpenEntry(result, es[i], limit);
      if result.Refused? {
        RefusalStands(es, limit, i + 1);
        return;
      }
    }
    assert es[..|es|] == es;
  }

  method ParseZIP(e: Env, body: Body, limit: int) returns (result: ParseResult)
    ensures result == Parse(e, body, limit)
  {
    if body == "" || limit < 1 || |body| > limit {
      return TooLarge;
    }
    var unpacked := e.unpack(body);
    if unpacked == None || |unpacked.value| < 2 || |unpacked.value| > MAX_ENTRIES {
      return Invalid;
    }
    var opening := OpenEntries(unpacked.value, limit);
    if opening.Refused? {
      return if opening.tooLarge then TooLarge else Invalid;
    }
    var entries := opening.entries;
    if MANIFEST !in entries || ChecksumList.CHECKSUMS !in entries {
      return Invalid;
    }
    var sums := ChecksumList.ParseChecksums(entries[ChecksumList.CHECKSUMS]);
    if sums == None || |sums.value| != |entries| - 1 {
      return Invalid;
    }
    var summed := CheckSums(e, entries, sums.value);
    if !summed {
      return Invalid;
    }
    var d := e.decode(entries[MANIFEST]);
    if d == None {
      return Invalid;
    }
    result := ParseManifest(e, entries, d.value);
  }
}
