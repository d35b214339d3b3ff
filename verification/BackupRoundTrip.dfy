/** What the exporter builds from a loaded snapshot, the restorer parses: exactly when, and to what. */
module BackupRoundTrip {
  import opened Graphs
  import opened Manifest
  import opened ManifestRelations
  import opened Texts
  import ChecksumList
  import opened BackupFiles
  import opened BackupSources
  import opened BackupArchive

  // ---- Archives with good names ----

  ghost predicate NamesGood(es: seq<Entry>) {
    && (forall i :: 0 <= i < |es| ==> ChecksumList.SafePath(es[i].name))
    && (forall i, j :: 0 <= i < j < |es| ==> es[i].name != es[j].name)
  }

  function ContentsOf(es: seq<Entry>): Contents {
    if es == [] then map[] else ContentsOf(es[..|es| - 1])[es[|es| - 1].name := es[|es| - 1].body]
  }

  function Total(es: seq<Entry>): nat {
    if es == [] then 0 else Total(es[..|es| - 1]) + |es[|es| - 1].body|
  }

  function NamesOf(es: seq<Entry>): set<string> {
    set i | 0 <= i < |es| :: es[i].name
  }

  lemma LastName(es: seq<Entry>)
    requires NamesGood(es) && es != []
    ensures var before, last := es[..|es| - 1], es[|es| - 1];
      NamesGood(before) && last.name !in NamesOf(before) && NamesOf(es) == NamesOf(before) + {last.name}
  {
    var before, last := es[..|es| - 1], es[|es| - 1];
    forall i | 0 <= i < |before| ensures before[i] == es[i] && es[i].name in NamesOf(es) {
    }
    assert last.name in NamesOf(es);
    forall name | name in NamesOf(es) ensures name in NamesOf(before) || name == last.name {
      var i :| 0 <= i < |es| && es[i].name == name;
      assert i < |before| ==> before[i].name == name;
    }
  }

  lemma {:induction false} ContentsLookup(es: seq<Entry>)
    requires NamesGood(es)
    ensures ContentsOf(es).Keys == NamesOf(es) && |ContentsOf(es)| == |es|
  {
    if es != [] {
      LastName(es);
      ContentsLookup(es[..|es| - 1]);
      assert ContentsOf(es).Keys == ContentsOf(es[..|es| - 1]).Keys + {es[|es| - 1].name};
    }
  }

  lemma {:induction false} ContentsAt(es: seq<Entry>, i: nat)
    requires NamesGood(es) && i < |es|
    ensures es[i].name in ContentsOf(es) && ContentsOf(es)[es[i].name] == es[i].body
  {
    LastName(es);
    if i < |es| - 1 {
      var before := es[..|es| - 1];
      ContentsAt(before, i);
      assert before[i] == es[i];
    }
  }

  // An archive with good names opens exactly when its uncompressed total is within the limit.
  lemma {:induction false} OpensWithinLimit(es: seq<Entry>, limit: int)
    requires NamesGood(es)
    ensures OpenAll(es, limit).Opened? <==> es == [] || Total(es) <= limit
    ensures OpenAll(es, limit).Opened? ==> OpenAll(es, limit) == Opened(ContentsOf(es), Total(es))
  {
    if es != [] {
      var before := es[..|es| - 1];
      LastName(es);
      OpensWithinLimit(before, limit);
      ContentsLookup(before);
    }
  }

  // ---- What an exported archive contains ----

  // The situation after a successful build from a loaded snapshot.
  ghost predicate Exported(e: Env, k: Keys, d: Document, order: seq<Source>, store: Store) {
    && GoodEnv(e) && Loadable(d.assets, d.variants)
    && Arrangement(order, Sources(e.uuid, k, d.assets, d.variants)) && PathsDistinct(order)
    && forall s :: s in order ==> Usable(s) && Intact(e, store, s)
  }

  lemma OrderedSource(e: Env, k: Keys, d: Document, order: seq<Source>, store: Store, s: Source)
    requires Exported(e, k, d, order, store) && s in order
    ensures ChecksumList.SafePath(s.archivePath) && '\n' !in s.archivePath
    ensures s.archivePath !in {MANIFEST, ChecksumList.CHECKSUMS}
    ensures ChecksumList.ValidChecksum(s.checksum) && GoodRef(RefOfSource(s))
  {
    SourcePath(e.uuid, k, d.assets, d.variants, s);
    var kind := if s.variantKind == "" then "preview" else s.variantKind;
    PathsAreGood(e.uuid, s.mediaId, kind);
    PathsAreNotSpecial(e.uuid, s.mediaId, kind, MANIFEST);
    PathsAreNotSpecial(e.uuid, s.mediaId, kind, ChecksumList.CHECKSUMS);
  }

  lemma PlainNameIsSafe(name: string)
    requires PlainSegment(name)
    ensures ChecksumList.SafePath(name)
  {
    PlainPathIsSafe([name]);
  }

  lemma ManifestIsPlain()
    ensures PlainSegment(MANIFEST)
  {
  }

  lemma ChecksumsIsPlain()
    ensures PlainSegment(ChecksumList.CHECKSUMS)
  {
  }

  lemma SpecialNamesSafe()
    ensures ChecksumList.SafePath(MANIFEST) && ChecksumList.SafePath(ChecksumList.CHECKSUMS)
    ensures '\n' !in MANIFEST
  {
    ManifestIsPlain();
    ChecksumsIsPlain();
    PlainNameIsSafe(MANIFEST);
    PlainNameIsSafe(ChecksumList.CHECKSUMS);
  }

  lemma Framed<T>(first: T, middle: seq<T>, last: T)
    ensures var all := [first] + middle + [last];
      && |all| == |middle| + 2 && all[0] == first && all[|middle| + 1] == last
      && forall i :: 0 <= i < |middle| ==> all[i + 1] == middle[i]
  {
  }

  lemma EntryNames(e: Env, d: Document, order: seq<Source>, store: Store)
    requires forall s :: s in order ==> s.objectKey in store
    ensures var es := Entries(e, d, order, store);
      && |es| == |order| + 2 && es[0].name == MANIFEST && es[|order| + 1].name == ChecksumList.CHECKSUMS
      && forall i :: 0 <= i < |order| ==> es[i + 1].name == order[i].archivePath
  {
    var listed, files := ListedEntries(e, d, order, store), FileEntries(order, store);
    var first := Entry(MANIFEST, e.encode(ApplyPaths(d, order)));
    var last := Entry(ChecksumList.CHECKSUMS, ChecksumList.Print(ChecksumLines(e, listed)));
    assert listed == [first] + files && Entries(e, d, order, store) == listed + [last];
    Framed(first, files, last);
    forall i | 0 <= i < |order| ensures Entries(e, d, order, store)[i + 1].name == order[i].archivePath {
      assert files[i].name == order[i].archivePath;
    }
  }

  lemma ExportedNames(e: Env, k: Keys, d: Document, order: seq<Source>, store: Store)
    requires Exported(e, k, d, order, store)
    ensures NamesGood(Entries(e, d, order, store))
    ensures forall i :: 0 <= i < |order| ==> Entries(e, d, order, store)[i + 1].name == order[i].archivePath
  {
    var es := Entries(e, d, order, store);
    var n := |order|;
    EntryNames(e, d, order, store);
    SpecialNamesSafe();
    SpecialNamesArePlain();
    forall i | 1 <= i <= n
      ensures ChecksumList.SafePath(es[i].name) && es[i].name != MANIFEST && es[i].name != ChecksumList.CHECKSUMS
    {
      assert es[i - 1 + 1].name == order[i - 1].archivePath;
      OrderedSource(e, k, d, order, store, order[i - 1]);
    }
    forall i, j | 0 <= i < j < |es| ensures es[i].name != es[j].name {
      if 0 < i && j < n + 1 {
        assert es[i - 1 + 1].name == order[i - 1].archivePath && es[j - 1 + 1].name == order[j - 1].archivePath;
      }
    }
  }

  // ---- The checksum list ----

  lemma {:induction false} SumAt(lines: seq<ChecksumList.Line>, i: nat)
    requires ChecksumList.NamesDistinct(lines) && i < |lines|
    ensures lines[i].name in ChecksumList.SumsOf(lines) && ChecksumList.SumsOf(lines)[lines[i].name] == lines[i].sum
  {
    var before := lines[..|lines| - 1];
    if i < |lines| - 1 {
      SumAt(before, i);
      assert before[i] == lines[i];
    }
  }

  lemma {:induction false} SumCount(lines: seq<ChecksumList.Line>)
    requires ChecksumList.NamesDistinct(lines)
    ensures |ChecksumList.SumsOf(lines)| == |lines|
  {
    if lines != [] {
      var before, last := lines[..|lines| - 1], lines[|lines| - 1];
      SumCount(before);
      ChecksumList.NameInSums(before, last.name);
      assert forall i :: 0 <= i < |before| ==> before[i] == lines[i];
      var sums := ChecksumList.SumsOf(before);
      assert sums[last.name := last.sum].Keys == sums.Keys + {last.name};
    }
  }

  lemma ListedLines(e: Env, k: Keys, d: Document, order: seq<Source>, store: Store)
    requires Exported(e, k, d, order, store)
    ensures var lines := ChecksumLines(e, ListedEntries(e, d, order, store));
      ChecksumList.NamesDistinct(lines) && forall line :: line in lines ==> ChecksumList.GoodLine(line)
  {
    var listed := ListedEntries(e, d, order, store);
    var lines, es := ChecksumLines(e, listed), Entries(e, d, order, store);
    ExportedNames(e, k, d, order, store);
    assert forall i :: 0 <= i < |listed| ==> es[i] == listed[i];
    SpecialNamesSafe();
    SpecialNamesArePlain();
    forall i | 0 <= i < |lines| ensures ChecksumList.GoodLine(lines[i]) {
      if i > 0 {
        OrderedSource(e, k, d, order, store, order[i - 1]);
      }
    }
  }

  ghost function ListedSums(e: Env, d: Document, order: seq<Source>, store: Store): map<string, string>
    requires forall s :: s in order ==> s.objectKey in store
  {
    ChecksumList.SumsOf(ChecksumLines(e, ListedEntries(e, d, order, store)))
  }

  lemma ListInArchive(e: Env, k: Keys, d: Document, order: seq<Source>, store: Store)
    requires Exported(e, k, d, order, store)
    ensures var entries := ContentsOf(Entries(e, d, order, store));
      && ChecksumList.CHECKSUMS in entries
      && ChecksumList.Read(entries[ChecksumList.CHECKSUMS]) == Some(ListedSums(e, d, order, store))
      && |ListedSums(e, d, order, store)| == |entries| - 1
  {
    var listed := ListedEntries(e, d, order, store);
    ExportedNames(e, k, d, order, store);
    ListedLines(e, k, d, order, store);
    ContentsLookup(Entries(e, d, order, store));
    ContentsAt(Entries(e, d, order, store), |listed|);
    ChecksumList.ListReadsBack(ChecksumLines(e, listed));
    SumCount(ChecksumLines(e, listed));
  }

  // The list gives the digest of every other entry and of nothing else.
  lemma SumsMatchEntries(e: Env, k: Keys, d: Document, order: seq<Source>, store: Store, name: string)
    requires Exported(e, k, d, order, store) && name in ContentsOf(Entries(e, d, order, store))
    ensures SumMatches(e, ContentsOf(Entries(e, d, order, store)), ListedSums(e, d, order, store), name)
  {
    var es, listed := Entries(e, d, order, store), ListedEntries(e, d, order, store);
    ExportedNames(e, k, d, order, store);
    ListedLines(e, k, d, order, store);
    ContentsLookup(es);
    var i :| 0 <= i < |es| && es[i].name == name;
    ContentsAt(es, i);
    if i < |listed| {
      assert es[i] == listed[i];
      SumAt(ChecksumLines(e, listed), i);
    }
  }

  // ---- The files ----

  lemma ExportedRefs(e: Env, k: Keys, d: Document, order: seq<Source>, store: Store)
    requires Exported(e, k, d, order, store)
    ensures var p := ApplyPaths(d, order);
      && Refs(p.assets, p.variants) == RefsOf(Sources(e.uuid, k, d.assets, d.variants))
      && NamesDistinct(Refs(p.assets, p.variants))
  {
    RefsAreSources(e.uuid, k, d.assets, d.variants, order);
    SourcePathsDistinct(e.uuid, k, d.assets, d.variants);
  }

  lemma PathedMedia(assets: seq<Asset>, order: seq<Source>, id: Uuid)
    ensures ActiveMedia(WithAssetPaths(assets, order), id) <==> ActiveMedia(assets, id)
    ensures Known(WithAssetPaths(assets, order), id) <==> Known(assets, id)
  {
    var pathed := WithAssetPaths(assets, order);
    forall i | 0 <= i < |assets|
      ensures pathed[i].id == assets[i].id && (Active(pathed[i]) <==> Active(assets[i])) && pathed[i] in pathed && assets[i] in assets
    {
    }
    if Known(assets, id) {
      var a :| a in assets && a.id == id;
      var i :| 0 <= i < |assets| && assets[i] == a;
      assert pathed[i].id == id;
    }
    if ActiveMedia(assets, id) {
      var a :| a in assets && a.id == id && Active(a);
      var i :| 0 <= i < |assets| && assets[i] == a;
      assert pathed[i].id == id && Active(pathed[i]);
    }
  }

  lemma ExportedAssetGood(e: Env, k: Keys, d: Document, order: seq<Source>, store: Store, a: Asset)
    requires Exported(e, k, d, order, store) && a in d.assets
    ensures GoodAsset(e.uuid, a.(archivePath := PathOf(order, a.id, "")))
  {
    AssetPathIs(e.uuid, k, d.assets, d.variants, order, a);
    PathsAreNotSpecial(e.uuid, a.id, "preview", "");
    if Active(a) {
      InAssetSources(e.uuid, k, d.assets, SourceOfAsset(e.uuid, k, a));
      OrderedSource(e, k, d, order, store, SourceOfAsset(e.uuid, k, a));
    }
  }

  lemma ExportedVariantGood(e: Env, k: Keys, d: Document, order: seq<Source>, store: Store, v: Variant)
    requires Exported(e, k, d, order, store) && v in d.variants
    ensures GoodVariant(e.uuid, WithAssetPaths(d.assets, order), v.(archivePath := PathOf(order, v.mediaId, v.kind)))
  {
    VariantPathIs(e.uuid, k, d.assets, d.variants, order, v);
    PathsAreNotSpecial(e.uuid, v.mediaId, v.kind, "");
    PathedMedia(d.assets, order, v.mediaId);
    assert Known(d.assets, v.mediaId);
    if ActiveMedia(d.assets, v.mediaId) {
      InVariantSources(e.uuid, k, d.assets, d.variants, SourceOfVariant(e.uuid, k, v));
      OrderedSource(e, k, d, order, store, SourceOfVariant(e.uuid, k, v));
    }
  }

  lemma ExportedAssetsGood(e: Env, k: Keys, d: Document, order: seq<Source>, store: Store)
    requires Exported(e, k, d, order, store)
    ensures AssetsGood(e.uuid, WithAssetPaths(d.assets, order))
  {
    var assets := WithAssetPaths(d.assets, order);
    forall a | a in assets ensures GoodAsset(e.uuid, a) {
      var i :| 0 <= i < |assets| && assets[i] == a;
      ExportedAssetGood(e, k, d, order, store, d.assets[i]);
    }
  }

  lemma ExportedVariantsGood(e: Env, k: Keys, d: Document, order: seq<Source>, store: Store)
    requires Exported(e, k, d, order, store)
    ensures VariantsGood(e.uuid, WithAssetPaths(d.assets, order), WithVariantPaths(d.variants, order))
  {
    var variants := WithVariantPaths(d.variants, order);
    forall v | v in variants ensures GoodVariant(e.uuid, WithAssetPaths(d.assets, order), v) {
      var i :| 0 <= i < |variants| && variants[i] == v;
      ExportedVariantGood(e, k, d, order, store, d.variants[i]);
    }
  }

  // The restorer accepts the references of every exported manifest.
  lemma ExportedFilesGood(e: Env, k: Keys, d: Document, order: seq<Source>, store: Store)
    requires Exported(e, k, d, order, store)
    ensures FilesGood(e.uuid, ApplyPaths(d, order).assets, ApplyPaths(d, order).variants)
  {
    ExportedRefs(e, k, d, order, store);
    ExportedAssetsGood(e, k, d, order, store);
    ExportedVariantsGood(e, k, d, order, store);
  }

  // ---- The round trip ----

  // One entry for each source, with its bytes.
  ghost predicate HoldsFiles(files: Contents, order: seq<Source>, store: Store) {
    && (forall name :: name in files <==> exists s :: s in order && s.archivePath == name)
    && (forall s :: s in order ==> s.archivePath in files && s.objectKey in store && files[s.archivePath] == store[s.objectKey])
  }

  ghost function ExpectedFiles(e: Env, k: Keys, d: Document): Expected {
    ByName(RefsOf(Sources(e.uuid, k, d.assets, d.variants)))
  }

  // Which names are expected: those of the sources.
  lemma ExpectedNames(e: Env, k: Keys, d: Document, order: seq<Source>, store: Store, name: string)
    requires Exported(e, k, d, order, store)
    ensures name in ExpectedFiles(e, k, d) <==> exists s :: s in order && s.archivePath == name
    ensures name in ExpectedFiles(e, k, d) ==>
      exists s :: s in order && s.archivePath == name && ExpectedFiles(e, k, d)[name] == RefOfSource(s)
  {
    var sources := Sources(e.uuid, k, d.assets, d.variants);
    var refs := RefsOf(sources);
    InByName(refs, name);
    if name in ByName(refs) {
      var r := ByName(refs)[name];
      var i :| 0 <= i < |refs| && refs[i] == r;
      assert sources[i] in order && sources[i].archivePath == name && r == RefOfSource(sources[i]);
    }
    if s :| s in order && s.archivePath == name {
      var i :| 0 <= i < |sources| && sources[i] == s;
      assert refs[i].name == name;
    }
  }

  lemma EntryOfSource(e: Env, d: Document, order: seq<Source>, store: Store, i: nat)
    requires i < |order| && forall s :: s in order ==> s.objectKey in store
    ensures Entries(e, d, order, store)[i + 1] == Entry(order[i].archivePath, store[order[i].objectKey])
  {
    assert Entries(e, d, order, store)[i + 1] == FileEntries(order, store)[i];
  }

  lemma SourceInArchive(e: Env, k: Keys, d: Document, order: seq<Source>, store: Store, s: Source)
    requires Exported(e, k, d, order, store) && s in order
    ensures var entries := ContentsOf(Entries(e, d, order, store));
      s.archivePath in entries && entries[s.archivePath] == store[s.objectKey]
  {
    ExportedNames(e, k, d, order, store);
    var i :| 0 <= i < |order| && order[i] == s;
    ContentsAt(Entries(e, d, order, store), i + 1);
    EntryOfSource(e, d, order, store, i);
  }

  lemma ExpectedMatch(e: Env, k: Keys, d: Document, order: seq<Source>, store: Store, name: string)
    requires Exported(e, k, d, order, store) && name in ExpectedFiles(e, k, d)
    ensures FileMatches(e, ContentsOf(Entries(e, d, order, store)), ExpectedFiles(e, k, d), name)
  {
    ExpectedNames(e, k, d, order, store, name);
    var s :| s in order && s.archivePath == name && ExpectedFiles(e, k, d)[name] == RefOfSource(s);
    SourceInArchive(e, k, d, order, store, s);
  }

  ghost function Archived(e: Env, d: Document, order: seq<Source>, store: Store): Contents
    requires forall s :: s in order ==> s.objectKey in store
  {
    ContentsOf(Entries(e, d, order, store))
  }

  lemma NameInArchive(e: Env, k: Keys, d: Document, order: seq<Source>, store: Store, name: string)
    requires Exported(e, k, d, order, store)
    ensures name in Archived(e, d, order, store) <==>
      name in ExpectedFiles(e, k, d) || name == MANIFEST || name == ChecksumList.CHECKSUMS
  {
    var es := Entries(e, d, order, store);
    ExportedNames(e, k, d, order, store);
    ContentsLookup(es);
    ExpectedNames(e, k, d, order, store, name);
    assert es[0].name == MANIFEST && es[|order| + 1].name == ChecksumList.CHECKSUMS;
    if name in NamesOf(es) {
      var i :| 0 <= i < |es| && es[i].name == name;
      if 0 < i < |order| + 1 {
        assert order[i - 1] in order && order[i - 1].archivePath == name;
      }
    }
    if s :| s in order && s.archivePath == name {
      SourceInArchive(e, k, d, order, store, s);
    }
  }

  lemma ManifestInArchive(e: Env, k: Keys, d: Document, order: seq<Source>, store: Store)
    requires Exported(e, k, d, order, store)
    ensures MANIFEST in Archived(e, d, order, store) && Archived(e, d, order, store)[MANIFEST] == e.encode(ApplyPaths(d, order))
  {
    ExportedNames(e, k, d, order, store);
    ContentsAt(Entries(e, d, order, store), 0);
  }

  lemma SpecialsUnexpected(e: Env, k: Keys, d: Document, order: seq<Source>, store: Store)
    requires Exported(e, k, d, order, store)
    ensures MANIFEST !in ExpectedFiles(e, k, d) && ChecksumList.CHECKSUMS !in ExpectedFiles(e, k, d)
    ensures MANIFEST != ChecksumList.CHECKSUMS
  {
    SpecialNamesArePlain();
    ExpectedNames(e, k, d, order, store, MANIFEST);
    ExpectedNames(e, k, d, order, store, ChecksumList.CHECKSUMS);
    forall s | s in order ensures s.archivePath != MANIFEST && s.archivePath != ChecksumList.CHECKSUMS {
      OrderedSource(e, k, d, order, store, s);
    }
  }

  lemma ArchiveNames(e: Env, k: Keys, d: Document, order: seq<Source>, store: Store)
    requires Exported(e, k, d, order, store)
    ensures |Archived(e, d, order, store)| == |ExpectedFiles(e, k, d)| + 2
    ensures forall name :: name in ExpectedFiles(e, k, d) ==> name in Archived(e, d, order, store)
  {
    var entries, expected := Archived(e, d, order, store), ExpectedFiles(e, k, d);
    forall name ensures name in entries <==> name in expected || name == MANIFEST || name == ChecksumList.CHECKSUMS {
      NameInArchive(e, k, d, order, store, name);
    }
    SpecialsUnexpected(e, k, d, order, store);
    assert entries.Keys == expected.Keys + {MANIFEST} + {ChecksumList.CHECKSUMS};
  }

  // The result of an archive whose entries are all in order.
  ghost function Accepted(e: Env, k: Keys, d: Document, order: seq<Source>, store: Store): ParseResult
    requires forall s :: s in order ==> s.objectKey in store
    requires forall name :: name in ExpectedFiles(e, k, d) ==> name in Archived(e, d, order, store)
  {
    var p := ApplyPaths(d, order);
    if Supported(p) && p.treeId != 0 && GoodManifest(e, p)
    then Parsed(p, FilesOf(Archived(e, d, order, store), ExpectedFiles(e, k, d)))
    else Invalid
  }

  lemma DocumentIsParsed(e: Env, k: Keys, d: Document, order: seq<Source>, store: Store)
    requires Exported(e, k, d, order, store)
    ensures forall name :: name in ExpectedFiles(e, k, d) ==> name in Archived(e, d, order, store)
    ensures ParseDocument(e, Archived(e, d, order, store), ApplyPaths(d, order)) == Accepted(e, k, d, order, store)
  {
    var p := ApplyPaths(d, order);
    ArchiveNames(e, k, d, order, store);
    ExpectedExactly(e.uuid, p.assets, p.variants);
    ExportedFilesGood(e, k, d, order, store);
    ExportedRefs(e, k, d, order, store);
    forall name | name in ExpectedFiles(e, k, d)
      ensures FileMatches(e, Archived(e, d, order, store), ExpectedFiles(e, k, d), name)
    {
      ExpectedMatch(e, k, d, order, store, name);
    }
  }

  // Once the archive is open, only the manifest's own checks can refuse it.
  lemma OpenedIsParsed(e: Env, k: Keys, d: Document, order: seq<Source>, store: Store)
    requires Exported(e, k, d, order, store)
    ensures forall name :: name in ExpectedFiles(e, k, d) ==> name in Archived(e, d, order, store)
    ensures ParseEntries(e, Archived(e, d, order, store)) == Accepted(e, k, d, order, store)
  {
    DocumentIsParsed(e, k, d, order, store);
    ListInArchive(e, k, d, order, store);
    ManifestInArchive(e, k, d, order, store);
    var entries, sums := Archived(e, d, order, store), ListedSums(e, d, order, store);
    forall name | name in entries ensures SumMatches(e, entries, sums, name) {
      SumsMatchEntries(e, k, d, order, store, name);
    }
    assert e.decode(entries[MANIFEST]) == Some(ApplyPaths(d, order));
  }

  // What the restorer does with a packed archive, as far as the entries themselves.
  lemma PackedIsOpened(e: Env, es: seq<Entry>, limit: int)
    requires GoodEnv(e) && limit >= 1 && NamesGood(es) && |es| >= 2
    ensures var within := |e.pack(es)| <= limit && |es| <= MAX_ENTRIES && Total(es) <= limit;
      && (within ==> Parse(e, e.pack(es), limit) == ParseEntries(e, ContentsOf(es)))
      && (!within ==> Parse(e, e.pack(es), limit).TooLarge? || Parse(e, e.pack(es), limit).Invalid?)
  {
    OpensWithinLimit(es, limit);
  }

  lemma FilesAreHeld(e: Env, k: Keys, d: Document, order: seq<Source>, store: Store)
    requires Exported(e, k, d, order, store)
    requires forall name :: name in ExpectedFiles(e, k, d) ==> name in Archived(e, d, order, store)
    ensures HoldsFiles(FilesOf(Archived(e, d, order, store), ExpectedFiles(e, k, d)), order, store)
  {
    var entries, expected := Archived(e, d, order, store), ExpectedFiles(e, k, d);
    var files := FilesOf(entries, expected);
    forall name ensures name in files <==> exists s :: s in order && s.archivePath == name {
      ExpectedNames(e, k, d, order, store, name);
    }
    forall s | s in order ensures s.archivePath in files && files[s.archivePath] == store[s.objectKey] {
      ExpectedNames(e, k, d, order, store, s.archivePath);
      SourceInArchive(e, k, d, order, store, s);
    }
  }

  // An archive built from a loaded snapshot under any limit is accepted under a limit exactly when its bytes, its
  // uncompressed total (the checksum list included) and its number of entries are within bounds and the manifest
  // passes the restorer's checks. Then the restorer gets the manifest with its archive paths and every file's bytes.
  lemma RoundTrip(e: Env, k: Keys, d: Document, order: seq<Source>, store: Store, buildLimit: int, limit: int)
    requires GoodEnv(e) && Loadable(d.assets, d.variants) && Arrangement(order, Sources(e.uuid, k, d.assets, d.variants))
    requires Buildable(e, d, order, store, buildLimit) && limit >= 1
    ensures var es, p := Entries(e, d, order, store), ApplyPaths(d, order);
      var result := Parse(e, e.pack(es), limit);
      && (result.Parsed? <==>
            && |e.pack(es)| <= limit && Total(es) <= limit && |order| + 2 <= MAX_ENTRIES
            && Supported(d) && d.treeId != 0 && Restorable(d.persons, d.relations) && e.otherChecks(p))
      && (result.Parsed? ==> result.document == p && HoldsFiles(result.files, order, store))
  {
    var es := Entries(e, d, order, store);
    ExportedNames(e, k, d, order, store);
    assert |es| == |order| + 2;
    PackedIsOpened(e, es, limit);
    OpenedIsParsed(e, k, d, order, store);
    FilesAreHeld(e, k, d, order, store);
  }

  // Good names are never what an archive is refused for.
  lemma {:induction false} OnlySizeRefuses(es: seq<Entry>, limit: int)
    requires NamesGood(es)
    ensures OpenAll(es, limit).Refused? ==> OpenAll(es, limit).tooLarge
  {
    if es != [] {
      LastName(es);
      OnlySizeRefuses(es[..|es| - 1], limit);
      OpensWithinLimit(es[..|es| - 1], limit);
      ContentsLookup(es[..|es| - 1]);
    }
  }

  // The same limit on both sides is not enough: the builder does not count the checksum list. A snapshot without
  // files whose manifest fills the limit is built (when it packs within the limit) and then refused.
  lemma SameLimitCanRefuse(e: Env, k: Keys, d: Document, store: Store)
    requires GoodEnv(e) && Loadable(d.assets, d.variants) && Sources(e.uuid, k, d.assets, d.variants) == []
    requires var limit := |e.encode(ApplyPaths(d, []))|; |e.pack(Entries(e, d, [], store))| <= limit
    ensures var limit := |e.encode(ApplyPaths(d, []))|;
      Buildable(e, d, [], store, limit) && Parse(e, e.pack(Entries(e, d, [], store)), limit) == TooLarge
  {
    var es, limit := Entries(e, d, [], store), |e.encode(ApplyPaths(d, []))|;
    ExportedNames(e, k, d, [], store);
    OpensWithinLimit(es, limit);
    ListedLines(e, k, d, [], store);
    var listed := ListedEntries(e, d, [], store);
    var printed := ChecksumList.Print(ChecksumLines(e, listed));
    assert es == [Entry(MANIFEST, e.encode(ApplyPaths(d, [])))] + [Entry(ChecksumList.CHECKSUMS, printed)];
    assert es[..1] == [es[0]] && es[..1][..0] == [];
    assert Total(es) == Total(es[..1]) + |printed| && Total(es[..1]) == limit;
    assert |printed| >= 1;
    OnlySizeRefuses(es, limit);
  }
}
