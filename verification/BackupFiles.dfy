/** Which files a backup holds: the exporter's sources and the restorer's expectations. */
module BackupFiles {
  import opened Graphs
  import opened Texts
  import opened ChecksumList

  type Body = string

  datatype Asset = Asset(id: Uuid, status: string, deleted: bool, sizeBytes: int, checksum: string, archivePath: string)

  datatype Variant = Variant(id: Uuid, mediaId: Uuid, kind: string, sizeBytes: int, checksum: string, archivePath: string)

  datatype Source = Source(mediaId: Uuid, variantKind: string, archivePath: string, objectKey: string, sizeBytes: int, checksum: string)

  datatype FileRef = FileRef(name: string, sizeBytes: int, checksum: string)

  const MANIFEST := "manifest.json"

  // The printed form of UUIDs.
  type Printer = Uuid -> string

  ghost predicate GoodPrinter(u: Printer) {
    && (forall p :: u(p) != "" && forall c :: c in u(p) ==> LowerHexadecimal(c) || c == '-')
    && (forall p, q :: u(p) == u(q) ==> p == q)
  }

  function OriginalPath(u: Printer, id: Uuid): string {
    Join(["media", u(id), "original"], '/')
  }

  function VariantPath(u: Printer, id: Uuid, kind: string): string {
    Join(["media", u(id), "variants", kind], '/')
  }

  const KINDS := {"thumbnail", "preview"}

  lemma PrintedIsPlain(u: Printer, id: Uuid)
    requires GoodPrinter(u)
    ensures '/' !in u(id) && '\\' !in u(id) && '\n' !in u(id) && u(id) != "." && u(id) != ".."
  {
    var s := u(id);
    assert '/' in s ==> LowerHexadecimal('/');
    assert '\\' in s ==> LowerHexadecimal('\\');
    assert '\n' in s ==> LowerHexadecimal('\n');
    assert '.' in s ==> LowerHexadecimal('.');
    assert '.' in "." && '.' in "..";
  }

  lemma OriginalSegments(u: Printer, id: Uuid)
    requires GoodPrinter(u)
    ensures Split(OriginalPath(u, id), '/') == ["media", u(id), "original"]
  {
    PrintedIsPlain(u, id);
    SplitJoin(["media", u(id), "original"], '/');
  }

  lemma VariantSegments(u: Printer, id: Uuid, kind: string)
    requires GoodPrinter(u) && kind in KINDS
    ensures Split(VariantPath(u, id, kind), '/') == ["media", u(id), "variants", kind]
  {
    PrintedIsPlain(u, id);
    SplitJoin(["media", u(id), "variants", kind], '/');
  }

  // Characters of a joined path come from its segments.
  lemma {:induction false} JoinedWithout(parts: seq<string>, c: char, d: char)
    requires parts != [] && c != d && forall p :: p in parts ==> d !in p
    ensures d !in Join(parts, c)
  {
    assert parts[0] in parts;
    if |parts| > 1 {
      JoinedWithout(parts[1..], c, d);
    }
  }

  predicate PlainSegment(p: string) {
    '/' !in p && '\\' !in p && '\n' !in p && p != "" && p != "." && p != ".."
  }

  lemma PlainPathIsSafe(parts: seq<string>)
    requires parts != [] && forall p :: p in parts ==> PlainSegment(p)
    ensures SafePath(Join(parts, '/')) && '\n' !in Join(parts, '/')
  {
    SplitJoin(parts, '/');
    JoinedWithout(parts, '/', '\\');
    JoinedWithout(parts, '/', '\n');
  }

  lemma PathsAreGood(u: Printer, id: Uuid, kind: string)
    requires GoodPrinter(u) && kind in KINDS
    ensures SafePath(OriginalPath(u, id)) && '\n' !in OriginalPath(u, id)
    ensures SafePath(VariantPath(u, id, kind)) && '\n' !in VariantPath(u, id, kind)
  {
    PrintedIsPlain(u, id);
    assert PlainSegment("media") && PlainSegment("original") && PlainSegment("variants") && PlainSegment(kind);
    assert PlainSegment(u(id));
    PlainPathIsSafe(["media", u(id), "original"]);
    PlainPathIsSafe(["media", u(id), "variants", kind]);
  }

  // Different files have different paths, and no path is that of the manifest or the checksum list.
  lemma PathsDiffer(u: Printer, a: Uuid, k: string, b: Uuid, l: string)
    requires GoodPrinter(u) && k in KINDS && l in KINDS
    ensures OriginalPath(u, a) == OriginalPath(u, b) <==> a == b
    ensures VariantPath(u, a, k) == VariantPath(u, b, l) <==> a == b && k == l
    ensures OriginalPath(u, a) != VariantPath(u, b, l)
  {
    OriginalSegments(u, a);
    OriginalSegments(u, b);
    VariantSegments(u, a, k);
    VariantSegments(u, b, l);
    assert ["media", u(a), "original"][1] == u(a) && ["media", u(b), "original"][1] == u(b);
    var va, vb := ["media", u(a), "variants", k], ["media", u(b), "variants", l];
    assert va == vb ==> va[1] == vb[1] && va[3] == vb[3];
    assert |["media", u(a), "original"]| == 3 && |vb| == 4;
  }

  lemma SplitWhole(s: string, c: char)
    requires c !in s
    ensures Split(s, c) == [s]
  {
    SplitJoin([s], c);
  }

  // A path of several segments is not a plain file name.
  lemma SeveralSegments(parts: seq<string>, name: string)
    requires |parts| >= 2 && '/' !in name && forall p :: p in parts ==> '/' !in p
    ensures Join(parts, '/') != name
  {
    SplitJoin(parts, '/');
    SplitWhole(name, '/');
  }

  lemma SpecialNamesArePlain()
    ensures '/' !in MANIFEST && '/' !in CHECKSUMS && '/' !in ""
    ensures MANIFEST != CHECKSUMS
  {
  }

  lemma PathsAreNotSpecial(u: Printer, id: Uuid, kind: string, name: string)
    requires GoodPrinter(u) && kind in KINDS && name in {"", MANIFEST, CHECKSUMS}
    ensures OriginalPath(u, id) != name && VariantPath(u, id, kind) != name
  {
    PrintedIsPlain(u, id);
    SpecialNamesArePlain();
    SeveralSegments(["media", u(id), "original"], name);
    SeveralSegments(["media", u(id), "variants", kind], name);
  }

  // ---- The exporter's sources ----

  predicate Active(a: Asset) {
    !a.deleted && (a.status == "uploaded" || a.status == "processing" || a.status == "ready")
  }

  predicate ActiveMedia(assets: seq<Asset>, id: Uuid) {
    exists a :: a in assets && a.id == id && Active(a)
  }

  // Object keys are columns of the rows that the manifest does not repeat.
  datatype Keys = Keys(original: Uuid -> string, variant: Uuid -> string)

  function AssetSources(u: Printer, k: Keys, assets: seq<Asset>): seq<Source> {
    if assets == [] then [] else
      var a := assets[|assets| - 1];
      AssetSources(u, k, assets[..|assets| - 1]) +
      if Active(a) then [Source(a.id, "", OriginalPath(u, a.id), k.original(a.id), a.sizeBytes, a.checksum)] else []
  }

  function VariantSources(u: Printer, k: Keys, assets: seq<Asset>, variants: seq<Variant>): seq<Source> {
    if variants == [] then [] else
      var v := variants[|variants| - 1];
      VariantSources(u, k, assets, variants[..|variants| - 1]) +
      if ActiveMedia(assets, v.mediaId)
      then [Source(v.mediaId, v.kind, VariantPath(u, v.mediaId, v.kind), k.variant(v.id), v.sizeBytes, v.checksum)] else []
  }

  // The sources of a snapshot: originals of live media first, then their variants.
  function Sources(u: Printer, k: Keys, assets: seq<Asset>, variants: seq<Variant>): seq<Source> {
    AssetSources(u, k, assets) + VariantSources(u, k, assets, variants)
  }

  ghost predicate Known(assets: seq<Asset>, id: Uuid) {
    exists a :: a in assets && a.id == id
  }

  // What the database's keys and checks guarantee of the rows.
  ghost predicate Loadable(assets: seq<Asset>, variants: seq<Variant>) {
    && (forall i, j :: 0 <= i < j < |assets| ==> assets[i].id != assets[j].id)
    && (forall i, j :: 0 <= i < j < |variants| ==>
          variants[i].id != variants[j].id && (variants[i].mediaId != variants[j].mediaId || variants[i].kind != variants[j].kind))
    && (forall a :: a in assets ==> a.id != 0)
    && (forall v :: v in variants ==> v.id != 0 && v.kind in KINDS && Known(assets, v.mediaId))
  }

  // ---- Assigning archive paths ----

  // The path of the last source of this media object and kind, or none.
  function PathOf(files: seq<Source>, media: Uuid, kind: string): string {
    if files == [] then ""
    else if files[|files| - 1].mediaId == media && files[|files| - 1].variantKind == kind then files[|files| - 1].archivePath
    else PathOf(files[..|files| - 1], media, kind)
  }

  function WithAssetPaths(assets: seq<Asset>, files: seq<Source>): seq<Asset> {
    seq(|assets|, i requires 0 <= i < |assets| => assets[i].(archivePath := PathOf(files, assets[i].id, "")))
  }

  function WithVariantPaths(variants: seq<Variant>, files: seq<Source>): seq<Variant> {
    seq(|variants|, i requires 0 <= i < |variants| =>
      variants[i].(archivePath := if variants[i].kind == "" then "" else PathOf(files, variants[i].mediaId, variants[i].kind)))
  }

  predicate PathsDistinct(files: seq<Source>) {
    forall i, j :: 0 <= i < j < |files| ==> files[i].archivePath != files[j].archivePath
  }

  type Originals = map<Uuid, string>

  type Others = map<(Uuid, string), string>

  function OriginalIn(originals: Originals, m: Uuid): string {
    if m in originals then originals[m] else ""
  }

  function OtherIn(others: Others, m: Uuid, kind: string): string {
    if (m, kind) in others then others[(m, kind)] else ""
  }

  ghost predicate Indexed(files: seq<Source>, originals: Originals, others: Others) {
    && (forall m: Uuid :: PathOf(files, m, "") == OriginalIn(originals, m))
    && (forall m: Uuid, kind: string :: kind != "" ==> PathOf(files, m, kind) == OtherIn(others, m, kind))
    && (forall m: Uuid :: OtherIn(others, m, "") == "")
  }

  lemma IndexOne(files: seq<Source>, i: nat, originals: Originals, others: Others)
    requires i < |files| && Indexed(files[..i], originals, others)
    ensures var f := files[i];
      if f.variantKind == "" then Indexed(files[..i + 1], originals[f.mediaId := f.archivePath], others)
      else Indexed(files[..i + 1], originals, others[(f.mediaId, f.variantKind) := f.archivePath])
  {
    var f := files[i];
    assert files[..i + 1][..i] == files[..i];
    if f.variantKind != "" {
      var after := others[(f.mediaId, f.variantKind) := f.archivePath];
      forall m: Uuid ensures OtherIn(after, m, "") == "" {
        assert (m, "") != (f.mediaId, f.variantKind);
        assert OtherIn(others, m, "") == "";
      }
      forall m: Uuid, kind: string | kind != "" ensures PathOf(files[..i + 1], m, kind) == OtherIn(after, m, kind) {
        assert PathOf(files[..i], m, kind) == OtherIn(others, m, kind);
        assert (m, kind) == (f.mediaId, f.variantKind) <==> m == f.mediaId && kind == f.variantKind;
      }
      forall m: Uuid ensures PathOf(files[..i + 1], m, "") == OriginalIn(originals, m) {
        assert PathOf(files[..i], m, "") == OriginalIn(originals, m);
      }
    } else {
      var after := originals[f.mediaId := f.archivePath];
      forall m: Uuid ensures PathOf(files[..i + 1], m, "") == OriginalIn(after, m) {
        assert PathOf(files[..i], m, "") == OriginalIn(originals, m);
      }
      forall m: Uuid, kind: string | kind != "" ensures PathOf(files[..i + 1], m, kind) == OtherIn(others, m, kind) {
        assert PathOf(files[..i], m, kind) == OtherIn(others, m, kind);
      }
    }
  }

  method IndexPaths(files: seq<Source>) returns (ok: bool, originals: Originals, others: Others)
    ensures ok <==> PathsDistinct(files)
    ensures ok ==> Indexed(files, originals, others)
  {
    var seen: set<string> := {};
    originals, others := map[], map[];
    for i := 0 to |files|
      invariant PathsDistinct(files[..i]) && Indexed(files[..i], originals, others)
      invariant forall p :: p in seen <==> exists j :: 0 <= j < i && files[j].archivePath == p
    {
      var f := files[i];
      assert files[..i + 1][..i] == files[..i];
      if f.archivePath in seen {
        return false, originals, others;
      }
      seen := seen + {f.archivePath};
      IndexOne(files, i, originals, others);
      if f.variantKind == "" {
        originals := originals[f.mediaId := f.archivePath];
      } else {
        others := others[(f.mediaId, f.variantKind) := f.archivePath];
      }
    }
    assert files[..|files|] == files;
    ok := true;
  }

  method ApplyArchivePaths(assets: seq<Asset>, variants: seq<Variant>, files: seq<Source>)
      returns (ok: bool, pathedAssets: seq<Asset>, pathedVariants: seq<Variant>)
    ensures ok <==> PathsDistinct(files)
    ensures ok ==> pathedAssets == WithAssetPaths(assets, files) && pathedVariants == WithVariantPaths(variants, files)
  {
    var originals, others;
    ok, originals, others := IndexPaths(files);
    pathedAssets, pathedVariants := assets, variants;
    if !ok {
      return;
    }
    for i := 0 to |assets|
      invariant |pathedAssets| == |assets| && pathedAssets[i..] == assets[i..]
      invariant pathedAssets[..i] == WithAssetPaths(assets, files)[..i]
    {
      pathedAssets := pathedAssets[i := assets[i].(archivePath := OriginalIn(originals, assets[i].id))];
    }
    for i := 0 to |variants|
      invariant |pathedVariants| == |variants| && pathedVariants[i..] == variants[i..]
      invariant pathedVariants[..i] == WithVariantPaths(variants, files)[..i]
    {
      var v := variants[i];
      pathedVariants := pathedVariants[i := v.(archivePath := OtherIn(others, v.mediaId, v.kind))];
    }
  }

  // ---- The restorer's expectations ----

  predicate GoodRef(r: FileRef) {
    SafePath(r.name) && r.name != MANIFEST && r.name != CHECKSUMS && r.sizeBytes > 0 && ValidChecksum(r.checksum)
  }

  function RefOfAsset(a: Asset): FileRef {
    FileRef(a.archivePath, a.sizeBytes, a.checksum)
  }

  function RefOfVariant(v: Variant): FileRef {
    FileRef(v.archivePath, v.sizeBytes, v.checksum)
  }

  ghost predicate GoodAsset(u: Printer, a: Asset) {
    && a.id != 0 && (Active(a) ==> a.archivePath != "")
    && (a.archivePath != "" ==> a.archivePath == OriginalPath(u, a.id) && GoodRef(RefOfAsset(a)))
  }

  ghost predicate GoodVariant(u: Printer, assets: seq<Asset>, v: Variant) {
    && v.id != 0 && v.mediaId != 0 && Known(assets, v.mediaId)
    && (ActiveMedia(assets, v.mediaId) ==> v.archivePath != "")
    && (v.archivePath != "" ==> v.archivePath == VariantPath(u, v.mediaId, v.kind) && GoodRef(RefOfVariant(v)))
  }

  // The files the manifest refers to, in its order.
  function AssetRefs(assets: seq<Asset>): seq<FileRef> {
    if assets == [] then [] else
      var a := assets[|assets| - 1];
      AssetRefs(assets[..|assets| - 1]) + if a.archivePath != "" then [RefOfAsset(a)] else []
  }

  function VariantRefs(variants: seq<Variant>): seq<FileRef> {
    if variants == [] then [] else
      var v := variants[|variants| - 1];
      VariantRefs(variants[..|variants| - 1]) + if v.archivePath != "" then [RefOfVariant(v)] else []
  }

  function Refs(assets: seq<Asset>, variants: seq<Variant>): seq<FileRef> {
    AssetRefs(assets) + VariantRefs(variants)
  }

  predicate NamesDistinct(refs: seq<FileRef>) {
    forall i, j :: 0 <= i < j < |refs| ==> refs[i].name != refs[j].name
  }

  function ByName(refs: seq<FileRef>): map<string, FileRef> {
    if refs == [] then map[] else ByName(refs[..|refs| - 1])[refs[|refs| - 1].name := refs[|refs| - 1]]
  }

  ghost predicate AssetsGood(u: Printer, assets: seq<Asset>) {
    && (forall a :: a in assets ==> GoodAsset(u, a))
    && (forall i, j :: 0 <= i < j < |assets| ==> assets[i].id != assets[j].id)
  }

  ghost predicate VariantsGood(u: Printer, assets: seq<Asset>, variants: seq<Variant>) {
    forall v :: v in variants ==> GoodVariant(u, assets, v)
  }

  // Every reference is canonical and unique, and no live file is missing.
  ghost predicate FilesGood(u: Printer, assets: seq<Asset>, variants: seq<Variant>) {
    && AssetsGood(u, assets) && VariantsGood(u, assets, variants)
    && NamesDistinct(Refs(assets, variants))
  }

  // ---- Collecting the expectations ----

  lemma {:induction false} InByName(refs: seq<FileRef>, name: string)
    ensures name in ByName(refs) <==> exists i :: 0 <= i < |refs| && refs[i].name == name
    ensures name in ByName(refs) ==> ByName(refs)[name] in refs && ByName(refs)[name].name == name
  {
    if refs != [] {
      var before := refs[..|refs| - 1];
      InByName(before, name);
      if i :| 0 <= i < |before| && before[i].name == name {
        assert refs[i].name == name;
      }
      if i :| 0 <= i < |refs| && refs[i].name == name {
        assert i < |before| ==> before[i].name == name;
      }
    }
  }

  // Names never repeat exactly when each reference is new when it is added.
  lemma OneMoreRef(refs: seq<FileRef>, r: FileRef)
    ensures NamesDistinct(refs + [r]) <==> NamesDistinct(refs) && r.name !in ByName(refs)
    ensures ByName(refs + [r]) == ByName(refs)[r.name := r]
  {
    var longer := refs + [r];
    assert longer[..|refs|] == refs;
    InByName(refs, r.name);
    if NamesDistinct(longer) {
      forall i, j | 0 <= i < j < |refs| ensures refs[i].name != refs[j].name {
        assert longer[i] == refs[i] && longer[j] == refs[j];
      }
      forall i | 0 <= i < |refs| ensures refs[i].name != r.name {
        assert longer[i] == refs[i] && longer[|refs|] == r;
      }
    }
  }

  lemma PrefixDistinct(refs: seq<FileRef>, more: seq<FileRef>)
    requires NamesDistinct(refs + more)
    ensures NamesDistinct(refs)
  {
    assert forall i :: 0 <= i < |refs| ==> (refs + more)[i] == refs[i];
  }

  type Expected = map<string, FileRef>

  // A reference is added unless it is malformed or its name is taken.
  function AddExpected(files: Expected, r: FileRef): Option<Expected> {
    if GoodRef(r) && r.name !in files then Some(files[r.name := r]) else None
  }

  datatype AssetState = AssetState(live: map<Uuid, bool>, files: Expected)

  function AddAsset(u: Printer, s: AssetState, a: Asset): Option<AssetState> {
    if a.id == 0 || a.id in s.live || (Active(a) && a.archivePath == "") then None else
    var live := s.live[a.id := Active(a)];
    if a.archivePath == "" then Some(AssetState(live, s.files))
    else if a.archivePath != OriginalPath(u, a.id) then None
    else match AddExpected(s.files, RefOfAsset(a))
      case None => None
      case Some(files) => Some(AssetState(live, files))
  }

  function AddVariant(u: Printer, live: map<Uuid, bool>, files: Expected, v: Variant): Option<Expected> {
    if v.id == 0 || v.mediaId == 0 || v.mediaId !in live || (live[v.mediaId] && v.archivePath == "") then None
    else if v.archivePath == "" then Some(files)
    else if v.archivePath != VariantPath(u, v.mediaId, v.kind) then None
    else AddExpected(files, RefOfVariant(v))
  }

  function ExpectAssets(u: Printer, assets: seq<Asset>): Option<AssetState> {
    if assets == [] then Some(AssetState(map[], map[])) else
    match ExpectAssets(u, assets[..|assets| - 1])
    case None => None
    case Some(s) => AddAsset(u, s, assets[|assets| - 1])
  }

  function ExpectVariants(u: Printer, s: AssetState, variants: seq<Variant>): Option<Expected> {
    if variants == [] then Some(s.files) else
    match ExpectVariants(u, s, variants[..|variants| - 1])
    case None => None
    case Some(files) => AddVariant(u, s.live, files, variants[|variants| - 1])
  }

  lemma {:induction false} AssetsSpoiled(u: Printer, assets: seq<Asset>, i: nat)
    requires i <= |assets| && ExpectAssets(u, assets[..i]) == None
    ensures ExpectAssets(u, assets) == None
    decreases |assets| - i
  {
    if i == |assets| {
      assert assets[..i] == assets;
    } else {
      assert assets[..i + 1][..i] == assets[..i];
      AssetsSpoiled(u, assets, i + 1);
    }
  }

  lemma {:induction false} VariantsSpoiled(u: Printer, s: AssetState, variants: seq<Variant>, i: nat)
    requires i <= |variants| && ExpectVariants(u, s, variants[..i]) == None
    ensures ExpectVariants(u, s, variants) == None
    decreases |variants| - i
  {
    if i == |variants| {
      assert variants[..i] == variants;
    } else {
      assert variants[..i + 1][..i] == variants[..i];
      VariantsSpoiled(u, s, variants, i + 1);
    }
  }

  // The files a manifest makes the restorer expect, if it accepts the manifest's references at all.
  function Expect(u: Printer, assets: seq<Asset>, variants: seq<Variant>): Option<Expected> {
    match ExpectAssets(u, assets)
    case None => None
    case Some(s) => ExpectVariants(u, s, variants)
  }

  method ExpectedManifestFiles(u: Printer, assets: seq<Asset>, variants: seq<Variant>) returns (result: Option<Expected>)
    ensures result == Expect(u, assets, variants)
  {
    var state := AssetState(map[], map[]);
    for i := 0 to |assets|
      invariant ExpectAssets(u, assets[..i]) == Some(state)
    {
      assert assets[..i + 1][..i] == assets[..i];
      var added := AddAsset(u, state, assets[i]);
      if added == None {
        AssetsSpoiled(u, assets, i + 1);
        return None;
      }
      state := added.value;
    }
    assert assets[..|assets|] == assets;
    var files := state.files;
    for i := 0 to |variants|
      invariant ExpectVariants(u, state, variants[..i]) == Some(files)
    {
      assert variants[..i + 1][..i] == variants[..i];
      var added := AddVariant(u, state.live, files, variants[i]);
      if added == None {
        VariantsSpoiled(u, state, variants, i + 1);
        return None;
      }
      files := added.value;
    }
    assert variants[..|variants|] == variants;
    result := Some(files);
  }

  // ---- What is expected, and when ----

  ghost predicate LiveIs(assets: seq<Asset>, live: map<Uuid, bool>) {
    && (forall id :: id in live <==> Known(assets, id))
    && (forall id :: id in live ==> (live[id] <==> ActiveMedia(assets, id)))
  }

  lemma OneMoreAsset(u: Printer, assets: seq<Asset>, a: Asset)
    ensures AssetsGood(u, assets + [a]) <==> AssetsGood(u, assets) && GoodAsset(u, a) && !Known(assets, a.id)
  {
    var longer := assets + [a];
    assert longer[|assets|] == a;
    assert forall i :: 0 <= i < |assets| ==> longer[i] == assets[i];
    if AssetsGood(u, longer) {
      forall b | b in assets ensures b.id != a.id && b in longer {
        var i :| 0 <= i < |assets| && assets[i] == b;
        assert longer[i] == b;
      }
    }
    if !Known(assets, a.id) {
      assert forall i :: 0 <= i < |assets| ==> assets[i] in assets;
    }
  }

  lemma OneMoreLive(assets: seq<Asset>, a: Asset, live: map<Uuid, bool>)
    requires LiveIs(assets, live) && a.id !in live
    ensures LiveIs(assets + [a], live[a.id := Active(a)])
  {
    var longer, next := assets + [a], live[a.id := Active(a)];
    assert a in longer;
    forall id ensures Known(longer, id) <==> Known(assets, id) || id == a.id {
      if Known(assets, id) {
        var b :| b in assets && b.id == id;
        assert b in longer;
      }
    }
    forall id | id in next ensures next[id] <==> ActiveMedia(longer, id) {
      if id != a.id && ActiveMedia(assets, id) {
        var b :| b in assets && b.id == id && Active(b);
        assert b in longer;
      }
      if id == a.id && ActiveMedia(longer, id) {
        var b :| b in longer && b.id == id && Active(b);
        assert b in assets ==> Known(assets, id);
      }
    }
  }

  function AssetRefsAfter(refs: seq<FileRef>, a: Asset): seq<FileRef> {
    if a.archivePath != "" then refs + [RefOfAsset(a)] else refs
  }

  lemma RefAdded(refs: seq<FileRef>, r: FileRef)
    requires NamesDistinct(refs)
    ensures AddExpected(ByName(refs), r) ==
      if GoodRef(r) && NamesDistinct(refs + [r]) then Some(ByName(refs + [r])) else None
  {
    OneMoreRef(refs, r);
  }

  lemma AssetAdded(u: Printer, assets: seq<Asset>, s: AssetState, a: Asset)
    requires LiveIs(assets, s.live) && NamesDistinct(AssetRefs(assets)) && s.files == ByName(AssetRefs(assets))
    ensures var refs := AssetRefsAfter(AssetRefs(assets), a);
      && (AddAsset(u, s, a).Some? <==> GoodAsset(u, a) && !Known(assets, a.id) && NamesDistinct(refs))
      && (AddAsset(u, s, a).Some? ==> AddAsset(u, s, a).value == AssetState(s.live[a.id := Active(a)], ByName(refs)))
  {
    RefAdded(AssetRefs(assets), RefOfAsset(a));
    assert a.id in s.live <==> Known(assets, a.id);
  }

  lemma AssetRefsGrow(assets: seq<Asset>)
    requires assets != []
    ensures AssetRefs(assets) == AssetRefsAfter(AssetRefs(assets[..|assets| - 1]), assets[|assets| - 1])
    ensures NamesDistinct(AssetRefs(assets)) ==> NamesDistinct(AssetRefs(assets[..|assets| - 1]))
  {
    var before, a := assets[..|assets| - 1], assets[|assets| - 1];
    if a.archivePath == "" {
      assert AssetRefs(before) + [] == AssetRefs(before);
    } else {
      OneMoreRef(AssetRefs(before), RefOfAsset(a));
    }
  }

  // The first pass accepts exactly good assets, and then expects exactly the files they refer to.
  lemma {:induction false} AssetsExpected(u: Printer, assets: seq<Asset>)
    ensures ExpectAssets(u, assets).Some? <==> AssetsGood(u, assets) && NamesDistinct(AssetRefs(assets))
    ensures ExpectAssets(u, assets).Some? ==>
      LiveIs(assets, ExpectAssets(u, assets).value.live) && ExpectAssets(u, assets).value.files == ByName(AssetRefs(assets))
  {
    if assets != [] {
      var before, a := assets[..|assets| - 1], assets[|assets| - 1];
      AssetsExpected(u, before);
      AssetRefsGrow(assets);
      assert assets == before + [a];
      OneMoreAsset(u, before, a);
      if ExpectAssets(u, before).Some? {
        var s := ExpectAssets(u, before).value;
        AssetAdded(u, before, s, a);
        if a.id !in s.live {
          OneMoreLive(before, a, s.live);
        }
      }
    }
  }

  lemma OneMoreVariant(u: Printer, assets: seq<Asset>, variants: seq<Variant>, v: Variant)
    ensures VariantsGood(u, assets, variants + [v]) <==> VariantsGood(u, assets, variants) && GoodVariant(u, assets, v)
  {
    assert v in variants + [v];
    assert forall w :: w in variants ==> w in variants + [v];
  }

  // The references after one more variant.
  function RefsAfter(refs: seq<FileRef>, v: Variant): seq<FileRef> {
    if v.archivePath != "" then refs + [RefOfVariant(v)] else refs
  }

  lemma VariantAdded(u: Printer, assets: seq<Asset>, live: map<Uuid, bool>, refs: seq<FileRef>, v: Variant)
    requires LiveIs(assets, live) && NamesDistinct(refs)
    ensures (AddVariant(u, live, ByName(refs), v).Some? <==> GoodVariant(u, assets, v) && NamesDistinct(RefsAfter(refs, v)))
    ensures AddVariant(u, live, ByName(refs), v).Some? ==> AddVariant(u, live, ByName(refs), v).value == ByName(RefsAfter(refs, v))
  {
    RefAdded(refs, RefOfVariant(v));
    assert v.mediaId in live <==> Known(assets, v.mediaId);
  }

  lemma RefsGrow(assets: seq<Asset>, variants: seq<Variant>)
    requires variants != []
    ensures Refs(assets, variants) == RefsAfter(Refs(assets, variants[..|variants| - 1]), variants[|variants| - 1])
    ensures NamesDistinct(Refs(assets, variants)) ==> NamesDistinct(Refs(assets, variants[..|variants| - 1]))
  {
    var before, v := variants[..|variants| - 1], variants[|variants| - 1];
    if v.archivePath == "" {
      assert VariantRefs(before) + [] == VariantRefs(before);
    } else {
      assert AssetRefs(assets) + (VariantRefs(before) + [RefOfVariant(v)]) == AssetRefs(assets) + VariantRefs(before) + [RefOfVariant(v)];
      OneMoreRef(Refs(assets, before), RefOfVariant(v));
    }
  }

  // A result is right when it fails exactly on unacceptable variants and otherwise names the files referred to.
  ghost predicate RightResult(u: Printer, assets: seq<Asset>, variants: seq<Variant>, result: Option<Expected>) {
    && (result.Some? <==> VariantsGood(u, assets, variants) && NamesDistinct(Refs(assets, variants)))
    && (result.Some? ==> result.value == ByName(Refs(assets, variants)))
  }

  lemma VariantsGrow(u: Printer, assets: seq<Asset>, variants: seq<Variant>)
    requires variants != []
    ensures VariantsGood(u, assets, variants) <==>
      VariantsGood(u, assets, variants[..|variants| - 1]) && GoodVariant(u, assets, variants[|variants| - 1])
  {
    assert variants == variants[..|variants| - 1] + [variants[|variants| - 1]];
    OneMoreVariant(u, assets, variants[..|variants| - 1], variants[|variants| - 1]);
  }

  lemma StaysRight(u: Printer, assets: seq<Asset>, live: map<Uuid, bool>, variants: seq<Variant>, result: Option<Expected>)
    requires variants != [] && LiveIs(assets, live)
    requires RightResult(u, assets, variants[..|variants| - 1], result)
    ensures RightResult(u, assets, variants,
      match result case None => None case Some(files) => AddVariant(u, live, files, variants[|variants| - 1]))
  {
    var before, v := variants[..|variants| - 1], variants[|variants| - 1];
    RefsGrow(assets, variants);
    VariantsGrow(u, assets, variants);
    if result.Some? {
      VariantAdded(u, assets, live, Refs(assets, before), v);
    }
  }

  lemma {:induction false} VariantsExpected(u: Printer, assets: seq<Asset>, s: AssetState, variants: seq<Variant>)
    requires LiveIs(assets, s.live) && s.files == ByName(AssetRefs(assets)) && NamesDistinct(AssetRefs(assets))
    ensures RightResult(u, assets, variants, ExpectVariants(u, s, variants))
  {
    if variants == [] {
      assert Refs(assets, variants) == AssetRefs(assets);
    } else {
      VariantsExpected(u, assets, s, variants[..|variants| - 1]);
      StaysRight(u, assets, s.live, variants, ExpectVariants(u, s, variants[..|variants| - 1]));
    }
  }

  // The restorer accepts the references of a manifest exactly when they are canonical, unique and complete, and
  // then expects exactly the files they name.
  lemma ExpectedExactly(u: Printer, assets: seq<Asset>, variants: seq<Variant>)
    ensures Expect(u, assets, variants).Some? <==> FilesGood(u, assets, variants)
    ensures Expect(u, assets, variants).Some? ==> Expect(u, assets, variants).value == ByName(Refs(assets, variants))
  {
    AssetsExpected(u, assets);
    if ExpectAssets(u, assets).Some? {
      VariantsExpected(u, assets, ExpectAssets(u, assets).value, variants);
    } else if NamesDistinct(Refs(assets, variants)) {
      PrefixDistinct(AssetRefs(assets), VariantRefs(variants));
    }
  }
}
