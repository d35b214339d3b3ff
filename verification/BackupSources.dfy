/** The paths the exporter assigns are the paths the restorer expects. */
module BackupSources {
  import opened Graphs
  import opened Texts
  import opened ChecksumList
  import opened BackupFiles

  function SourceOfAsset(u: Printer, k: Keys, a: Asset): Source {
    Source(a.id, "", OriginalPath(u, a.id), k.original(a.id), a.sizeBytes, a.checksum)
  }

  function SourceOfVariant(u: Printer, k: Keys, v: Variant): Source {
    Source(v.mediaId, v.kind, VariantPath(u, v.mediaId, v.kind), k.variant(v.id), v.sizeBytes, v.checksum)
  }

  lemma {:induction false} InAssetSources(u: Printer, k: Keys, assets: seq<Asset>, s: Source)
    ensures s in AssetSources(u, k, assets) <==> exists a :: a in assets && Active(a) && s == SourceOfAsset(u, k, a)
  {
    if assets != [] {
      var before, last := assets[..|assets| - 1], assets[|assets| - 1];
      InAssetSources(u, k, before, s);
      assert assets == before + [last];
      assert last in assets && forall a :: a in before ==> a in assets;
    }
  }

  lemma {:induction false} InVariantSources(u: Printer, k: Keys, assets: seq<Asset>, variants: seq<Variant>, s: Source)
    ensures s in VariantSources(u, k, assets, variants) <==>
      exists v :: v in variants && ActiveMedia(assets, v.mediaId) && s == SourceOfVariant(u, k, v)
  {
    if variants != [] {
      var before, last := variants[..|variants| - 1], variants[|variants| - 1];
      InVariantSources(u, k, assets, before, s);
      assert variants == before + [last];
      assert last in variants && forall v :: v in before ==> v in variants;
    }
  }

  lemma AssetById(assets: seq<Asset>, a: Asset, b: Asset)
    requires forall i, j :: 0 <= i < j < |assets| ==> assets[i].id != assets[j].id
    requires a in assets && b in assets && a.id == b.id
    ensures a == b
  {
    var i :| 0 <= i < |assets| && assets[i] == a;
    var j :| 0 <= j < |assets| && assets[j] == b;
  }

  lemma VariantByKey(variants: seq<Variant>, v: Variant, w: Variant)
    requires forall i, j :: 0 <= i < j < |variants| ==>
      variants[i].mediaId != variants[j].mediaId || variants[i].kind != variants[j].kind
    requires v in variants && w in variants && v.mediaId == w.mediaId && v.kind == w.kind
    ensures v == w
  {
    var i :| 0 <= i < |variants| && variants[i] == v;
    var j :| 0 <= j < |variants| && variants[j] == w;
  }

  lemma SourcePath(u: Printer, k: Keys, assets: seq<Asset>, variants: seq<Variant>, s: Source)
    requires s in Sources(u, k, assets, variants) && Loadable(assets, variants)
    ensures s.variantKind == "" ==> s.archivePath == OriginalPath(u, s.mediaId)
    ensures s.variantKind != "" ==> s.variantKind in KINDS && s.archivePath == VariantPath(u, s.mediaId, s.variantKind)
    ensures s in AssetSources(u, k, assets) ==> s.variantKind == ""
    ensures s in VariantSources(u, k, assets, variants) ==> s.variantKind != ""
  {
    InAssetSources(u, k, assets, s);
    InVariantSources(u, k, assets, variants, s);
  }

  // One source per media object and kind.
  lemma SourceByKey(u: Printer, k: Keys, assets: seq<Asset>, variants: seq<Variant>, s: Source, t: Source)
    requires Loadable(assets, variants)
    requires s in Sources(u, k, assets, variants) && t in Sources(u, k, assets, variants)
    requires s.mediaId == t.mediaId && s.variantKind == t.variantKind
    ensures s == t
  {
    SourcePath(u, k, assets, variants, s);
    SourcePath(u, k, assets, variants, t);
    if s.variantKind == "" {
      InAssetSources(u, k, assets, s);
      InAssetSources(u, k, assets, t);
      var a :| a in assets && Active(a) && s == SourceOfAsset(u, k, a);
      var b :| b in assets && Active(b) && t == SourceOfAsset(u, k, b);
      AssetById(assets, a, b);
    } else {
      InVariantSources(u, k, assets, variants, s);
      InVariantSources(u, k, assets, variants, t);
      var v :| v in variants && ActiveMedia(assets, v.mediaId) && s == SourceOfVariant(u, k, v);
      var w :| w in variants && ActiveMedia(assets, w.mediaId) && t == SourceOfVariant(u, k, w);
      VariantByKey(variants, v, w);
    }
  }

  lemma {:induction false} PathFound(files: seq<Source>, s: Source)
    requires s in files
    requires forall t :: t in files && t.mediaId == s.mediaId && t.variantKind == s.variantKind ==> t == s
    ensures PathOf(files, s.mediaId, s.variantKind) == s.archivePath
  {
    var before, last := files[..|files| - 1], files[|files| - 1];
    assert files == before + [last];
    assert last in files;
    if last.mediaId != s.mediaId || last.variantKind != s.variantKind {
      assert forall t :: t in before ==> t in files;
      PathFound(before, s);
    }
  }

  lemma {:induction false} PathMissing(files: seq<Source>, media: Uuid, kind: string)
    requires forall t :: t in files ==> t.mediaId != media || t.variantKind != kind
    ensures PathOf(files, media, kind) == ""
  {
    if files != [] {
      assert files[|files| - 1] in files;
      PathMissing(files[..|files| - 1], media, kind);
    }
  }

  ghost predicate Arrangement(order: seq<Source>, sources: seq<Source>) {
    forall s :: s in order <==> s in sources
  }

  // Live media get their canonical path, all other media none, whatever order the files are in.
  lemma AssetPathIs(u: Printer, k: Keys, assets: seq<Asset>, variants: seq<Variant>, order: seq<Source>, a: Asset)
    requires Loadable(assets, variants) && Arrangement(order, Sources(u, k, assets, variants)) && a in assets
    ensures PathOf(order, a.id, "") == if Active(a) then OriginalPath(u, a.id) else ""
  {
    if Active(a) {
      var s := SourceOfAsset(u, k, a);
      InAssetSources(u, k, assets, s);
      forall t | t in order && t.mediaId == s.mediaId && t.variantKind == "" ensures t == s {
        SourceByKey(u, k, assets, variants, s, t);
      }
      PathFound(order, s);
    } else {
      forall t | t in order ensures t.mediaId != a.id || t.variantKind != "" {
        InAssetSources(u, k, assets, t);
        InVariantSources(u, k, assets, variants, t);
        if t in AssetSources(u, k, assets) {
          var b :| b in assets && Active(b) && t == SourceOfAsset(u, k, b);
          if b.id == a.id {
            AssetById(assets, a, b);
          }
        }
      }
      PathMissing(order, a.id, "");
    }
  }

  lemma VariantPathIs(u: Printer, k: Keys, assets: seq<Asset>, variants: seq<Variant>, order: seq<Source>, v: Variant)
    requires Loadable(assets, variants) && Arrangement(order, Sources(u, k, assets, variants)) && v in variants
    ensures PathOf(order, v.mediaId, v.kind) == if ActiveMedia(assets, v.mediaId) then VariantPath(u, v.mediaId, v.kind) else ""
  {
    if ActiveMedia(assets, v.mediaId) {
      var s := SourceOfVariant(u, k, v);
      InVariantSources(u, k, assets, variants, s);
      forall t | t in order && t.mediaId == s.mediaId && t.variantKind == s.variantKind ensures t == s {
        SourceByKey(u, k, assets, variants, s, t);
      }
      PathFound(order, s);
    } else {
      forall t | t in order ensures t.mediaId != v.mediaId || t.variantKind != v.kind {
        InAssetSources(u, k, assets, t);
        InVariantSources(u, k, assets, variants, t);
      }
      PathMissing(order, v.mediaId, v.kind);
    }
  }

  function RefOfSource(s: Source): FileRef {
    FileRef(s.archivePath, s.sizeBytes, s.checksum)
  }

  function RefsOf(sources: seq<Source>): seq<FileRef> {
    seq(|sources|, i requires 0 <= i < |sources| => RefOfSource(sources[i]))
  }

  lemma RefsOfAppend(a: seq<Source>, b: seq<Source>)
    ensures RefsOf(a + b) == RefsOf(a) + RefsOf(b)
  {
  }

  lemma {:induction false} AssetRefsAreSources(u: Printer, k: Keys, assets: seq<Asset>, variants: seq<Variant>,
                                              order: seq<Source>, n: nat)
    requires Loadable(assets, variants) && Arrangement(order, Sources(u, k, assets, variants)) && GoodPrinter(u)
    requires n <= |assets|
    ensures AssetRefs(WithAssetPaths(assets, order)[..n]) == RefsOf(AssetSources(u, k, assets[..n]))
  {
    if n > 0 {
      AssetRefsAreSources(u, k, assets, variants, order, n - 1);
      var pathed := WithAssetPaths(assets, order)[..n];
      assert pathed[..n - 1] == WithAssetPaths(assets, order)[..n - 1];
      assert assets[..n][..n - 1] == assets[..n - 1];
      AssetPathIs(u, k, assets, variants, order, assets[n - 1]);
      PathsAreNotSpecial(u, assets[n - 1].id, "preview", "");
      if Active(assets[n - 1]) {
        RefsOfAppend(AssetSources(u, k, assets[..n - 1]), [SourceOfAsset(u, k, assets[n - 1])]);
      }
    }
  }

  lemma VariantRefsSnoc(pathed: seq<Variant>, n: nat)
    requires 0 < n <= |pathed|
    ensures VariantRefs(pathed[..n]) ==
      VariantRefs(pathed[..n - 1]) + if pathed[n - 1].archivePath != "" then [RefOfVariant(pathed[n - 1])] else []
  {
    assert pathed[..n][..n - 1] == pathed[..n - 1];
  }

  lemma VariantSourcesSnoc(u: Printer, k: Keys, assets: seq<Asset>, variants: seq<Variant>, n: nat)
    requires 0 < n <= |variants|
    ensures RefsOf(VariantSources(u, k, assets, variants[..n])) ==
      RefsOf(VariantSources(u, k, assets, variants[..n - 1])) +
      if ActiveMedia(assets, variants[n - 1].mediaId) then [RefOfSource(SourceOfVariant(u, k, variants[n - 1]))] else []
  {
    assert variants[..n][..n - 1] == variants[..n - 1];
    if ActiveMedia(assets, variants[n - 1].mediaId) {
      RefsOfAppend(VariantSources(u, k, assets, variants[..n - 1]), [SourceOfVariant(u, k, variants[n - 1])]);
    }
  }

  // An exported variant refers to its source, and only if it has one.
  lemma VariantRefIsSource(u: Printer, k: Keys, assets: seq<Asset>, variants: seq<Variant>, order: seq<Source>, i: nat)
    requires Loadable(assets, variants) && Arrangement(order, Sources(u, k, assets, variants)) && GoodPrinter(u)
    requires i < |variants|
    ensures var pathed := WithVariantPaths(variants, order)[i];
      if ActiveMedia(assets, variants[i].mediaId)
      then pathed.archivePath != "" && RefOfVariant(pathed) == RefOfSource(SourceOfVariant(u, k, variants[i]))
      else pathed.archivePath == ""
  {
    VariantPathIs(u, k, assets, variants, order, variants[i]);
    PathsAreNotSpecial(u, variants[i].mediaId, variants[i].kind, "");
  }

  lemma {:induction false} VariantRefsAreSources(u: Printer, k: Keys, assets: seq<Asset>, variants: seq<Variant>,
                                                order: seq<Source>, n: nat)
    requires Loadable(assets, variants) && Arrangement(order, Sources(u, k, assets, variants)) && GoodPrinter(u)
    requires n <= |variants|
    ensures VariantRefs(WithVariantPaths(variants, order)[..n]) == RefsOf(VariantSources(u, k, assets, variants[..n]))
  {
    if n > 0 {
      VariantRefsAreSources(u, k, assets, variants, order, n - 1);
      VariantRefIsSource(u, k, assets, variants, order, n - 1);
      VariantRefsSnoc(WithVariantPaths(variants, order), n);
      VariantSourcesSnoc(u, k, assets, variants, n);
    }
  }

  // The manifest refers to exactly the sources, in their order.
  lemma RefsAreSources(u: Printer, k: Keys, assets: seq<Asset>, variants: seq<Variant>, order: seq<Source>)
    requires Loadable(assets, variants) && Arrangement(order, Sources(u, k, assets, variants)) && GoodPrinter(u)
    ensures Refs(WithAssetPaths(assets, order), WithVariantPaths(variants, order)) == RefsOf(Sources(u, k, assets, variants))
  {
    var xs, ys := WithAssetPaths(assets, order), WithVariantPaths(variants, order);
    AssetRefsAreSources(u, k, assets, variants, order, |assets|);
    VariantRefsAreSources(u, k, assets, variants, order, |variants|);
    assert xs[..|assets|] == xs && assets[..|assets|] == assets;
    assert ys[..|variants|] == ys && variants[..|variants|] == variants;
    RefsOfAppend(AssetSources(u, k, assets), VariantSources(u, k, assets, variants));
  }

  // ---- Different sources, different paths ----

  lemma {:induction false} AssetSourcesDistinct(u: Printer, k: Keys, assets: seq<Asset>)
    requires forall i, j :: 0 <= i < j < |assets| ==> assets[i].id != assets[j].id
    ensures forall i, j :: 0 <= i < j < |AssetSources(u, k, assets)| ==>
      AssetSources(u, k, assets)[i].mediaId != AssetSources(u, k, assets)[j].mediaId
  {
    if assets != [] {
      var before, last := assets[..|assets| - 1], assets[|assets| - 1];
      AssetSourcesDistinct(u, k, before);
      var ss := AssetSources(u, k, before);
      forall i | 0 <= i < |ss| ensures ss[i].mediaId != last.id {
        InAssetSources(u, k, before, ss[i]);
      }
    }
  }

  ghost predicate KeysDistinct(ss: seq<Source>) {
    forall i, j :: 0 <= i < j < |ss| ==> ss[i].mediaId != ss[j].mediaId || ss[i].variantKind != ss[j].variantKind
  }

  lemma {:induction false} VariantSourcesDistinct(u: Printer, k: Keys, assets: seq<Asset>, variants: seq<Variant>)
    requires forall i, j :: 0 <= i < j < |variants| ==>
      variants[i].mediaId != variants[j].mediaId || variants[i].kind != variants[j].kind
    ensures KeysDistinct(VariantSources(u, k, assets, variants))
  {
    if variants != [] {
      var before, last := variants[..|variants| - 1], variants[|variants| - 1];
      VariantSourcesDistinct(u, k, assets, before);
      var ss := VariantSources(u, k, assets, before);
      forall i | 0 <= i < |ss| ensures ss[i].mediaId != last.mediaId || ss[i].variantKind != last.kind {
        InVariantSources(u, k, assets, before, ss[i]);
        var v :| v in before && ActiveMedia(assets, v.mediaId) && ss[i] == SourceOfVariant(u, k, v);
        var n :| 0 <= n < |before| && before[n] == v;
        assert variants[n] == v;
      }
    }
  }

  ghost predicate CanonicalSource(u: Printer, s: Source) {
    if s.variantKind == "" then s.archivePath == OriginalPath(u, s.mediaId)
    else s.variantKind in KINDS && s.archivePath == VariantPath(u, s.mediaId, s.variantKind)
  }

  lemma KeyedPathsDiffer(u: Printer, s: Source, t: Source)
    requires GoodPrinter(u) && CanonicalSource(u, s) && CanonicalSource(u, t)
    requires s.mediaId != t.mediaId || s.variantKind != t.variantKind
    ensures s.archivePath != t.archivePath
  {
    var sk := if s.variantKind == "" then "preview" else s.variantKind;
    var tk := if t.variantKind == "" then "preview" else t.variantKind;
    PathsDiffer(u, s.mediaId, sk, t.mediaId, tk);
    PathsDiffer(u, t.mediaId, tk, s.mediaId, sk);
  }

  lemma SourcePathsDistinct(u: Printer, k: Keys, assets: seq<Asset>, variants: seq<Variant>)
    requires Loadable(assets, variants) && GoodPrinter(u)
    ensures PathsDistinct(Sources(u, k, assets, variants))
  {
    var xs, ys := AssetSources(u, k, assets), VariantSources(u, k, assets, variants);
    var all := Sources(u, k, assets, variants);
    AssetSourcesDistinct(u, k, assets);
    VariantSourcesDistinct(u, k, assets, variants);
    forall i, j | 0 <= i < j < |all| ensures all[i].archivePath != all[j].archivePath {
      var s, t := all[i], all[j];
      assert i < |xs| ==> s == xs[i] && s in xs;
      assert i >= |xs| ==> s == ys[i - |xs|] && s in ys;
      assert j < |xs| ==> t == xs[j] && t in xs;
      assert j >= |xs| ==> t == ys[j - |xs|] && t in ys;
      assert j < |xs| ==> s.mediaId != t.mediaId;
      if i >= |xs| {
        var a, b := i - |xs|, j - |xs|;
        assert s == ys[a] && t == ys[b];
        assert 0 <= a < b < |ys| && KeysDistinct(ys);
      }
      SourcePath(u, k, assets, variants, s);
      SourcePath(u, k, assets, variants, t);
      KeyedPathsDiffer(u, s, t);
    }
  }
}
