/** The assumptions of the backup round trip can be met, and so can those of the refusal at the same limit. */
module BackupWitness {
  import opened Graphs
  import opened Manifest
  import opened ManifestRelations
  import opened Texts
  import opened BackupFiles
  import opened BackupSources
  import opened BackupArchive
  import opened BackupRoundTrip

  // ---- An encoding of texts, lists and numbers that can be undone ----

  function Unary(n: nat): string {
    seq(n, i => 'x')
  }

  function Put(s: string): string {
    Unary(|s|) + ['.'] + s
  }

  lemma PutFirst(a: string, b: string, x: string, y: string)
    requires Put(a) + x == Put(b) + y
    ensures a == b && x == y
  {
    var s, t := Unary(|a|), Unary(|b|);
    assert Put(a) + x == s + ['.'] + (a + x) && Put(b) + y == t + ['.'] + (b + y);
    IndexAfter(s, '.', a + x);
    IndexAfter(t, '.', b + y);
    assert |s| == |t|;
    assert a + x == (s + ['.'] + (a + x))[|s| + 1..] == b + y;
    assert a == (a + x)[..|a|] && b == (b + y)[..|b|];
    assert x == (a + x)[|a|..] && y == (b + y)[|b|..];
  }

  function PutAll(ss: seq<string>): string {
    if ss == [] then "" else Put(ss[0]) + PutAll(ss[1..])
  }

  lemma {:induction false} PutAllDiffers(a: seq<string>, b: seq<string>)
    requires PutAll(a) == PutAll(b)
    ensures a == b
  {
    if a != [] && b != [] {
      PutFirst(a[0], b[0], PutAll(a[1..]), PutAll(b[1..]));
      PutAllDiffers(a[1..], b[1..]);
      assert a == [a[0]] + a[1..] && b == [b[0]] + b[1..];
    }
  }

  function Number(n: int): string {
    if n < 0 then "-" + Unary(-n) else Unary(n)
  }

  lemma NumbersDiffer(a: int, b: int)
    requires Number(a) == Number(b)
    ensures a == b
  {
    assert |Unary(if a < 0 then -a else a)| == (if a < 0 then -a else a);
    assert |Unary(if b < 0 then -b else b)| == (if b < 0 then -b else b);
    assert a < 0 ==> Number(a)[0] == '-';
    assert b < 0 ==> Number(b)[0] == '-';
  }

  function Flag(b: bool): string {
    if b then "x" else ""
  }

  ghost predicate TellsApart<T(!new)>(f: T -> string) {
    forall a, b :: f(a) == f(b) ==> a == b
  }

  function PutEach<T>(f: T -> string, xs: seq<T>): seq<string> {
    seq(|xs|, i requires 0 <= i < |xs| => f(xs[i]))
  }

  lemma ListsDiffer<T(!new)>(f: T -> string, xs: seq<T>, ys: seq<T>)
    requires TellsApart(f) && PutAll(PutEach(f, xs)) == PutAll(PutEach(f, ys))
    ensures xs == ys
  {
    PutAllDiffers(PutEach(f, xs), PutEach(f, ys));
    assert |PutEach(f, xs)| == |xs| && |PutEach(f, ys)| == |ys|;
    forall i | 0 <= i < |xs| ensures xs[i] == ys[i] {
      assert PutEach(f, xs)[i] == PutEach(f, ys)[i];
    }
  }

  // ---- Documents and archives ----

  const IDS := (p: Uuid) => Number(p)
  const RELATIONS := (r: Relation) =>
    PutAll([Number(r.id), Number(r.parent), Number(r.child), r.relationType, Flag(r.deleted)])
  const ASSETS := (a: Asset) =>
    PutAll([Number(a.id), a.status, Flag(a.deleted), Number(a.sizeBytes), a.checksum, a.archivePath])
  const VARIANTS := (v: Variant) =>
    PutAll([Number(v.id), Number(v.mediaId), v.kind, Number(v.sizeBytes), v.checksum, v.archivePath])
  const ENTRIES := (e: Entry) => PutAll([e.name, e.body])

  lemma RowsDiffer()
    ensures TellsApart(IDS) && TellsApart(RELATIONS) && TellsApart(ENTRIES)
  {
    forall a: Uuid, b: Uuid | IDS(a) == IDS(b) ensures a == b {
      NumbersDiffer(a, b);
    }
    forall a, b | RELATIONS(a) == RELATIONS(b) ensures a == b {
      var s := [Number(a.id), Number(a.parent), Number(a.child), a.relationType, Flag(a.deleted)];
      var t := [Number(b.id), Number(b.parent), Number(b.child), b.relationType, Flag(b.deleted)];
      PutAllDiffers(s, t);
      assert s[0] == t[0] && s[1] == t[1] && s[2] == t[2] && s[3] == t[3] && s[4] == t[4];
      NumbersDiffer(a.id, b.id);
      NumbersDiffer(a.parent, b.parent);
      NumbersDiffer(a.child, b.child);
    }
    forall a, b | ENTRIES(a) == ENTRIES(b) ensures a == b {
      PutAllDiffers([a.name, a.body], [b.name, b.body]);
      assert [a.name, a.body][0] == [b.name, b.body][0] && [a.name, a.body][1] == [b.name, b.body][1];
    }
  }

  lemma FilesDiffer()
    ensures TellsApart(ASSETS) && TellsApart(VARIANTS)
  {
    forall a, b | ASSETS(a) == ASSETS(b) ensures a == b {
      var s := [Number(a.id), a.status, Flag(a.deleted), Number(a.sizeBytes), a.checksum, a.archivePath];
      var t := [Number(b.id), b.status, Flag(b.deleted), Number(b.sizeBytes), b.checksum, b.archivePath];
      PutAllDiffers(s, t);
      assert s[0] == t[0] && s[1] == t[1] && s[2] == t[2] && s[3] == t[3] && s[4] == t[4] && s[5] == t[5];
      NumbersDiffer(a.id, b.id);
      NumbersDiffer(a.sizeBytes, b.sizeBytes);
    }
    forall a, b | VARIANTS(a) == VARIANTS(b) ensures a == b {
      var s := [Number(a.id), Number(a.mediaId), a.kind, Number(a.sizeBytes), a.checksum, a.archivePath];
      var t := [Number(b.id), Number(b.mediaId), b.kind, Number(b.sizeBytes), b.checksum, b.archivePath];
      PutAllDiffers(s, t);
      assert s[0] == t[0] && s[1] == t[1] && s[2] == t[2] && s[3] == t[3] && s[4] == t[4] && s[5] == t[5];
      NumbersDiffer(a.id, b.id);
      NumbersDiffer(a.mediaId, b.mediaId);
      NumbersDiffer(a.sizeBytes, b.sizeBytes);
    }
  }

  function Fields(d: Document): seq<string> {
    [d.schemaName, Number(d.schemaVersion), d.format, Number(d.treeId), PutAll(PutEach(IDS, d.persons)),
     PutAll(PutEach(RELATIONS, d.relations)), PutAll(PutEach(ASSETS, d.assets)), PutAll(PutEach(VARIANTS, d.variants)), d.rest]
  }

  function Encoded(d: Document): Body {
    PutAll(Fields(d))
  }

  lemma DocumentsDiffer(c: Document, d: Document)
    requires Encoded(c) == Encoded(d)
    ensures c == d
  {
    var s, t := Fields(c), Fields(d);
    PutAllDiffers(s, t);
    assert s[0] == t[0] && s[1] == t[1] && s[2] == t[2] && s[3] == t[3] && s[4] == t[4] && s[5] == t[5] && s[6] == t[6]
      && s[7] == t[7] && s[8] == t[8];
    NumbersDiffer(c.schemaVersion, d.schemaVersion);
    NumbersDiffer(c.treeId, d.treeId);
    RowsDiffer();
    FilesDiffer();
    ListsDiffer(IDS, c.persons, d.persons);
    ListsDiffer(RELATIONS, c.relations, d.relations);
    ListsDiffer(ASSETS, c.assets, d.assets);
    ListsDiffer(VARIANTS, c.variants, d.variants);
  }

  // A packer that has a short form for one archive, as a compressor has for some.
  function Packed(short: seq<Entry>, es: seq<Entry>): Body {
    if es == short then "z" else "p" + PutAll(PutEach(ENTRIES, es))
  }

  lemma ArchivesDiffer(short: seq<Entry>, a: seq<Entry>, b: seq<Entry>)
    requires Packed(short, a) == Packed(short, b)
    ensures a == b
  {
    if a != short {
      assert Packed(short, a)[0] == 'p' && b != short;
      assert Packed(short, a)[1..] == Packed(short, b)[1..];
      RowsDiffer();
      ListsDiffer(ENTRIES, a, b);
    } else {
      assert Packed(short, b)[0] == 'z';
    }
  }

  ghost function Decoded(b: Body): Option<Document> {
    if d :| Encoded(d) == b then Some(d) else None
  }

  ghost function Unpacked(short: seq<Entry>, b: Body): Option<seq<Entry>> {
    if es :| Packed(short, es) == b then Some(es) else None
  }

  function Printed(p: Uuid): string {
    seq(p + 1, i => 'a')
  }

  // Any digest will do, since no property of it is needed but its form.
  function Sum(): string {
    seq(64, i => '0')
  }

  ghost function WitnessEnv(short: seq<Entry>): Env {
    Env(es => Packed(short, es), b => Unpacked(short, b), Encoded, Decoded, b => Sum(), Printed, d => true)
  }

  lemma WitnessIsGood(short: seq<Entry>)
    ensures GoodEnv(WitnessEnv(short))
  {
    var e := WitnessEnv(short);
    forall es ensures e.unpack(e.pack(es)) == Some(es) && e.pack(es) != "" {
      assert Packed(short, es) == e.pack(es);
      var other := Unpacked(short, Packed(short, es));
      ArchivesDiffer(short, other.value, es);
    }
    forall d ensures e.decode(e.encode(d)) == Some(d) {
      DocumentsDiffer(Decoded(Encoded(d)).value, d);
    }
    forall p: Uuid, q: Uuid | Printed(p) == Printed(q) ensures p == q {
      assert |Printed(p)| == p + 1 && |Printed(q)| == q + 1;
    }
  }

  // ---- The round trip ----

  function OriginalKey(media: Uuid): string {
    "original"
  }

  function VariantKey(variant: Uuid): string {
    "variant"
  }

  // A family of two with one photo and its thumbnail.
  const PHOTO := Asset(1, "ready", false, 4, Sum(), "")
  const THUMBNAIL := Variant(2, 1, "thumbnail", 4, Sum(), "")
  const ALBUM := Document("family_tree_backup", 1, "zip_backup", 1, [1, 2], [Relation(3, 1, 2, "biological", false)],
                          [PHOTO], [THUMBNAIL], "")
  const KEYS := Keys(OriginalKey, VariantKey)
  const STORE: Store := map["original" := "face", "variant" := "dots"]

  function AlbumOrder(u: Printer): seq<Source> {
    [SourceOfAsset(u, KEYS, PHOTO), SourceOfVariant(u, KEYS, THUMBNAIL)]
  }

  lemma AlbumSources(u: Printer)
    ensures Sources(u, KEYS, ALBUM.assets, ALBUM.variants) == AlbumOrder(u)
  {
    assert PHOTO in ALBUM.assets && ActiveMedia(ALBUM.assets, 1);
    assert [PHOTO][..0] == [] && [THUMBNAIL][..0] == [];
    assert AssetSources(u, KEYS, []) == [] && VariantSources(u, KEYS, ALBUM.assets, []) == [];
    assert AssetSources(u, KEYS, ALBUM.assets) == [SourceOfAsset(u, KEYS, PHOTO)];
    assert VariantSources(u, KEYS, ALBUM.assets, ALBUM.variants) == [SourceOfVariant(u, KEYS, THUMBNAIL)];
  }

  lemma AlbumIsLoadable()
    ensures Loadable(ALBUM.assets, ALBUM.variants)
  {
    assert PHOTO in ALBUM.assets && Known(ALBUM.assets, 1);
  }

  lemma AlbumIsRestorable()
    ensures Restorable(ALBUM.persons, ALBUM.relations)
  {
    var edges := ActiveEdges(ALBUM.relations, IdsOf(ALBUM.persons));
    forall e | e in edges ensures e == Edge(1, 2) {
    }
    HeightsMakeAcyclic(edges, map[1 := 0, 2 := 1]);
  }

  lemma AlbumIsIntact(e: Env)
    requires forall b :: e.sha(b) == Sum()
    ensures SourceTotal(AlbumOrder(e.uuid)) == 8
    ensures forall s :: s in AlbumOrder(e.uuid) ==> Usable(s) && Intact(e, STORE, s)
  {
    forall s | s in AlbumOrder(e.uuid) ensures Usable(s) && Intact(e, STORE, s) {
      assert |Sum()| == 64;
    }
    var order := AlbumOrder(e.uuid);
    assert order[..1] == [order[0]] && order[..1][..0] == [];
    assert SourceTotal(order) == SourceTotal(order[..1]) + 4 && SourceTotal(order[..1]) == SourceTotal([]) + 4;
  }

  lemma AlbumReturns(e: Env, limit: int)
    requires GoodEnv(e) && e.uuid == Printed && (forall b :: e.sha(b) == Sum()) && forall d :: e.otherChecks(d)
    requires var order := AlbumOrder(Printed);
      var es := Entries(e, ALBUM, order, STORE);
      && |e.pack(es)| <= limit && Total(es) <= limit && |e.encode(ApplyPaths(ALBUM, order))| + SourceTotal(order) <= limit
    ensures var order := AlbumOrder(Printed);
      var result := Parse(e, e.pack(Entries(e, ALBUM, order, STORE)), limit);
      && Buildable(e, ALBUM, order, STORE, limit)
      && result.Parsed? && result.document == ApplyPaths(ALBUM, order) && HoldsFiles(result.files, order, STORE)
  {
    AlbumSources(Printed);
    AlbumIsLoadable();
    AlbumIsRestorable();
    AlbumIsIntact(e);
    SourcePathsDistinct(Printed, KEYS, ALBUM.assets, ALBUM.variants);
    RoundTrip(e, KEYS, ALBUM, AlbumOrder(Printed), STORE, limit, limit);
  }

  // The round trip happens: with enough room, this tree is built, parsed and returned with its files.
  lemma RoundTripHappens() returns (e: Env, limit: int)
    ensures GoodEnv(e)
    ensures var order := AlbumOrder(Printed);
      var result := Parse(e, e.pack(Entries(e, ALBUM, order, STORE)), limit);
      && Buildable(e, ALBUM, order, STORE, limit)
      && result.Parsed? && result.document == ApplyPaths(ALBUM, order) && HoldsFiles(result.files, order, STORE)
  {
    e := WitnessEnv([]);
    WitnessIsGood([]);
    AlbumIsIntact(e);
    var order := AlbumOrder(Printed);
    var es := Entries(e, ALBUM, order, STORE);
    limit := |e.pack(es)| + |e.encode(ApplyPaths(ALBUM, order))| + SourceTotal(order) + Total(es);
    AlbumReturns(e, limit);
  }

  // ---- The refusal ----

  // An empty family tree without files.
  const BLANK := Document("family_tree_backup", 1, "zip_backup", 1, [], [], [], [], "")

  // The entries do not depend on how they are packed.
  lemma PackingIsApart(e: Env, f: Env, store: Store)
    requires e.encode == f.encode && e.sha == f.sha
    ensures Entries(e, BLANK, [], store) == Entries(f, BLANK, [], store)
  {
    var listed := ListedEntries(e, BLANK, [], store);
    assert listed == ListedEntries(f, BLANK, [], store);
    assert ChecksumLines(e, listed) == ChecksumLines(f, listed);
  }

  lemma BlankIsRefused(e: Env, k: Keys, store: Store)
    requires GoodEnv(e) && |e.pack(Entries(e, BLANK, [], store))| <= |e.encode(BLANK)|
    ensures var limit := |e.encode(BLANK)|;
      Buildable(e, BLANK, [], store, limit) && Parse(e, e.pack(Entries(e, BLANK, [], store)), limit) == TooLarge
  {
    assert ApplyPaths(BLANK, []) == BLANK;
    assert Sources(e.uuid, k, [], []) == [];
    SameLimitCanRefuse(e, k, BLANK, store);
  }

  // The refusal at the same limit happens: a builder and a parser that both use the size of the manifest as their
  // limit, and a tree that the one packs and the other refuses.
  lemma RefusalHappens(k: Keys, store: Store) returns (e: Env)
    ensures GoodEnv(e)
    ensures var limit := |e.encode(BLANK)|;
      Buildable(e, BLANK, [], store, limit) && Parse(e, e.pack(Entries(e, BLANK, [], store)), limit) == TooLarge
  {
    var short := Entries(WitnessEnv([]), BLANK, [], store);
    e := WitnessEnv(short);
    WitnessIsGood(short);
    PackingIsApart(WitnessEnv([]), e, store);
    assert e.pack(short) == "z";
    BlankIsRefused(e, k, store);
  }
}
