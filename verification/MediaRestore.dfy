/** Which backups restore to a tree whose primary media stay attached and ready, whatever happens to it afterwards. */
module MediaRestore {
  import opened Graphs
  import opened Texts
  import ManifestRelations
  import opened PrimaryMedia

  datatype MediaEntry = MediaEntry(id: Uuid, photo: bool, status: Status, deleted: bool)

  datatype PersonEntry = PersonEntry(id: Uuid, deleted: bool, primary: Option<Uuid>)

  // The parts of a manifest that concern media.
  datatype MediaManifest = MediaManifest(persons: seq<PersonEntry>, assets: seq<MediaEntry>, attachments: seq<Link>)

  ghost function PersonIds(m: MediaManifest): set<Uuid> {
    set p | p in m.persons :: p.id
  }

  ghost function MediaIds(m: MediaManifest): set<Uuid> {
    set a | a in m.assets :: a.id
  }

  // ---- The restorer's checks ----

  ghost predicate MediaValid(m: MediaManifest) {
    && (forall i :: 0 <= i < |m.persons| ==> m.persons[i].id != 0)
    && (forall i, j :: 0 <= i < j < |m.persons| ==> m.persons[i].id != m.persons[j].id)
    && (forall i :: 0 <= i < |m.assets| ==> m.assets[i].id != 0)
    && (forall i, j :: 0 <= i < j < |m.assets| ==> m.assets[i].id != m.assets[j].id)
    && (forall i :: 0 <= i < |m.attachments| ==> m.attachments[i].person in PersonIds(m) && m.attachments[i].media in MediaIds(m))
    && (forall i, j :: 0 <= i < j < |m.attachments| ==> m.attachments[i] != m.attachments[j])
    && (forall i :: 0 <= i < |m.persons| ==> m.persons[i].primary.Some? ==> m.persons[i].primary.value in MediaIds(m))
  }

  function PersonList(m: MediaManifest): seq<Uuid> {
    seq(|m.persons|, i requires 0 <= i < |m.persons| => m.persons[i].id)
  }

  lemma PersonsListed(m: MediaManifest)
    ensures ManifestRelations.IdsOf(PersonList(m)) == PersonIds(m)
    ensures ManifestRelations.PersonsValid(PersonList(m)) <==>
      && (forall i :: 0 <= i < |m.persons| ==> m.persons[i].id != 0)
      && forall i, j :: 0 <= i < j < |m.persons| ==> m.persons[i].id != m.persons[j].id
  {
    var ids := PersonList(m);
    assert forall i :: 0 <= i < |m.persons| ==> ids[i] == m.persons[i].id && m.persons[i] in m.persons && ids[i] in ids;
  }

  method CheckAssets(m: MediaManifest) returns (valid: bool, ids: set<Uuid>)
    ensures valid <==>
      && (forall i :: 0 <= i < |m.assets| ==> m.assets[i].id != 0)
      && forall i, j :: 0 <= i < j < |m.assets| ==> m.assets[i].id != m.assets[j].id
    ensures valid ==> ids == MediaIds(m)
  {
    ids := {};
    for k := 0 to |m.assets|
      invariant ids == set i | 0 <= i < k :: m.assets[i].id
      invariant forall i :: 0 <= i < k ==> m.assets[i].id != 0
      invariant forall i, j :: 0 <= i < j < k ==> m.assets[i].id != m.assets[j].id
    {
      if m.assets[k].id == 0 || m.assets[k].id in ids {
        return false, ids;
      }
      ids := ids + {m.assets[k].id};
    }
    valid := true;
  }

  method CheckMedia(m: MediaManifest) returns (valid: bool)
    ensures valid <==> MediaValid(m)
  {
    var result, persons := ManifestRelations.CheckPersons(PersonList(m));
    PersonsListed(m);
    if result != ManifestRelations.Valid {
      return false;
    }
    var assetsValid, media := CheckAssets(m);
    if !assetsValid {
      return false;
    }
    var seen: set<Link> := {};
    for k := 0 to |m.attachments|
      invariant seen == set i | 0 <= i < k :: m.attachments[i]
      invariant forall i :: 0 <= i < k ==> m.attachments[i].person in persons && m.attachments[i].media in media
      invariant forall i, j :: 0 <= i < j < k ==> m.attachments[i] != m.attachments[j]
    {
      var l := m.attachments[k];
      if l.person !in persons || l.media !in media || l in seen {
        return false;
      }
      seen := seen + {l};
    }
    for k := 0 to |m.persons|
      invariant forall i :: 0 <= i < k ==> m.persons[i].primary.Some? ==> m.persons[i].primary.value in media
    {
      if m.persons[k].primary.Some? && m.persons[k].primary.value !in media {
        return false;
      }
    }
    valid := true;
  }

  // ---- Restoring the rows ----

  // Uploads that were under way are not resumed, unfinished processing starts again.
  function RestoredStatus(status: Status): Status {
    match status
    case Pending => Rejected
    case Processing => Uploaded
    case _ => status
  }

  function RestoredAsset(a: MediaEntry): Asset {
    Asset(a.photo, RestoredStatus(a.status), a.deleted)
  }

  ghost predicate AssetsRestored(assets: seq<MediaEntry>, rows: map<Uuid, Asset>) {
    && (forall x :: x in rows ==> exists a :: a in assets && a.id == x)
    && (forall a :: a in assets ==> a.id in rows && rows[a.id] == RestoredAsset(a))
  }

  ghost predicate PersonsRestored(persons: seq<PersonEntry>, rows: map<Uuid, PersonRow>) {
    && (forall x :: x in rows ==> exists p :: p in persons && p.id == x)
    && (forall p :: p in persons ==> p.id in rows && rows[p.id] == PersonRow(p.deleted, p.primary))
  }

  ghost predicate RestoredAs(m: MediaManifest, db: Db) {
    && AssetsRestored(m.assets, db.assets) && PersonsRestored(m.persons, db.persons)
    && forall l :: l in db.links <==> l in m.attachments
  }

  // The rows of the assets, and the assets that are handed to processing.
  method InsertMedia(assets: seq<MediaEntry>) returns (rows: map<Uuid, Asset>, jobs: seq<Uuid>)
    requires forall i, j :: 0 <= i < j < |assets| ==> assets[i].id != assets[j].id
    ensures AssetsRestored(assets, rows)
    ensures forall x :: x in jobs <==> x in rows && rows[x].status == Uploaded
    ensures forall i, j :: 0 <= i < j < |jobs| ==> jobs[i] != jobs[j]
  {
    rows, jobs := map[], [];
    for k := 0 to |assets|
      invariant AssetsRestored(assets[..k], rows)
      invariant forall x :: x in jobs <==> x in rows && rows[x].status == Uploaded
      invariant forall i, j :: 0 <= i < j < |jobs| ==> jobs[i] != jobs[j]
    {
      var a := assets[k];
      assert assets[..k + 1] == assets[..k] + [a];
      assert a.id !in rows;
      rows := rows[a.id := RestoredAsset(a)];
      if RestoredStatus(a.status) == Uploaded {
        jobs := jobs + [a.id];
      }
    }
    assert assets[..|assets|] == assets;
  }

  // Persons come first, without their pointers, which are set when the media are there.
  method InsertPersons(persons: seq<PersonEntry>) returns (rows: map<Uuid, PersonRow>)
    requires forall i, j :: 0 <= i < j < |persons| ==> persons[i].id != persons[j].id
    ensures rows.Keys == set p | p in persons :: p.id
    ensures forall p :: p in persons ==> rows[p.id] == PersonRow(p.deleted, None)
  {
    rows := map[];
    for k := 0 to |persons|
      invariant rows.Keys == set i | 0 <= i < k :: persons[i].id
      invariant forall i :: 0 <= i < k ==> rows[persons[i].id] == PersonRow(persons[i].deleted, None)
    {
      rows := rows[persons[k].id := PersonRow(persons[k].deleted, None)];
    }
  }

  method RestorePointers(persons: seq<PersonEntry>, inserted: map<Uuid, PersonRow>) returns (rows: map<Uuid, PersonRow>)
    requires forall i, j :: 0 <= i < j < |persons| ==> persons[i].id != persons[j].id
    requires inserted.Keys == set p | p in persons :: p.id
    requires forall p :: p in persons ==> inserted[p.id] == PersonRow(p.deleted, None)
    ensures PersonsRestored(persons, rows)
  {
    rows := inserted;
    for k := 0 to |persons|
      invariant rows.Keys == inserted.Keys
      invariant forall i :: 0 <= i < |persons| ==>
        rows[persons[i].id] == PersonRow(persons[i].deleted, if i < k then persons[i].primary else None)
    {
      if persons[k].primary.Some? {
        rows := rows[persons[k].id := rows[persons[k].id].(primary := persons[k].primary)];
      }
    }
  }

  method InsertAttachments(attachments: seq<Link>) returns (links: set<Link>)
    ensures forall l :: l in links <==> l in attachments
  {
    links := {};
    for k := 0 to |attachments|
      invariant forall l :: l in links <==> l in attachments[..k]
    {
      assert attachments[..k + 1] == attachments[..k] + [attachments[k]];
      links := links + {attachments[k]};
    }
    assert attachments[..|attachments|] == attachments;
  }

  method RestoreRows(m: MediaManifest) returns (db: Db, jobs: seq<Uuid>)
    requires MediaValid(m)
    ensures RestoredAs(m, db)
    ensures forall x :: x in jobs <==> x in db.assets && db.assets[x].status == Uploaded
    ensures forall i, j :: 0 <= i < j < |jobs| ==> jobs[i] != jobs[j]
  {
    var inserted := InsertPersons(m.persons);
    var assets, enqueued := InsertMedia(m.assets);
    jobs := enqueued;
    var links := InsertAttachments(m.attachments);
    var persons := RestorePointers(m.persons, inserted);
    db := Db(assets, persons, links);
  }

  // ---- Which manifests are safe ----

  // Every primary medium is attached and ready, and no attached photo has yet to be processed.
  ghost predicate SafeToRestore(m: MediaManifest) {
    && (forall p :: p in m.persons && p.primary.Some? ==>
          && Link(p.id, p.primary.value) in m.attachments
          && exists a :: a in m.assets && a.id == p.primary.value && a.status == Ready && !a.deleted)
    && (forall l, a :: l in m.attachments && a in m.assets && a.id == l.media && a.photo && !a.deleted ==>
          a.status != Uploaded && a.status != Processing)
  }

  lemma SafePointers(m: MediaManifest, db: Db)
    requires MediaValid(m) && RestoredAs(m, db)
    ensures (forall p :: p in db.persons ==> PointerOk(db, p)) <==>
      forall p :: p in m.persons && p.primary.Some? ==>
        && Link(p.id, p.primary.value) in m.attachments
        && exists a :: a in m.assets && a.id == p.primary.value && a.status == Ready && !a.deleted
  {
    forall p | p in m.persons && p.primary.Some?
      ensures PointerOk(db, p.id) <==>
        && Link(p.id, p.primary.value) in m.attachments
        && exists a :: a in m.assets && a.id == p.primary.value && a.status == Ready && !a.deleted
    {
      var i :| 0 <= i < |m.persons| && m.persons[i] == p;
      var a :| a in m.assets && a.id == p.primary.value;
      assert db.assets[a.id] == RestoredAsset(a);
    }
    forall x | x in db.persons ensures exists p :: p in m.persons && p.id == x && db.persons[x] == PersonRow(p.deleted, p.primary) {
      var p :| p in m.persons && p.id == x;
    }
  }

  lemma SafeLinks(m: MediaManifest, db: Db)
    requires MediaValid(m) && RestoredAs(m, db)
    ensures (forall l :: l in db.links ==> LinkOk(db, l)) <==>
      forall l, a :: l in m.attachments && a in m.assets && a.id == l.media && a.photo && !a.deleted ==>
        a.status != Uploaded && a.status != Processing
  {
    forall l | l in m.attachments ensures l.person in db.persons && exists a :: a in m.assets && a.id == l.media {
      var i :| 0 <= i < |m.attachments| && m.attachments[i] == l;
    }
  }

  lemma SafeIsOk(m: MediaManifest, db: Db)
    requires MediaValid(m) && RestoredAs(m, db)
    ensures DbOk(db) <==> SafeToRestore(m)
  {
    SafePointers(m, db);
    SafeLinks(m, db);
  }

  // ---- What happens afterwards ----

  ghost predicate PrimariesHold(db: Db) {
    forall p :: p in db.persons ==> PointerOk(db, p)
  }

  function Restored(db: Db): System {
    System(db, map[])
  }

  lemma {:induction false} OkStaysOk(db: Db, events: seq<Event>)
    requires DbOk(db)
    ensures Inv(Run(Restored(db), events))
  {
    if events != [] {
      OkStaysOk(db, events[..|events| - 1]);
      StepKeepsInv(Run(Restored(db), events[..|events| - 1]), events[|events| - 1]);
    }
  }

  lemma RunSnoc(s: System, events: seq<Event>, e: Event)
    ensures Run(s, events + [e]) == Apply(Run(s, events), e)
  {
    assert (events + [e])[..|events|] == events;
  }

  lemma RunThree(s: System, a: Event, b: Event, c: Event)
    ensures Run(s, [a, b, c]) == Apply(Apply(Apply(s, a), b), c)
  {
    RunSnoc(s, [], a);
    RunSnoc(s, [a], b);
    RunSnoc(s, [a, b], c);
    assert [] + [a] == [a] && [a] + [b] == [a, b] && [a, b] + [c] == [a, b, c];
  }

  // An attached photo that has yet to be processed can be made primary.
  lemma UnfinishedCanBeChosen(db: Db, l: Link)
    requires l in db.links && l.person in db.persons && l.media in db.assets
    requires db.assets[l.media].photo && !db.assets[l.media].deleted && db.assets[l.media].status == Uploaded
    ensures var events := [SetPersonDeleted(0, l.person, false), BeginChoose(0, l.person, l.media), CommitChoose(0)];
      !PrimariesHold(Run(Restored(db), events).db)
  {
    var e1, e2, e3 := SetPersonDeleted(0, l.person, false), BeginChoose(0, l.person, l.media), CommitChoose(0);
    RunThree(Restored(db), e1, e2, e3);
    var s1 := Apply(Restored(db), e1);
    assert s1 == Restored(db.(persons := db.persons[l.person := db.persons[l.person].(deleted := false)]));
    var s2 := Apply(s1, e2);
    assert s2 == System(s1.db, map[0 := Choosing(l.person, l.media)]);
    var s3 := Apply(s2, e3);
    assert s3.db.persons[l.person].primary == Some(l.media) && s3.db.assets == db.assets;
    assert !PointerOk(s3.db, l.person);
  }

  lemma UnfinishedIsUploaded(m: MediaManifest, db: Db, l: Link)
    requires MediaValid(m) && RestoredAs(m, db) && l in m.attachments && !LinkOk(db, l)
    ensures l.person in db.persons && l.media in db.assets
    ensures db.assets[l.media].photo && !db.assets[l.media].deleted && db.assets[l.media].status == Uploaded
  {
    var i :| 0 <= i < |m.attachments| && m.attachments[i] == l;
    var a :| a in m.assets && a.id == l.media;
    assert db.assets[a.id] == RestoredAsset(a);
  }

  lemma UnsafeBreaks(m: MediaManifest, db: Db) returns (events: seq<Event>)
    requires MediaValid(m) && RestoredAs(m, db) && !DbOk(db)
    ensures !PrimariesHold(Run(Restored(db), events).db)
  {
    if PrimariesHold(db) {
      var l :| l in db.links && !LinkOk(db, l);
      UnfinishedIsUploaded(m, db, l);
      UnfinishedCanBeChosen(db, l);
      events := [SetPersonDeleted(0, l.person, false), BeginChoose(0, l.person, l.media), CommitChoose(0)];
    } else {
      events := [];
    }
  }

  // After a restore the primary media are attached and ready in every interleaving, exactly if the manifest was safe.
  lemma RestoredPrimariesHoldIff(m: MediaManifest, db: Db)
    requires MediaValid(m) && RestoredAs(m, db)
    ensures (forall events: seq<Event> :: PrimariesHold(Run(Restored(db), events).db)) <==> SafeToRestore(m)
  {
    SafeIsOk(m, db);
    if DbOk(db) {
      forall events: seq<Event> ensures PrimariesHold(Run(Restored(db), events).db) {
        OkStaysOk(db, events);
      }
    } else {
      var events := UnsafeBreaks(m, db);
    }
  }

  // ---- Backups of trees that have grown here ----

  // The manifest lists the rows of the tables, each once.
  ghost predicate Describes(m: MediaManifest, db: Db) {
    && PersonIds(m) == db.persons.Keys && MediaIds(m) == db.assets.Keys && (forall l :: l in m.attachments <==> l in db.links)
    && (forall p :: p in m.persons ==> p.id in db.persons && db.persons[p.id] == PersonRow(p.deleted, p.primary))
    && (forall a :: a in m.assets ==> a.id in db.assets && db.assets[a.id] == Asset(a.photo, a.status, a.deleted))
    && (forall i, j :: 0 <= i < j < |m.persons| ==> m.persons[i].id != m.persons[j].id)
    && (forall i, j :: 0 <= i < j < |m.assets| ==> m.assets[i].id != m.assets[j].id)
    && (forall i, j :: 0 <= i < j < |m.attachments| ==> m.attachments[i] != m.attachments[j])
  }

  lemma DescribedIsValid(m: MediaManifest, db: Db)
    requires DbOk(db) && Describes(m, db) && 0 !in db.persons && 0 !in db.assets
    ensures MediaValid(m)
  {
    forall i | 0 <= i < |m.persons| ensures m.persons[i].id != 0 {
      assert m.persons[i] in m.persons;
    }
    forall i | 0 <= i < |m.assets| ensures m.assets[i].id != 0 {
      assert m.assets[i] in m.assets;
    }
    forall i | 0 <= i < |m.attachments|
      ensures m.attachments[i].person in PersonIds(m) && m.attachments[i].media in MediaIds(m)
    {
      assert m.attachments[i] in db.links && LinkOk(db, m.attachments[i]);
    }
    forall i | 0 <= i < |m.persons| && m.persons[i].primary.Some? ensures m.persons[i].primary.value in MediaIds(m) {
      assert m.persons[i] in m.persons && PointerOk(db, m.persons[i].id);
    }
  }

  lemma DescribedIsSafe(m: MediaManifest, db: Db)
    requires DbOk(db) && Orderly(db) && Describes(m, db)
    ensures SafeToRestore(m)
  {
    forall p | p in m.persons && p.primary.Some?
      ensures Link(p.id, p.primary.value) in m.attachments
      ensures exists a :: a in m.assets && a.id == p.primary.value && a.status == Ready && !a.deleted
    {
      assert PointerOk(db, p.id) && p.primary.value in MediaIds(m);
      var a :| a in m.assets && a.id == p.primary.value;
    }
    forall l, a | l in m.attachments && a in m.assets && a.id == l.media && a.photo && !a.deleted
      ensures a.status != Uploaded && a.status != Processing
    {
      assert HasBeenReady(db, l);
    }
  }

  lemma RestoredIsOrderly(m: MediaManifest, db: Db, restored: Db)
    requires DbOk(db) && Orderly(db) && Describes(m, db) && RestoredAs(m, restored)
    ensures Orderly(restored)
  {
    forall x | x in restored.assets ensures AssetOk(restored.assets[x]) {
      var a :| a in m.assets && a.id == x;
      assert AssetOk(db.assets[a.id]);
    }
    forall l | l in restored.links ensures HasBeenReady(restored, l) {
      assert HasBeenReady(db, l) && l.media in MediaIds(m);
      var a :| a in m.assets && a.id == l.media;
    }
  }

  // Every backup of a tree that has grown here passes the checks, is safe, and restores to a tree of the same kind.
  lemma BackupsAreSafe(events: seq<Event>, m: MediaManifest, restored: Db)
    requires var db := Run(EMPTY, events).db; Describes(m, db) && 0 !in db.persons && 0 !in db.assets
    requires RestoredAs(m, restored)
    ensures MediaValid(m) && SafeToRestore(m) && DbOk(restored) && Orderly(restored)
  {
    RunsKeepInv(events);
    var db := Run(EMPTY, events).db;
    DescribedIsValid(m, db);
    DescribedIsSafe(m, db);
    RestoredIsOrderly(m, db, restored);
    SafeIsOk(m, restored);
  }

  // The checks do not ask for it: a manifest whose primary medium has yet to be processed passes them.
  lemma ChecksAdmitUnsafe()
    ensures var m := MediaManifest([PersonEntry(1, false, Some(2))], [MediaEntry(2, true, Processing, false)], [Link(1, 2)]);
      MediaValid(m) && !SafeToRestore(m)
  {
    var p, a, l := PersonEntry(1, false, Some(2)), MediaEntry(2, true, Processing, false), Link(1, 2);
    var m := MediaManifest([p], [a], [l]);
    assert p in m.persons && a in m.assets && l in m.attachments;
    assert 1 in PersonIds(m) && 2 in MediaIds(m);
  }
}
