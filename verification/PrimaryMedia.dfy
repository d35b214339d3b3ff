/** Media assets, attachments and primary pointers under concurrent transactions with row locks. */
module PrimaryMedia {
  import opened Graphs
  import opened Texts

  datatype Status = Pending | Uploaded | Processing | Ready | Rejected | Deleted

  datatype Asset = Asset(photo: bool, status: Status, deleted: bool)

  datatype PersonRow = PersonRow(deleted: bool, primary: Option<Uuid>)

  datatype Link = Link(person: Uuid, media: Uuid)

  // The committed tables of one tree.
  datatype Db = Db(assets: map<Uuid, Asset>, persons: map<Uuid, PersonRow>, links: set<Link>)

  // Open transactions, with what their statements have locked or written so far. Writes appear in the tables when the
  // transaction commits; `cleared` are the persons whose pointers the transaction has cleared.
  datatype Tx =
    | Attaching(person: Uuid, media: Uuid, personLocked: bool)
    | Choosing(person: Uuid, media: Uuid)
    | Dropping(media: Uuid, cleared: Option<set<Uuid>>)
    | Rejecting(media: Uuid, cleared: Option<set<Uuid>>)
    | Detaching(person: Uuid, media: Uuid, unlinked: bool)

  datatype System = System(db: Db, txs: map<nat, Tx>)

  // ---- Row locks ----

  predicate SharesAsset(tx: Tx, m: Uuid) {
    (tx.Attaching? || tx.Choosing?) && tx.media == m
  }

  predicate OwnsAsset(tx: Tx, m: Uuid) {
    (tx.Dropping? || tx.Rejecting?) && tx.media == m
  }

  predicate SharesPerson(tx: Tx, p: Uuid) {
    ((tx.Attaching? && tx.personLocked) || tx.Choosing? || tx.Detaching?) && tx.person == p
  }

  predicate OwnsPerson(tx: Tx, p: Uuid) {
    (tx.Dropping? || tx.Rejecting?) && tx.cleared.Some? && p in tx.cleared.value
  }

  predicate SharesLink(tx: Tx, l: Link) {
    tx.Choosing? && l == Link(tx.person, tx.media)
  }

  predicate OwnsLink(tx: Tx, l: Link) {
    tx.Detaching? && tx.unlinked && l == Link(tx.person, tx.media)
  }

  predicate AssetFree(s: System, t: nat, m: Uuid) {
    forall u :: u in s.txs && u != t ==> !OwnsAsset(s.txs[u], m) && !SharesAsset(s.txs[u], m)
  }

  predicate AssetShareable(s: System, t: nat, m: Uuid) {
    forall u :: u in s.txs && u != t ==> !OwnsAsset(s.txs[u], m)
  }

  predicate PersonFree(s: System, t: nat, p: Uuid) {
    forall u :: u in s.txs && u != t ==> !OwnsPerson(s.txs[u], p) && !SharesPerson(s.txs[u], p)
  }

  predicate PersonShareable(s: System, t: nat, p: Uuid) {
    forall u :: u in s.txs && u != t ==> !OwnsPerson(s.txs[u], p)
  }

  predicate LinkFree(s: System, t: nat, l: Link) {
    forall u :: u in s.txs && u != t ==> !OwnsLink(s.txs[u], l) && !SharesLink(s.txs[u], l)
  }

  predicate LinkShareable(s: System, t: nat, l: Link) {
    forall u :: u in s.txs && u != t ==> !OwnsLink(s.txs[u], l)
  }

  // ---- Steps ----

  datatype Event =
    | CreateAsset(m: Uuid, photo: bool)
    | CompleteUpload(t: nat, m: Uuid)
    | AcquireForProcessing(t: nat, m: Uuid)
    | MarkReady(t: nat, m: Uuid)
    | ExpirePending(t: nat, m: Uuid)
    | Purge(t: nat, m: Uuid)
    | CreatePerson(p: Uuid)
    | SetPersonDeleted(t: nat, p: Uuid, deleted: bool)
    | BeginAttach(t: nat, p: Uuid, m: Uuid)
    | LockPerson(t: nat)
    | CommitAttach(t: nat)
    | BeginChoose(t: nat, p: Uuid, m: Uuid)
    | CommitChoose(t: nat)
    | BeginDrop(t: nat, m: Uuid)
    | BeginReject(t: nat, m: Uuid)
    | ClearPrimaries(t: nat)
    | CommitDrop(t: nat)
    | CommitReject(t: nat)
    | BeginDetach(t: nat, p: Uuid, m: Uuid)
    | Unlink(t: nat)
    | CommitDetach(t: nat)
    | Rollback(t: nat)

  function Open(s: System, t: nat, tx: Tx): System {
    s.(txs := s.txs[t := tx])
  }

  function Close(s: System, t: nat, db: Db): System {
    System(db, s.txs - {t})
  }

  // A single guarded update of an asset's status, in a transaction of its own.
  function Move(s: System, t: nat, m: Uuid, from: Status, next: Asset -> Asset): System {
    if t in s.txs || m !in s.db.assets || !AssetFree(s, t, m) || s.db.assets[m].deleted || s.db.assets[m].status != from then s
    else s.(db := s.db.(assets := s.db.assets[m := next(s.db.assets[m])]))
  }

  function PrimaryOf(db: Db, m: Uuid): set<Uuid> {
    set p | p in db.persons && db.persons[p].primary == Some(m)
  }

  function ClearIn(persons: map<Uuid, PersonRow>, cleared: set<Uuid>, m: Uuid): map<Uuid, PersonRow> {
    map p | p in persons :: if p in cleared && persons[p].primary == Some(m) then persons[p].(primary := None) else persons[p]
  }

  function LinksOf(db: Db, m: Uuid): set<Link> {
    set l | l in db.links && l.media == m
  }

  function WithStatus(db: Db, m: Uuid, status: Status, deleted: bool): Db
    requires m in db.assets
  {
    db.(assets := db.assets[m := db.assets[m].(status := status, deleted := deleted)])
  }

  // An event that its guard does not allow changes nothing: the statement waits, fails or matches no row.
  function Apply(s: System, e: Event): System {
    match e
    case CreateAsset(m, photo) =>
      if m in s.db.assets then s else s.(db := s.db.(assets := s.db.assets[m := Asset(photo, Pending, false)]))
    case CompleteUpload(t, m) => Move(s, t, m, Pending, (a: Asset) => a.(status := Uploaded))
    case AcquireForProcessing(t, m) => Move(s, t, m, Uploaded, (a: Asset) => a.(status := Processing))
    case MarkReady(t, m) => Move(s, t, m, Processing, (a: Asset) => a.(status := Ready))
    case ExpirePending(t, m) => Move(s, t, m, Pending, (a: Asset) => a.(status := Deleted, deleted := true))
    case Purge(t, m) =>
      if t in s.txs || m !in s.db.assets || !AssetFree(s, t, m) || PrimaryOf(s.db, m) != {} then s
      else if s.db.assets[m].status !in {Pending, Deleted, Rejected} || !(forall l :: l in LinksOf(s.db, m) ==> LinkFree(s, t, l)) then s
      else s.(db := s.db.(assets := s.db.assets - {m}, links := s.db.links - LinksOf(s.db, m)))
    case CreatePerson(p) =>
      if p in s.db.persons then s else s.(db := s.db.(persons := s.db.persons[p := PersonRow(false, None)]))
    case SetPersonDeleted(t, p, deleted) =>
      if t in s.txs || p !in s.db.persons || !PersonFree(s, t, p) then s
      else s.(db := s.db.(persons := s.db.persons[p := s.db.persons[p].(deleted := deleted)]))
    case BeginAttach(t, p, m) =>
      if t in s.txs || m !in s.db.assets || s.db.assets[m].deleted || s.db.assets[m].status != Ready || !AssetShareable(s, t, m) then s
      else Open(s, t, Attaching(p, m, false))
    case LockPerson(t) =>
      if t !in s.txs || !s.txs[t].Attaching? then s else
      var p := s.txs[t].person;
      if p !in s.db.persons || s.db.persons[p].deleted || !PersonShareable(s, t, p) then s
      else Open(s, t, Attaching(p, s.txs[t].media, true))
    case CommitAttach(t) =>
      if t !in s.txs || !s.txs[t].Attaching? || !s.txs[t].personLocked then s
      else Close(s, t, s.db.(links := s.db.links + {Link(s.txs[t].person, s.txs[t].media)}))
    case BeginChoose(t, p, m) =>
      if t in s.txs || Link(p, m) !in s.db.links || m !in s.db.assets || p !in s.db.persons then s
      else if !s.db.assets[m].photo || s.db.assets[m].deleted || s.db.assets[m].status !in {Uploaded, Processing, Ready} then s
      else if s.db.persons[p].deleted || !AssetShareable(s, t, m) || !PersonShareable(s, t, p) || !LinkShareable(s, t, Link(p, m)) then s
      else Open(s, t, Choosing(p, m))
    case CommitChoose(t) =>
      if t !in s.txs || !s.txs[t].Choosing? then s else
      var p := s.txs[t].person;
      if p !in s.db.persons || s.db.persons[p].deleted || !PersonFree(s, t, p) then s
      else Close(s, t, s.db.(persons := s.db.persons[p := s.db.persons[p].(primary := Some(s.txs[t].media))]))
    case BeginDrop(t, m) =>
      if t in s.txs || m !in s.db.assets || s.db.assets[m].deleted || !AssetFree(s, t, m) then s else Open(s, t, Dropping(m, None))
    case BeginReject(t, m) =>
      if t in s.txs || m !in s.db.assets || s.db.assets[m].deleted || s.db.assets[m].status != Processing || !AssetFree(s, t, m) then s
      else Open(s, t, Rejecting(m, None))
    case ClearPrimaries(t) =>
      if t !in s.txs || !(s.txs[t].Dropping? || s.txs[t].Rejecting?) || s.txs[t].cleared.Some? then s else
      var cleared := PrimaryOf(s.db, s.txs[t].media);
      if !(forall p :: p in cleared ==> PersonFree(s, t, p)) then s
      else Open(s, t, s.txs[t].(cleared := Some(cleared)))
    case CommitDrop(t) =>
      if t !in s.txs || !s.txs[t].Dropping? || s.txs[t].cleared == None || s.txs[t].media !in s.db.assets then s else
      var m := s.txs[t].media;
      Close(s, t, WithStatus(s.db, m, Deleted, true).(persons := ClearIn(s.db.persons, s.txs[t].cleared.value, m)))
    case CommitReject(t) =>
      if t !in s.txs || !s.txs[t].Rejecting? || s.txs[t].cleared == None || s.txs[t].media !in s.db.assets then s else
      var m := s.txs[t].media;
      if !(forall l :: l in LinksOf(s.db, m) ==> LinkFree(s, t, l)) then s
      else Close(s, t, WithStatus(s.db, m, Rejected, false).(persons := ClearIn(s.db.persons, s.txs[t].cleared.value, m),
                                                           links := s.db.links - LinksOf(s.db, m)))
    case BeginDetach(t, p, m) =>
      if t in s.txs || p !in s.db.persons || s.db.persons[p].deleted || !PersonShareable(s, t, p) then s
      else Open(s, t, Detaching(p, m, false))
    case Unlink(t) =>
      if t !in s.txs || !s.txs[t].Detaching? || s.txs[t].unlinked then s else
      var l := Link(s.txs[t].person, s.txs[t].media);
      if l !in s.db.links || !LinkFree(s, t, l) then s else Open(s, t, s.txs[t].(unlinked := true))
    case CommitDetach(t) =>
      if t !in s.txs || !s.txs[t].Detaching? || !s.txs[t].unlinked then s else
      var p, m := s.txs[t].person, s.txs[t].media;
      if !PersonFree(s, t, p) then s
      else Close(s, t, s.db.(links := s.db.links - {Link(p, m)},
                             persons := if p in s.db.persons && !s.db.persons[p].deleted
                                        then ClearIn(s.db.persons, {p}, m) else s.db.persons))
    case Rollback(t) => s.(txs := s.txs - {t})
  }

  // ---- The invariant ----

  ghost predicate IsReady(db: Db, m: Uuid) {
    m in db.assets && db.assets[m].status == Ready && !db.assets[m].deleted
  }

  // A primary pointer names an attached, ready asset.
  ghost predicate PointerOk(db: Db, p: Uuid)
    requires p in db.persons
  {
    db.persons[p].primary.Some? ==> Link(p, db.persons[p].primary.value) in db.links && IsReady(db, db.persons[p].primary.value)
  }

  // An attached photo that nobody has deleted is ready, or at an end: only such photos may be chosen.
  ghost predicate LinkOk(db: Db, l: Link) {
    && l.person in db.persons && l.media in db.assets
    && (db.assets[l.media].photo && !db.assets[l.media].deleted ==> db.assets[l.media].status in {Ready, Rejected, Deleted})
  }

  ghost predicate TxOk(db: Db, tx: Tx) {
    match tx
    case Attaching(p, m, personLocked) => IsReady(db, m) && (personLocked ==> p in db.persons)
    case Choosing(p, m) => IsReady(db, m) && Link(p, m) in db.links
    case Dropping(m, cleared) => m in db.assets && !db.assets[m].deleted && (cleared.Some? ==> PrimaryOf(db, m) <= cleared.value)
    case Rejecting(m, _) => m in db.assets && db.assets[m].status == Processing
    case Detaching(p, _, _) => p in db.persons && !db.persons[p].deleted
  }

  ghost predicate Compatible(a: Tx, b: Tx) {
    && (forall m :: OwnsAsset(a, m) ==> !OwnsAsset(b, m) && !SharesAsset(b, m))
    && (forall p :: OwnsPerson(a, p) ==> !OwnsPerson(b, p) && !SharesPerson(b, p))
    && (forall l :: OwnsLink(a, l) ==> !OwnsLink(b, l) && !SharesLink(b, l))
  }

  ghost predicate DbOk(db: Db) {
    && (forall p :: p in db.persons ==> PointerOk(db, p))
    && (forall l :: l in db.links ==> LinkOk(db, l))
  }

  ghost predicate Inv(s: System) {
    && DbOk(s.db)
    && (forall t :: t in s.txs ==> TxOk(s.db, s.txs[t]))
    && (forall t, u :: t in s.txs && u in s.txs && t != u ==> Compatible(s.txs[t], s.txs[u]))
  }

  // A transaction that moves on to `tx` in state s, where all locks it newly takes are granted.
  ghost predicate Granted(s: System, t: nat, tx: Tx) {
    forall u :: u in s.txs && u != t ==> Compatible(tx, s.txs[u]) && Compatible(s.txs[u], tx)
  }

  // A new or advanced transaction that fits the others.
  lemma OpenKeepsInv(s: System, t: nat, tx: Tx)
    requires Inv(s) && TxOk(s.db, tx) && Granted(s, t, tx)
    ensures Inv(Open(s, t, tx))
  {
  }

  // A commit that leaves the other transactions' knowledge intact.
  lemma CloseKeepsInv(s: System, t: nat, db: Db)
    requires Inv(s) && DbOk(db)
    requires forall u :: u in s.txs && u != t ==> TxOk(db, s.txs[u])
    ensures Inv(Close(s, t, db))
  {
  }

  lemma TablesKeepInv(s: System, db: Db)
    requires Inv(s) && DbOk(db) && forall u :: u in s.txs ==> TxOk(db, s.txs[u])
    ensures Inv(s.(db := db))
  {
  }

  // ---- Steps keep it ----

  lemma MoveKeepsInv(s: System, t: nat, m: Uuid, from: Status, next: Asset -> Asset)
    requires Inv(s) && from in {Pending, Uploaded, Processing}
    requires forall a: Asset :: next(a).photo == a.photo
    ensures Inv(Move(s, t, m, from, next))
  {
    if Move(s, t, m, from, next) != s {
      var db := s.db.(assets := s.db.assets[m := next(s.db.assets[m])]);
      forall p | p in db.persons ensures PointerOk(db, p) {
        assert PointerOk(s.db, p);
      }
      forall l | l in db.links ensures LinkOk(db, l) {
        assert LinkOk(s.db, l);
      }
      forall u | u in s.txs ensures TxOk(db, s.txs[u]) {
        assert TxOk(s.db, s.txs[u]);
        assert PrimaryOf(db, m) == PrimaryOf(s.db, m);
        assert !OwnsAsset(s.txs[u], m) && !SharesAsset(s.txs[u], m);
      }
      TablesKeepInv(s, db);
    }
  }

  lemma PurgeKeepsInv(s: System, t: nat, m: Uuid)
    requires Inv(s)
    ensures Inv(Apply(s, Purge(t, m)))
  {
    if Apply(s, Purge(t, m)) != s {
      var db := s.db.(assets := s.db.assets - {m}, links := s.db.links - LinksOf(s.db, m));
      forall p | p in db.persons ensures PointerOk(db, p) {
        assert PointerOk(s.db, p);
        assert p !in PrimaryOf(s.db, m);
      }
      forall l | l in db.links ensures LinkOk(db, l) {
        assert LinkOk(s.db, l);
      }
      forall u | u in s.txs ensures TxOk(db, s.txs[u]) {
        assert TxOk(s.db, s.txs[u]);
        assert !OwnsAsset(s.txs[u], m) && !SharesAsset(s.txs[u], m);
        assert forall x :: PrimaryOf(db, x) == PrimaryOf(s.db, x);
      }
      TablesKeepInv(s, db);
    }
  }

  lemma NewRowsKeepInv(s: System, e: Event)
    requires Inv(s) && (e.CreateAsset? || e.CreatePerson? || e.SetPersonDeleted?)
    ensures Inv(Apply(s, e))
  {
    var db := Apply(s, e).db;
    if db != s.db {
      forall p | p in db.persons ensures PointerOk(db, p) {
        assert p in s.db.persons ==> PointerOk(s.db, p);
      }
      forall l | l in db.links ensures LinkOk(db, l) {
        assert LinkOk(s.db, l);
      }
      forall u | u in s.txs ensures TxOk(db, s.txs[u]) {
        assert TxOk(s.db, s.txs[u]);
        assert forall x :: PrimaryOf(db, x) == PrimaryOf(s.db, x);
        assert e.SetPersonDeleted? ==> !SharesPerson(s.txs[u], e.p);
      }
      TablesKeepInv(s, db);
    }
  }

  // Locks that nobody stands in the way of make a transaction compatible with all others.
  lemma LocksAreGranted(s: System, t: nat, tx: Tx)
    requires forall m :: SharesAsset(tx, m) ==> AssetShareable(s, t, m)
    requires forall m :: OwnsAsset(tx, m) ==> AssetFree(s, t, m)
    requires forall p :: SharesPerson(tx, p) ==> PersonShareable(s, t, p)
    requires forall p :: OwnsPerson(tx, p) ==> PersonFree(s, t, p)
    requires forall l :: SharesLink(tx, l) ==> LinkShareable(s, t, l)
    requires forall l :: OwnsLink(tx, l) ==> LinkFree(s, t, l)
    ensures Granted(s, t, tx)
  {
    forall u | u in s.txs && u != t ensures Compatible(tx, s.txs[u]) && Compatible(s.txs[u], tx) {
      forall m ensures OwnsAsset(tx, m) ==> !OwnsAsset(s.txs[u], m) && !SharesAsset(s.txs[u], m) {
      }
      forall p ensures OwnsPerson(tx, p) ==> !OwnsPerson(s.txs[u], p) && !SharesPerson(s.txs[u], p) {
      }
      forall l ensures OwnsLink(tx, l) ==> !OwnsLink(s.txs[u], l) && !SharesLink(s.txs[u], l) {
      }
    }
  }

  lemma BeginAttachKeepsInv(s: System, t: nat, p: Uuid, m: Uuid)
    requires Inv(s)
    ensures Inv(Apply(s, BeginAttach(t, p, m)))
  {
    if Apply(s, BeginAttach(t, p, m)) != s {
      LocksAreGranted(s, t, Attaching(p, m, false));
      OpenKeepsInv(s, t, Attaching(p, m, false));
    }
  }

  lemma LockPersonKeepsInv(s: System, t: nat)
    requires Inv(s)
    ensures Inv(Apply(s, LockPerson(t)))
  {
    if Apply(s, LockPerson(t)) != s {
      var p, m := s.txs[t].person, s.txs[t].media;
      assert TxOk(s.db, s.txs[t]);
      forall u | u in s.txs && u != t ensures !OwnsAsset(s.txs[u], m) {
        assert Compatible(s.txs[u], s.txs[t]) && SharesAsset(s.txs[t], m);
      }
      LocksAreGranted(s, t, Attaching(p, m, true));
      OpenKeepsInv(s, t, Attaching(p, m, true));
    }
  }

  lemma BeginChooseKeepsInv(s: System, t: nat, p: Uuid, m: Uuid)
    requires Inv(s)
    ensures Inv(Apply(s, BeginChoose(t, p, m)))
  {
    if Apply(s, BeginChoose(t, p, m)) != s {
      assert LinkOk(s.db, Link(p, m));
      LocksAreGranted(s, t, Choosing(p, m));
      OpenKeepsInv(s, t, Choosing(p, m));
    }
  }

  lemma BeginOwnKeepsInv(s: System, t: nat, tx: Tx)
    requires Inv(s) && t !in s.txs && TxOk(s.db, tx) && AssetFree(s, t, tx.media)
    requires (tx.Dropping? || tx.Rejecting?) && tx.cleared == None
    ensures Inv(Open(s, t, tx))
  {
    LocksAreGranted(s, t, tx);
    OpenKeepsInv(s, t, tx);
  }

  lemma BeginDetachKeepsInv(s: System, t: nat, p: Uuid, m: Uuid)
    requires Inv(s)
    ensures Inv(Apply(s, BeginDetach(t, p, m)))
  {
    if Apply(s, BeginDetach(t, p, m)) != s {
      LocksAreGranted(s, t, Detaching(p, m, false));
      OpenKeepsInv(s, t, Detaching(p, m, false));
    }
  }

  lemma UnlinkKeepsInv(s: System, t: nat)
    requires Inv(s)
    ensures Inv(Apply(s, Unlink(t)))
  {
    if Apply(s, Unlink(t)) != s {
      var p, m := s.txs[t].person, s.txs[t].media;
      assert TxOk(s.db, s.txs[t]);
      forall u | u in s.txs && u != t ensures !OwnsPerson(s.txs[u], p) {
        assert Compatible(s.txs[u], s.txs[t]) && SharesPerson(s.txs[t], p);
      }
      LocksAreGranted(s, t, Detaching(p, m, true));
      OpenKeepsInv(s, t, Detaching(p, m, true));
    }
  }

  lemma ClearingIsGranted(s: System, t: nat, tx: Tx, cleared: set<Uuid>)
    requires t in s.txs && Granted(s, t, s.txs[t]) && (s.txs[t].Dropping? || s.txs[t].Rejecting?)
    requires tx == s.txs[t].(cleared := Some(cleared)) && s.txs[t].cleared == None
    requires forall p :: p in cleared ==> PersonFree(s, t, p)
    ensures Granted(s, t, tx)
  {
    forall u | u in s.txs && u != t ensures Compatible(tx, s.txs[u]) && Compatible(s.txs[u], tx) {
      assert Compatible(s.txs[t], s.txs[u]) && Compatible(s.txs[u], s.txs[t]);
      forall p | p in cleared ensures !OwnsPerson(s.txs[u], p) && !SharesPerson(s.txs[u], p) {
        assert PersonFree(s, t, p);
      }
    }
  }

  lemma ClearingKeepsInv(s: System, t: nat)
    requires Inv(s)
    ensures Inv(Apply(s, ClearPrimaries(t)))
  {
    if Apply(s, ClearPrimaries(t)) != s {
      var cleared := PrimaryOf(s.db, s.txs[t].media);
      assert TxOk(s.db, s.txs[t]) && Granted(s, t, s.txs[t]);
      ClearingIsGranted(s, t, s.txs[t].(cleared := Some(cleared)), cleared);
      OpenKeepsInv(s, t, s.txs[t].(cleared := Some(cleared)));
    }
  }

  lemma AttachKeepsInv(s: System, t: nat)
    requires Inv(s)
    ensures Inv(Apply(s, CommitAttach(t)))
  {
    if Apply(s, CommitAttach(t)) != s {
      var db := Apply(s, CommitAttach(t)).db;
      assert TxOk(s.db, s.txs[t]);
      forall p | p in db.persons ensures PointerOk(db, p) {
        assert PointerOk(s.db, p);
      }
      forall u | u in s.txs && u != t ensures TxOk(db, s.txs[u]) {
        assert TxOk(s.db, s.txs[u]);
        assert forall x :: PrimaryOf(db, x) == PrimaryOf(s.db, x);
      }
      CloseKeepsInv(s, t, db);
    }
  }

  // A pointer can only be set to an asset that nobody is about to drop.
  lemma ChooseKeepsInv(s: System, t: nat)
    requires Inv(s)
    ensures Inv(Apply(s, CommitChoose(t)))
  {
    if Apply(s, CommitChoose(t)) != s {
      var db, m := Apply(s, CommitChoose(t)).db, s.txs[t].media;
      assert TxOk(s.db, s.txs[t]);
      forall p | p in db.persons ensures PointerOk(db, p) {
        assert PointerOk(s.db, p);
      }
      forall u | u in s.txs && u != t ensures TxOk(db, s.txs[u]) {
        assert TxOk(s.db, s.txs[u]) && Compatible(s.txs[u], s.txs[t]);
        assert SharesAsset(s.txs[t], m);
        assert forall x :: x != m ==> PrimaryOf(db, x) <= PrimaryOf(s.db, x);
      }
      CloseKeepsInv(s, t, db);
    }
  }

  lemma ClearedPointers(db: Db, cleared: set<Uuid>, m: Uuid)
    requires PrimaryOf(db, m) <= cleared
    ensures forall p :: p in db.persons ==>
      var after := ClearIn(db.persons, cleared, m)[p].primary;
      if db.persons[p].primary == Some(m) then after == None else after == db.persons[p].primary
  {
    forall p | p in db.persons && db.persons[p].primary == Some(m) ensures p in cleared {
      assert p in PrimaryOf(db, m);
    }
  }

  // Clearing pointers spoils nobody's knowledge.
  lemma ClearedTx(db: Db, next: Db, cleared: set<Uuid>, m: Uuid, tx: Tx)
    requires TxOk(db, tx) && !OwnsAsset(tx, m) && !SharesAsset(tx, m)
    requires next.persons == ClearIn(db.persons, cleared, m)
    requires forall x :: x != m ==> (x in next.assets <==> x in db.assets)
    requires forall x :: x != m && x in db.assets ==> next.assets[x] == db.assets[x]
    requires forall l :: l in db.links && l.media != m ==> l in next.links
    ensures TxOk(next, tx)
  {
    assert forall x :: PrimaryOf(next, x) <= PrimaryOf(db, x);
  }

  lemma DropKeepsInv(s: System, t: nat)
    requires Inv(s)
    ensures Inv(Apply(s, CommitDrop(t)))
  {
    if Apply(s, CommitDrop(t)) != s {
      var db, m := Apply(s, CommitDrop(t)).db, s.txs[t].media;
      assert TxOk(s.db, s.txs[t]) && OwnsAsset(s.txs[t], m);
      ClearedPointers(s.db, s.txs[t].cleared.value, m);
      forall p | p in db.persons ensures PointerOk(db, p) {
        assert PointerOk(s.db, p);
      }
      forall l | l in db.links ensures LinkOk(db, l) {
        assert LinkOk(s.db, l);
      }
      forall u | u in s.txs && u != t ensures TxOk(db, s.txs[u]) {
        assert TxOk(s.db, s.txs[u]) && Compatible(s.txs[t], s.txs[u]);
        ClearedTx(s.db, db, s.txs[t].cleared.value, m, s.txs[u]);
      }
      CloseKeepsInv(s, t, db);
    }
  }

  lemma ProcessingIsNoPrimary(db: Db, m: Uuid)
    requires DbOk(db) && m in db.assets && db.assets[m].status == Processing
    ensures PrimaryOf(db, m) == {}
  {
    forall p | p in db.persons ensures db.persons[p].primary != Some(m) {
      assert PointerOk(db, p);
    }
  }

  lemma RejectKeepsInv(s: System, t: nat)
    requires Inv(s)
    ensures Inv(Apply(s, CommitReject(t)))
  {
    if Apply(s, CommitReject(t)) != s {
      var db, m := Apply(s, CommitReject(t)).db, s.txs[t].media;
      assert TxOk(s.db, s.txs[t]) && OwnsAsset(s.txs[t], m);
      ProcessingIsNoPrimary(s.db, m);
      ClearedPointers(s.db, s.txs[t].cleared.value, m);
      forall p | p in db.persons ensures PointerOk(db, p) {
        assert PointerOk(s.db, p);
      }
      forall l | l in db.links ensures LinkOk(db, l) {
        assert LinkOk(s.db, l);
      }
      forall u | u in s.txs && u != t ensures TxOk(db, s.txs[u]) {
        assert TxOk(s.db, s.txs[u]) && Compatible(s.txs[t], s.txs[u]);
        ClearedTx(s.db, db, s.txs[t].cleared.value, m, s.txs[u]);
      }
      CloseKeepsInv(s, t, db);
    }
  }

  // Whoever removes a link clears the pointer that needs it; nobody who needs the link is under way.
  lemma DetachKeepsInv(s: System, t: nat)
    requires Inv(s)
    ensures Inv(Apply(s, CommitDetach(t)))
  {
    if Apply(s, CommitDetach(t)) != s {
      var db, p, m := Apply(s, CommitDetach(t)).db, s.txs[t].person, s.txs[t].media;
      assert TxOk(s.db, s.txs[t]) && OwnsLink(s.txs[t], Link(p, m));
      forall q | q in db.persons ensures PointerOk(db, q) {
        assert PointerOk(s.db, q);
      }
      forall l | l in db.links ensures LinkOk(db, l) {
        assert LinkOk(s.db, l);
      }
      forall u | u in s.txs && u != t ensures TxOk(db, s.txs[u]) {
        assert TxOk(s.db, s.txs[u]) && Compatible(s.txs[t], s.txs[u]);
        assert forall x :: PrimaryOf(db, x) <= PrimaryOf(s.db, x);
      }
      CloseKeepsInv(s, t, db);
    }
  }

  lemma StepKeepsInv(s: System, e: Event)
    requires Inv(s)
    ensures Inv(Apply(s, e))
  {
    match e
    case CreateAsset(_, _) => NewRowsKeepInv(s, e);
    case CreatePerson(_) => NewRowsKeepInv(s, e);
    case SetPersonDeleted(_, _, _) => NewRowsKeepInv(s, e);
    case CompleteUpload(t, m) => MoveKeepsInv(s, t, m, Pending, (a: Asset) => a.(status := Uploaded));
    case AcquireForProcessing(t, m) => MoveKeepsInv(s, t, m, Uploaded, (a: Asset) => a.(status := Processing));
    case MarkReady(t, m) => MoveKeepsInv(s, t, m, Processing, (a: Asset) => a.(status := Ready));
    case ExpirePending(t, m) => MoveKeepsInv(s, t, m, Pending, (a: Asset) => a.(status := Deleted, deleted := true));
    case Purge(t, m) => PurgeKeepsInv(s, t, m);
    case BeginAttach(t, p, m) => BeginAttachKeepsInv(s, t, p, m);
    case LockPerson(t) => LockPersonKeepsInv(s, t);
    case CommitAttach(t) => AttachKeepsInv(s, t);
    case BeginChoose(t, p, m) => BeginChooseKeepsInv(s, t, p, m);
    case CommitChoose(t) => ChooseKeepsInv(s, t);
    case BeginDrop(t, m) =>
      if Apply(s, e) != s {
        BeginOwnKeepsInv(s, t, Dropping(m, None));
      }
    case BeginReject(t, m) =>
      if Apply(s, e) != s {
        BeginOwnKeepsInv(s, t, Rejecting(m, None));
      }
    case ClearPrimaries(t) => ClearingKeepsInv(s, t);
    case CommitDrop(t) => DropKeepsInv(s, t);
    case CommitReject(t) => RejectKeepsInv(s, t);
    case BeginDetach(t, p, m) => BeginDetachKeepsInv(s, t, p, m);
    case Unlink(t) => UnlinkKeepsInv(s, t);
    case CommitDetach(t) => DetachKeepsInv(s, t);
    case Rollback(t) =>
  }

  // ---- Orderly tables ----

  ghost predicate AssetOk(a: Asset) {
    a.deleted <==> a.status == Deleted
  }

  // Attached assets have been ready.
  ghost predicate HasBeenReady(db: Db, l: Link) {
    l.media in db.assets && (db.assets[l.media].status == Ready || db.assets[l.media].status == Deleted)
  }

  // What holds in addition of trees that have grown here.
  ghost predicate Orderly(db: Db) {
    (forall m :: m in db.assets ==> AssetOk(db.assets[m])) && (forall l :: l in db.links ==> HasBeenReady(db, l))
  }

  lemma CommitKeepsOrder(s: System, e: Event)
    requires Inv(s) && Orderly(s.db)
    requires e.CommitAttach? || e.CommitDrop? || e.CommitReject?
    ensures Orderly(Apply(s, e).db)
  {
    if e.t in s.txs {
      assert TxOk(s.db, s.txs[e.t]);
    }
  }

  lemma StepKeepsOrder(s: System, e: Event)
    requires Inv(s) && Orderly(s.db)
    ensures Orderly(Apply(s, e).db)
  {
    var next := Apply(s, e).db;
    if e.CommitAttach? || e.CommitDrop? || e.CommitReject? {
      CommitKeepsOrder(s, e);
    } else {
      forall l | l in next.links ensures HasBeenReady(next, l) {
        assert HasBeenReady(s.db, l);
      }
    }
  }

  // An asset under processing is attached to nobody, so rejecting it finds no pointer and no link.
  lemma ProcessingIsUnattached(db: Db, m: Uuid)
    requires DbOk(db) && Orderly(db) && m in db.assets && db.assets[m].status == Processing
    ensures PrimaryOf(db, m) == {} && LinksOf(db, m) == {}
  {
    ProcessingIsNoPrimary(db, m);
    forall l | l in db.links ensures l.media != m {
      assert HasBeenReady(db, l);
    }
  }

  // ---- Over whole runs ----

  ghost function Run(s: System, events: seq<Event>): System {
    if events == [] then s else Apply(Run(s, events[..|events| - 1]), events[|events| - 1])
  }

  const EMPTY := System(Db(map[], map[], {}), map[])

  lemma {:induction false} RunsKeepInv(events: seq<Event>)
    ensures Inv(Run(EMPTY, events)) && Orderly(Run(EMPTY, events).db)
  {
    if events != [] {
      RunsKeepInv(events[..|events| - 1]);
      StepKeepsOrder(Run(EMPTY, events[..|events| - 1]), events[|events| - 1]);
      StepKeepsInv(Run(EMPTY, events[..|events| - 1]), events[|events| - 1]);
    }
  }

  // In every interleaving, a person's primary medium is attached to that person, ready and not deleted.
  lemma PrimaryIsAttachedAndReady(events: seq<Event>, p: Uuid)
    ensures var db := Run(EMPTY, events).db;
      p in db.persons && db.persons[p].primary.Some? ==>
        var m := db.persons[p].primary.value;
        Link(p, m) in db.links && m in db.assets && db.assets[m].status == Ready && !db.assets[m].deleted
  {
    RunsKeepInv(events);
    var db := Run(EMPTY, events).db;
    if p in db.persons {
      assert PointerOk(db, p);
    }
  }

  // How far an asset has come.
  function Rank(status: Status): int {
    match status
    case Pending => 0
    case Uploaded => 1
    case Processing => 2
    case Ready => 3
    case Rejected => 3
    case Deleted => 4
  }

  lemma CommitMovesForward(s: System, e: Event, m: Uuid)
    requires Inv(s) && Orderly(s.db) && m in s.db.assets && (e.CommitReject? || e.CommitDrop?)
    ensures var next := Apply(s, e).db.assets;
      m in next && (next[m].status == s.db.assets[m].status || Rank(next[m].status) > Rank(s.db.assets[m].status))
  {
    if e.t in s.txs {
      assert TxOk(s.db, s.txs[e.t]) && AssetOk(s.db.assets[m]);
    }
  }

  // An asset's status only moves forward, never from ready to rejected or back; a purged asset was at an end.
  lemma StatusMovesForward(s: System, e: Event, m: Uuid)
    requires Inv(s) && Orderly(s.db) && m in s.db.assets
    ensures var next := Apply(s, e).db.assets;
      if m in next then next[m].status == s.db.assets[m].status || Rank(next[m].status) > Rank(s.db.assets[m].status)
      else s.db.assets[m].status in {Pending, Rejected, Deleted}
  {
    assert AssetOk(s.db.assets[m]);
    if e.CommitReject? || e.CommitDrop? {
      CommitMovesForward(s, e, m);
    }
  }
}
