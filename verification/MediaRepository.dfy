/** The media transactions as programs, each run while no other transaction is open. */
module MediaRepository {
  import opened Graphs
  import opened Texts
  import opened PrimaryMedia

  // One transaction after another on the committed tables.
  function Alone(db: Db): System {
    System(db, map[])
  }

  ghost function Attach(db: Db, p: Uuid, m: Uuid): Db {
    Apply(Apply(Apply(Alone(db), BeginAttach(0, p, m)), LockPerson(0)), CommitAttach(0)).db
  }

  ghost function Choose(db: Db, p: Uuid, m: Uuid): Db {
    Apply(Apply(Alone(db), BeginChoose(0, p, m)), CommitChoose(0)).db
  }

  ghost function Drop(db: Db, m: Uuid): Db {
    Apply(Apply(Apply(Alone(db), BeginDrop(0, m)), ClearPrimaries(0)), CommitDrop(0)).db
  }

  ghost function Reject(db: Db, m: Uuid): Db {
    Apply(Apply(Apply(Alone(db), BeginReject(0, m)), ClearPrimaries(0)), CommitReject(0)).db
  }

  ghost function Detach(db: Db, p: Uuid, m: Uuid): Db {
    Apply(Apply(Apply(Alone(db), BeginDetach(0, p, m)), Unlink(0)), CommitDetach(0)).db
  }

  function WithoutPointers(db: Db, m: Uuid): Db {
    db.(persons := ClearIn(db.persons, PrimaryOf(db, m), m))
  }

  lemma DropAlone(db: Db, m: Uuid)
    ensures Drop(db, m) ==
      if m in db.assets && !db.assets[m].deleted then WithoutPointers(WithStatus(db, m, Deleted, true), m) else db
  {
    if m in db.assets && !db.assets[m].deleted {
      var s1 := Apply(Alone(db), BeginDrop(0, m));
      assert s1 == System(db, map[0 := Dropping(m, None)]);
      assert Apply(s1, ClearPrimaries(0)) == System(db, map[0 := Dropping(m, Some(PrimaryOf(db, m)))]);
      assert PrimaryOf(WithStatus(db, m, Deleted, true), m) == PrimaryOf(db, m);
    } else {
      assert Apply(Alone(db), BeginDrop(0, m)) == Alone(db);
      assert Apply(Alone(db), ClearPrimaries(0)) == Alone(db);
    }
  }

  lemma RejectAlone(db: Db, m: Uuid)
    ensures Reject(db, m) ==
      if m in db.assets && !db.assets[m].deleted && db.assets[m].status == Processing
      then WithoutPointers(WithStatus(db, m, Rejected, false), m).(links := db.links - LinksOf(db, m)) else db
  {
    if m in db.assets && !db.assets[m].deleted && db.assets[m].status == Processing {
      var s1 := Apply(Alone(db), BeginReject(0, m));
      assert s1 == System(db, map[0 := Rejecting(m, None)]);
      assert Apply(s1, ClearPrimaries(0)) == System(db, map[0 := Rejecting(m, Some(PrimaryOf(db, m)))]);
      assert PrimaryOf(WithStatus(db, m, Rejected, false), m) == PrimaryOf(db, m);
    } else {
      assert Apply(Alone(db), BeginReject(0, m)) == Alone(db);
      assert Apply(Alone(db), ClearPrimaries(0)) == Alone(db);
    }
  }

  predicate LivePerson(db: Db, p: Uuid) {
    p in db.persons && !db.persons[p].deleted
  }

  lemma DetachAlone(db: Db, p: Uuid, m: Uuid)
    ensures Detach(db, p, m) ==
      if LivePerson(db, p) && Link(p, m) in db.links
      then db.(links := db.links - {Link(p, m)}, persons := ClearIn(db.persons, {p}, m)) else db
  {
    if LivePerson(db, p) {
      var s1 := Apply(Alone(db), BeginDetach(0, p, m));
      assert s1 == System(db, map[0 := Detaching(p, m, false)]);
      if Link(p, m) in db.links {
        assert Apply(s1, Unlink(0)) == System(db, map[0 := Detaching(p, m, true)]);
      } else {
        assert Apply(s1, Unlink(0)) == s1;
      }
    } else {
      assert Apply(Alone(db), BeginDetach(0, p, m)) == Alone(db);
      assert Apply(Alone(db), Unlink(0)) == Alone(db);
    }
  }

  datatype ChoiceResult = Chosen | AttachmentNotFound | Conflict

  // A photo that the person may choose: attached, uploaded at least, and neither it nor the person deleted.
  predicate Choosable(db: Db, p: Uuid, m: Uuid) {
    && Link(p, m) in db.links && m in db.assets && db.assets[m].photo && !db.assets[m].deleted
    && db.assets[m].status in {Uploaded, Processing, Ready} && LivePerson(db, p)
  }

  predicate UnderProcessing(db: Db, m: Uuid) {
    m in db.assets && !db.assets[m].deleted && db.assets[m].status == Processing
  }

  predicate Gone(db: Db, m: Uuid) {
    m in db.assets && (db.assets[m].status == Rejected || db.assets[m].status == Deleted)
  }

  lemma NoPointersLeft(db: Db, m: Uuid)
    ensures PrimaryOf(WithoutPointers(db, m), m) == {}
  {
    forall p | p in db.persons ensures WithoutPointers(db, m).persons[p].primary != Some(m) {
      assert db.persons[p].primary == Some(m) ==> p in PrimaryOf(db, m);
    }
  }

  class Repository {
    var db: Db

    constructor ()
      ensures db == EMPTY.db
    {
      db := EMPTY.db;
    }

    method SetStatus(m: Uuid, status: Status)
      requires m in db.assets
      modifies this
      ensures db == WithStatus(old(db), m, status, status == Deleted)
    {
      db := db.(assets := db.assets[m := db.assets[m].(status := status, deleted := status == Deleted)]);
    }

    // Clears the pointer of everybody whose primary medium this is.
    method ClearPointers(m: Uuid)
      modifies this
      ensures db == WithoutPointers(old(db), m)
    {
      var rest := db.persons.Keys;
      while rest != {}
        invariant rest <= db.persons.Keys && db.persons.Keys == old(db).persons.Keys
        invariant db == old(db).(persons := db.persons)
        invariant forall p :: p in db.persons ==>
          db.persons[p] == if p in rest then old(db).persons[p] else ClearIn(old(db).persons, PrimaryOf(old(db), m), m)[p]
        decreases rest
      {
        var p :| p in rest;
        rest := rest - {p};
        if db.persons[p].primary == Some(m) {
          assert p in PrimaryOf(old(db), m);
          db := db.(persons := db.persons[p := db.persons[p].(primary := None)]);
        }
      }
      assert db.persons == ClearIn(old(db).persons, PrimaryOf(old(db), m), m);
    }

    method CompleteUpload(m: Uuid) returns (ok: bool)
      modifies this
      ensures db == Apply(Alone(old(db)), PrimaryMedia.CompleteUpload(0, m)).db
      ensures ok <==> m in old(db).assets && old(db).assets[m].status == Pending && !old(db).assets[m].deleted
    {
      ok := m in db.assets && db.assets[m].status == Pending && !db.assets[m].deleted;
      if ok {
        db := db.(assets := db.assets[m := db.assets[m].(status := Uploaded)]);
      }
    }

    // The status the worker goes on with.
    method AcquireForProcessing(m: Uuid) returns (status: Option<Status>)
      modifies this
      ensures db == Apply(Alone(old(db)), PrimaryMedia.AcquireForProcessing(0, m)).db
      ensures status == if m in db.assets then Some(db.assets[m].status) else None
    {
      if m !in db.assets {
        return None;
      }
      if db.assets[m].status == Uploaded && !db.assets[m].deleted {
        db := db.(assets := db.assets[m := db.assets[m].(status := Processing)]);
      }
      status := Some(db.assets[m].status);
    }

    method MarkProcessingReady(m: Uuid) returns (ok: bool)
      modifies this
      ensures db == Apply(Alone(old(db)), MarkReady(0, m)).db
      ensures ok <==> UnderProcessing(old(db), m) || (m in old(db).assets && old(db).assets[m].status == Ready)
      ensures ok ==> db.assets[m].status == Ready
    {
      if m !in db.assets || (db.assets[m].status != Ready && (db.assets[m].status != Processing || db.assets[m].deleted)) {
        return false;
      }
      if db.assets[m].status == Processing {
        db := db.(assets := db.assets[m := db.assets[m].(status := Ready)]);
      }
      ok := true;
    }

    method AttachToPersonEditable(p: Uuid, m: Uuid) returns (ok: bool)
      modifies this
      ensures db == Attach(old(db), p, m)
      ensures ok <==> IsReady(old(db), m) && LivePerson(old(db), p) && Link(p, m) !in old(db).links
    {
      ok := false;
      if m in db.assets && !db.assets[m].deleted && db.assets[m].status == Ready && LivePerson(db, p) {
        ok := Link(p, m) !in db.links;
        db := db.(links := db.links + {Link(p, m)});
      }
    }

    // `current` tells whether the caller knows the person's version.
    method SetPrimaryPersonMediaEditable(p: Uuid, m: Uuid, current: bool) returns (result: ChoiceResult)
      modifies this
      ensures result == AttachmentNotFound <==> !Choosable(old(db), p, m)
      ensures result == Conflict <==> Choosable(old(db), p, m) && !current
      ensures db == if result == Chosen then Choose(old(db), p, m) else old(db)
      ensures result == Chosen ==> db.persons[p].primary == Some(m) && Link(p, m) in db.links
    {
      if !Choosable(db, p, m) {
        return AttachmentNotFound;
      }
      if !current {
        return Conflict;
      }
      db := db.(persons := db.persons[p := db.persons[p].(primary := Some(m))]);
      result := Chosen;
    }

    // `current` tells whether the caller knows the asset's version.
    method SoftDeleteEditable(m: Uuid, current: bool) returns (ok: bool)
      modifies this
      ensures db == if current then Drop(old(db), m) else old(db)
      ensures ok <==> m in old(db).assets && !old(db).assets[m].deleted && current
      ensures ok ==> PrimaryOf(db, m) == {}
    {
      ok := m in db.assets && !db.assets[m].deleted && current;
      if ok {
        SetStatus(m, Deleted);
        NoPointersLeft(db, m);
        ClearPointers(m);
      }
      DropAlone(old(db), m);
    }

    // An asset that is rejected or deleted already counts as success.
    method RejectProcessing(m: Uuid) returns (ok: bool)
      modifies this
      ensures db == Reject(old(db), m)
      ensures ok <==> UnderProcessing(old(db), m) || Gone(old(db), m)
      ensures ok ==> Gone(db, m)
      ensures UnderProcessing(old(db), m) ==> PrimaryOf(db, m) == {} && LinksOf(db, m) == {}
    {
      ok := UnderProcessing(db, m) || Gone(db, m);
      if UnderProcessing(db, m) {
        SetStatus(m, Rejected);
        NoPointersLeft(db, m);
        ClearPointers(m);
        db := db.(links := db.links - LinksOf(db, m));
      }
      RejectAlone(old(db), m);
    }

    method DetachFromPersonEditable(p: Uuid, m: Uuid) returns (ok: bool)
      modifies this
      ensures db == Detach(old(db), p, m)
      ensures ok <==> LivePerson(old(db), p) && Link(p, m) in old(db).links
      ensures ok ==> Link(p, m) !in db.links && db.persons[p].primary != Some(m)
    {
      ok := LivePerson(db, p) && Link(p, m) in db.links;
      if ok {
        db := db.(links := db.links - {Link(p, m)});
        if db.persons[p].primary == Some(m) {
          db := db.(persons := db.persons[p := db.persons[p].(primary := None)]);
        }
        assert db.persons == ClearIn(old(db).persons, {p}, m);
      }
      DetachAlone(old(db), p, m);
    }
  }
}
