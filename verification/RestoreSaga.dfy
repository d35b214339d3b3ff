/** Restoring a backup into a database and an object store that share no transaction. */
module RestoreSaga {
  import opened Graphs
  import opened Texts
  import opened BackupFiles
  import opened BackupArchive
  import opened Faults

  // A restore record names the restored tree and the export it came from.
  datatype Record = Record(tree: Uuid, exportId: Uuid)

  datatype World = World(trees: map<Uuid, Document>, records: set<Record>, objects: Store)

  // Restore records refer to existing trees.
  ghost predicate WorldOk(w: World) {
    forall r :: r in w.records ==> r.tree in w.trees
  }

  // `Rejected` has no effect, `Lost` took effect; both are reported as errors.
  datatype Commit = Accepted | Rejected | Lost

  // What goes wrong in a run: whether the transaction begins, the tree row and the other rows are written and the
  // check after a failed commit can be made; and how the i-th put and the deletion of the i-th uploaded object go.
  datatype Troubles = Troubles(begins: bool, treeWritten: bool, put: nat -> Fault, rowsWritten: bool, commit: Commit,
                           checkAnswers: bool, delete: nat -> Fault)

  datatype Put = Put(key: string, path: string)

  datatype Archive = Archive(document: Document, exportId: Uuid, files: Contents)

  function OriginalObjectKey(u: Printer, tree: Uuid, media: Uuid): string {
    Join(["trees", u(tree), "media", u(media), "original"], '/')
  }

  function VariantObjectKey(u: Printer, tree: Uuid, media: Uuid, kind: string): string {
    Join(["trees", u(tree), "media", u(media), "variants", kind + ".jpg"], '/')
  }

  function AssetPuts(u: Printer, tree: Uuid, assets: seq<Asset>): seq<Put> {
    if assets == [] then [] else
      var a := assets[|assets| - 1];
      AssetPuts(u, tree, assets[..|assets| - 1]) +
      if a.archivePath == "" then [] else [Put(OriginalObjectKey(u, tree, a.id), a.archivePath)]
  }

  function VariantPuts(u: Printer, tree: Uuid, variants: seq<Variant>): seq<Put> {
    if variants == [] then [] else
      var v := variants[|variants| - 1];
      VariantPuts(u, tree, variants[..|variants| - 1]) +
      if v.archivePath == "" then [] else [Put(VariantObjectKey(u, tree, v.mediaId, v.kind), v.archivePath)]
  }

  // The uploads a restore makes, in order.
  function PutsOf(u: Printer, d: Document): seq<Put> {
    AssetPuts(u, d.treeId, d.assets) + VariantPuts(u, d.treeId, d.variants)
  }

  // ---- Uploading ----

  datatype Progress = Progress(objects: Store, uploaded: seq<string>, failed: bool)

  // An object is stored only where there is none; the key of a confirmed upload is remembered.
  function PutOne(p: Progress, files: Contents, put: Put, fault: Fault): Progress {
    if put.path !in files || put.key in p.objects || fault == Fails then p.(failed := true)
    else
      var objects := p.objects[put.key := files[put.path]];
      if fault == LosesAnswer then Progress(objects, p.uploaded, true) else Progress(objects, p.uploaded + [put.key], false)
  }

  // The first failure ends the uploads.
  function PutAll(objects: Store, files: Contents, puts: seq<Put>, faults: nat -> Fault): Progress {
    if puts == [] then Progress(objects, [], false) else
      var p := PutAll(objects, files, puts[..|puts| - 1], faults);
      if p.failed then p else PutOne(p, files, puts[|puts| - 1], faults(|puts| - 1))
  }

  function DeleteOne(objects: Store, key: string, fault: Fault): Store {
    if fault == Fails then objects else objects - {key}
  }

  // Compensation: the first n uploaded objects are deleted, the latest first; a failed deletion does not end it.
  function Cleanup(objects: Store, keys: seq<string>, n: nat, faults: nat -> Fault): Store
    requires n <= |keys|
  {
    if n == 0 then objects else Cleanup(DeleteOne(objects, keys[n - 1], faults(n - 1)), keys, n - 1, faults)
  }

  // ---- The whole run ----

  datatype Outcome = Outcome(world: World, restored: bool)

  function Committed(w: World, a: Archive): World {
    w.(trees := w.trees[a.document.treeId := a.document], records := w.records + {Record(a.document.treeId, a.exportId)})
  }

  function Compensated(w: World, p: Progress, f: Troubles): Outcome {
    Outcome(w.(objects := Cleanup(p.objects, p.uploaded, |p.uploaded|, f.delete)), false)
  }

  // After a commit that reported an error, the restore record decides, if it can be read.
  function Judge(w: World, a: Archive, p: Progress, f: Troubles): Outcome {
    if f.checkAnswers && Record(a.document.treeId, a.exportId) in w.records
    then Outcome(w.(objects := p.objects), true)
    else Compensated(w, p, f)
  }

  function Run(u: Printer, w: World, a: Archive, f: Troubles): Outcome {
    if !f.begins || !f.treeWritten || a.document.treeId in w.trees then Outcome(w, false) else
    var p := PutAll(w.objects, a.files, PutsOf(u, a.document), f.put);
    if p.failed || !f.rowsWritten then Compensated(w, p, f) else
    match f.commit
    case Accepted => Outcome(Committed(w, a).(objects := p.objects), true)
    case Rejected => Judge(w, a, p, f)
    case Lost => Judge(Committed(w, a), a, p, f)
  }

  // The restorer refuses invalid archives before it does anything.
  ghost function Restored(e: Env, w: World, a: Archive, f: Troubles): Outcome {
    if a.document.treeId == 0 || !ValidArchive(e, a.document, a.files) then Outcome(w, false) else Run(e.uuid, w, a, f)
  }

  lemma {:induction false} FailureStands(objects: Store, files: Contents, puts: seq<Put>, faults: nat -> Fault, i: nat)
    requires i <= |puts| && PutAll(objects, files, puts[..i], faults).failed
    ensures PutAll(objects, files, puts, faults) == PutAll(objects, files, puts[..i], faults)
    decreases |puts| - i
  {
    if i == |puts| {
      assert puts[..i] == puts;
    } else {
      assert puts[..i + 1][..i] == puts[..i];
      FailureStands(objects, files, puts, faults, i + 1);
    }
  }

  class Restorer {
    var world: World

    constructor (w: World)
      ensures world == w
    {
      world := w;
    }

    method PutNewObject(key: string, body: Body, fault: Fault) returns (stored: bool)
      modifies this
      ensures stored <==> key !in old(world).objects && fault == Works
      ensures world == if key !in old(world).objects && fault != Fails
        then old(world).(objects := old(world).objects[key := body]) else old(world)
    {
      stored := false;
      if key !in world.objects && fault != Fails {
        world := world.(objects := world.objects[key := body]);
        stored := fault == Works;
      }
    }

    method RestoreObject(p: Progress, a: Archive, put: Put, fault: Fault) returns (next: Progress)
      requires world.objects == p.objects && !p.failed
      modifies this
      ensures next == PutOne(p, a.files, put, fault)
      ensures world == old(world).(objects := next.objects)
    {
      var stored := false;
      if put.path in a.files {
        stored := PutNewObject(put.key, a.files[put.path], fault);
      }
      next := Progress(world.objects, if stored then p.uploaded + [put.key] else p.uploaded, !stored);
    }

    method RestoreObjects(u: Printer, a: Archive, f: Troubles) returns (p: Progress)
      modifies this
      ensures p == PutAll(old(world).objects, a.files, PutsOf(u, a.document), f.put)
      ensures world == old(world).(objects := p.objects)
    {
      var puts := PutsOf(u, a.document);
      p := Progress(world.objects, [], false);
      for i := 0 to |puts|
        invariant !p.failed && p == PutAll(old(world).objects, a.files, puts[..i], f.put)
        invariant world == old(world).(objects := p.objects)
      {
        assert puts[..i + 1][..i] == puts[..i];
        p := RestoreObject(p, a, puts[i], f.put(i));
        if p.failed {
          FailureStands(old(world).objects, a.files, puts, f.put, i + 1);
          return;
        }
      }
      assert puts[..|puts|] == puts;
    }

    method CleanupObjects(keys: seq<string>, f: Troubles)
      modifies this
      ensures world == old(world).(objects := Cleanup(old(world).objects, keys, |keys|, f.delete))
    {
      var n := |keys|;
      while n > 0
        invariant 0 <= n <= |keys|
        invariant world == old(world).(objects := world.objects)
        invariant Cleanup(world.objects, keys, n, f.delete) == Cleanup(old(world).objects, keys, |keys|, f.delete)
      {
        n := n - 1;
        if f.delete(n) != Fails {
          world := world.(objects := world.objects - {keys[n]});
        }
      }
    }

    method Restore(e: Env, a: Archive, f: Troubles) returns (restored: bool)
      modifies this
      ensures Outcome(world, restored) == Restored(e, old(world), a, f)
    {
      restored := false;
      if a.document.treeId == 0 {
        return;
      }
      var valid := ValidateArchive(e, a.document, a.files);
      if !valid || !f.begins || !f.treeWritten || a.document.treeId in world.trees {
        return;
      }
      var p := RestoreObjects(e.uuid, a, f);
      if p.failed || !f.rowsWritten {
        CleanupObjects(p.uploaded, f);
        return;
      }
      if f.commit != Rejected {
        world := Committed(world, a);
      }
      if f.commit == Accepted {
        return true;
      }
      if f.checkAnswers && Record(a.document.treeId, a.exportId) in world.records {
        return true;
      }
      CleanupObjects(p.uploaded, f);
    }
  }

  // ---- What uploads and compensation do ----

  ghost function KeySet(keys: seq<string>): set<string> {
    set k | k in keys
  }

  ghost predicate Stray(objects: Store, files: Contents, puts: seq<Put>, faults: nat -> Fault, i: int) {
    0 <= i < |puts| && !PutAll(objects, files, puts[..i], faults).failed && faults(i) == LosesAnswer
    && puts[i].path in files && puts[i].key !in PutAll(objects, files, puts[..i], faults).objects
  }

  // An upload whose answer was lost leaves an object that nobody remembers.
  ghost predicate LeavesStray(objects: Store, files: Contents, puts: seq<Put>, faults: nat -> Fault) {
    exists i :: Stray(objects, files, puts, faults, i)
  }

  lemma {:induction false} UploadsAreNew(objects: Store, files: Contents, puts: seq<Put>, faults: nat -> Fault)
    ensures var p := PutAll(objects, files, puts, faults);
      && objects.Keys !! KeySet(p.uploaded) && objects.Keys + KeySet(p.uploaded) <= p.objects.Keys
      && (forall k :: k in objects ==> p.objects[k] == objects[k])
  {
    if puts != [] {
      UploadsAreNew(objects, files, puts[..|puts| - 1], faults);
      var p := PutAll(objects, files, puts[..|puts| - 1], faults);
      if !p.failed {
        var key := puts[|puts| - 1].key;
        assert KeySet(p.uploaded + [key]) == KeySet(p.uploaded) + {key};
      }
    }
  }

  lemma OneMorePut(objects: Store, files: Contents, puts: seq<Put>, faults: nat -> Fault)
    requires puts != []
    ensures var before, n := puts[..|puts| - 1], |puts| - 1;
      LeavesStray(objects, files, puts, faults) <==>
        LeavesStray(objects, files, before, faults) || Stray(objects, files, puts, faults, n)
  {
    var before, n := puts[..|puts| - 1], |puts| - 1;
    forall i | 0 <= i < n ensures Stray(objects, files, puts, faults, i) <==> Stray(objects, files, before, faults, i) {
      assert before[..i] == puts[..i];
    }
  }

  // One more upload is remembered unless its answer is lost.
  lemma PutIsRemembered(objects: Store, p: Progress, files: Contents, put: Put, fault: Fault)
    requires !p.failed && p.objects.Keys == objects.Keys + KeySet(p.uploaded)
    ensures var q := PutOne(p, files, put, fault);
      var stray := fault == LosesAnswer && put.path in files && put.key !in p.objects;
      (stray <==> q.objects.Keys != objects.Keys + KeySet(q.uploaded)) && (stray ==> q.failed)
  {
    assert KeySet(p.uploaded + [put.key]) == KeySet(p.uploaded) + {put.key};
  }

  // Without a stray object, everything new was remembered; with one, something was not.
  lemma {:induction false} UploadsAreRemembered(objects: Store, files: Contents, puts: seq<Put>, faults: nat -> Fault)
    ensures var p := PutAll(objects, files, puts, faults);
      LeavesStray(objects, files, puts, faults) <==> p.objects.Keys != objects.Keys + KeySet(p.uploaded)
    ensures !PutAll(objects, files, puts, faults).failed ==> !LeavesStray(objects, files, puts, faults)
  {
    if puts != [] {
      var before, n := puts[..|puts| - 1], |puts| - 1;
      UploadsAreRemembered(objects, files, before, faults);
      OneMorePut(objects, files, puts, faults);
      var p := PutAll(objects, files, before, faults);
      if !p.failed {
        PutIsRemembered(objects, p, files, puts[n], faults(n));
      }
    }
  }

  // Compensation removes exactly the uploaded objects whose deletion does not fail.
  lemma {:induction false} CleanupRemoves(objects: Store, keys: seq<string>, n: nat, faults: nat -> Fault)
    requires n <= |keys|
    ensures var gone := set i | 0 <= i < n && faults(i) != Fails :: keys[i];
      Cleanup(objects, keys, n, faults) == objects - gone
  {
    if n > 0 {
      CleanupRemoves(DeleteOne(objects, keys[n - 1], faults(n - 1)), keys, n - 1, faults);
    }
  }

  lemma {:induction false} UploadsDiffer(objects: Store, files: Contents, puts: seq<Put>, faults: nat -> Fault)
    ensures var keys := PutAll(objects, files, puts, faults).uploaded;
      forall i, j :: 0 <= i < j < |keys| ==> keys[i] != keys[j]
  {
    if puts != [] {
      var before := puts[..|puts| - 1];
      UploadsDiffer(objects, files, before, faults);
      UploadsAreNew(objects, files, before, faults);
      var p := PutAll(objects, files, before, faults);
      forall i | 0 <= i < |p.uploaded| ensures p.uploaded[i] in p.objects {
        assert p.uploaded[i] in KeySet(p.uploaded);
      }
    }
  }

  // Uploads that all succeeded stored every referenced file under its key.
  lemma {:induction false} UploadsAreStored(objects: Store, files: Contents, puts: seq<Put>, faults: nat -> Fault, i: nat)
    requires !PutAll(objects, files, puts, faults).failed && i < |puts|
    ensures puts[i].path in files
    ensures var p := PutAll(objects, files, puts, faults);
      puts[i].key in p.objects && p.objects[puts[i].key] == files[puts[i].path]
  {
    var before := puts[..|puts| - 1];
    if i < |before| {
      UploadsAreStored(objects, files, before, faults, i);
      assert before[i] == puts[i];
    }
  }

  // ---- Compensation undoes ----

  // What is known after the uploads: old objects are as they were, uploaded ones are new and different.
  ghost predicate Uploaded(objects: Store, p: Progress) {
    && objects.Keys !! KeySet(p.uploaded) && objects.Keys + KeySet(p.uploaded) <= p.objects.Keys
    && (forall k :: k in objects ==> p.objects[k] == objects[k])
    && (forall i, j :: 0 <= i < j < |p.uploaded| ==> p.uploaded[i] != p.uploaded[j])
  }

  lemma UploadsKnown(objects: Store, files: Contents, puts: seq<Put>, faults: nat -> Fault)
    ensures Uploaded(objects, PutAll(objects, files, puts, faults))
  {
    UploadsAreNew(objects, files, puts, faults);
    UploadsDiffer(objects, files, puts, faults);
  }

  ghost predicate DeletesWork(p: Progress, faults: nat -> Fault) {
    forall i :: 0 <= i < |p.uploaded| ==> faults(i) != Fails
  }

  ghost function Undone(p: Progress, faults: nat -> Fault): Store {
    Cleanup(p.objects, p.uploaded, |p.uploaded|, faults)
  }

  lemma RemainsOrGoes(objects: Store, p: Progress, faults: nat -> Fault, k: string)
    requires Uploaded(objects, p) && k in p.objects
    ensures k in Undone(p, faults) <==> !exists i :: 0 <= i < |p.uploaded| && p.uploaded[i] == k && faults(i) != Fails
    ensures k in Undone(p, faults) ==> Undone(p, faults)[k] == p.objects[k]
  {
    CleanupRemoves(p.objects, p.uploaded, |p.uploaded|, faults);
  }

  lemma CleanupKeepsForeign(objects: Store, p: Progress, faults: nat -> Fault)
    requires Uploaded(objects, p)
    ensures forall k :: k in objects ==> k in Undone(p, faults) && Undone(p, faults)[k] == objects[k]
  {
    forall k | k in objects ensures k in Undone(p, faults) && Undone(p, faults)[k] == objects[k] {
      RemainsOrGoes(objects, p, faults, k);
      forall i | 0 <= i < |p.uploaded| ensures p.uploaded[i] != k {
        assert p.uploaded[i] in KeySet(p.uploaded);
      }
    }
  }

  lemma StrayRemains(objects: Store, p: Progress, faults: nat -> Fault, k: string)
    requires Uploaded(objects, p) && k in p.objects && k !in KeySet(p.uploaded)
    ensures k in Undone(p, faults)
  {
    RemainsOrGoes(objects, p, faults, k);
    forall i | 0 <= i < |p.uploaded| ensures p.uploaded[i] != k {
      assert p.uploaded[i] in KeySet(p.uploaded);
    }
  }

  lemma FailedDeletionRemains(objects: Store, p: Progress, faults: nat -> Fault, i: nat)
    requires Uploaded(objects, p) && i < |p.uploaded| && faults(i) == Fails
    ensures p.uploaded[i] in Undone(p, faults) && p.uploaded[i] !in objects
  {
    assert p.uploaded[i] in KeySet(p.uploaded);
    RemainsOrGoes(objects, p, faults, p.uploaded[i]);
  }

  lemma UploadGoes(objects: Store, p: Progress, faults: nat -> Fault, k: string)
    requires Uploaded(objects, p) && DeletesWork(p, faults) && k in KeySet(p.uploaded)
    ensures k !in Undone(p, faults)
  {
    var i :| 0 <= i < |p.uploaded| && p.uploaded[i] == k;
    assert faults(i) != Fails;
    RemainsOrGoes(objects, p, faults, k);
  }

  lemma UndoneKeys(objects: Store, p: Progress, faults: nat -> Fault)
    ensures Undone(p, faults).Keys <= p.objects.Keys
  {
    CleanupRemoves(p.objects, p.uploaded, |p.uploaded|, faults);
  }

  // Compensation restores the store exactly when it knows all that is new and every deletion works.
  lemma CleanupExactly(objects: Store, p: Progress, faults: nat -> Fault)
    requires Uploaded(objects, p)
    ensures Undone(p, faults) == objects <==> p.objects.Keys == objects.Keys + KeySet(p.uploaded) && DeletesWork(p, faults)
  {
    var after := Undone(p, faults);
    if i :| 0 <= i < |p.uploaded| && faults(i) == Fails {
      FailedDeletionRemains(objects, p, faults, i);
    } else if k :| k in p.objects.Keys - objects.Keys - KeySet(p.uploaded) {
      StrayRemains(objects, p, faults, k);
    } else {
      CleanupKeepsForeign(objects, p, faults);
      UndoneKeys(objects, p, faults);
      forall k | k in KeySet(p.uploaded) ensures k !in after {
        UploadGoes(objects, p, faults, k);
      }
      forall k | k in p.objects.Keys ensures k in objects.Keys + KeySet(p.uploaded) {
        assert k !in p.objects.Keys - objects.Keys - KeySet(p.uploaded);
      }
      assert p.objects.Keys == objects.Keys + KeySet(p.uploaded);
      assert after.Keys == objects.Keys;
    }
  }

  // ---- All or nothing ----

  // How a run can end.
  lemma RunEnds(u: Printer, w: World, a: Archive, f: Troubles)
    ensures var p := PutAll(w.objects, a.files, PutsOf(u, a.document), f.put);
      var after := Run(u, w, a, f).world;
      && (after.objects == w.objects || after.objects == p.objects || after.objects == Undone(p, f.delete))
      && (after.trees == w.trees || (a.document.treeId !in w.trees && after.trees == w.trees[a.document.treeId := a.document]))
  {
  }

  ghost predicate Preserves(before: World, after: World) {
    && (forall k :: k in before.objects ==> k in after.objects && after.objects[k] == before.objects[k])
    && (forall t :: t in before.trees ==> t in after.trees && after.trees[t] == before.trees[t])
  }

  // Objects and trees that were there before the run are there after it, unchanged, whatever goes wrong.
  lemma NothingForeignIsTouched(e: Env, w: World, a: Archive, f: Troubles)
    ensures Preserves(w, Restored(e, w, a, f).world)
  {
    var puts := PutsOf(e.uuid, a.document);
    RunEnds(e.uuid, w, a, f);
    UploadsKnown(w.objects, a.files, puts, f.put);
    CleanupKeepsForeign(w.objects, PutAll(w.objects, a.files, puts, f.put), f.delete);
    assert Preserves(w, Run(e.uuid, w, a, f).world);
  }

  ghost predicate FilesStored(u: Printer, after: World, a: Archive) {
    forall put :: put in PutsOf(u, a.document) ==>
      put.path in a.files && put.key in after.objects && after.objects[put.key] == a.files[put.path]
  }

  // Either the tree is there with its record and all its files, or nothing has changed; and the caller is told which.
  ghost predicate AllOrNothing(u: Printer, w: World, a: Archive, o: Outcome) {
    if o.restored
    then o.world.trees == Committed(w, a).trees && o.world.records == Committed(w, a).records && FilesStored(u, o.world, a)
    else o.world == w
  }

  // What must not go wrong: a lost answer to an upload or a failed deletion when the run has to be undone, and a lost
  // answer to the commit together with a check that cannot be made.
  ghost predicate Recoverable(u: Printer, w: World, a: Archive, f: Troubles) {
    var puts := PutsOf(u, a.document);
    var p := PutAll(w.objects, a.files, puts, f.put);
    if !f.begins || !f.treeWritten || a.document.treeId in w.trees then true
    else if p.failed || !f.rowsWritten then !LeavesStray(w.objects, a.files, puts, f.put) && DeletesWork(p, f.delete)
    else match f.commit
      case Accepted => true
      case Rejected => DeletesWork(p, f.delete)
      case Lost => f.checkAnswers
  }

  lemma UndoneExactly(w: World, files: Contents, puts: seq<Put>, f: Troubles)
    ensures var p := PutAll(w.objects, files, puts, f.put);
      Undone(p, f.delete) == w.objects <==> !LeavesStray(w.objects, files, puts, f.put) && DeletesWork(p, f.delete)
  {
    UploadsKnown(w.objects, files, puts, f.put);
    UploadsAreRemembered(w.objects, files, puts, f.put);
    CleanupExactly(w.objects, PutAll(w.objects, files, puts, f.put), f.delete);
  }

  lemma AllStored(u: Printer, w: World, a: Archive, f: Troubles)
    requires !PutAll(w.objects, a.files, PutsOf(u, a.document), f.put).failed
    ensures FilesStored(u, w.(objects := PutAll(w.objects, a.files, PutsOf(u, a.document), f.put).objects), a)
  {
    var puts := PutsOf(u, a.document);
    forall put | put in puts
      ensures put.path in a.files
      ensures put.key in PutAll(w.objects, a.files, puts, f.put).objects
      ensures PutAll(w.objects, a.files, puts, f.put).objects[put.key] == a.files[put.path]
    {
      var i :| 0 <= i < |puts| && puts[i] == put;
      UploadsAreStored(w.objects, a.files, puts, f.put, i);
    }
  }

  // The run once the uploads have begun.
  lemma BegunExactly(e: Env, w: World, a: Archive, f: Troubles)
    requires WorldOk(w) && f.begins && f.treeWritten && a.document.treeId !in w.trees
    ensures AllOrNothing(e.uuid, w, a, Run(e.uuid, w, a, f)) <==> Recoverable(e.uuid, w, a, f)
  {
    var u, puts := e.uuid, PutsOf(e.uuid, a.document);
    var p := PutAll(w.objects, a.files, puts, f.put);
    var o := Run(u, w, a, f);
    UndoneExactly(w, a.files, puts, f);
    assert Record(a.document.treeId, a.exportId) !in w.records;
    if p.failed || !f.rowsWritten {
      assert o == Outcome(w.(objects := Undone(p, f.delete)), false);
    } else {
      AllStored(u, w, a, f);
      UploadsAreRemembered(w.objects, a.files, puts, f.put);
      match f.commit
      case Accepted => assert o == Outcome(Committed(w, a).(objects := p.objects), true);
      case Rejected => assert o == Outcome(w.(objects := Undone(p, f.delete)), false);
      case Lost =>
        if !f.checkAnswers {
          assert a.document.treeId in o.world.trees && !o.restored;
        }
    }
  }

  // A restore is all-or-nothing exactly when what goes wrong is recoverable.
  lemma AtomicExactly(e: Env, w: World, a: Archive, f: Troubles)
    requires WorldOk(w) && a.document.treeId != 0 && ValidArchive(e, a.document, a.files)
    ensures AllOrNothing(e.uuid, w, a, Restored(e, w, a, f)) <==> Recoverable(e.uuid, w, a, f)
  {
    if f.begins && f.treeWritten && a.document.treeId !in w.trees {
      BegunExactly(e, w, a, f);
    }
  }

  // In particular, without lost answers: deletions that work make every run all-or-nothing.
  lemma AtomicWithoutLostAnswers(e: Env, w: World, a: Archive, f: Troubles)
    requires WorldOk(w)
    requires (forall i :: f.put(i) != LosesAnswer) && (forall i :: f.delete(i) != Fails) && (f.commit == Lost ==> f.checkAnswers)
    ensures AllOrNothing(e.uuid, w, a, Restored(e, w, a, f))
  {
    if a.document.treeId != 0 && ValidArchive(e, a.document, a.files) {
      AtomicExactly(e, w, a, f);
    }
  }

  // The check after the commit matters: a committed tree is left without its files when it cannot be made.
  lemma LostCommitLosesFiles(e: Env, w: World, a: Archive, f: Troubles)
    requires WorldOk(w) && a.document.treeId != 0 && ValidArchive(e, a.document, a.files) && a.document.treeId !in w.trees
    requires f.begins && f.treeWritten && f.rowsWritten && f.commit == Lost && !f.checkAnswers && forall i :: f.delete(i) == Works
    requires !PutAll(w.objects, a.files, PutsOf(e.uuid, a.document), f.put).failed
    ensures var o := Restored(e, w, a, f);
      !o.restored && a.document.treeId in o.world.trees && o.world.objects == w.objects
  {
    UndoneExactly(w, a.files, PutsOf(e.uuid, a.document), f);
    UploadsAreRemembered(w.objects, a.files, PutsOf(e.uuid, a.document), f.put);
  }
}
