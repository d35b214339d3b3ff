/** Media processing on top of the job queue, and what a dead processing job says about its asset. */
module MediaJobs {
  import opened Graphs
  import opened Faults
  import J = JobQueue
  import Q = QueueProtocol
  import M = PrimaryMedia
  import A = JobAttempts

  datatype System = System(jobs: A.Jobs, media: M.System)

  datatype Event =
    | FinishUpload(t: nat, m: Uuid, job: Uuid, key: string, at: int)
    | OnQueue(step: Q.Event)
    | Acquire(worker: string, t: nat, fault: Fault)
    | MarkReady(worker: string, t: nat, confirmed: bool)
    | GiveUp(worker: string)
    | Reject(worker: string, t: nat, unusable: bool, fault: Fault)
    | FindNoHandler(worker: string)
    | Panic(worker: string)
    | Elsewhere(e: M.Event)

  const ATTEMPTS := 5

  function ProcessRequest(job: Uuid, key: string, at: int): J.Request {
    J.Request(job, "media.process", key, key, ATTEMPTS, at, at)
  }

  // Users, cleaners and transactions that have not been committed. A new asset never has the identifier of an old one.
  predicate NotByProcessors(s: System, e: M.Event) {
    && !e.CompleteUpload? && !e.AcquireForProcessing? && !e.MarkReady? && !e.CommitReject?
    && (e.CreateAsset? ==> e.m !in s.jobs.targetOf.Values)
  }

  // An asset has come at least this far, or is gone.
  predicate Reached(media: M.System, m: Uuid, rank: int) {
    m in media.db.assets ==> M.Rank(media.db.assets[m].status) >= rank
  }

  // Nothing is left to do: the asset is ready, rejected, deleted or gone.
  predicate Settled(media: M.System, m: Uuid) {
    Reached(media, m, 3)
  }

  // The processor locks the row and moves an uploaded asset on. It waits for a row that somebody else has locked.
  function Acquired(s: System, w: string, t: nat, fault: Fault): System {
    if !A.Running(s.jobs, w, A.Pending) then s
    else if fault == Fails then s.(jobs := A.Advance(s.jobs, w, A.Ended(A.NotAcquired)))
    else
      var m := A.TargetOf(s.jobs, w);
      var media := M.Apply(s.media, M.AcquireForProcessing(t, m));
      if m in media.db.assets && media.db.assets[m].status == M.Uploaded then s
      else System(A.Advance(s.jobs, w,
        if fault == LosesAnswer then A.Ended(A.NotAcquired)
        else if m !in media.db.assets then A.Ended(A.Done)
        else match media.db.assets[m].status
          case Pending => A.Ended(A.NotAcquired)
          case Processing => A.Busy
          case _ => A.Ended(A.Done)), media)
  }

  // An asset that is ready counts as success; any error leaves the processor to retry or reject.
  function MadeReady(s: System, w: string, t: nat, confirmed: bool): System {
    if !A.Running(s.jobs, w, A.Busy) then s else
    var m := A.TargetOf(s.jobs, w);
    var media := M.Apply(s.media, M.MarkReady(t, m));
    if confirmed && m in media.db.assets && media.db.assets[m].status == M.Ready
    then System(A.Advance(s.jobs, w, A.Ended(A.Done)), media) else s.(media := media)
  }

  predicate Rejects(s: System, t: nat, m: Uuid) {
    t in s.media.txs && s.media.txs[t].Rejecting? && s.media.txs[t].media == m
  }

  // A rejection on the last attempt, or at once if the content is unusable. Transaction t is the one that rejects; if
  // the asset is under processing and t cannot commit yet, the processor waits.
  function Rejected(s: System, w: string, t: nat, unusable: bool, fault: Fault): System {
    if !A.Running(s.jobs, w, A.Busy) || !(unusable || A.LastAttempt(s.jobs, w)) then s
    else if fault == Fails then s.(jobs := A.Advance(s.jobs, w, A.Ended(A.NotMarked)))
    else
      var m := A.TargetOf(s.jobs, w);
      var media := if Rejects(s, t, m) then M.Apply(s.media, M.CommitReject(t)) else s.media;
      if m in media.db.assets && media.db.assets[m].status == M.Processing then s
      else
        var gone := m in media.db.assets && media.db.assets[m].status in {M.Rejected, M.Deleted};
        System(A.Advance(s.jobs, w,
          A.Ended(if fault != Works || !gone then A.NotMarked else if unusable then A.Done else A.Marked)), media)
  }

  function GivenUp(s: System, w: string): System {
    if A.Running(s.jobs, w, A.Busy) && !A.LastAttempt(s.jobs, w)
    then s.(jobs := A.Advance(s.jobs, w, A.Ended(A.Retryable))) else s
  }

  function Stopped(s: System, w: string, how: A.Ending): System {
    if A.Running(s.jobs, w, A.Pending) || (how == A.Panicked && A.Running(s.jobs, w, A.Busy))
    then s.(jobs := A.Advance(s.jobs, w, A.Ended(how))) else s
  }

  // Completing an upload and enqueueing its job are one transaction.
  ghost function Uploaded(s: System, t: nat, m: Uuid, job: Uuid, key: string, at: int): System {
    var jobs, media := A.Submit(s.jobs, ProcessRequest(job, key, at), m), M.Apply(s.media, M.CompleteUpload(t, m));
    if media == s.media || jobs == s.jobs then s else System(jobs, media)
  }

  ghost function Apply(s: System, e: Event): System {
    match e
    case FinishUpload(t, m, job, key, at) => Uploaded(s, t, m, job, key, at)
    case OnQueue(step) => s.(jobs := A.Apply(s.jobs, step))
    case Acquire(w, t, fault) => Acquired(s, w, t, fault)
    case MarkReady(w, t, confirmed) => MadeReady(s, w, t, confirmed)
    case GiveUp(w) => GivenUp(s, w)
    case Reject(w, t, unusable, fault) => Rejected(s, w, t, unusable, fault)
    case FindNoHandler(w) => Stopped(s, w, A.Unhandled)
    case Panic(w) => Stopped(s, w, A.Panicked)
    case Elsewhere(other) => if NotByProcessors(s, other) then s.(media := M.Apply(s.media, other)) else s
  }

  // ---- The invariant ----

  ghost predicate MediaInv(media: M.System) {
    M.Inv(media) && M.Orderly(media.db)
  }

  // What an attempt in progress, or its answer, says about the asset.
  ghost predicate Agrees(media: M.System, m: Uuid, a: A.Attempt) {
    match a
    case Pending => true
    case Busy => Reached(media, m, 2)
    case Ended(how) => how in {A.Done, A.Marked, A.NotDeleted} ==> Settled(media, m)
  }

  ghost predicate Inv(s: System) {
    && A.Inv(s.jobs) && MediaInv(s.media)
    && (forall j :: j in s.jobs.targetOf ==> Reached(s.media, s.jobs.targetOf[j], 1))
    && (forall w :: w in s.jobs.attempts ==> Agrees(s.media, A.TargetOf(s.jobs, w), s.jobs.attempts[w]))
  }

  lemma MediaStep(media: M.System, e: M.Event)
    requires MediaInv(media)
    ensures MediaInv(M.Apply(media, e))
  {
    M.StepKeepsInv(media, e);
    M.StepKeepsOrder(media, e);
  }

  lemma NothingAppears(media: M.System, e: M.Event, m: Uuid)
    requires m !in media.db.assets && !(e.CreateAsset? && e.m == m)
    ensures m !in M.Apply(media, e).db.assets
  {
  }

  lemma ReachedStays(media: M.System, e: M.Event, m: Uuid, rank: int)
    requires MediaInv(media) && Reached(media, m, rank) && !(e.CreateAsset? && e.m == m)
    ensures Reached(M.Apply(media, e), m, rank)
  {
    if m in media.db.assets {
      M.StatusMovesForward(media, e, m);
    } else {
      NothingAppears(media, e, m);
    }
  }

  lemma AgreementStays(media: M.System, e: M.Event, m: Uuid, a: A.Attempt)
    requires MediaInv(media) && Agrees(media, m, a) && !(e.CreateAsset? && e.m == m)
    ensures Agrees(M.Apply(media, e), m, a)
  {
    if a.Busy? {
      ReachedStays(media, e, m, 2);
    } else if Settled(media, m) {
      ReachedStays(media, e, m, 3);
    }
  }

  lemma TargetIsKnown(s: System, w: string)
    requires A.Inv(s.jobs) && w in s.jobs.attempts
    ensures A.TargetOf(s.jobs, w) in s.jobs.targetOf.Values
  {
    assert A.AttemptInv(s.jobs, w, s.jobs.attempts[w]);
  }

  // A statement on the media leaves the attempts as they are, if it creates no asset that they name.
  lemma MediaKeepInv(s: System, e: M.Event)
    requires Inv(s) && (e.CreateAsset? ==> e.m !in s.jobs.targetOf.Values)
    ensures Inv(s.(media := M.Apply(s.media, e)))
  {
    MediaStep(s.media, e);
    forall j | j in s.jobs.targetOf ensures Reached(M.Apply(s.media, e), s.jobs.targetOf[j], 1) {
      ReachedStays(s.media, e, s.jobs.targetOf[j], 1);
    }
    forall w | w in s.jobs.attempts ensures Agrees(M.Apply(s.media, e), A.TargetOf(s.jobs, w), s.jobs.attempts[w]) {
      TargetIsKnown(s, w);
      AgreementStays(s.media, e, A.TargetOf(s.jobs, w), s.jobs.attempts[w]);
    }
  }

  lemma AdvanceKeepsInv(s: System, w: string, a: A.Attempt)
    requires Inv(s) && w in s.jobs.attempts && Agrees(s.media, A.TargetOf(s.jobs, w), a)
    requires a == A.Ended(A.Retryable) ==> !A.LastAttempt(s.jobs, w)
    ensures Inv(s.(jobs := A.Advance(s.jobs, w, a)))
  {
    A.AdvanceKeepsInv(s.jobs, w, a);
  }

  lemma Acquiring(media: M.System, t: nat, m: Uuid)
    requires MediaInv(media)
    ensures var next := M.Apply(media, M.AcquireForProcessing(t, m));
      m in next.db.assets && next.db.assets[m].status == M.Processing ==> Reached(next, m, 2)
  {
  }

  lemma AcquiredKeepsInv(s: System, w: string, t: nat, fault: Fault)
    requires Inv(s)
    ensures Inv(Acquired(s, w, t, fault))
  {
    if A.Running(s.jobs, w, A.Pending) {
      if fault == Fails {
        AdvanceKeepsInv(s, w, A.Ended(A.NotAcquired));
      } else {
        var acquire := M.AcquireForProcessing(t, A.TargetOf(s.jobs, w));
        MediaKeepInv(s, acquire);
        var moved := s.(media := M.Apply(s.media, acquire));
        if Acquired(s, w, t, fault) != s {
          AdvanceKeepsInv(moved, w, Acquired(s, w, t, fault).jobs.attempts[w]);
        }
      }
    }
  }

  lemma MadeReadyKeepsInv(s: System, w: string, t: nat, confirmed: bool)
    requires Inv(s)
    ensures Inv(MadeReady(s, w, t, confirmed))
  {
    if A.Running(s.jobs, w, A.Busy) {
      var m := A.TargetOf(s.jobs, w);
      MediaKeepInv(s, M.MarkReady(t, m));
      var moved := s.(media := M.Apply(s.media, M.MarkReady(t, m)));
      if confirmed && m in moved.media.db.assets && moved.media.db.assets[m].status == M.Ready {
        AdvanceKeepsInv(moved, w, A.Ended(A.Done));
      }
    }
  }

  lemma RejectedKeepsInv(s: System, w: string, t: nat, unusable: bool, fault: Fault)
    requires Inv(s)
    ensures Inv(Rejected(s, w, t, unusable, fault))
  {
    if A.Running(s.jobs, w, A.Busy) && (unusable || A.LastAttempt(s.jobs, w)) {
      if fault == Fails {
        AdvanceKeepsInv(s, w, A.Ended(A.NotMarked));
      } else {
        var m := A.TargetOf(s.jobs, w);
        MediaKeepInv(s, M.CommitReject(t));
        var moved := if Rejects(s, t, m) then s.(media := M.Apply(s.media, M.CommitReject(t))) else s;
        if Rejected(s, w, t, unusable, fault) != s {
          AdvanceKeepsInv(moved, w, Rejected(s, w, t, unusable, fault).jobs.attempts[w]);
        }
      }
    }
  }

  lemma Uploading(media: M.System, t: nat, m: Uuid)
    requires M.Apply(media, M.CompleteUpload(t, m)) != media
    ensures m in media.db.assets && media.db.assets[m].status == M.Pending
    ensures var next := M.Apply(media, M.CompleteUpload(t, m));
      m in next.db.assets && next.db.assets[m].status == M.Uploaded
  {
  }

  lemma UploadedKeepsInv(s: System, t: nat, m: Uuid, job: Uuid, key: string, at: int)
    requires Inv(s)
    ensures Inv(Uploaded(s, t, m, job, key, at))
  {
    if Uploaded(s, t, m, job, key, at) != s {
      var request, moved := ProcessRequest(job, key, at), s.(media := M.Apply(s.media, M.CompleteUpload(t, m)));
      MediaKeepInv(s, M.CompleteUpload(t, m));
      Uploading(s.media, t, m);
      A.SubmitKeepsInv(s.jobs, request, m);
      A.SubmitLeavesAttempts(s.jobs, request, m);
    }
  }

  lemma QueueStepKeepsInv(s: System, step: Q.Event)
    requires Inv(s)
    ensures Inv(s.(jobs := A.Apply(s.jobs, step)))
  {
    var jobs := A.Apply(s.jobs, step);
    A.StepKeepsInv(s.jobs, step);
    A.TargetsStay(s.jobs, step);
    forall w | w in jobs.attempts ensures Agrees(s.media, A.TargetOf(jobs, w), jobs.attempts[w]) {
      A.AttemptsGoOn(s.jobs, step, w);
    }
  }

  lemma StoppedKeepsInv(s: System, w: string, how: A.Ending)
    requires Inv(s) && (how == A.Unhandled || how == A.Panicked)
    ensures Inv(Stopped(s, w, how))
  {
    if Stopped(s, w, how) != s {
      AdvanceKeepsInv(s, w, A.Ended(how));
    }
  }

  lemma GivenUpKeepsInv(s: System, w: string)
    requires Inv(s)
    ensures Inv(GivenUp(s, w))
  {
    if GivenUp(s, w) != s {
      AdvanceKeepsInv(s, w, A.Ended(A.Retryable));
    }
  }

  lemma StepKeepsInv(s: System, e: Event)
    requires Inv(s)
    ensures Inv(Apply(s, e))
  {
    match e
    case FinishUpload(t, m, job, key, at) => UploadedKeepsInv(s, t, m, job, key, at);
    case OnQueue(step) => QueueStepKeepsInv(s, step);
    case Acquire(w, t, fault) => AcquiredKeepsInv(s, w, t, fault);
    case MarkReady(w, t, confirmed) => MadeReadyKeepsInv(s, w, t, confirmed);
    case GiveUp(w) => GivenUpKeepsInv(s, w);
    case Reject(w, t, unusable, fault) => RejectedKeepsInv(s, w, t, unusable, fault);
    case FindNoHandler(w) => StoppedKeepsInv(s, w, A.Unhandled);
    case Panic(w) => StoppedKeepsInv(s, w, A.Panicked);
    case Elsewhere(other) =>
      if NotByProcessors(s, other) {
        MediaKeepInv(s, other);
      }
  }
}
