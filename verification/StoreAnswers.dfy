/** What the callers of the file-backed store are told, section by section and over runs. */
module StoreAnswers {
  import opened Wrappers
  import opened LeaseModel
  import opened Environment
  import opened Lease
  import opened StoreTypes
  import opened Operations
  import opened FileStores
  import opened Runs
  import opened Snapshots
  import opened Conservation
  import opened Separators

  // --- creates ---

  /** The service of an Active lease. */
  function ServiceOf(leases: map<Principal, Record>, p: Principal): Option<ServiceResult> {
    if p in leases && leases[p].state == Active
    then Some(ServiceResult(leases[p].containerID, leases[p].host, leases[p].port))
    else None
  }

  lemma CreateCalls(s: Sys, a: CreateArgs, save: SaveAnswer) returns (log: seq<Call>)
    ensures RuntimeCalls(FileStep(s, Create(a, save)).0.env.calls) == RuntimeCalls(s.env.calls) + log
    ensures a.Blocked(s.data.leases) ==> log == []
    ensures !a.Blocked(s.data.leases) ==>
              match a.answer
              case CreateFailed(leftover) => log == [CreateErr(a.p, leftover)]
              case Created(res) =>
                log == [CreateOk(a.p, res.containerID)]
                       + if save == Saved || a.cleanup == None then []
                         else [Stop(ForCleanup, a.p, res.containerID, a.cleanup.value.StopDone?)]
  {
    hide RuntimeCalls, Env.Save;
    log := [];
    if a.Blocked(s.data.leases) {
    } else if a.answer.CreateFailed? {
      log := [CreateErr(a.p, a.answer.leftover)];
      OneMoreCall(s.env.calls, log[0]);
    } else {
      var id := a.answer.res.containerID;
      var d' := s.data.(leases := s.data.leases[a.p := a.Build(a.answer.res)]);
      var e := s.env.CreateService(a.p, a.answer);
      log := [CreateOk(a.p, id)];
      OneMoreCall(s.env.calls, log[0]);
      SavingIsSilent(e, d', save);
      if save != Saved && a.cleanup.Some? {
        OneMoreCall(e.Save(d', save).calls, Stop(ForCleanup, a.p, id, a.cleanup.value.StopDone?));
        log := log + [Stop(ForCleanup, a.p, id, a.cleanup.value.StopDone?)];
      }
    }
  }

  /** Every answer a create can get, by what happened: a conflict exactly if a lease is in the way, and then nothing was
      called; a runtime failure exactly if the create call failed; the combined error exactly if the cleanup's stop
      failed; the snapshot error exactly if the snapshot failed and no stop did; and success with a service exactly if
      the owner, who had none, has that service afterwards. */
  lemma CreateIsAnswered(s: Sys, a: CreateArgs, save: SaveAnswer) returns (log: seq<Call>)
    ensures var (t, o) := FileStep(s, Create(a, save));
            && RuntimeCalls(t.env.calls) == RuntimeCalls(s.env.calls) + log
            && (forall st :: o == CreateEnded(Err(Conflict(st))) <==>
                  a.p in s.data.leases && s.data.leases[a.p].state == st && st != Reclaimed)
            && (o.created.Err? && o.created.error.Conflict? ==> t == s)
            && (o == CreateEnded(Err(RuntimeFailed)) <==> exists c :: c in log && c.CreateErr?)
            && (o == CreateEnded(Err(SaveAndCleanupFailed(save))) <==> exists c :: c in log && c.Stop? && !c.ok)
            && (o == CreateEnded(Err(SaveFailed(save))) <==>
                  save != Saved && (exists c :: c in log && c.CreateOk?) && forall c :: c in log && c.Stop? ==> c.ok)
            && (forall res :: o == CreateEnded(Ok(res)) <==>
                  ServiceOf(s.data.leases, a.p) == None && ServiceOf(t.data.leases, a.p) == Some(res))
            && (o.created.Err? ==> t.data == s.data)
  {
    log := CreateCalls(s, a, save);
    hide RuntimeCalls, Env.Save;
    if log != [] {
      assert log[0] in log && log[|log| - 1] in log;
    }
  }

  /** The lease a create leaves, field by field: 8 hours to live and 30 minutes to idle, in nanoseconds. */
  lemma CreatedLease(s: Sys, a: CreateArgs, save: SaveAnswer)
    requires a.answer.Created? && FileStep(s, Create(a, save)).1 == CreateEnded(Ok(a.answer.res))
    ensures var leases := FileStep(s, Create(a, save)).0.data.leases;
            && leases.Keys == s.data.leases.Keys + {a.p}
            && (forall q :: q in s.data.leases && q != a.p ==> leases[q] == s.data.leases[q])
            && var l := leases[a.p];
               && l.owner == a.p && l.containerName == "svc-" + a.p
               && l.containerID == a.answer.res.containerID && l.host == a.answer.res.host
               && l.port == a.answer.res.port
               && l.startedAt == a.now && l.deadlineAt == a.now + 28_800_000_000_000
               && l.idleTimeout == 1_800_000_000_000 && l.lastSeenAt == a.now && l.channels == 0
               && l.state == Active && l.releasedBy == None && l.releasedAt == 0
  {
  }

  // --- releases ---

  /** Every answer a release can get: "not applicable" exactly if no Active lease met the condition, and then nothing
      happened; otherwise by whether the lease went from Active to Reclaimed, which call failed, and the snapshot. */
  lemma ReleaseIsAnswered(s: Sys, a: ReleaseArgs, save: SaveAnswer)
    requires AllVisible(s.data.leases)
    ensures var (t, o) := FileStep(s, Release(a, save));
            var before := ContainerOf(s.data.leases, a.p);
            var gone := before.Some? && a.p in t.data.leases && t.data.leases[a.p].state == Reclaimed;
            && (o == ReleaseEnded(Some(NotApplicable)) <==> before.Some? ==> !a.shouldRelease(s.data.leases[a.p]))
            && (o == ReleaseEnded(Some(NotApplicable)) ==> t == s)
            && (o == ReleaseEnded(None) <==> gone && save == Saved)
            && (o == ReleaseEnded(Some(SaveFailed(save))) <==> gone && save != Saved)
            && (o != ReleaseEnded(Some(NotApplicable)) && !gone ==>
                  && t.data == s.data
                  && var step := CallbackFailed(if a.drainer == Some(false) then Draining else Stopped);
                     o == ReleaseEnded(Some(if save == Saved then ReleaseFailed(step)
                                            else ReleaseAndSaveFailed(step, save))))
  {
    hide Env.Save, ReleaseArgs.Calls;
  }

  // --- writes and reads ---

  predicate IsWrite(op: Op) {
    op.Touch? || op.Upsert? || op.RegisterKey? || op.MapProblem? || op.SaveSubmission?
  }

  /** A write reports success exactly if its snapshot was written, or there was nothing to write. */
  lemma WriteIsAnswered(s: Sys, op: Op)
    requires IsWrite(op)
    ensures FileStep(s, op).1
         == Written(op.save == Saved
                    || (op.Touch? && !(op.p in s.data.leases && s.data.leases[op.p].state == Active)))
  {
  }

  predicate IsRead(op: Op) {
    op.GetKey? || op.Resolve? || op.GetSubmission?
  }

  /** The write sets what the read asks for; a problem mapping only if its snapshot is written. */
  predicate Sets(op: Op, read: Op) {
    || (op.RegisterKey? && read.GetKey? && op.p == read.p)
    || (op.MapProblem? && op.save == Saved && read.Resolve? && op.problemKey == read.problemKey)
    || (op.SaveSubmission? && read.GetSubmission? && op.rec.id == read.id)
  }

  lemma StepIsRead(s: Sys, op: Op, read: Op)
    requires IsRead(read)
    ensures var seen := FileStep(FileStep(s, op).0, read).1;
            if !Sets(op, read) then seen == FileStep(s, read).1
            else match op
                 case RegisterKey(_, key, _) => seen == TextSeen(Some(key))
                 case MapProblem(_, id, _) => seen == TextSeen(Some(id))
                 case SaveSubmission(rec, _) => seen == SubmissionSeen(Some(rec))
                 case _ => false
  {
    hide Env.Save, ReleaseArgs.Calls;
  }

  /** A read changes nothing, and shows the last write of what it asks for, or what was there before the run; nothing
      else a run does can change it. */
  lemma {:induction false} LastWriteIsRead(b: Sys, ops: seq<Op>, n: nat, read: Op)
    requires IsRead(read) && n <= |ops|
    requires forall m :: n <= m < |ops| ==> !Sets(ops[m], read)
    ensures FileStep(RunFrom(b, ops), read).0 == RunFrom(b, ops)
    ensures n == 0 ==> FileStep(RunFrom(b, ops), read).1 == FileStep(b, read).1
    ensures n > 0 && Sets(ops[n - 1], read) ==>
              match ops[n - 1]
              case RegisterKey(_, key, _) => FileStep(RunFrom(b, ops), read).1 == TextSeen(Some(key))
              case MapProblem(_, id, _) => FileStep(RunFrom(b, ops), read).1 == TextSeen(Some(id))
              case SaveSubmission(rec, _) => FileStep(RunFrom(b, ops), read).1 == SubmissionSeen(Some(rec))
              case _ => false
  {
    if ops != [] {
      var before, op := ops[..|ops| - 1], ops[|ops| - 1];
      StepIsRead(RunFrom(b, before), op, read);
      assert FileStep(RunFrom(b, ops), read).0 == RunFrom(b, ops);
      hide FileStep, Sets;
      if n < |ops| {
        LastWriteIsRead(b, before, n, read);
      }
    }
  }

  /** Two problems share their mapping: a problem has the key of another exactly when a ':' stands where the key can be
      cut differently. */
  lemma ProblemKeyIsShared(course: string, contest: string, problem: string)
    requires course != "" && contest != "" && problem != ""
    ensures (exists c: string, k: string, p: string ::
               c != "" && k != "" && p != "" && ProblemKey(c, k, p) == ProblemKey(course, contest, problem)
               && (c, k, p) != (course, contest, problem))
            <==> Shared(':', course, contest, problem)
  {
    forall c: string, k: string, p: string ensures ProblemKey(c, k, p) == Joined(':', c, k, p) {
    }
    JoinedIsShared(':', course, contest, problem);
    hide Shared, Joined, ProblemKey;
  }

  /** What a new store shows, and what a reader of leases sees. */
  lemma ReadsShow(s: Sys, p: Principal, key: string)
    ensures FileStep(INIT, GetKey(p)).1 == TextSeen(None) && FileStep(INIT, Resolve(key)).1 == TextSeen(Some(""))
    ensures FileStep(INIT, GetSubmission(key)).1 == SubmissionSeen(None)
    ensures FileStep(s, List) == (s, LeasesSeen(s.data.leases)) && FileStep(s, Lookup(p)).0 == s
    ensures forall l :: FileStep(s, Lookup(p)).1 == LeaseSeen(Some(l)) <==> p in s.data.leases && s.data.leases[p] == l
    ensures FileStep(s, Lookup(p)).1 == LeaseSeen(None) <==> p !in s.data.leases
  {
  }

  // --- the books, by what callers were told ---

  /** What a section tells its caller of a container: it is yours, it was undone, it could not be stopped, it is
      gone. */
  datatype News = Yours | Undone | NotStopped | Gone

  predicate GotContainer(op: Op, p: Principal, id: ContainerId) {
    op.Create? && op.create.p == p && op.create.answer.Created? && op.create.answer.res.containerID == id
  }

  /** A release that completed says so even when its snapshot failed. */
  ghost predicate Tells(s: Sys, op: Op, p: Principal, id: ContainerId, news: News) {
    var o := FileStep(s, op).1;
    match news
    case Yours => GotContainer(op, p, id) && o == CreateEnded(Ok(op.create.answer.res))
    case Undone => GotContainer(op, p, id) && o == CreateEnded(Err(SaveFailed(op.save)))
    case NotStopped => GotContainer(op, p, id) && o == CreateEnded(Err(SaveAndCleanupFailed(op.save)))
    case Gone =>
      && op.Release? && op.release.p == p && ContainerOf(s.data.leases, p) == Some(id)
      && (o == ReleaseEnded(None) || o == ReleaseEnded(Some(SaveFailed(op.save))))
  }

  ghost predicate Told(b: Sys, ops: seq<Op>, p: Principal, id: ContainerId, news: News) {
    exists n :: 0 <= n < |ops| && Tells(RunFrom(b, ops[..n]), ops[n], p, id, news)
  }

  lemma ToldMore(b: Sys, ops: seq<Op>, p: Principal, id: ContainerId, news: News)
    requires ops != []
    ensures var n := |ops| - 1;
            Told(b, ops, p, id, news)
            <==> Told(b, ops[..n], p, id, news) || Tells(RunFrom(b, ops[..n]), ops[n], p, id, news)
  {
    hide RunFrom, Tells;
    var n := |ops| - 1;
    assert forall k :: 0 <= k <= n ==> ops[..n][..k] == ops[..k];
    if Told(b, ops[..n], p, id, news) {
      var k :| 0 <= k < n && Tells(RunFrom(b, ops[..n][..k]), ops[..n][k], p, id, news);
      assert Tells(RunFrom(b, ops[..k]), ops[k], p, id, news);
    }
    if Told(b, ops, p, id, news) {
      var k :| 0 <= k < |ops| && Tells(RunFrom(b, ops[..k]), ops[k], p, id, news);
      assert k < n ==> Tells(RunFrom(b, ops[..n][..k]), ops[..n][k], p, id, news);
    }
  }

  /** The log changes exactly as the caller is told. */
  lemma StepTells(s: Sys, op: Op, p: Principal, id: ContainerId)
    requires Wired(op)
    ensures var t := FileStep(s, op).0;
            && (Issued(t.env, p, id) <==>
                  Issued(s.env, p, id) || Tells(s, op, p, id, Yours) || Tells(s, op, p, id, Undone)
                  || Tells(s, op, p, id, NotStopped))
            && (Released(t.env, p, id) <==> Released(s.env, p, id) || Tells(s, op, p, id, Gone))
            && (Cleaned(t.env, p, id) <==> Cleaned(s.env, p, id) || Tells(s, op, p, id, Undone))
            && (Reported(t.env, p, id) <==> Reported(s.env, p, id) || Tells(s, op, p, id, NotStopped))
  {
    hide Env.Save;
    match op
    case Create(a, save) => CreateTells(s, a, save, p, id);
    case Release(a, save) => if a.Applies(s.data.leases) { ReleasedAtoms(s, a, save, p, id); }
    case Lookup(_) => case List => case GetKey(_) => case Resolve(_) => case GetSubmission(_) =>
    case Touch(_, _, _, save) =>
      if op.TouchApplies(s.data.leases) {
        SavingKeepsFates(s.env, Write(s.data, op), save);
      }
    case Upsert(_, save) => SavingKeepsFates(s.env, Write(s.data, op), save);
    case RegisterKey(_, _, save) => SavingKeepsFates(s.env, Write(s.data, op), save);
    case MapProblem(_, _, save) => SavingKeepsFates(s.env, Write(s.data, op), save);
    case SaveSubmission(_, save) => SavingKeepsFates(s.env, Write(s.data, op), save);
  }

  lemma CreateTells(s: Sys, a: CreateArgs, save: SaveAnswer, p: Principal, id: ContainerId)
    requires a.cleanup.Some?
    ensures var op := Create(a, save);
            var t := FileStep(s, op).0;
            && (Issued(t.env, p, id) <==>
                  Issued(s.env, p, id) || Tells(s, op, p, id, Yours) || Tells(s, op, p, id, Undone)
                  || Tells(s, op, p, id, NotStopped))
            && (Released(t.env, p, id) <==> Released(s.env, p, id))
            && (Cleaned(t.env, p, id) <==> Cleaned(s.env, p, id) || Tells(s, op, p, id, Undone))
            && (Reported(t.env, p, id) <==> Reported(s.env, p, id) || Tells(s, op, p, id, NotStopped))
  {
    hide Env.Save;
    if !a.Blocked(s.data.leases) && a.answer.Created? {
      CreatedAtoms(s, a, save, p, id);
    }
  }

  /** The log of a run says of a container what callers were told of it. */
  lemma {:induction false} LogIsTold(b: Sys, ops: seq<Op>, p: Principal, id: ContainerId)
    requires Quiet(b.env) && forall n :: 0 <= n < |ops| ==> Wired(ops[n])
    ensures var e := RunFrom(b, ops).env;
            && (Issued(e, p, id) <==>
                  Told(b, ops, p, id, Yours) || Told(b, ops, p, id, Undone) || Told(b, ops, p, id, NotStopped))
            && (Released(e, p, id) <==> Told(b, ops, p, id, Gone))
            && (Cleaned(e, p, id) <==> Told(b, ops, p, id, Undone))
            && (Reported(e, p, id) <==> Told(b, ops, p, id, NotStopped))
  {
    if ops != [] {
      var n := |ops| - 1;
      LogIsTold(b, ops[..n], p, id);
      StepTells(RunFrom(b, ops[..n]), ops[n], p, id);
      forall news ensures Told(b, ops, p, id, news)
                          <==> Told(b, ops[..n], p, id, news) || Tells(RunFrom(b, ops[..n]), ops[n], p, id, news)
      {
        ToldMore(b, ops, p, id, news);
      }
      hide FileStep, Told, Tells, Issued, Released, Cleaned, Reported;
    }
  }

  /** Conservation in the callers' words: of a container held at the start, or that some create got, exactly one of
      these holds: a release said it is gone, a create said it was undone, a create said it could not be stopped, or
      its owner's Active lease holds it; and of no other container any. */
  lemma AnswersAreConserved(b: Sys, ops: seq<Op>, p: Principal, id: ContainerId)
    requires Regular(b, ops)
    ensures One(Told(b, ops, p, id, Gone)) + One(Told(b, ops, p, id, Undone)) + One(Told(b, ops, p, id, NotStopped))
            + One(Held(RunFrom(b, ops).data, p, id))
            == One(Held(b.data, p, id) || Told(b, ops, p, id, Yours) || Told(b, ops, p, id, Undone)
                   || Told(b, ops, p, id, NotStopped))
  {
    hide Told, Released, Cleaned, Reported, Held, Issued, RunFrom;
    ContainersAreConserved(b, ops);
    LogIsTold(b, ops, p, id);
    FateOf(b, RunFrom(b, ops), p, id);
  }

  // --- the losers of a race ---

  /** At most one release of a run is told that the container is gone. */
  lemma OneIsToldGone(b: Sys, ops: seq<Op>, i: nat, j: nat, p: Principal, id: ContainerId)
    requires Regular(b, ops) && i <= j < |ops|
    requires Tells(RunFrom(b, ops[..i]), ops[i], p, id, Gone) && Tells(RunFrom(b, ops[..j]), ops[j], p, id, Gone)
    ensures i == j
  {
    SingleWinner(b, ops, i, j, p, id);
  }

  /** The section cannot make the lease of `p` Active. */
  predicate LeavesGone(op: Op, p: Principal) {
    !(op.Create? && op.create.p == p) && !(op.Upsert? && op.lease.owner == p)
  }

  lemma StepLeavesGone(s: Sys, op: Op, p: Principal)
    requires AllVisible(s.data.leases) && LeavesGone(op, p) && ContainerOf(s.data.leases, p) == None
    ensures ContainerOf(FileStep(s, op).0.data.leases, p) == None
  {
    hide Env.Save, ReleaseArgs.Calls;
  }

  /** Once a release said the container is gone, every later release of the owner is told that it does not apply, and
      does nothing, until a lease is created or written for the owner. */
  lemma {:induction false} LosersAreTold(b: Sys, ops: seq<Op>, i: nat, j: nat, p: Principal, id: ContainerId)
    requires AllVisible(b.data.leases) && forall op :: op in ops ==> WritesVisible(op)
    requires i < j < |ops| && Tells(RunFrom(b, ops[..i]), ops[i], p, id, Gone)
    requires forall k :: i < k < j ==> LeavesGone(ops[k], p)
    requires ops[j].Release? && ops[j].release.p == p
    ensures FileStep(RunFrom(b, ops[..j]), ops[j]) == (RunFrom(b, ops[..j]), ReleaseEnded(Some(NotApplicable)))
  {
    hide AllVisible, WritesVisible;
    StaysGone(b, ops, i, j, p, id);
    VisibleAt(b, ops, j);
    ReleaseIsAnswered(RunFrom(b, ops[..j]), ops[j].release, ops[j].save);
  }

  lemma VisibleAt(b: Sys, ops: seq<Op>, j: nat)
    requires AllVisible(b.data.leases) && j <= |ops| && forall op :: op in ops ==> WritesVisible(op)
    ensures AllVisible(RunFrom(b, ops[..j]).data.leases)
  {
    hide AllVisible, WritesVisible;
    RunsStayVisible(b, ops[..j]);
  }

  lemma GoneIsGone(s: Sys, op: Op, p: Principal, id: ContainerId)
    requires AllVisible(s.data.leases) && Tells(s, op, p, id, Gone)
    ensures ContainerOf(FileStep(s, op).0.data.leases, p) == None
  {
    hide FileStep, AllVisible;
    ReleaseIsAnswered(s, op.release, op.save);
  }

  lemma {:induction false} StaysGone(b: Sys, ops: seq<Op>, i: nat, j: nat, p: Principal, id: ContainerId)
    requires AllVisible(b.data.leases) && forall op :: op in ops ==> WritesVisible(op)
    requires i < j <= |ops| && Tells(RunFrom(b, ops[..i]), ops[i], p, id, Gone)
    requires forall k :: i < k < j ==> LeavesGone(ops[k], p)
    ensures ContainerOf(RunFrom(b, ops[..j]).data.leases, p) == None
  {
    hide AllVisible, WritesVisible, FileStep, Tells, ContainerOf, LeavesGone;
    assert ops[..j][..j - 1] == ops[..j - 1] && ops[..j][j - 1] == ops[j - 1];
    var s := RunFrom(b, ops[..j - 1]);
    VisibleAt(b, ops, j - 1);
    if i < j - 1 {
      StaysGone(b, ops, i, j - 1, p, id);
      StepLeavesGone(s, ops[j - 1], p);
    } else {
      GoneIsGone(s, ops[i], p, id);
    }
  }
}
