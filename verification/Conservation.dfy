/** Every container the runtime returned is accounted for, whatever fails. The books are opened by a system `b`: an
    empty disk, or what a restart found. */
module Conservation {
  import opened Wrappers
  import opened LeaseModel
  import opened Environment
  import opened StoreTypes
  import opened Operations
  import opened FileStores
  import opened Runs
  import opened Snapshots

  predicate Issued(e: Env, p: Principal, id: ContainerId) {
    CreateOk(p, id) in e.calls
  }

  /** Stopped by a release that went through. */
  predicate Released(e: Env, p: Principal, id: ContainerId) {
    Stop(ForRelease, p, id, true) in e.calls
  }

  /** Stopped by the cleanup of a create. */
  predicate Cleaned(e: Env, p: Principal, id: ContainerId) {
    Stop(ForCleanup, p, id, true) in e.calls
  }

  /** The cleanup of a create failed, and its caller got the combined error. */
  predicate Reported(e: Env, p: Principal, id: ContainerId) {
    Stop(ForCleanup, p, id, false) in e.calls
  }

  /** The container of its owner's Active lease. */
  predicate Held(d: StoreData, p: Principal, id: ContainerId) {
    p in d.leases && d.leases[p].state == Active && d.leases[p].containerID == id
  }

  /** Left behind by a create that failed. */
  predicate LeftOver(e: Env, p: Principal, id: ContainerId) {
    CreateErr(p, Some(id)) in e.calls
  }

  function One(b: bool): nat {
    if b then 1 else 0
  }

  function Fates(s: Sys, p: Principal, id: ContainerId): nat {
    One(Released(s.env, p, id)) + One(Cleaned(s.env, p, id)) + One(Reported(s.env, p, id)) + One(Held(s.data, p, id))
  }

  predicate Mentioned(e: Env, p: Principal, id: ContainerId) {
    Issued(e, p, id) || LeftOver(e, p, id)
  }

  /** Held when the books were opened, or issued since. */
  predicate OnBooks(b: Sys, e: Env, p: Principal, id: ContainerId) {
    Held(b.data, p, id) || Issued(e, p, id)
  }

  /** Every container on the books has exactly one fate, and nothing else has any. */
  ghost predicate FatesOk(b: Sys, s: Sys) {
    forall p, id :: Fates(s, p, id) == One(OnBooks(b, s.env, p, id))
  }

  /** The runtime handed an id to one owner only. */
  ghost predicate OwnersOk(e: Env) {
    forall p, q, id :: Mentioned(e, p, id) && Mentioned(e, q, id) ==> p == q
  }

  /** Running when the books were opened, but held by nobody. */
  predicate Stray(b: Sys, p: Principal, id: ContainerId) {
    id in b.env.disk.running && b.env.disk.running[id] == p && !Held(b.data, p, id)
  }

  /** Whatever runs is held, reported, left over by a failed create, or a stray. */
  ghost predicate RunningOk(b: Sys, s: Sys) {
    forall id :: id in s.env.disk.running ==>
      var p := s.env.disk.running[id];
      Held(s.data, p, id) || Reported(s.env, p, id) || LeftOver(s.env, p, id) || Stray(b, p, id)
  }

  ghost predicate Conserved(b: Sys, s: Sys) {
    FatesOk(b, s) && OwnersOk(s.env) && RunningOk(b, s)
  }

  /** No call has reached the runtime yet. */
  ghost predicate Quiet(e: Env) {
    forall c :: c in e.calls ==> FileCall(c)
  }

  lemma FateOf(b: Sys, s: Sys, p: Principal, id: ContainerId)
    requires FatesOk(b, s)
    ensures Fates(s, p, id) == One(OnBooks(b, s.env, p, id))
  {
    hide Fates, OnBooks, One;
  }

  lemma BooksOpen(b: Sys)
    requires Quiet(b.env)
    ensures Conserved(b, b)
  {
  }

  function IdOf(op: Op): Option<ContainerId> {
    if !op.Create? then None
    else match op.create.answer
      case Created(res) => Some(res.containerID)
      case CreateFailed(leftover) => leftover
  }

  ghost predicate FreshFor(b: Sys, e: Env, op: Op) {
    IdOf(op).Some? ==> forall p :: !Mentioned(e, p, IdOf(op).value) && !Held(b.data, p, IdOf(op).value)
  }

  /** Runtime and cleanup are wired. */
  predicate Wired(op: Op) {
    && (op.Create? ==> op.create.cleanup.Some?)
    && (op.Release? ==> op.release.runtime.Some?)
  }

  /** Every lease sits under its owner; every section of either store keeps this. */
  ghost predicate Keyed(leases: map<Principal, Record>) {
    forall p :: p in leases ==> leases[p].owner == p
  }

  lemma StepKeepsKeyed(s: Sys, op: Op)
    requires Keyed(s.data.leases)
    ensures Keyed(FileStep(s, op).0.data.leases)
  {
  }

  lemma {:induction false} RunsStayKeyed(b: Sys, ops: seq<Op>)
    requires Keyed(b.data.leases)
    ensures Keyed(RunFrom(b, ops).data.leases)
  {
    if ops != [] {
      RunsStayKeyed(b, ops[..|ops| - 1]);
      StepKeepsKeyed(RunFrom(b, ops[..|ops| - 1]), ops[|ops| - 1]);
    }
  }

  // --- one section ---

  /** Snapshots change no fate. */
  lemma SavingKeepsFates(e: Env, data: StoreData, a: SaveAnswer)
    ensures forall c :: !FileCall(c) ==> (c in e.Save(data, a).calls <==> c in e.calls)
    ensures e.Save(data, a).disk.running == e.disk.running
  {
  }

  /** What a create that got a container changes in the accounts of one container. */
  lemma CreatedAtoms(s: Sys, a: CreateArgs, save: SaveAnswer, p: Principal, i: ContainerId)
    requires !a.Blocked(s.data.leases) && a.answer.Created? && (save == Saved || a.cleanup.Some?)
    ensures var t := FileStep(s, Create(a, save)).0;
            var mine := p == a.p && i == a.answer.res.containerID;
            var stopped := save == Saved || a.cleanup.value.StopDone?;
            && (Issued(t.env, p, i) <==> Issued(s.env, p, i) || mine)
            && (LeftOver(t.env, p, i) <==> LeftOver(s.env, p, i))
            && (Released(t.env, p, i) <==> Released(s.env, p, i))
            && (Cleaned(t.env, p, i) <==> Cleaned(s.env, p, i) || (mine && save != Saved && stopped))
            && (Reported(t.env, p, i) <==> Reported(s.env, p, i) || (mine && save != Saved && !stopped))
            && (Held(t.data, p, i) <==> Held(s.data, p, i) || (mine && save == Saved))
  {
    hide Env.Save;
    var d' := s.data.(leases := s.data.leases[a.p := a.Build(a.answer.res)]);
    SavingKeepsFates(s.env.CreateService(a.p, a.answer), d', save);
  }

  lemma CreatedRuns(s: Sys, a: CreateArgs, save: SaveAnswer)
    requires !a.Blocked(s.data.leases) && a.answer.Created? && (save == Saved || a.cleanup.Some?)
    ensures var t := FileStep(s, Create(a, save)).0;
            var running := s.env.disk.running[a.answer.res.containerID := a.p];
            || t.env.disk.running == running
            || (save != Saved && t.env.disk.running == running - {a.answer.res.containerID})
  {
    hide Env.Save;
    var d' := s.data.(leases := s.data.leases[a.p := a.Build(a.answer.res)]);
    SavingKeepsFates(s.env.CreateService(a.p, a.answer), d', save);
  }

  lemma CreatedConserves(b: Sys, s: Sys, a: CreateArgs, save: SaveAnswer)
    requires Conserved(b, s) && a.cleanup.Some? && FreshFor(b, s.env, Create(a, save))
    requires !a.Blocked(s.data.leases) && a.answer.Created?
    ensures Conserved(b, FileStep(s, Create(a, save)).0)
  {
    var t := FileStep(s, Create(a, save)).0;
    var id := a.answer.res.containerID;
    assert IdOf(Create(a, save)) == Some(id);
    assert !Mentioned(s.env, a.p, id) && !Held(b.data, a.p, id);
    CreatedRuns(s, a, save);
    hide FileStep, Issued, Released, Cleaned, Reported, Held, LeftOver;
    forall p, i ensures Fates(t, p, i) == One(OnBooks(b, t.env, p, i)) {
      CreatedAtoms(s, a, save, p, i);
      assert Fates(s, p, i) == One(OnBooks(b, s.env, p, i));
    }
    forall p, q, i | Mentioned(t.env, p, i) && Mentioned(t.env, q, i) ensures p == q {
      CreatedAtoms(s, a, save, p, i);
      CreatedAtoms(s, a, save, q, i);
      assert p != a.p || i != id ==> Mentioned(s.env, p, i);
      assert q != a.p || i != id ==> Mentioned(s.env, q, i);
    }
    forall i | i in t.env.disk.running
      ensures var p := t.env.disk.running[i];
              Held(t.data, p, i) || Reported(t.env, p, i) || LeftOver(t.env, p, i) || Stray(b, p, i)
    {
      CreatedAtoms(s, a, save, t.env.disk.running[i], i);
    }
  }

  lemma FailedCreateConserves(b: Sys, s: Sys, a: CreateArgs, save: SaveAnswer)
    requires Conserved(b, s) && FreshFor(b, s.env, Create(a, save))
    requires !a.Blocked(s.data.leases) && a.answer.CreateFailed?
    ensures Conserved(b, FileStep(s, Create(a, save)).0)
  {
    var t := FileStep(s, Create(a, save)).0;
    assert IdOf(Create(a, save)) == a.answer.leftover;
    assert t.data == s.data;
    forall p, i
      ensures Fates(t, p, i) == Fates(s, p, i) && (Issued(t.env, p, i) <==> Issued(s.env, p, i))
      ensures Mentioned(t.env, p, i) <==> Mentioned(s.env, p, i) || (p == a.p && Some(i) == a.answer.leftover)
    {
    }
  }

  /** What a release attempt changes in the accounts of one container. */
  lemma ReleasedAtoms(s: Sys, a: ReleaseArgs, save: SaveAnswer, p: Principal, i: ContainerId)
    requires a.Applies(s.data.leases) && a.runtime.Some?
    ensures var t := FileStep(s, Release(a, save)).0;
            var done := p == a.p && i == s.data.leases[a.p].containerID && a.Failure() == None;
            && (Issued(t.env, p, i) <==> Issued(s.env, p, i))
            && (LeftOver(t.env, p, i) <==> LeftOver(s.env, p, i))
            && (Cleaned(t.env, p, i) <==> Cleaned(s.env, p, i))
            && (Reported(t.env, p, i) <==> Reported(s.env, p, i))
            && (Released(t.env, p, i) <==> Released(s.env, p, i) || done)
            && (Held(t.data, p, i) <==> Held(s.data, p, i) && !done)
  {
    hide Env.Save;
    SavingKeepsFates(a.Calls(s.env, s.data.leases[a.p].containerID), FileStep(s, Release(a, save)).0.data, save);
  }

  lemma ReleasedRuns(s: Sys, a: ReleaseArgs, save: SaveAnswer)
    requires a.Applies(s.data.leases) && a.runtime.Some?
    ensures var t, id := FileStep(s, Release(a, save)).0, s.data.leases[a.p].containerID;
            || t.env.disk.running == s.env.disk.running - {id}
            || (t.env.disk.running == s.env.disk.running && a.Failure() != None)
  {
    hide Env.Save;
    SavingKeepsFates(a.Calls(s.env, s.data.leases[a.p].containerID), FileStep(s, Release(a, save)).0.data, save);
  }

  lemma {:induction false} ReleaseConserves(b: Sys, s: Sys, a: ReleaseArgs, save: SaveAnswer)
    requires Conserved(b, s) && a.runtime.Some? && a.Applies(s.data.leases)
    ensures Conserved(b, FileStep(s, Release(a, save)).0)
  {
    var t := FileStep(s, Release(a, save)).0;
    assert Held(s.data, a.p, s.data.leases[a.p].containerID);
    ReleasedRuns(s, a, save);
    hide FileStep, Issued, Released, Cleaned, Reported, Held, LeftOver, ReleaseArgs.Failure;
    forall p, i
      ensures Fates(t, p, i) == One(OnBooks(b, t.env, p, i)) && (Mentioned(t.env, p, i) <==> Mentioned(s.env, p, i))
    {
      ReleasedAtoms(s, a, save, p, i);
      assert Fates(s, p, i) == One(OnBooks(b, s.env, p, i));
    }
    forall i | i in t.env.disk.running
      ensures var p := t.env.disk.running[i];
              Held(t.data, p, i) || Reported(t.env, p, i) || LeftOver(t.env, p, i) || Stray(b, p, i)
    {
      ReleasedAtoms(s, a, save, t.env.disk.running[i], i);
    }
  }

  /** Sections that reach no runtime and keep who holds what change nothing that is accounted for. */
  lemma QuietConserves(b: Sys, s: Sys, t: Sys)
    requires Conserved(b, s) && t.env.disk.running == s.env.disk.running
    requires forall c :: !FileCall(c) ==> (c in t.env.calls <==> c in s.env.calls)
    requires forall p, id :: Held(t.data, p, id) <==> Held(s.data, p, id)
    ensures Conserved(b, t)
  {
    forall p, id ensures Fates(t, p, id) == Fates(s, p, id) && (Issued(t.env, p, id) <==> Issued(s.env, p, id)) {
      assert Held(t.data, p, id) <==> Held(s.data, p, id);
    }
    assert forall p, id :: Mentioned(t.env, p, id) <==> Mentioned(s.env, p, id);
  }

  function ContainerOf(leases: map<Principal, Record>, p: Principal): Option<ContainerId> {
    if p in leases && leases[p].state == Active then Some(leases[p].containerID) else None
  }

  /** The written lease holds what its owner's lease holds already: the same container, or both nothing. */
  predicate Guarded(leases: map<Principal, Record>, l: Record) {
    ContainerOf(leases, l.owner) == if l.state == Active then Some(l.containerID) else None
  }

  /** What a bare write changes in the accounts of one container. */
  lemma WrittenAtoms(s: Sys, l: Record, save: SaveAnswer, p: Principal, i: ContainerId)
    ensures var t := FileStep(s, Upsert(l, save)).0;
            && (Held(t.data, p, i) <==>
                 if p == l.owner then l.state == Active && l.containerID == i else Held(s.data, p, i))
            && (Issued(t.env, p, i) <==> Issued(s.env, p, i))
            && (LeftOver(t.env, p, i) <==> LeftOver(s.env, p, i))
            && (Released(t.env, p, i) <==> Released(s.env, p, i))
            && (Cleaned(t.env, p, i) <==> Cleaned(s.env, p, i))
            && (Reported(t.env, p, i) <==> Reported(s.env, p, i))
            && t.env.disk.running == s.env.disk.running
  {
    hide Env.Save;
    SavingKeepsFates(s.env, Write(s.data, Upsert(l, save)), save);
  }

  /** A bare write keeps the books exactly when it holds the container the owner's lease holds at that moment. */
  lemma {:induction false} WriteBackConserves(b: Sys, s: Sys, l: Record, save: SaveAnswer)
    requires Conserved(b, s)
    ensures Conserved(b, FileStep(s, Upsert(l, save)).0) <==> Guarded(s.data.leases, l)
  {
    if Guarded(s.data.leases, l) {
      GuardedConserves(b, s, l, save);
    } else {
      UnguardedBreaks(b, s, l, save);
    }
  }

  lemma GuardedConserves(b: Sys, s: Sys, l: Record, save: SaveAnswer)
    requires Conserved(b, s) && Guarded(s.data.leases, l)
    ensures Conserved(b, FileStep(s, Upsert(l, save)).0)
  {
    hide Env.Save;
    SavingKeepsFates(s.env, Write(s.data, Upsert(l, save)), save);
    QuietConserves(b, s, FileStep(s, Upsert(l, save)).0);
  }

  lemma UnguardedBreaks(b: Sys, s: Sys, l: Record, save: SaveAnswer)
    requires Conserved(b, s) && !Guarded(s.data.leases, l)
    ensures !Conserved(b, FileStep(s, Upsert(l, save)).0)
  {
    var t := FileStep(s, Upsert(l, save)).0;
    var id := if l.state == Active then l.containerID else s.data.leases[l.owner].containerID;
    assert Held(s.data, l.owner, id) <==> l.state != Active;
    WrittenAtoms(s, l, save, l.owner, id);
    FateOf(b, s, l.owner, id);
    hide FileStep, Held, Issued, Released, Cleaned, Reported;
    assert Fates(t, l.owner, id) != Fates(s, l.owner, id);
    assert OnBooks(b, t.env, l.owner, id) <==> OnBooks(b, s.env, l.owner, id);
  }

  lemma StepConserves(b: Sys, s: Sys, op: Op)
    requires Conserved(b, s) && Keyed(s.data.leases) && Wired(op) && FreshFor(b, s.env, op)
    requires op.Upsert? ==> Guarded(s.data.leases, op.lease)
    ensures Conserved(b, FileStep(s, op).0)
  {
    hide Conserved, Env.Save;
    match op
    case Create(a, save) =>
      if a.Blocked(s.data.leases) {
      } else if a.answer.Created? {
        CreatedConserves(b, s, a, save);
      } else {
        FailedCreateConserves(b, s, a, save);
      }
    case Release(a, save) => if a.Applies(s.data.leases) { ReleaseConserves(b, s, a, save); }
    case Upsert(l, save) => WriteBackConserves(b, s, l, save);
    case Lookup(_) => case List => case GetKey(_) => case Resolve(_) => case GetSubmission(_) =>
    case Touch(_, _, _, save) =>
      if op.TouchApplies(s.data.leases) {
        SavingKeepsFates(s.env, Write(s.data, op), save);
        QuietConserves(b, s, FileStep(s, op).0);
      }
    case RegisterKey(_, _, save) =>
      SavingKeepsFates(s.env, Write(s.data, op), save);
      QuietConserves(b, s, FileStep(s, op).0);
    case MapProblem(_, _, save) =>
      SavingKeepsFates(s.env, Write(s.data, op), save);
      QuietConserves(b, s, FileStep(s, op).0);
    case SaveSubmission(_, save) =>
      SavingKeepsFates(s.env, Write(s.data, op), save);
      QuietConserves(b, s, FileStep(s, op).0);
  }

  /** A section mentions no container id but the one the runtime gave it. */
  lemma {:induction false} StepMentions(s: Sys, op: Op, p: Principal, id: ContainerId)
    requires Mentioned(FileStep(s, op).0.env, p, id)
    ensures Mentioned(s.env, p, id) || IdOf(op) == Some(id)
  {
    hide Env.Save;
    match op
    case Create(a, save) => CreateMentions(s, a, save, p, id);
    case Release(a, save) =>
      if a.Applies(s.data.leases) {
        SavingKeepsFates(a.Calls(s.env, s.data.leases[a.p].containerID), FileStep(s, op).0.data, save);
      }
    case Lookup(_) => case List => case GetKey(_) => case Resolve(_) => case GetSubmission(_) =>
    case Touch(_, _, _, save) =>
      if op.TouchApplies(s.data.leases) {
        SavingKeepsFates(s.env, Write(s.data, op), save);
      }
    case Upsert(_, save) => SavingKeepsFates(s.env, Write(s.data, op), save);
    case RegisterKey(_, _, save) => SavingKeepsFates(s.env, Write(s.data, op), save);
    case MapProblem(_, _, save) => SavingKeepsFates(s.env, Write(s.data, op), save);
    case SaveSubmission(_, save) => SavingKeepsFates(s.env, Write(s.data, op), save);
  }

  lemma CreateMentions(s: Sys, a: CreateArgs, save: SaveAnswer, p: Principal, id: ContainerId)
    requires Mentioned(FileStep(s, Create(a, save)).0.env, p, id)
    ensures Mentioned(s.env, p, id) || IdOf(Create(a, save)) == Some(id)
  {
    hide Env.Save;
    if !a.Blocked(s.data.leases) && a.answer.Created? {
      var d' := s.data.(leases := s.data.leases[a.p := a.Build(a.answer.res)]);
      SavingKeepsFates(s.env.CreateService(a.p, a.answer), d', save);
    }
  }

  // --- whole runs ---

  /** No two sections of a run get the same container id from the runtime, nor one that was held before. */
  ghost predicate FreshIds(b: Sys, ops: seq<Op>) {
    && (forall i, j :: 0 <= i < j < |ops| && IdOf(ops[i]).Some? ==> IdOf(ops[i]) != IdOf(ops[j]))
    && (forall i, p :: 0 <= i < |ops| && IdOf(ops[i]).Some? ==> !Held(b.data, p, IdOf(ops[i]).value))
  }

  /** Each bare write of the run holds what its owner's lease holds at that moment. */
  ghost predicate GuardedWrites(b: Sys, ops: seq<Op>) {
    forall n :: 0 <= n < |ops| && ops[n].Upsert? ==> Guarded(RunFrom(b, ops[..n]).data.leases, ops[n].lease)
  }

  /** What a run is assumed to be for the books to balance. */
  ghost predicate Regular(b: Sys, ops: seq<Op>) {
    && Quiet(b.env) && Keyed(b.data.leases)
    && FreshIds(b, ops) && (forall n :: 0 <= n < |ops| ==> Wired(ops[n])) && GuardedWrites(b, ops)
  }

  lemma RegularPrefix(b: Sys, ops: seq<Op>, n: nat)
    requires Regular(b, ops) && n <= |ops|
    ensures Regular(b, ops[..n])
  {
    forall k | 0 <= k < n && ops[k].Upsert? ensures Guarded(RunFrom(b, ops[..n][..k]).data.leases, ops[..n][k].lease) {
      assert ops[..n][..k] == ops[..k];
    }
  }

  lemma {:induction false} RunMentions(b: Sys, ops: seq<Op>, p: Principal, id: ContainerId)
    requires Quiet(b.env) && Mentioned(RunFrom(b, ops).env, p, id)
    ensures exists i :: 0 <= i < |ops| && IdOf(ops[i]) == Some(id)
  {
    if ops != [] {
      var before, op := ops[..|ops| - 1], ops[|ops| - 1];
      StepMentions(RunFrom(b, before), op, p, id);
      if Mentioned(RunFrom(b, before).env, p, id) {
        RunMentions(b, before, p, id);
        var i :| 0 <= i < |before| && IdOf(before[i]) == Some(id);
        assert IdOf(ops[i]) == Some(id);
      }
    }
  }

  lemma NextIsFresh(b: Sys, ops: seq<Op>, n: nat)
    requires Regular(b, ops) && n < |ops|
    ensures FreshFor(b, RunFrom(b, ops[..n]).env, ops[n])
  {
    if IdOf(ops[n]).Some? {
      forall p ensures !Mentioned(RunFrom(b, ops[..n]).env, p, IdOf(ops[n]).value) {
        if Mentioned(RunFrom(b, ops[..n]).env, p, IdOf(ops[n]).value) {
          RunMentions(b, ops[..n], p, IdOf(ops[n]).value);
        }
      }
    }
  }

  /** Over every run, whatever creates, drains, stops, cleanups and snapshots fail: each container on the books is in
      exactly one of {stopped by a release, stopped by a cleanup, reported as not cleaned up, held by its owner's
      Active lease}, and nothing else is in any of them. Bare writes are allowed wherever they hold what the owner's
      lease holds. */
  lemma {:induction false} ContainersAreConserved(b: Sys, ops: seq<Op>)
    requires Regular(b, ops)
    ensures Conserved(b, RunFrom(b, ops))
  {
    if ops == [] {
      BooksOpen(b);
    } else {
      var n := |ops| - 1;
      RegularPrefix(b, ops, n);
      NextIsFresh(b, ops, n);
      RunsStayKeyed(b, ops[..n]);
      ContainersAreConserved(b, ops[..n]);
      StepConserves(b, RunFrom(b, ops[..n]), ops[n]);
    }
  }

  /** Hence a principal has at most one running container nobody was told about. */
  lemma AtMostOneUnreported(b: Sys, ops: seq<Op>, i: ContainerId, j: ContainerId)
    requires Regular(b, ops)
    requires var e := RunFrom(b, ops).env;
             var running := e.disk.running;
             && i in running && j in running && running[i] == running[j]
             && !Reported(e, running[i], i) && !LeftOver(e, running[i], i) && !Stray(b, running[i], i)
             && !Reported(e, running[j], j) && !LeftOver(e, running[j], j) && !Stray(b, running[j], j)
    ensures i == j
  {
    ContainersAreConserved(b, ops);
  }

  /** The section `ops[n]` is a release that completed for the container `id` of `p`. */
  ghost predicate Wins(b: Sys, ops: seq<Op>, n: nat, p: Principal, id: ContainerId)
    requires n < |ops|
  {
    && ops[n].Release? && ops[n].release.p == p && ops[n].release.Failure() == None
    && ops[n].release.Applies(RunFrom(b, ops[..n]).data.leases)
    && RunFrom(b, ops[..n]).data.leases[p].containerID == id
  }

  lemma {:induction false} LogGrows(b: Sys, ops: seq<Op>, i: nat, j: nat)
    requires i <= j <= |ops|
    ensures RunFrom(b, ops[..i]).env.Precedes(RunFrom(b, ops[..j]).env)
  {
    hide FileStep;
    if i < j {
      LogGrows(b, ops, i, j - 1);
      assert ops[..j][..j - 1] == ops[..j - 1];
      StepPoints(RunFrom(b, ops[..j - 1]), ops[j - 1]);
    }
  }

  lemma WinIsLogged(b: Sys, ops: seq<Op>, n: nat, p: Principal, id: ContainerId)
    requires n < |ops| && Wins(b, ops, n, p, id) && Wired(ops[n])
    ensures Released(RunFrom(b, ops[..n + 1]).env, p, id)
  {
    assert ops[..n + 1][..n] == ops[..n] && ops[..n + 1][n] == ops[n];
    ReleasedAtoms(RunFrom(b, ops[..n]), ops[n].release, ops[n].save, p, id);
  }

  /** Among all manual, max-life and idle releases of a run, at most one completes per lease incarnation. */
  lemma SingleWinner(b: Sys, ops: seq<Op>, i: nat, j: nat, p: Principal, id: ContainerId)
    requires Regular(b, ops)
    requires i <= j < |ops| && Wins(b, ops, i, p, id) && Wins(b, ops, j, p, id)
    ensures i == j
  {
    if i < j {
      WinIsLogged(b, ops, i, p, id);
      LogGrows(b, ops, i + 1, j);
      assert Fates(RunFrom(b, ops[..j]), p, id) >= 2;
      RegularPrefix(b, ops, j);
      ContainersAreConserved(b, ops[..j]);
    }
  }

  // --- the roster handler as written: a copy is read in one section and written back in another ---

  /** Only the create that got a container can log its cleanup. */
  lemma StepCleansOwn(s: Sys, op: Op, p: Principal, id: ContainerId)
    requires Wired(op) && IdOf(op) != Some(id)
    ensures Cleaned(FileStep(s, op).0.env, p, id) <==> Cleaned(s.env, p, id)
    ensures Reported(FileStep(s, op).0.env, p, id) <==> Reported(s.env, p, id)
  {
    hide Env.Save;
    match op
    case Create(a, save) =>
      if !a.Blocked(s.data.leases) && a.answer.Created? {
        CreatedAtoms(s, a, save, p, id);
      }
    case Release(a, save) => if a.Applies(s.data.leases) { ReleasedAtoms(s, a, save, p, id); }
    case Lookup(_) => case List => case GetKey(_) => case Resolve(_) => case GetSubmission(_) =>
    case Touch(_, _, _, save) =>
      if op.TouchApplies(s.data.leases) {
        SavingKeepsFates(s.env, Write(s.data, op), save);
      }
    case Upsert(_, save) => SavingKeepsFates(s.env, Write(s.data, op), save);
    case RegisterKey(_, _, save) => SavingKeepsFates(s.env, Write(s.data, op), save);
    case MapProblem(_, _, save) => SavingKeepsFates(s.env, Write(s.data, op), save);
    case SaveSubmission(_, save) => SavingKeepsFates(s.env, Write(s.data, op), save);
  }

  lemma OneFate(b: Sys, s: Sys, p: Principal, id: ContainerId)
    requires Conserved(b, s)
    ensures Held(s.data, p, id) ==> OnBooks(b, s.env, p, id) && !Cleaned(s.env, p, id) && !Reported(s.env, p, id)
    ensures OnBooks(b, s.env, p, id) && !Cleaned(s.env, p, id) && !Reported(s.env, p, id) ==>
              (Held(s.data, p, id) <==> !Released(s.env, p, id))
  {
    FateOf(b, s, p, id);
    hide Held, Released, Cleaned, Reported, OnBooks;
  }

  lemma StillOnBooks(b: Sys, s: Sys, op: Op, p: Principal, id: ContainerId)
    requires OnBooks(b, s.env, p, id) && FreshFor(b, s.env, op) && Wired(op)
    requires s.env.Precedes(FileStep(s, op).0.env)
    ensures var t := FileStep(s, op).0;
            && OnBooks(b, t.env, p, id)
            && (Cleaned(t.env, p, id) <==> Cleaned(s.env, p, id))
            && (Reported(t.env, p, id) <==> Reported(s.env, p, id))
  {
    assert Mentioned(s.env, p, id) || Held(b.data, p, id);
    assert IdOf(op) != Some(id);
    StepCleansOwn(s, op, p, id);
    hide FileStep;
  }

  /** A container that was held once leaves its lease only through a release. */
  lemma {:induction false} HeldUntilReleased(b: Sys, ops: seq<Op>, i: nat, j: nat, p: Principal, id: ContainerId)
    requires Regular(b, ops) && i <= j <= |ops| && Held(RunFrom(b, ops[..i]).data, p, id)
    ensures var s := RunFrom(b, ops[..j]);
            && OnBooks(b, s.env, p, id) && !Cleaned(s.env, p, id) && !Reported(s.env, p, id)
            && (Held(s.data, p, id) <==> !Released(s.env, p, id))
  {
    hide Conserved, Held, Released, Cleaned, Reported, OnBooks, FileStep, FreshFor;
    RegularPrefix(b, ops, j);
    ContainersAreConserved(b, ops[..j]);
    OneFate(b, RunFrom(b, ops[..j]), p, id);
    if i < j {
      HeldUntilReleased(b, ops, i, j - 1, p, id);
      assert ops[..j][..j - 1] == ops[..j - 1] && ops[..j][j - 1] == ops[j - 1];
      NextIsFresh(b, ops, j - 1);
      LogGrows(b, ops, j - 1, j);
      StillOnBooks(b, RunFrom(b, ops[..j - 1]), ops[j - 1], p, id);
    }
  }

  /** The handler reads the Active lease of `p` after `i` sections and writes its update back as section `j`, anything
      in between. The books still balance exactly when no release of the copied container went through in between. */
  lemma HandlerWriteBack(b: Sys, ops: seq<Op>, i: nat, j: nat, p: Principal, report: Report, now: Time,
                         save: SaveAnswer)
    requires i <= j < |ops| && Regular(b, ops[..j])
    requires ContainerOf(RunFrom(b, ops[..i]).data.leases, p).Some?
    requires ops[j] == Upsert(RunFrom(b, ops[..i]).data.leases[p].Touched(report, now), save)
    ensures Conserved(b, RunFrom(b, ops[..j + 1]))
            <==> !Released(RunFrom(b, ops[..j]).env, p, ContainerOf(RunFrom(b, ops[..i]).data.leases, p).value)
  {
    hide Conserved, Released, Cleaned, Reported, OnBooks, FileStep, Record.Touched, Env.Save, FreshIds, GuardedWrites;
    var l, id := ops[j].lease, ContainerOf(RunFrom(b, ops[..i]).data.leases, p).value;
    OwnerOfCopy(b, ops[..i], p, report, now);
    assert ops[..j][..i] == ops[..i] && ops[..j][..j] == ops[..j];
    assert ops[..j + 1][..j] == ops[..j] && ops[..j + 1][j] == ops[j];
    HeldUntilReleased(b, ops[..j], i, j, p, id);
    ContainersAreConserved(b, ops[..j]);
    WriteBackConserves(b, RunFrom(b, ops[..j]), l, save);
  }

  lemma OwnerOfCopy(b: Sys, ops: seq<Op>, p: Principal, report: Report, now: Time)
    requires Keyed(b.data.leases) && ContainerOf(RunFrom(b, ops).data.leases, p).Some?
    ensures var copy, l := RunFrom(b, ops).data.leases[p], RunFrom(b, ops).data.leases[p].Touched(report, now);
            l.owner == p && l.state == Active && l.containerID == copy.containerID
  {
    RunsStayKeyed(b, ops);
    hide RunFrom;
  }

  /** Why the roster's update must be one section: a copy read before a release and a create, and written back after
      them, puts the stopped container back and loses the running one. */
  lemma StaleRosterWriteLosesContainer(b: Sys, s: Sys, rel: ReleaseArgs, cr: CreateArgs, stale: Record)
    requires Conserved(b, s) && rel.Applies(s.data.leases) && cr.p == rel.p
    requires rel.runtime == Some(StopDone) && rel.DrainOk()
    requires cr.answer.Created? && FreshFor(b, s.env, Create(cr, Saved))
    requires stale.owner == rel.p && stale.state == Active
    requires stale.containerID == s.data.leases[rel.p].containerID
    ensures var u := FileStep(FileStep(s, Release(rel, Saved)).0, Create(cr, Saved)).0;
            var t := FileStep(u, Upsert(stale, Saved)).0;
            var lost := cr.answer.res.containerID;
            && lost in t.env.disk.running
            && Issued(t.env, cr.p, lost) && Fates(t, cr.p, lost) == 0
            && Held(t.data, rel.p, stale.containerID) && Released(t.env, rel.p, stale.containerID)
  {
    var lost, stopped := cr.answer.res.containerID, stale.containerID;
    assert IdOf(Create(cr, Saved)) == Some(lost);
    assert !Mentioned(s.env, cr.p, lost) && !OnBooks(b, s.env, cr.p, lost) && Fates(s, cr.p, lost) == 0;
    assert Held(s.data, rel.p, stopped) && Fates(s, rel.p, stopped) == 1;
    var s1 := FileStep(s, Release(rel, Saved)).0;
    var s2 := FileStep(s1, Create(cr, Saved)).0;
    ReleasedAtoms(s, rel, Saved, rel.p, stopped);
    ReleasedAtoms(s, rel, Saved, cr.p, lost);
    ReleaseFrees(s, rel);
    hide FileStep, FreshFor, Conserved;
    CreatedAtoms(s1, cr, Saved, rel.p, stopped);
    CreatedAtoms(s1, cr, Saved, cr.p, lost);
    CreatedRuns(s1, cr, Saved);
    WrittenAtoms(s2, stale, Saved, rel.p, stopped);
    WrittenAtoms(s2, stale, Saved, cr.p, lost);
  }

  lemma ReleaseFrees(s: Sys, rel: ReleaseArgs)
    requires rel.Applies(s.data.leases) && rel.Failure() == None
    ensures rel.p in FileStep(s, Release(rel, Saved)).0.data.leases
    ensures FileStep(s, Release(rel, Saved)).0.data.leases[rel.p].state == Reclaimed
  {
  }
}
