/** The file-backed store refines the in-memory one. */
module Simulation {
  import opened LeaseModel
  import opened Environment
  import opened StoreTypes
  import opened Operations
  import opened SerializedStores
  import opened FileStores
  import opened Runs

  /** The section writes its snapshot if it writes one at all. */
  predicate Saves(op: Op) {
    op.Lookup? || op.List? || op.GetKey? || op.Resolve? || op.GetSubmission? || op.save == Saved
  }

  /** Same memory, same calls to the runtime. */
  ghost predicate Agree(f: Sys, s: Sys) {
    f.data == s.data && RuntimeCalls(f.env.calls) == s.env.calls && f.env.disk.running == s.env.disk.running
  }

  /** The disk is the memory; before the first write both are empty. */
  ghost predicate InSync(f: Sys) {
    f.env.disk.file == Whole(f.data) || (f.env.disk.file == Absent && f.data == EMPTY_DATA)
  }

  lemma CallAgrees(f: Env, s: Env, c: Call, d: Durable, d': Durable)
    requires RuntimeCalls(f.calls) == s.calls && !FileCall(c)
    ensures RuntimeCalls(f.After(c, d).calls) == s.After(c, d').calls
  {
    OneMoreCall(f.calls, c);
  }

  lemma DrainAgrees(f: Env, s: Env, a: ReleaseArgs) returns (f1: Env, s1: Env)
    requires RuntimeCalls(f.calls) == s.calls
    ensures f1 == (if a.drainer.Some? then f.DrainChannels(a.p, a.drainer.value) else f)
    ensures s1 == (if a.drainer.Some? then s.DrainChannels(a.p, a.drainer.value) else s)
    ensures RuntimeCalls(f1.calls) == s1.calls && f1.disk == f.disk && s1.disk == s.disk
  {
    hide RuntimeCalls;
    f1, s1 := f, s;
    if a.drainer.Some? {
      f1, s1 := f.DrainChannels(a.p, a.drainer.value), s.DrainChannels(a.p, a.drainer.value);
      CallAgrees(f, s, Drain(a.p, a.drainer.value), f.disk, s.disk);
    }
  }

  lemma ReleaseCallsAgree(f: Env, s: Env, a: ReleaseArgs, id: ContainerId)
    requires RuntimeCalls(f.calls) == s.calls && f.disk.running == s.disk.running
    ensures RuntimeCalls(a.Calls(f, id).calls) == a.Calls(s, id).calls
    ensures a.Calls(f, id).disk.running == a.Calls(s, id).disk.running
    ensures a.Calls(f, id).disk.file == f.disk.file
  {
    hide RuntimeCalls;
    var f1, s1 := DrainAgrees(f, s, a);
    if a.DrainOk() && a.runtime.Some? {
      var f2, s2 := a.Calls(f, id), a.Calls(s, id);
      CallAgrees(f1, s1, Stop(ForRelease, a.p, id, a.runtime.value.StopDone?), f2.disk, s2.disk);
    }
  }

  lemma CreateAgrees(f: Sys, s: Sys, a: CreateArgs)
    requires Agree(f, s) && InSync(f)
    ensures var (f', fo) := FileStep(f, Create(a, Saved));
            var (s', so) := SerStep(s, Create(a, Saved));
            Agree(f', s') && InSync(f') && fo == so
  {
    hide RuntimeCalls, Env.Save;
    if !a.Blocked(f.data.leases) {
      var fe, se := f.env.CreateService(a.p, a.answer), s.env.CreateService(a.p, a.answer);
      var c := match a.answer
        case Created(res) => CreateOk(a.p, res.containerID)
        case CreateFailed(leftover) => CreateErr(a.p, leftover);
      CallAgrees(f.env, s.env, c, fe.disk, se.disk);
      SavingIsSilent(fe, FileStep(f, Create(a, Saved)).0.data, Saved);
      SaveIsAtomic(fe, FileStep(f, Create(a, Saved)).0.data, Saved);
    }
  }

  lemma ReleaseAgrees(f: Sys, s: Sys, a: ReleaseArgs)
    requires Agree(f, s) && InSync(f)
    ensures var (f', fo) := FileStep(f, Release(a, Saved));
            var (s', so) := SerStep(s, Release(a, Saved));
            Agree(f', s') && InSync(f') && fo == so
  {
    hide RuntimeCalls, Env.Save, ReleaseArgs.Calls;
    if a.Applies(f.data.leases) {
      var id := f.data.leases[a.p].containerID;
      ReleaseCallsAgree(f.env, s.env, a, id);
      SavingIsSilent(a.Calls(f.env, id), FileStep(f, Release(a, Saved)).0.data, Saved);
      SaveIsAtomic(a.Calls(f.env, id), FileStep(f, Release(a, Saved)).0.data, Saved);
    }
  }

  lemma WriteAgrees(f: Sys, s: Sys, d: StoreData)
    requires Agree(f, s)
    ensures Agree(Sys(d, f.env.Save(d, Saved)), Sys(d, s.env)) && InSync(Sys(d, f.env.Save(d, Saved)))
  {
    SavingIsSilent(f.env, d, Saved);
  }

  /** One section: same observation, same memory, same runtime calls, and the disk follows. */
  lemma StepAgrees(f: Sys, s: Sys, op: Op)
    requires Agree(f, s) && InSync(f) && Saves(op)
    ensures var (f', fo) := FileStep(f, op);
            var (s', so) := SerStep(s, op);
            Agree(f', s') && InSync(f') && fo == so
  {
    match op
    case Create(a, _) => CreateAgrees(f, s, a);
    case Release(a, _) => ReleaseAgrees(f, s, a);
    case Lookup(_) => case List => case GetKey(_) => case Resolve(_) => case GetSubmission(_) =>
    case Touch(_, _, _, _) => if op.TouchApplies(f.data.leases) { WriteAgrees(f, s, Write(f.data, op)); }
    case _ => WriteAgrees(f, s, Write(f.data, op));
  }

  /** Over every run whose snapshots succeed, the two stores are indistinguishable: the same observations, the same
      memory and the same calls to the runtime and the bastion; and the file always decodes to the memory. */
  lemma {:induction false} FileStoreSimulatesSerializedStore(ops: seq<Op>)
    requires forall op :: op in ops ==> Saves(op)
    ensures FileObs(ops) == SerObs(ops)
    ensures Agree(FileRun(ops), SerRun(ops)) && InSync(FileRun(ops))
  {
    if ops != [] {
      var before, op := ops[..|ops| - 1], ops[|ops| - 1];
      FileStoreSimulatesSerializedStore(before);
      StepAgrees(FileRun(before), SerRun(before), op);
    }
  }
}
