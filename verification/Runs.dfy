/** Runs of the controller: sequences of locked sections on either store, each with the environment's answers. */
module Runs {
  import opened Wrappers
  import opened LeaseModel
  import opened Environment
  import opened StoreTypes
  import opened Operations
  import opened SerializedStores
  import opened FileStores

  datatype Sys = Sys(data: StoreData, env: Env)

  const INIT := Sys(EMPTY_DATA, FRESH_ENV)

  ghost function FileStep(s: Sys, op: Op): (Sys, Obs) {
    match op
    case Create(a, save) =>
      var (d, e, r) := FileCreate(s.data, s.env, a, save); (Sys(d, e), CreateEnded(r))
    case Release(a, save) =>
      var (d, e, r) := FileRelease(s.data, s.env, a, save); (Sys(d, e), ReleaseEnded(r))
    case MapProblem(k, id, save) =>
      var (d, e, ok) := FileMap(s.data, s.env, k, id, save); (Sys(d, e), Written(ok))
    case Touch(_, _, _, _) =>
      if !op.TouchApplies(s.data.leases) then (s, Written(true))
      else var (d, e, ok) := FileWrite(Write(s.data, op), s.env, op.save); (Sys(d, e), Written(ok))
    case Upsert(_, _) =>
      var (d, e, ok) := FileWrite(Write(s.data, op), s.env, op.save); (Sys(d, e), Written(ok))
    case RegisterKey(_, _, _) =>
      var (d, e, ok) := FileWrite(Write(s.data, op), s.env, op.save); (Sys(d, e), Written(ok))
    case SaveSubmission(_, _) =>
      var (d, e, ok) := FileWrite(Write(s.data, op), s.env, op.save); (Sys(d, e), Written(ok))
    case _ => (s, Read(s.data, op))
  }

  ghost function SerStep(s: Sys, op: Op): (Sys, Obs) {
    match op
    case Create(a, _) =>
      var (d, e, r) := SerCreate(s.data, s.env, a); (Sys(d, e), CreateEnded(r))
    case Release(a, _) =>
      var (d, e, r) := SerRelease(s.data, s.env, a); (Sys(d, e), ReleaseEnded(r))
    case Touch(_, _, _, _) =>
      if !op.TouchApplies(s.data.leases) then (s, Written(true)) else (Sys(Write(s.data, op), s.env), Written(true))
    case Upsert(_, _) => (Sys(Write(s.data, op), s.env), Written(true))
    case RegisterKey(_, _, _) => (Sys(Write(s.data, op), s.env), Written(true))
    case MapProblem(_, _, _) => (Sys(Write(s.data, op), s.env), Written(true))
    case SaveSubmission(_, _) => (Sys(Write(s.data, op), s.env), Written(true))
    case _ => (s, Read(s.data, op))
  }

  /** A run of the file-backed store from any system. */
  ghost function RunFrom(s: Sys, ops: seq<Op>): Sys {
    if ops == [] then s else FileStep(RunFrom(s, ops[..|ops| - 1]), ops[|ops| - 1]).0
  }

  lemma RunFromSnoc(s: Sys, ops: seq<Op>, op: Op)
    ensures RunFrom(s, ops + [op]) == FileStep(RunFrom(s, ops), op).0
  {
    assert (ops + [op])[..|ops|] == ops;
  }

  lemma {:induction false} RunFromAppend(s: Sys, a: seq<Op>, b: seq<Op>)
    ensures RunFrom(s, a + b) == RunFrom(RunFrom(s, a), b)
  {
    if b == [] {
      assert a + b == a;
    } else {
      RunFromAppend(s, a, b[..|b| - 1]);
      assert (a + b)[..|a + b| - 1] == a + b[..|b| - 1];
    }
  }

  /** A run of the controller's first life, from an empty disk. */
  ghost function FileRun(ops: seq<Op>): Sys {
    RunFrom(INIT, ops)
  }

  ghost function FileObs(ops: seq<Op>): seq<Obs> {
    if ops == [] then []
    else FileObs(ops[..|ops| - 1]) + [FileStep(FileRun(ops[..|ops| - 1]), ops[|ops| - 1]).1]
  }

  ghost function SerRun(ops: seq<Op>): Sys {
    if ops == [] then INIT else SerStep(SerRun(ops[..|ops| - 1]), ops[|ops| - 1]).0
  }

  ghost function SerObs(ops: seq<Op>): seq<Obs> {
    if ops == [] then []
    else SerObs(ops[..|ops| - 1]) + [SerStep(SerRun(ops[..|ops| - 1]), ops[|ops| - 1]).1]
  }

  predicate FileCall(c: Call) {
    c.WriteTmp? || c.Rename? || c.RemoveTmp?
  }

  /** The calls that reach the runtime or the bastion. */
  function RuntimeCalls(calls: seq<Call>): seq<Call> {
    if calls == [] then []
    else RuntimeCalls(calls[..|calls| - 1]) + if FileCall(calls[|calls| - 1]) then [] else [calls[|calls| - 1]]
  }

  lemma OneMoreCall(calls: seq<Call>, c: Call)
    ensures RuntimeCalls(calls + [c]) == RuntimeCalls(calls) + if FileCall(c) then [] else [c]
  {
    assert (calls + [c])[..|calls|] == calls;
  }

  /** Saving adds no call that reaches the runtime. */
  lemma SavingIsSilent(e: Env, data: StoreData, a: SaveAnswer)
    ensures RuntimeCalls(e.Save(data, a).calls) == RuntimeCalls(e.calls)
  {
    OneMoreCall(e.calls, WriteTmp(a != WriteErr));
    OneMoreCall(e.calls + [WriteTmp(true)], Rename(a == Saved));
    OneMoreCall(e.calls + [WriteTmp(true)] + [Rename(false)], RemoveTmp);
  }

  /** An attempt reaches the bastion once, and the runtime once more unless the drain failed; either only where wired.
      */
  function AttemptLog(a: ReleaseArgs, id: ContainerId): seq<Call> {
    (if a.drainer.Some? then [Drain(a.p, a.drainer.value)] else [])
    + if a.drainer != Some(false) && a.runtime.Some? then [Stop(ForRelease, a.p, id, a.runtime.value.StopDone?)] else []
  }

  predicate Failed(c: Call) {
    (c.Drain? || c.Stop?) && !c.ok
  }

  lemma AttemptCalls(e: Env, a: ReleaseArgs, id: ContainerId)
    ensures RuntimeCalls(a.Calls(e, id).calls) == RuntimeCalls(e.calls) + AttemptLog(a, id)
  {
    hide RuntimeCalls;
    var e1 := if a.drainer.Some? then e.DrainChannels(a.p, a.drainer.value) else e;
    if a.drainer.Some? {
      OneMoreCall(e.calls, Drain(a.p, a.drainer.value));
    }
    if a.drainer != Some(false) && a.runtime.Some? {
      OneMoreCall(e1.calls, Stop(ForRelease, a.p, id, a.runtime.value.StopDone?));
    }
  }

  /** A release of an Active lease drains before it stops, stops nothing after a failed drain, and reclaims the lease
      exactly when neither failed. Whatever failed, a lease without release metadata is afterwards what it was. */
  lemma {:induction false} ReleaseIsAllOrNothing(s: Sys, a: ReleaseArgs, save: SaveAnswer)
    requires a.Applies(s.data.leases)
    ensures var (d, e, err) := FileRelease(s.data, s.env, a, save);
            var before, after := s.data.leases[a.p], d.leases[a.p];
            var log := AttemptLog(a, before.containerID);
            && d == s.data.(leases := s.data.leases[a.p := after])
            && RuntimeCalls(e.calls) == RuntimeCalls(s.env.calls) + log
            && (after.state == Reclaimed <==> forall c :: c in log ==> !Failed(c))
            && (after.state == Reclaimed ==>
                 after == before.(state := Reclaimed, releasedBy := Some(a.trigger), releasedAt := a.now))
            && (after.state != Reclaimed ==> err.Some? && (after == before <==> before.Clean()))
            && (err == None <==> after.state == Reclaimed && save == Saved)
  {
    var l := s.data.leases[a.p];
    AttemptCalls(s.env, a, l.containerID);
    SavingIsSilent(a.Calls(s.env, l.containerID), s.data.(leases := s.data.leases[a.p := a.Result(l)]), save);
    AttemptFails(a, l.containerID);
    hide RuntimeCalls, AttemptLog, Env.Save, Failed;
  }

  lemma AttemptFails(a: ReleaseArgs, id: ContainerId)
    ensures a.Failure() == None <==> forall c :: c in AttemptLog(a, id) ==> !Failed(c)
  {
    var log := AttemptLog(a, id);
    if a.drainer == Some(false) {
      assert Failed(log[0]) && log[0] in log;
    } else if !a.StopOk() {
      assert Failed(log[|log| - 1]) && log[|log| - 1] in log;
    }
  }

  /** With both wired, success is exactly one drain and then one stop. */
  lemma WiredReleaseCalls(a: ReleaseArgs, id: ContainerId)
    requires a.drainer.Some? && a.runtime.Some?
    ensures (forall c :: c in AttemptLog(a, id) ==> !Failed(c))
            <==> AttemptLog(a, id) == [Drain(a.p, true), Stop(ForRelease, a.p, id, true)]
  {
    AttemptFails(a, id);
    assert AttemptLog(a, id)[0] == Drain(a.p, a.drainer.value);
  }

  /** When the snapshot fails, a create and a problem mapping leave memory exactly as it was; every other write that
      applied stays in memory and differs from the disk from then on. */
  lemma FailedSnapshots(s: Sys, op: Op)
    requires !(op.Lookup? || op.List? || op.GetKey? || op.Resolve? || op.GetSubmission?) && op.save != Saved
    ensures var t := FileStep(s, op).0;
            && t.env.disk.file == s.env.disk.file
            && (op.Create? || op.MapProblem? ==> t.data == s.data)
            && (op.Upsert? || op.RegisterKey? || op.SaveSubmission? ==> t.data == Write(s.data, op))
            && (op.Touch? && op.TouchApplies(s.data.leases) ==> t.data == Write(s.data, op))
  {
  }
}
