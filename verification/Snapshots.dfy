/** What the snapshot file can hold, at every instant of every run. */
module Snapshots {
  import opened LeaseModel
  import opened Environment
  import opened StoreTypes
  import opened Operations
  import opened FileStores
  import opened Runs

  /** The section completes a rename. */
  ghost predicate Renames(d: StoreData, op: Op) {
    match op
    case Create(a, save) => !a.Blocked(d.leases) && a.answer.Created? && save == Saved
    case Release(a, save) => a.Applies(d.leases) && save == Saved
    case Touch(_, _, _, save) => op.TouchApplies(d.leases) && save == Saved
    case Upsert(_, save) => save == Saved
    case RegisterKey(_, _, save) => save == Saved
    case MapProblem(_, _, save) => save == Saved
    case SaveSubmission(_, save) => save == Saved
    case _ => false
  }

  /** The memory state of the last completed rename of a run from `s`; before the first, the file `s` has. */
  ghost function LastSaved(s: Sys, ops: seq<Op>): File {
    if ops == [] then s.env.disk.file
    else
      var before, op := ops[..|ops| - 1], ops[|ops| - 1];
      if Renames(RunFrom(s, before).data, op) then Whole(RunFrom(s, ops).data) else LastSaved(s, before)
  }

  /** Between two locked sections: every lease is Active or Reclaimed, sits under its owner, and an Active one carries
      no release metadata. */
  ghost predicate AllVisible(leases: map<Principal, Record>) {
    forall p :: p in leases ==> leases[p].Visible(p)
  }

  /** A bare write must itself be of that shape; the other sections need nothing. */
  predicate WritesVisible(op: Op) {
    op.Upsert? ==> op.lease.Visible(op.lease.owner)
  }

  lemma StepKeepsVisible(s: Sys, op: Op)
    requires AllVisible(s.data.leases) && WritesVisible(op)
    ensures AllVisible(FileStep(s, op).0.data.leases)
  {
  }

  lemma {:induction false} RunsStayVisible(s: Sys, ops: seq<Op>)
    requires AllVisible(s.data.leases) && forall op :: op in ops ==> WritesVisible(op)
    ensures AllVisible(RunFrom(s, ops).data.leases)
  {
    if ops != [] {
      RunsStayVisible(s, ops[..|ops| - 1]);
      StepKeepsVisible(RunFrom(s, ops[..|ops| - 1]), ops[|ops| - 1]);
    }
  }

  /** The crash points one section adds all show the old file or, once its rename is done, the section's final state. */
  lemma {:induction false} StepPoints(s: Sys, op: Op)
    ensures var t := FileStep(s, op).0;
            && s.env.Precedes(t.env)
            && t.env.disk.file == (if Renames(s.data, op) then Whole(t.data) else s.env.disk.file)
            && forall k :: |s.env.points| <= k < |t.env.points| ==>
                 || t.env.points[k].file == s.env.disk.file
                 || (Renames(s.data, op) && t.env.points[k].file == Whole(t.data))
  {
    hide Env.Save;
    match op
    case Create(a, save) =>
      if !a.Blocked(s.data.leases) && a.answer.Created? {
        var e := s.env.CreateService(a.p, a.answer);
        SaveIsAtomic(e, s.data.(leases := s.data.leases[a.p := a.Build(a.answer.res)]), save);
      }
    case Release(a, save) =>
      if a.Applies(s.data.leases) {
        var e := a.Calls(s.env, s.data.leases[a.p].containerID);
        SaveIsAtomic(e, FileStep(s, op).0.data, save);
      }
    case Touch(_, _, _, save) => if op.TouchApplies(s.data.leases) { SaveIsAtomic(s.env, Write(s.data, op), save); }
    case Upsert(_, save) => SaveIsAtomic(s.env, Write(s.data, op), save);
    case RegisterKey(_, _, save) => SaveIsAtomic(s.env, Write(s.data, op), save);
    case MapProblem(_, _, save) => SaveIsAtomic(s.env, Write(s.data, op), save);
    case SaveSubmission(_, save) => SaveIsAtomic(s.env, Write(s.data, op), save);
    case _ =>
  }

  /** At every instant during the section `ops[n]` of a run from any system, mid-write crashes included, the file is
      exactly the state of the last completed rename: the one before the section, or the section's own. */
  lemma {:induction false} SnapshotsAreAtomic(s: Sys, ops: seq<Op>, n: nat)
    requires n < |ops|
    ensures var before, after := RunFrom(s, ops[..n]), RunFrom(s, ops[..n + 1]);
            && before.env.disk.file == LastSaved(s, ops[..n])
            && after.env.disk.file == LastSaved(s, ops[..n + 1])
            && before.env.Precedes(after.env)
            && forall k :: |before.env.points| <= k < |after.env.points| ==>
                 || after.env.points[k].file == LastSaved(s, ops[..n])
                 || after.env.points[k].file == LastSaved(s, ops[..n + 1])
  {
    assert ops[..n + 1][..n] == ops[..n] && ops[..n + 1][n] == ops[n];
    StepPoints(RunFrom(s, ops[..n]), ops[n]);
    if n > 0 {
      SnapshotsAreAtomic(s, ops, n - 1);
    }
  }

  /** Every crash point of a run shows the snapshot of some prefix of it. */
  lemma {:induction false} PointsAreSnapshots(s: Sys, ops: seq<Op>, k: nat)
    requires |s.env.points| <= k < |RunFrom(s, ops).env.points|
    ensures exists j :: 0 <= j <= |ops| && RunFrom(s, ops).env.points[k].file == LastSaved(s, ops[..j])
  {
    hide FileStep, LastSaved;
    var before := ops[..|ops| - 1];
    assert ops[..|ops|] == ops;
    SnapshotsAreAtomic(s, ops, |ops| - 1);
    if k < |RunFrom(s, before).env.points| {
      PointsAreSnapshots(s, before, k);
      var j :| 0 <= j <= |before| && RunFrom(s, before).env.points[k].file == LastSaved(s, before[..j]);
      assert before[..j] == ops[..j];
    }
  }

  /** A file a restart can read: none, or a settled state. */
  ghost predicate FileVisible(f: File) {
    f != Torn && (f.Whole? ==> AllVisible(f.data.leases))
  }

  /** A snapshot is the file the run started with, or a memory state some prefix of the run had reached; so no
      reservation and no half-done release is ever on disk. */
  lemma {:induction false} SnapshotsAreVisible(s: Sys, ops: seq<Op>)
    requires AllVisible(s.data.leases) && FileVisible(s.env.disk.file) && forall op :: op in ops ==> WritesVisible(op)
    ensures FileVisible(LastSaved(s, ops))
    ensures LastSaved(s, ops) == s.env.disk.file
            || exists j :: 0 <= j <= |ops| && LastSaved(s, ops) == Whole(RunFrom(s, ops[..j]).data)
  {
    if ops != [] {
      var before, op := ops[..|ops| - 1], ops[|ops| - 1];
      if Renames(RunFrom(s, before).data, op) {
        RunsStayVisible(s, ops);
        assert ops[..|ops|] == ops;
      } else {
        SnapshotsAreVisible(s, before);
        if LastSaved(s, before) != s.env.disk.file {
          var j :| 0 <= j <= |before| && LastSaved(s, before) == Whole(RunFrom(s, before[..j]).data);
          assert before[..j] == ops[..j];
        }
      }
    }
  }
}
