/** From the life of a lease to the pass that ends it. */
module Expiry {
  import opened Wrappers
  import opened LeaseModel
  import opened Environment
  import opened StoreTypes
  import opened Operations
  import opened FileStores
  import opened Runs
  import opened Snapshots
  import opened Roster
  import opened Triggers
  import opened StoreAnswers
  import opened Recovery
  import opened Activity
  import R = Reattach

  /** What `p` has at stake: a lease that must end at `deadline`. */
  predicate EndsAt(leases: map<Principal, Record>, p: Principal, deadline: Time) {
    IsActive(leases, p) ==> leases[p].deadlineAt == deadline
  }

  /** The section starts no new life for the lease of `p`. */
  predicate KeepsDeadline(op: Op, p: Principal, deadline: Time) {
    && !(op.Create? && op.create.p == p)
    && (op.Upsert? && op.lease.owner == p ==> op.lease.deadlineAt == deadline)
  }

  lemma StepKeepsDeadline(s: Sys, op: Op, p: Principal, deadline: Time)
    requires AllVisible(s.data.leases) && EndsAt(s.data.leases, p, deadline) && KeepsDeadline(op, p, deadline)
    ensures EndsAt(FileStep(s, op).0.data.leases, p, deadline)
  {
    hide Env.Save, ReleaseArgs.Calls;
  }

  lemma {:induction false} RunsKeepDeadline(s: Sys, ops: seq<Op>, p: Principal, deadline: Time)
    requires AllVisible(s.data.leases) && EndsAt(s.data.leases, p, deadline)
    requires forall op :: op in ops ==> WritesVisible(op) && KeepsDeadline(op, p, deadline)
    ensures EndsAt(RunFrom(s, ops).data.leases, p, deadline)
  {
    hide AllVisible, EndsAt, KeepsDeadline, WritesVisible, FileStep;
    if ops != [] {
      var before := ops[..|ops| - 1];
      RunsKeepDeadline(s, before, p, deadline);
      RunsStayVisible(s, before);
      StepKeepsDeadline(RunFrom(s, before), ops[|ops| - 1], p, deadline);
    }
  }

  /** `order` lists the owners of the leases, and `p` is the i-th. */
  ghost predicate ListsAt(order: seq<Principal>, leases: map<Principal, Record>, i: nat, p: Principal) {
    Lists(order, leases) && i < |order| && order[i] == p
  }

  /** The max-life pass at `now` ends the service of `p`: it was Active, drain and stop worked, and it is older than 8
      hours, in nanoseconds. */
  ghost predicate EndedByAge(s: Sys, order: seq<Principal>, i: nat, now: Time, answers: nat -> Answers, born: Time)
    requires i < |order|
  {
    && IsActive(s.data.leases, order[i])
    && !IsActive(RunFrom(s, TickOps(order, MaxLife, now, answers)).data.leases, order[i])
    <==> IsActive(s.data.leases, order[i]) && GoesThrough(answers(i)) && now - born > 28_800_000_000_000
  }

  lemma TickEndsOldService(s: Sys, order: seq<Principal>, i: nat, now: Time, answers: nat -> Answers, born: Time)
    requires AllVisible(s.data.leases) && i < |order| && Lists(order, s.data.leases)
    requires EndsAt(s.data.leases, order[i], born + 28_800_000_000_000)
    ensures EndedByAge(s, order, i, now, answers, born)
  {
    hide RunFrom, TickOps, AllVisible, GoesThrough;
    TickReclaimsTheDue(s, order, MaxLife, now, answers);
  }

  /** A service that a create started, whatever happens to it in between but a new create or write of its lease: the
      max-life pass ends it exactly when it is still Active, is older than 8 hours, and drain and stop work. */
  lemma CreatedServiceEnds(s: Sys, a: CreateArgs, save: SaveAnswer, between: seq<Op>, order: seq<Principal>, i: nat,
                           now: Time, answers: nat -> Answers)
    requires AllVisible(s.data.leases)
    requires a.answer.Created? && FileStep(s, Create(a, save)).1 == CreateEnded(Ok(a.answer.res))
    requires forall op :: op in between ==> WritesVisible(op) && KeepsDeadline(op, a.p, a.now + 28_800_000_000_000)
    requires ListsAt(order, RunFrom(FileStep(s, Create(a, save)).0, between).data.leases, i, a.p)
    ensures EndedByAge(RunFrom(FileStep(s, Create(a, save)).0, between), order, i, now, answers, a.now)
  {
    hide RunFrom, AllVisible, EndedByAge, WritesVisible, KeepsDeadline;
    var t := FileStep(s, Create(a, save)).0;
    CreatedLease(s, a, save);
    assert AllVisible(t.data.leases) by {
      assert WritesVisible(Create(a, save)) by { OnlyUpsertsMatter(Create(a, save)); }
      StepKeepsVisible(s, Create(a, save));
    }
    hide FileStep;
    RunsKeepDeadline(t, between, a.p, a.now + 28_800_000_000_000);
    RunsStayVisible(t, between);
    TickEndsOldService(RunFrom(t, between), order, i, now, answers, a.now);
  }

  lemma OnlyUpsertsMatter(op: Op)
    ensures !op.Upsert? ==> WritesVisible(op)
  {
  }

  /** And likewise a service that a restart found running: its 8 hours count from the restart. */
  lemma FoundServiceEnds(pt: Durable, life: Life, between: seq<Op>, j: nat, o: Principal, order: seq<Principal>, i: nat,
                         now: Time, answers: nat -> Answers)
    requires FileVisible(pt.file)
    requires life.listing.Some? && j < |life.listing.value| && R.Serves(life.listing.value[j], o)
    requires forall op :: op in between ==> WritesVisible(op) && KeepsDeadline(op, o, life.now + 28_800_000_000_000)
    requires ListsAt(order, RunFrom(Restarted(pt, life), between).data.leases, i, o)
    ensures EndedByAge(RunFrom(Restarted(pt, life), between), order, i, now, answers, life.now)
  {
    hide RunFrom, AllVisible, EndedByAge, WritesVisible, KeepsDeadline, FileStep, FileVisible, ListsAt;
    var t := Restarted(pt, life);
    RestartIsVisible(pt, life);
    FoundEndsAt(pt, life, j, o);
    RunsKeepDeadline(t, between, o, life.now + 28_800_000_000_000);
    RunsStayVisible(t, between);
    ListedHere(order, RunFrom(t, between).data.leases, i, o);
    TickEndsOldService(RunFrom(t, between), order, i, now, answers, life.now);
  }

  lemma ListedHere(order: seq<Principal>, leases: map<Principal, Record>, i: nat, p: Principal)
    requires ListsAt(order, leases, i, p)
    ensures Lists(order, leases) && i < |order| && order[i] == p
  {
  }

  lemma {:induction false} LastServed(list: seq<R.DiscoveryContainer>, j: nat, n: nat, o: Principal) returns (k: nat)
    requires j < n <= |list| && R.Serves(list[j], o)
    ensures k < n && R.Serves(list[k], o) && forall m :: k < m < n ==> !R.Serves(list[m], o)
  {
    hide R.Serves;
    k := n - 1;
    if !R.Serves(list[n - 1], o) {
      k := LastServed(list, j, n - 1, o);
    }
  }

  lemma FoundEndsAt(pt: Durable, life: Life, j: nat, o: Principal)
    requires life.listing.Some? && j < |life.listing.value| && R.Serves(life.listing.value[j], o)
    ensures EndsAt(Restarted(pt, life).data.leases, o, life.now + 28_800_000_000_000)
  {
    hide RunFrom, R.Serves, R.Attach, Upserts;
    var list, s := life.listing.value, Loaded(pt, life);
    var k := LastServed(list, j, |list|, o);
    AttachIsRun(s, list, life.now, life.saves, |list|);
    R.LastContainerWins(s.data, s.env, list, life.now, life.saves, o);
  }

  // --- the idle pass ---

  /** The idle pass asks the store to check again what the evidence theorems are about. */
  lemma IdlePassAsks(p: Principal, now: Time, a: Answers)
    ensures var args := Args(p, Idle, now, a); IdleRelease(args) && args.p == p && args.now == now
  {
  }

  /** What was learnt of an owner shows no activity: none at the end, and every sign of it more than 30 minutes old, in
      nanoseconds. */
  ghost predicate LongQuiet(evs: seq<Evidence>, now: Time) {
    evs != [] && Count(evs[|evs| - 1]) == 0 && forall t :: t in AllTimes(evs) ==> now - t > 1_800_000_000_000
  }

  lemma IdleTimeIsUp(l: Record, evs: seq<Evidence>, now: Time)
    requires Records(l, evs)
    ensures TimeIsUp(l, Idle, now) <==> LongQuiet(evs, now)
  {
  }

  /** After any orderly life the idle pass ends the service of `p` exactly when it is Active, drain and stop work, and
      what was learnt of `p` shows no activity. */
  lemma IdlePassIsSafe(b: Sys, ops: seq<Op>, notes: nat -> Note, order: seq<Principal>, i: nat, now: Time,
                       answers: nat -> Answers)
    requires Orderly(b, ops, notes) && i < |order| && Lists(order, RunFrom(b, ops).data.leases)
    ensures var s, p := RunFrom(b, ops), order[i];
            (IsActive(s.data.leases, p) && !IsActive(RunFrom(s, TickOps(order, Idle, now, answers)).data.leases, p))
            <==> IsActive(s.data.leases, p) && GoesThrough(answers(i)) && LongQuiet(Learnt(b, ops, notes, p), now)
  {
    hide RunFrom, TickOps, AllVisible, GoesThrough, Orderly, Learnt, Records, LongQuiet, TimeIsUp;
    var s, p := RunFrom(b, ops), order[i];
    OrderlyStaysVisible(b, ops, notes);
    TickReclaimsTheDue(s, order, Idle, now, answers);
    LeasesRecordEvidence(b, ops, notes, p);
    if IsActive(s.data.leases, p) {
      IdleTimeIsUp(s.data.leases[p], Learnt(b, ops, notes, p), now);
    }
  }
}
