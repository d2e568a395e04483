/** One tick of the max-life or idle trigger, pkg/controller/triggers.go. */
module Triggers {
  import opened Wrappers
  import opened LeaseModel
  import opened Environment
  import opened StoreTypes
  import opened Operations
  import opened FileStores
  import opened Runs
  import opened Snapshots
  import opened Roster

  /** The answers the i-th release of a tick gets. */
  datatype Answers = Answers(drainer: Option<bool>, runtime: Option<StopAnswer>, save: SaveAnswer)

  /** The condition a trigger passes, which the store checks again under its lock. */
  function DueFor(trigger: Trigger, now: Time): Record -> bool {
    (l: Record) => l.Due(trigger, now)
  }

  function Args(p: Principal, trigger: Trigger, now: Time, a: Answers): ReleaseArgs {
    ReleaseArgs(p, trigger, now, DueFor(trigger, now), a.drainer, a.runtime)
  }

  function Attempt(p: Principal, trigger: Trigger, now: Time, a: Answers): Op {
    Release(Args(p, trigger, now, a), a.save)
  }

  ghost function TickOps(order: seq<Principal>, trigger: Trigger, now: Time, answers: nat -> Answers): seq<Op> {
    seq(|order|, i requires 0 <= i < |order| => Attempt(order[i], trigger, now, answers(i)))
  }

  /** An attempt on a lease that is not Active or not due does nothing. */
  lemma IdleAttempt(s: Sys, p: Principal, trigger: Trigger, now: Time, a: Answers)
    requires p in s.data.leases && !(s.data.leases[p].state == Active && s.data.leases[p].Due(trigger, now))
    ensures FileStep(s, Attempt(p, trigger, now, a)).0 == s
  {
  }

  /** An attempt for one owner changes no other lease. */
  lemma AttemptIsLocal(s: Sys, p: Principal, trigger: Trigger, now: Time, a: Answers)
    requires AllVisible(s.data.leases)
    ensures var t := FileStep(s, Attempt(p, trigger, now, a)).0;
            && AllVisible(t.data.leases) && t.data.leases.Keys == s.data.leases.Keys
            && (forall q :: q in s.data.leases && q != p ==> t.data.leases[q] == s.data.leases[q])
            && (p in s.data.leases ==> t.data.leases[p] == Outcome(s.data.leases[p], trigger, now, a))
  {
    hide Env.Save, ReleaseArgs.Calls;
  }

  /** What one attempt makes of a lease. */
  function Outcome(l: Record, trigger: Trigger, now: Time, a: Answers): Record {
    if l.state == Active && l.Due(trigger, now) && Args(l.owner, trigger, now, a).Failure() == None
    then l.Released(trigger, now)
    else l
  }

  /** The pass body: every listed lease that is Active and due is released, the condition being checked again under the
      lock. It is the run of one attempt per lease. */
  method Tick(store: FileStore, e: Env, trigger: Trigger, now: Time, answers: nat -> Answers)
    returns (e': Env, ghost order: seq<Principal>)
    requires store.table.Valid() && AllVisible(store.Data().leases)
    modifies store.table, store.table.leases.Values
    ensures store.table.Valid()
    ensures forall i, j :: 0 <= i < j < |order| ==> order[i] != order[j]
    ensures forall p :: p in order <==> p in old(store.Data()).leases
    ensures Sys(store.Data(), e') == RunFrom(Sys(old(store.Data()), e), TickOps(order, trigger, now, answers))
  {
    hide FileStep, AllVisible, Env.Save, LeaseTable.Valid;
    e' := e;
    ghost var s0 := Sys(store.Data(), e);
    var all;
    all, order := store.AllLeases();
    for i := 0 to |all|
      invariant store.table.Valid() && store.table.leases == old(store.table.leases)
      invariant AllVisible(store.Data().leases)
      invariant Sys(store.Data(), e') == RunFrom(s0, TickOps(order[..i], trigger, now, answers))
      invariant forall k :: i <= k < |all| ==> order[k] in store.Data().leases
                                               && store.Data().leases[order[k]] == all[k]
    {
      var l := all[i];
      ghost var p := order[i];
      TickSnoc(s0, order, i, trigger, now, answers);
      AttemptIsLocal(Sys(store.Data(), e'), p, trigger, now, answers(i));
      OwnerKept(store.Data().leases, p, Missing, now);
      if l.state != Active || !l.Due(trigger, now) {
        IdleAttempt(Sys(store.Data(), e'), p, trigger, now, answers(i));
        continue;
      }
      e' := ReleaseOne(store, e', l.owner, trigger, now, answers(i));
    }
    assert order[..|order|] == order;
  }

  method ReleaseOne(store: FileStore, e: Env, p: Principal, trigger: Trigger, now: Time, a: Answers) returns (e': Env)
    requires store.table.Valid()
    modifies store.table, store.table.leases.Values
    ensures store.table.Valid() && store.table.leases == old(store.table.leases)
    ensures Sys(store.Data(), e') == FileStep(Sys(old(store.Data()), e), Attempt(p, trigger, now, a)).0
  {
    var err;
    e', err := store.ReleaseLeaseIf(e, Args(p, trigger, now, a), a.save);
  }

  lemma TickSnoc(s: Sys, order: seq<Principal>, i: nat, trigger: Trigger, now: Time, answers: nat -> Answers)
    requires i < |order|
    ensures RunFrom(s, TickOps(order[..i + 1], trigger, now, answers))
         == FileStep(RunFrom(s, TickOps(order[..i], trigger, now, answers)),
                     Attempt(order[i], trigger, now, answers(i))).0
  {
    assert TickOps(order[..i + 1], trigger, now, answers)
      == TickOps(order[..i], trigger, now, answers) + [Attempt(order[i], trigger, now, answers(i))];
    RunFromSnoc(s, TickOps(order[..i], trigger, now, answers), Attempt(order[i], trigger, now, answers(i)));
  }

  /** Each listed lease ends as its own attempt leaves it. */
  lemma {:induction false} TickOutcomes(s: Sys, order: seq<Principal>, trigger: Trigger, now: Time,
                                        answers: nat -> Answers, n: nat)
    requires AllVisible(s.data.leases) && n <= |order|
    requires forall i, j :: 0 <= i < j < |order| ==> order[i] != order[j]
    requires forall p :: p in order ==> p in s.data.leases
    ensures var t := RunFrom(s, TickOps(order[..n], trigger, now, answers));
            && AllVisible(t.data.leases) && t.data.leases.Keys == s.data.leases.Keys
            && (forall i :: 0 <= i < n ==>
                 t.data.leases[order[i]] == Outcome(s.data.leases[order[i]], trigger, now, answers(i)))
            && (forall p :: p in s.data.leases && p !in order[..n] ==> t.data.leases[p] == s.data.leases[p])
  {
    hide FileStep, Outcome, AllVisible;
    if n > 0 {
      TickOutcomes(s, order, trigger, now, answers, n - 1);
      TickSnoc(s, order, n - 1, trigger, now, answers);
      var u := RunFrom(s, TickOps(order[..n - 1], trigger, now, answers));
      AttemptIsLocal(u, order[n - 1], trigger, now, answers(n - 1));
      assert order[..n] == order[..n - 1] + [order[n - 1]];
    }
  }

  /** The lease's time is up: for a max-life pass its deadline has passed, for an idle pass it shows no channel and was
      last seen longer ago than its timeout. The longest duration Go has is never exceeded. */
  predicate TimeIsUp(l: Record, trigger: Trigger, now: Time) {
    match trigger
    case Manual => true
    case MaxLife => l.deadlineAt > 0 && l.deadlineAt < now
    case Idle =>
      && 0 < l.idleTimeout < 0x7FFF_FFFF_FFFF_FFFF
      && l.channels == 0 && l.lastSeenAt + l.idleTimeout < now
  }

  /** Neither the drain nor the stop failed. */
  predicate GoesThrough(a: Answers) {
    a.drainer != Some(false) && (a.runtime == None || a.runtime == Some(StopDone))
  }

  lemma AttemptOutcome(l: Record, trigger: Trigger, now: Time, a: Answers)
    ensures Outcome(l, trigger, now, a)
         == if l.state == Active && TimeIsUp(l, trigger, now) && GoesThrough(a)
            then l.(state := Reclaimed, releasedBy := Some(trigger), releasedAt := now)
            else l
  {
  }

  /** A pass reclaims exactly the leases that are Active, whose time is up, and whose drain and stop did not fail, and
      marks them with trigger and time; every other lease is afterwards what it was, in whatever order the leases were
      listed and whatever snapshots failed. */
  lemma TickReclaimsTheDue(s: Sys, order: seq<Principal>, trigger: Trigger, now: Time, answers: nat -> Answers)
    requires AllVisible(s.data.leases)
    requires forall i, j :: 0 <= i < j < |order| ==> order[i] != order[j]
    requires forall p :: p in order ==> p in s.data.leases
    ensures var before, after := s.data.leases, RunFrom(s, TickOps(order, trigger, now, answers)).data.leases;
            && after.Keys == before.Keys
            && (forall i :: 0 <= i < |order| ==>
                 var l := before[order[i]];
                 after[order[i]] == if l.state == Active && TimeIsUp(l, trigger, now) && GoesThrough(answers(i))
                                    then l.(state := Reclaimed, releasedBy := Some(trigger), releasedAt := now)
                                    else l)
            && (forall p :: p in before && p !in order ==> after[p] == before[p])
  {
    hide RunFrom, TickOps, Outcome, TimeIsUp, GoesThrough, AllVisible;
    TickOutcomes(s, order, trigger, now, answers, |order|);
    assert order[..|order|] == order;
    forall i | 0 <= i < |order|
      ensures var l := s.data.leases[order[i]];
              Outcome(l, trigger, now, answers(i))
              == if l.state == Active && TimeIsUp(l, trigger, now) && GoesThrough(answers(i))
                 then l.(state := Reclaimed, releasedBy := Some(trigger), releasedAt := now)
                 else l
    {
      AttemptOutcome(s.data.leases[order[i]], trigger, now, answers(i));
    }
  }
}
