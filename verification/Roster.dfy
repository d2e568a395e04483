/** The controller's roster handler, pkg/controller/bastion.go: loops of locked sections, proved equal to runs of those
    sections. */
module Roster {
  import opened Wrappers
  import opened LeaseModel
  import opened Environment
  import opened Lease
  import opened StoreTypes
  import opened Operations
  import opened FileStores
  import opened Tracker
  import opened Runs
  import opened Snapshots

  function SessionOps(sessions: seq<Session>, now: Time, saves: nat -> SaveAnswer): seq<Op> {
    if sessions == [] then []
    else
      var init, s := sessions[..|sessions| - 1], sessions[|sessions| - 1];
      if s.principal == "" then SessionOps(init, now, saves)
      else
        SessionOps(init, now, saves) + [Touch(s.principal, Listed(s.count, s.lastActive), now, saves(|sessions| - 1))]
  }

  predicate Named(sessions: seq<Session>, p: Principal) {
    p != "" && exists i :: 0 <= i < |sessions| && sessions[i].principal == p
  }

  ghost function MissingOps(order: seq<Principal>, sessions: seq<Session>, now: Time, saves: nat -> SaveAnswer)
    : seq<Op>
  {
    if order == [] then []
    else
      var init, p := order[..|order| - 1], order[|order| - 1];
      if Named(sessions, p) then MissingOps(init, sessions, now, saves)
      else MissingOps(init, sessions, now, saves) + [Touch(p, Missing, now, saves(|sessions| + |order| - 1))]
  }

  /** `handleBastionRoster` run without other writers: one touch for each named session, then one zeroing touch for each
      other lease, in the order the leases were listed. */
  method HandleRoster(store: FileStore, e: Env, sessions: seq<Session>, now: Time, saves: nat -> SaveAnswer)
    returns (e': Env, ghost order: seq<Principal>)
    requires store.table.Valid() && AllVisible(store.Data().leases)
    modifies store.table
    ensures store.table.Valid()
    ensures forall i, j :: 0 <= i < j < |order| ==> order[i] != order[j]
    ensures forall p :: p in order <==> p in old(store.Data()).leases
    ensures Sys(store.Data(), e') == RunFrom(Sys(old(store.Data()), e),
                                             SessionOps(sessions, now, saves) + MissingOps(order, sessions, now, saves))
  {
    ghost var s0 := Sys(store.Data(), e);
    var seen;
    e', seen := UpdateListed(store, e, sessions, now, saves);
    ghost var s1 := Sys(store.Data(), e');
    e', order := ZeroMissing(store, e', sessions, seen, now, saves);
    RunFromAppend(s0, SessionOps(sessions, now, saves), MissingOps(order, sessions, now, saves));
  }

  method Apply(l: Lease, report: Report, now: Time)
    modifies l
    ensures l.Rec() == old(l.Rec()).Touched(report, now)
  {
    match report {
      case Missing => l.channels := 0;
      case Listed(count, lastActive) =>
        l.channels := count;
        if count > 0 {
          l.lastSeenAt := now;
        }
        if lastActive.Some? && lastActive.value > l.lastSeenAt {
          l.lastSeenAt := lastActive.value;
        }
    }
  }

  /** One update leaves the keys, the states and the other leases alone, and does nothing to a lease that is not
      Active. */
  lemma TouchKeepsShape(s: Sys, p: Principal, report: Report, now: Time, save: SaveAnswer)
    requires AllVisible(s.data.leases)
    ensures var t := FileStep(s, Touch(p, report, now, save)).0;
            && AllVisible(t.data.leases) && SameStates(s.data.leases, t.data.leases)
            && (forall q :: q in s.data.leases && q != p ==> t.data.leases[q] == s.data.leases[q])
            && (IsActive(s.data.leases, p) ==>
                 && t.data == s.data.(leases := s.data.leases[p := s.data.leases[p].Touched(report, now)])
                 && t.env == s.env.Save(t.data, save))
            && (!IsActive(s.data.leases, p) ==> t == s)
  {
  }

  predicate IsActive(leases: map<Principal, Record>, p: Principal) {
    p in leases && leases[p].state == Active
  }

  ghost predicate SameStates(a: map<Principal, Record>, b: map<Principal, Record>) {
    a.Keys == b.Keys && forall q :: q in a ==> b[q].state == a[q].state
  }

  /** Updates a copy of an Active lease and writes it back. */
  method WriteBack(store: FileStore, e: Env, rec: Record, ghost p: Principal, report: Report, now: Time,
                   save: SaveAnswer) returns (e': Env)
    requires store.table.Valid() && AllVisible(store.Data().leases) && IsActive(store.Data().leases, p)
    requires rec == store.Data().leases[p]
    modifies store.table
    ensures store.table.Valid()
    ensures Sys(store.Data(), e') == FileStep(Sys(old(store.Data()), e), Touch(p, report, now, save)).0
  {
    hide FileStep, AllVisible, Record.Touched, Env.Save;
    TouchKeepsShape(Sys(store.Data(), e), p, report, now, save);
    var l := new Lease.Copy(rec, None);
    Apply(l, report, now);
    assert l.owner == l.Rec().owner == p by { OwnerKept(store.Data().leases, p, report, now); }
    var saved;
    e', saved := store.UpsertLease(e, l, save);
  }

  lemma OwnerKept(leases: map<Principal, Record>, p: Principal, report: Report, now: Time)
    requires AllVisible(leases) && p in leases
    ensures leases[p].Touched(report, now).owner == p && leases[p].owner == p
  {
  }

  /** One session of the first loop: the lease is copied out and, if Active, updated and written back. */
  method UpdateOne(store: FileStore, e: Env, p: Principal, report: Report, now: Time, save: SaveAnswer)
    returns (e': Env, active: bool)
    requires store.table.Valid() && AllVisible(store.Data().leases)
    modifies store.table
    ensures store.table.Valid() && AllVisible(store.Data().leases)
    ensures Sys(store.Data(), e') == FileStep(Sys(old(store.Data()), e), Touch(p, report, now, save)).0
    ensures SameStates(old(store.Data()).leases, store.Data().leases)
    ensures active == IsActive(old(store.Data()).leases, p)
  {
    TouchKeepsShape(Sys(store.Data(), e), p, report, now, save);
    hide FileStep, AllVisible, Record.Touched, Env.Save, LeaseTable.Valid, SameStates;
    var l := store.LookupByPrincipal(p);
    if l == null || l.Rec().state != Active {
      return e, false;
    }
    e' := WriteBack(store, e, l.Rec(), p, report, now, save);
    active := true;
  }

  lemma NoSessions(s: Sys, now: Time, saves: nat -> SaveAnswer)
    ensures RunFrom(s, SessionOps([], now, saves)) == s && forall p :: !Named([], p)
  {
  }

  /** One more session: a touch, if it names somebody. */
  lemma SessionSnoc(s: Sys, sessions: seq<Session>, i: nat, now: Time, saves: nat -> SaveAnswer)
    requires i < |sessions|
    ensures var sess, t := sessions[i], RunFrom(s, SessionOps(sessions[..i], now, saves));
            RunFrom(s, SessionOps(sessions[..i + 1], now, saves))
            == if sess.principal == "" then t
               else FileStep(t, Touch(sess.principal, Listed(sess.count, sess.lastActive), now, saves(i))).0
  {
    var sess := sessions[i];
    assert sessions[..i + 1][..i] == sessions[..i] && sessions[..i + 1][i] == sess;
    RunFromSnoc(s, SessionOps(sessions[..i], now, saves),
                Touch(sess.principal, Listed(sess.count, sess.lastActive), now, saves(i)));
    hide FileStep, RunFrom;
  }

  lemma NamedSnoc(sessions: seq<Session>, i: nat, p: Principal)
    requires i < |sessions|
    ensures Named(sessions[..i + 1], p) <==> Named(sessions[..i], p) || (p != "" && p == sessions[i].principal)
  {
    if Named(sessions[..i], p) {
      var k :| 0 <= k < i && sessions[..i][k].principal == p;
      assert sessions[..i + 1][k].principal == p;
    }
    if Named(sessions[..i + 1], p) {
      var k :| 0 <= k < i + 1 && sessions[..i + 1][k].principal == p;
      assert k < i ==> sessions[..i][k].principal == p;
    }
    assert sessions[..i + 1][i] == sessions[i];
  }

  /** The first loop. */
  method UpdateListed(store: FileStore, e: Env, sessions: seq<Session>, now: Time, saves: nat -> SaveAnswer)
    returns (e': Env, seen: set<Principal>)
    requires store.table.Valid() && AllVisible(store.Data().leases)
    modifies store.table
    ensures store.table.Valid() && AllVisible(store.Data().leases)
    ensures SameStates(old(store.Data()).leases, store.Data().leases)
    ensures Sys(store.Data(), e') == RunFrom(Sys(old(store.Data()), e), SessionOps(sessions, now, saves))
    ensures forall p :: IsActive(store.Data().leases, p) ==> (p in seen <==> Named(sessions, p))
  {
    hide FileStep, AllVisible, Env.Save, LeaseTable.Valid, RunFrom, SessionOps, Named;
    e', seen := e, {};
    NoSessions(Sys(store.Data(), e), now, saves);
    ghost var s0 := Sys(store.Data(), e);
    for i := 0 to |sessions|
      invariant store.table.Valid() && AllVisible(store.Data().leases)
      invariant SameStates(s0.data.leases, store.Data().leases)
      invariant Sys(store.Data(), e') == RunFrom(s0, SessionOps(sessions[..i], now, saves))
      invariant forall p :: IsActive(s0.data.leases, p) ==> (p in seen <==> Named(sessions[..i], p))
    {
      var sess := sessions[i];
      SessionSnoc(s0, sessions, i, now, saves);
      forall p ensures Named(sessions[..i + 1], p) <==> Named(sessions[..i], p) || (p != "" && p == sess.principal) {
        NamedSnoc(sessions, i, p);
      }
      if sess.principal == "" {
        continue;
      }
      var report := Listed(sess.count, sess.lastActive);
      var active;
      e', active := UpdateOne(store, e', sess.principal, report, now, saves(i));
      if active {
        seen := seen + {sess.principal};
      }
    }
    assert sessions[..|sessions|] == sessions;
  }

  /** One more listed lease: a zeroing touch unless the roster named its owner, which may be a touch that does
      nothing. */
  lemma MissingSnoc(s: Sys, order: seq<Principal>, i: nat, sessions: seq<Session>, now: Time, saves: nat -> SaveAnswer)
    requires i < |order|
    ensures var op := Touch(order[i], Missing, now, saves(|sessions| + i));
            RunFrom(s, MissingOps(order[..i + 1], sessions, now, saves))
              == var t := RunFrom(s, MissingOps(order[..i], sessions, now, saves));
                 if Named(sessions, order[i]) then t else FileStep(t, op).0
  {
    assert order[..i + 1][..i] == order[..i];
    RunFromSnoc(s, MissingOps(order[..i], sessions, now, saves), Touch(order[i], Missing, now, saves(|sessions| + i)));
  }

  /** The second loop: leases whose owner the roster did not name get a zero count. */
  method ZeroMissing(store: FileStore, e: Env, sessions: seq<Session>, seen: set<Principal>, now: Time,
                     saves: nat -> SaveAnswer) returns (e': Env, ghost order: seq<Principal>)
    requires store.table.Valid() && AllVisible(store.Data().leases)
    requires forall p :: IsActive(store.Data().leases, p) ==> (p in seen <==> Named(sessions, p))
    modifies store.table
    ensures store.table.Valid()
    ensures forall i, j :: 0 <= i < j < |order| ==> order[i] != order[j]
    ensures forall p :: p in order <==> p in old(store.Data()).leases
    ensures Sys(store.Data(), e') == RunFrom(Sys(old(store.Data()), e), MissingOps(order, sessions, now, saves))
  {
    e' := e;
    ghost var s0 := Sys(store.Data(), e);
    var all;
    all, order := store.AllLeases();
    for i := 0 to |all|
      invariant store.table.Valid() && AllVisible(store.Data().leases)
      invariant Sys(store.Data(), e') == RunFrom(s0, MissingOps(order[..i], sessions, now, saves))
      invariant forall k :: i <= k < |all| ==> order[k] in store.Data().leases
                                               && store.Data().leases[order[k]] == s0.data.leases[order[k]]
    {
      hide FileStep, AllVisible, Env.Save, LeaseTable.Valid, RunFrom, MissingOps, Record.Touched, Named;
      var l := all[i];
      ghost var p := order[i];
      MissingSnoc(s0, order, i, sessions, now, saves);
      TouchKeepsShape(Sys(store.Data(), e'), p, Missing, now, saves(|sessions| + i));
      OwnerKept(store.Data().leases, p, Missing, now);
      if l.state != Active || l.owner in seen {
        continue;
      }
      e' := WriteBack(store, e', l, p, Missing, now, saves(|sessions| + i));
    }
    assert order[..|order|] == order;
  }
}
