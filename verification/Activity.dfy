/** What a roster does to every lease, and why an idle release is safe. */
module Activity {
  import opened Wrappers
  import opened LeaseModel
  import opened Environment
  import opened StoreTypes
  import opened Operations
  import opened FileStores
  import opened Tracker
  import opened Runs
  import opened Snapshots
  import opened Roster
  import opened Recovery
  import R = Reattach

  function CountOf(r: Report): int {
    match r
    case Missing => 0
    case Listed(count, _) => count
  }

  function Replay(l: Record, reports: seq<Report>, now: Time): Record {
    if reports == [] then l
    else Replay(l, reports[..|reports| - 1], now).Touched(reports[|reports| - 1], now)
  }

  /** The reports that a run of touches holds for `p`. */
  function ReportsFor(ops: seq<Op>, p: Principal): seq<Report> {
    if ops == [] then []
    else
      var init, op := ops[..|ops| - 1], ops[|ops| - 1];
      if op.Touch? && op.p == p then ReportsFor(init, p) + [op.report] else ReportsFor(init, p)
  }

  /** The entries a roster lists for `p`. */
  function Entries(sessions: seq<Session>, p: Principal): seq<Report> {
    if sessions == [] || p == "" then []
    else
      var init, s := sessions[..|sessions| - 1], sessions[|sessions| - 1];
      if s.principal == p then Entries(init, p) + [Listed(s.count, s.lastActive)] else Entries(init, p)
  }

  ghost predicate Touches(ops: seq<Op>, now: Time) {
    forall op :: op in ops ==> op.Touch? && op.now == now
  }

  lemma {:induction false} TouchesReplay(s: Sys, ops: seq<Op>, now: Time, p: Principal)
    requires AllVisible(s.data.leases) && Touches(ops, now)
    ensures var t := RunFrom(s, ops);
            && AllVisible(t.data.leases) && SameStates(s.data.leases, t.data.leases)
            && t.data == s.data.(leases := t.data.leases)
            && (p in s.data.leases ==>
                 t.data.leases[p]
                 == if IsActive(s.data.leases, p) then Replay(s.data.leases[p], ReportsFor(ops, p), now)
                    else s.data.leases[p])
  {
    if ops != [] {
      var init, op := ops[..|ops| - 1], ops[|ops| - 1];
      TouchesReplay(s, init, now, p);
      TouchKeepsShape(RunFrom(s, init), op.p, op.report, op.now, op.save);
    }
  }

  lemma {:induction false} NamedHasEntries(sessions: seq<Session>, p: Principal)
    ensures Named(sessions, p) <==> Entries(sessions, p) != []
  {
    if sessions != [] && p != "" {
      var init, s := sessions[..|sessions| - 1], sessions[|sessions| - 1];
      NamedHasEntries(init, p);
      if Named(init, p) {
        var i :| 0 <= i < |init| && init[i].principal == p;
        assert sessions[i].principal == p;
      }
      if Named(sessions, p) && s.principal != p {
        var i :| 0 <= i < |sessions| && sessions[i].principal == p;
        assert init[i].principal == p;
      }
    }
  }

  lemma {:induction false} SessionReports(sessions: seq<Session>, now: Time, saves: nat -> SaveAnswer, p: Principal)
    ensures Touches(SessionOps(sessions, now, saves), now)
    ensures ReportsFor(SessionOps(sessions, now, saves), p) == Entries(sessions, p)
  {
    if sessions != [] {
      var init, s := sessions[..|sessions| - 1], sessions[|sessions| - 1];
      SessionReports(init, now, saves, p);
      var ops := SessionOps(sessions, now, saves);
      if s.principal != "" {
        assert ops[..|ops| - 1] == SessionOps(init, now, saves);
      }
    }
  }

  lemma {:induction false} MissingReports(order: seq<Principal>, sessions: seq<Session>, now: Time,
                                          saves: nat -> SaveAnswer, p: Principal)
    requires forall i, j :: 0 <= i < j < |order| ==> order[i] != order[j]
    ensures Touches(MissingOps(order, sessions, now, saves), now)
    ensures ReportsFor(MissingOps(order, sessions, now, saves), p)
         == if p in order && !Named(sessions, p) then [Missing] else []
  {
    if order != [] {
      var init, q := order[..|order| - 1], order[|order| - 1];
      MissingReports(init, sessions, now, saves, p);
      var ops := MissingOps(order, sessions, now, saves);
      if !Named(sessions, q) {
        assert ops[..|ops| - 1] == MissingOps(init, sessions, now, saves);
      }
      assert order == init + [q];
    }
  }

  lemma {:induction false} ReportsAppend(a: seq<Op>, b: seq<Op>, p: Principal)
    ensures ReportsFor(a + b, p) == ReportsFor(a, p) + ReportsFor(b, p)
  {
    if b == [] {
      assert a + b == a;
    } else {
      ReportsAppend(a, b[..|b| - 1], p);
      assert (a + b)[..|a + b| - 1] == a + b[..|b| - 1];
    }
  }

  lemma {:induction false} ReplayFields(l: Record, reports: seq<Report>, now: Time)
    ensures var r := Replay(l, reports, now);
            && r == l.(channels := r.channels, lastSeenAt := r.lastSeenAt)
            && (reports != [] ==> r.channels == CountOf(reports[|reports| - 1]))
  {
    if reports != [] {
      ReplayFields(l, reports[..|reports| - 1], now);
    }
  }

  /** What a whole roster says of the owner of a lease: the entries it lists for it, or that it is missing. */
  lemma ReportsOfRoster(sessions: seq<Session>, order: seq<Principal>, now: Time, saves: nat -> SaveAnswer,
                        p: Principal)
    requires p in order && forall i, j :: 0 <= i < j < |order| ==> order[i] != order[j]
    ensures var ops := SessionOps(sessions, now, saves) + MissingOps(order, sessions, now, saves);
            && Touches(ops, now)
            && ReportsFor(ops, p) == if Entries(sessions, p) == [] then [Missing] else Entries(sessions, p)
  {
    hide SessionOps, MissingOps, ReportsFor, Entries, Named;
    var a, b := SessionOps(sessions, now, saves), MissingOps(order, sessions, now, saves);
    NamedHasEntries(sessions, p);
    SessionReports(sessions, now, saves, p);
    MissingReports(order, sessions, now, saves, p);
    ReportsAppend(a, b, p);
  }

  /** A whole roster, whatever order the leases are listed in and whatever snapshots fail: an Active lease ends with
      the count of its owner's last entry, or 0 if the roster does not name it; only the count and the time last seen
      change; a lease that is not Active is untouched. */
  lemma {:induction false} RosterReconciles(s: Sys, sessions: seq<Session>, order: seq<Principal>, now: Time,
                                           saves: nat -> SaveAnswer, p: Principal)
    requires AllVisible(s.data.leases) && p in s.data.leases
    requires forall i, j :: 0 <= i < j < |order| ==> order[i] != order[j]
    requires forall q :: q in order <==> q in s.data.leases
    ensures var t := RunFrom(s, SessionOps(sessions, now, saves) + MissingOps(order, sessions, now, saves));
            var entries := Entries(sessions, p);
            && t.data.leases.Keys == s.data.leases.Keys && t.data == s.data.(leases := t.data.leases)
            && var before, after := s.data.leases[p], t.data.leases[p];
               if before.state != Active then after == before
               else
                 && after == before.(channels := after.channels, lastSeenAt := after.lastSeenAt)
                 && after.channels == (if entries == [] then 0 else CountOf(entries[|entries| - 1]))
                 && after == Replay(before, if entries == [] then [Missing] else entries, now)
  {
    hide RunFrom, SessionOps, MissingOps, Replay, ReportsFor, AllVisible, Entries, Named;
    var a, b := SessionOps(sessions, now, saves), MissingOps(order, sessions, now, saves);
    ReportsOfRoster(sessions, order, now, saves, p);
    TouchesReplay(s, a + b, now, p);
    var entries := Entries(sessions, p);
    ReplayFields(s.data.leases[p], if entries == [] then [Missing] else entries, now);
  }

  // --- what an Active lease remembers ---

  /** What a life of the controller has learnt about the activity of an owner: what its lease said when the life
      began, or that it was created, and what every roster since said. */
  datatype Evidence = Kept(channels: int, lastSeen: Time) | Born(at: Time) | Told(report: Report, at: Time)

  function Count(ev: Evidence): int {
    match ev
    case Kept(channels, _) => channels
    case Born(_) => 0
    case Told(report, _) => CountOf(report)
  }

  /** The times at which the evidence shows activity. */
  function Times(ev: Evidence): set<Time> {
    match ev
    case Kept(_, lastSeen) => {lastSeen}
    case Born(at) => {at}
    case Told(Missing, _) => {}
    case Told(Listed(count, lastActive), at) =>
      (if count > 0 then {at} else {}) + (if lastActive.Some? then {lastActive.value} else {})
  }

  function AllTimes(evs: seq<Evidence>): set<Time> {
    if evs == [] then {} else AllTimes(evs[..|evs| - 1]) + Times(evs[|evs| - 1])
  }

  /** Where a bare write of the roster handler comes from: the lease was copied out after `taken` sections of the run,
      and the copy was updated with one report. */
  datatype Note = Note(taken: nat, report: Report, now: Time)

  /** The note on the n-th section, if it is an update; an atomic one copies at once. */
  function NoteOn(op: Op, n: nat, notes: nat -> Note): Note {
    match op
    case Touch(_, report, now, _) => Note(n, report, now)
    case _ => notes(n)
  }

  predicate Updates(d: StoreData, op: Op, p: Principal) {
    (op.Touch? && op.p == p && IsActive(d.leases, p)) || (op.Upsert? && op.lease.owner == p)
  }

  ghost predicate Creates(d: StoreData, op: Op, p: Principal) {
    op.Create? && op.create.p == p && Renames(d, op)
  }

  /** The evidence on `p` after a run from `b`: it starts over with each lease created, and an update adds its report to
      what was known when its copy was taken. So a copy written back late forgets what was learnt in between. */
  ghost function Learnt(b: Sys, ops: seq<Op>, notes: nat -> Note, p: Principal): seq<Evidence>
    decreases |ops|
  {
    if ops == [] then
      if IsActive(b.data.leases, p) then [Kept(b.data.leases[p].channels, b.data.leases[p].lastSeenAt)] else []
    else
      var init, op := ops[..|ops| - 1], ops[|ops| - 1];
      var note := NoteOn(op, |init|, notes);
      if Creates(RunFrom(b, init).data, op, p) then [Born(op.create.now)]
      else if Updates(RunFrom(b, init).data, op, p) && note.taken <= |init| then
        Learnt(b, ops[..note.taken], notes, p) + [Told(note.report, note.now)]
      else Learnt(b, init, notes, p)
  }

  /** A life starts with settled leases, the Active ones of the usual idle timeout. */
  ghost predicate Starts(b: Sys) {
    AllVisible(b.data.leases) && UsualTimeouts(b.data.leases)
  }

  ghost predicate UsualTimeouts(leases: map<Principal, Record>) {
    forall p :: IsActive(leases, p) ==> leases[p].idleTimeout == 30 * MINUTE
  }

  /** The report does not move the time last seen back, which it would if the lease was seen after the handler read its
      clock. */
  predicate InTime(l: Record, report: Report, now: Time) {
    report.Listed? && report.count > 0 ==>
      l.lastSeenAt <= now || (report.lastActive.Some? && l.lastSeenAt <= report.lastActive.value)
  }

  /** A bare write is the roster handler's: an Active lease copied out before, at any distance, and updated. */
  ghost predicate WritesBack(b: Sys, ops: seq<Op>, notes: nat -> Note, n: nat)
    requires n < |ops|
  {
    var op, note := ops[n], notes(n);
    op.Upsert? ==>
      && note.taken <= n
      && var leases := RunFrom(b, ops[..note.taken]).data.leases;
         IsActive(leases, op.lease.owner) && op.lease == leases[op.lease.owner].Touched(note.report, note.now)
  }

  ghost predicate UpdatesInTime(b: Sys, ops: seq<Op>, notes: nat -> Note, n: nat)
    requires n < |ops|
  {
    var op, note := ops[n], NoteOn(ops[n], n, notes);
    (op.Touch? || op.Upsert?) && note.taken <= n ==>
      var p, leases := if op.Touch? then op.p else op.lease.owner, RunFrom(b, ops[..note.taken]).data.leases;
      IsActive(leases, p) ==> InTime(leases[p], note.report, note.now)
  }

  ghost predicate Orderly(b: Sys, ops: seq<Op>, notes: nat -> Note) {
    Starts(b) && forall n :: 0 <= n < |ops| ==> WritesBack(b, ops, notes, n) && UpdatesInTime(b, ops, notes, n)
  }

  lemma OrderlyPrefix(b: Sys, ops: seq<Op>, notes: nat -> Note, k: nat)
    requires Orderly(b, ops, notes) && k <= |ops|
    ensures Orderly(b, ops[..k], notes)
  {
    hide InTime, Starts, RunFrom;
    forall n | 0 <= n < k ensures WritesBack(b, ops[..k], notes, n) && UpdatesInTime(b, ops[..k], notes, n) {
      assert WritesBack(b, ops, notes, n) && UpdatesInTime(b, ops, notes, n);
      assert forall j :: 0 <= j <= k ==> ops[..k][..j] == ops[..j];
    }
  }

  lemma OrderlyAt(b: Sys, ops: seq<Op>, notes: nat -> Note, n: nat)
    requires Orderly(b, ops, notes) && n < |ops|
    ensures WritesBack(b, ops, notes, n) && UpdatesInTime(b, ops, notes, n)
  {
  }

  /** Copies of settled leases are written back settled. */
  lemma {:induction false} OrderlyStaysVisible(b: Sys, ops: seq<Op>, notes: nat -> Note)
    requires Orderly(b, ops, notes)
    ensures AllVisible(RunFrom(b, ops).data.leases) && forall op :: op in ops ==> WritesVisible(op)
    decreases |ops|
  {
    if ops != [] {
      hide Orderly, RunFrom, InTime;
      var init, op := ops[..|ops| - 1], ops[|ops| - 1];
      OrderlyPrefix(b, ops, notes, |init|);
      OrderlyStaysVisible(b, init, notes);
      OrderlyAt(b, ops, notes, |init|);
      if op.Upsert? {
        var taken := notes(|init|).taken;
        OrderlyPrefix(b, ops, notes, taken);
        OrderlyStaysVisible(b, ops[..taken], notes);
      }
      assert ops == init + [op];
      RunFromSnoc(b, init, op);
      StepKeepsVisible(RunFrom(b, init), op);
      hide FileStep, AllVisible, WritesBack, UpdatesInTime;
    }
  }

  /** An Active lease records its evidence: the last count, and the latest time of all. */
  ghost predicate Records(l: Record, evs: seq<Evidence>) {
    && evs != [] && l.channels == Count(evs[|evs| - 1]) && l.idleTimeout == 30 * MINUTE
    && l.lastSeenAt in AllTimes(evs) && forall t :: t in AllTimes(evs) ==> t <= l.lastSeenAt
  }

  /** One more report keeps the record exactly when it does not move the time last seen back. */
  lemma ReportRecords(l: Record, evs: seq<Evidence>, report: Report, now: Time)
    requires Records(l, evs)
    ensures Records(l.Touched(report, now), evs + [Told(report, now)]) <==> InTime(l, report, now)
  {
    assert (evs + [Told(report, now)])[..|evs|] == evs;
  }

  lemma FirstRecords(l: Record, ev: Evidence)
    requires !ev.Told? && l.idleTimeout == 30 * MINUTE && l.channels == Count(ev) && Times(ev) == {l.lastSeenAt}
    ensures Records(l, [ev])
  {
    assert [ev][..0] == [];
    assert AllTimes([ev]) == {} + Times(ev);
  }

  /** Only a create, a release or an update for `p` changes its lease. */
  lemma OthersLeaveLease(s: Sys, op: Op, p: Principal)
    requires AllVisible(s.data.leases) && !Updates(s.data, op, p) && !Creates(s.data, op, p)
    requires IsActive(FileStep(s, op).0.data.leases, p)
    ensures IsActive(s.data.leases, p) && FileStep(s, op).0.data.leases[p] == s.data.leases[p]
  {
  }

  /** What an update or a create leaves in the lease. */
  lemma UpdateLeaves(b: Sys, ops: seq<Op>, notes: nat -> Note, p: Principal)
    requires ops != [] && AllVisible(RunFrom(b, ops[..|ops| - 1]).data.leases)
    requires var n := |ops| - 1; Updates(RunFrom(b, ops[..n]).data, ops[n], p) && WritesBack(b, ops, notes, n)
    ensures var n := |ops| - 1; var note, leases := NoteOn(ops[n], n, notes), RunFrom(b, ops).data.leases;
            && note.taken <= n
            && var copies := RunFrom(b, ops[..note.taken]).data.leases;
               IsActive(copies, p) && p in leases && leases[p] == copies[p].Touched(note.report, note.now)
  {
    hide Env.Save, Record.Touched;
    var n := |ops| - 1;
    assert ops[n].Touch? ==> RunFrom(b, ops[..n]).data.leases[p].owner == p;
  }

  lemma CreateLeaves(s: Sys, op: Op, p: Principal)
    requires Creates(s.data, op, p)
    ensures var leases := FileStep(s, op).0.data.leases;
            && p in leases && leases[p].lastSeenAt == op.create.now
            && Records(leases[p], [Born(op.create.now)])
  {
    FirstRecords(op.create.Build(op.create.answer.res), Born(op.create.now));
  }

  /** In any orderly life, late copies among its writes included, an Active lease records what was learnt. */
  lemma {:induction false} LeasesRecordEvidence(b: Sys, ops: seq<Op>, notes: nat -> Note, p: Principal)
    requires Orderly(b, ops, notes)
    ensures var leases := RunFrom(b, ops).data.leases;
            IsActive(leases, p) ==> Records(leases[p], Learnt(b, ops, notes, p))
    decreases |ops|
  {
    hide FileStep, Env.Save, Records, AllVisible, Orderly, InTime, Times, Record.Touched;
    if !IsActive(RunFrom(b, ops).data.leases, p) {
    } else if ops == [] {
      StartRecords(b, notes, p);
    } else {
      var n := |ops| - 1;
      var init, op := ops[..n], ops[n];
      var s := RunFrom(b, init);
      OrderlyPrefix(b, ops, notes, n);
      OrderlyStaysVisible(b, init, notes);
      OrderlyAt(b, ops, notes, n);
      if Creates(s.data, op, p) {
        CreateLeaves(s, op, p);
      } else if Updates(s.data, op, p) {
        UpdateLeaves(b, ops, notes, p);
        var note := NoteOn(op, n, notes);
        OrderlyPrefix(b, ops, notes, note.taken);
        LeasesRecordEvidence(b, ops[..note.taken], notes, p);
        var copy := RunFrom(b, ops[..note.taken]).data.leases[p];
        ReportRecords(copy, Learnt(b, ops[..note.taken], notes, p), note.report, note.now);
      } else {
        LeasesRecordEvidence(b, init, notes, p);
        OthersLeaveLease(s, op, p);
      }
    }
  }

  lemma StartRecords(b: Sys, notes: nat -> Note, p: Principal)
    requires Orderly(b, [], notes) && IsActive(RunFrom(b, []).data.leases, p)
    ensures Records(RunFrom(b, []).data.leases[p], Learnt(b, [], notes, p))
  {
    FirstRecords(b.data.leases[p], Kept(b.data.leases[p].channels, b.data.leases[p].lastSeenAt));
  }

  // --- write-backs ---

  /** The lease differs from the copy in the count at most, and in the time last seen where the report overrides it. */
  predicate StillFits(l: Record, copy: Record, report: Report) {
    && l == copy.(channels := l.channels, lastSeenAt := l.lastSeenAt)
    && (l.lastSeenAt != copy.lastSeenAt ==>
         && report.Listed?
         && (report.count > 0
             || (report.lastActive.Some? && l.lastSeenAt <= report.lastActive.value
                 && copy.lastSeenAt <= report.lastActive.value)))
  }

  /** The handler's write-back of an Active copy is the atomic update exactly when the copy still fits the lease. */
  lemma WriteBackIsTouch(s: Sys, copy: Record, report: Report, now: Time, save: SaveAnswer)
    requires AllVisible(s.data.leases) && copy.Visible(copy.owner) && copy.state == Active
    ensures FileStep(s, Upsert(copy.Touched(report, now), save)).0
            == FileStep(s, Touch(copy.owner, report, now, save)).0
            <==> copy.owner in s.data.leases && StillFits(s.data.leases[copy.owner], copy, report)
  {
    hide Env.Save;
    var d, p := s.data, copy.owner;
    assert FileStep(s, Upsert(copy.Touched(report, now), save)).0.data.leases[p] == copy.Touched(report, now);
  }

  /** What a late copy can do. The lease has not been seen for long; one roster copies it out, another says that a
      channel is open, the first, which did not see the channel, writes back, and an idle release goes through. */
  lemma StaleRosterForgets(s: Sys, p: Principal, now: Time, saves: (SaveAnswer, SaveAnswer), a: ReleaseArgs)
    requires Starts(s) && IsActive(s.data.leases, p) && s.data.leases[p].lastSeenAt <= now - 30 * MINUTE - 1
    requires IdleRelease(a) && a.p == p && a.now == now
    ensures var copy := s.data.leases[p];
            var heard := FileStep(s, Touch(p, Listed(1, None), now, saves.0)).0;
            var stale := FileStep(heard, Upsert(copy.Touched(Listed(0, None), now), saves.1)).0;
            && !a.Applies(heard.data.leases) && a.Applies(stale.data.leases)
            && heard.data.leases[p].channels == 1 && heard.data.leases[p].lastSeenAt == now
  {
    hide Env.Save;
    SinceExceeds(now, s.data.leases[p].lastSeenAt, 30 * MINUTE);
  }

  /** The copy shows no channel, and the lease is no longer Active, or was seen at another time than the copy and the
      report overrides neither. */
  predicate Misleads(leases: map<Principal, Record>, copy: Record, report: Report) {
    && CountOf(report) == 0
    && (IsActive(leases, copy.owner) ==>
         var seen := leases[copy.owner].lastSeenAt;
         seen != copy.lastSeenAt && !(report.Listed? && report.lastActive.Some?
                                      && seen <= report.lastActive.value && copy.lastSeenAt <= report.lastActive.value))
  }

  /** Exactly then some idle release goes through after the write-back and not after the atomic update, or the other way
      round. */
  lemma StaleWriteMisleads(s: Sys, copy: Record, report: Report, now: Time, save: SaveAnswer)
    requires Starts(s) && copy.Visible(copy.owner) && copy.state == Active && copy.idleTimeout == 30 * MINUTE
    ensures var written := FileStep(s, Upsert(copy.Touched(report, now), save)).0;
            var touched := FileStep(s, Touch(copy.owner, report, now, save)).0;
            (exists a :: IdleRelease(a) && a.p == copy.owner
                         && a.Applies(written.data.leases) != a.Applies(touched.data.leases))
            <==> Misleads(s.data.leases, copy, report)
  {
    hide Env.Save, AllVisible;
    var p := copy.owner;
    var written := FileStep(s, Upsert(copy.Touched(report, now), save)).0;
    var touched := FileStep(s, Touch(p, report, now, save)).0;
    TouchKeepsShape(s, p, report, now, save);
    var l := written.data.leases[p];
    var seen := if IsActive(s.data.leases, p) && touched.data.leases[p].lastSeenAt < l.lastSeenAt
                then touched.data.leases[p].lastSeenAt else l.lastSeenAt;
    var t := seen + 30 * MINUTE + 1;
    var a := ReleaseArgs(p, Idle, t, (l: Record) => l.IsIdle(t), None, None);
    IdlesAfter(l, t);
    if IsActive(s.data.leases, p) {
      IdlesAfter(touched.data.leases[p], t);
    }
    assert IdleRelease(a);
    assert Misleads(s.data.leases, copy, report) ==>
        a.Applies(written.data.leases) != a.Applies(touched.data.leases);
  }

  lemma IdlesAfter(l: Record, t: Time)
    requires l.idleTimeout == 30 * MINUTE
    ensures l.IsIdle(t) <==> l.channels == 0 && t - l.lastSeenAt > 30 * MINUTE
  {
    SinceExceeds(t, l.lastSeenAt, 30 * MINUTE);
  }

  // --- what makes a life orderly ---

  /** The clock readings of the sections that show activity. */
  function At(op: Op, note: Note): Time {
    match op
    case Create(a, _) => a.now
    case Touch(_, _, now, _) => now
    case Upsert(_, _) => note.now
    case _ => 0
  }

  /** The latest clock reading of a run that began at `t0`. */
  function Latest(t0: Time, ops: seq<Op>, notes: nat -> Note): Time {
    if ops == [] then t0
    else
      var n := |ops| - 1;
      var before, at := Latest(t0, ops[..n], notes), At(ops[n], notes(n));
      if at > before then at else before
  }

  /** The handler's clock is not behind the sections before its copy, nor behind the times the bastion reports. */
  predicate ClockOk(t0: Time, ops: seq<Op>, notes: nat -> Note, n: nat)
    requires n < |ops|
  {
    var op, note := ops[n], NoteOn(ops[n], n, notes);
    (op.Touch? || op.Upsert?) && note.taken <= n ==>
      && Latest(t0, ops[..note.taken], notes) <= note.now
      && (note.report.Listed? ==> note.report.lastActive.GetOr(0) <= note.now)
  }

  lemma ClockPrefix(b: Sys, t0: Time, ops: seq<Op>, notes: nat -> Note, k: nat)
    requires forall n :: 0 <= n < |ops| ==> WritesBack(b, ops, notes, n) && ClockOk(t0, ops, notes, n)
    requires k <= |ops|
    ensures forall n :: 0 <= n < k ==> WritesBack(b, ops[..k], notes, n) && ClockOk(t0, ops[..k], notes, n)
  {
    hide RunFrom, Latest;
    forall n | 0 <= n < k ensures WritesBack(b, ops[..k], notes, n) && ClockOk(t0, ops[..k], notes, n) {
      assert WritesBack(b, ops, notes, n) && ClockOk(t0, ops, notes, n);
      assert forall j :: 0 <= j <= k ==> ops[..k][..j] == ops[..j];
    }
  }

  ghost predicate SeenBy(leases: map<Principal, Record>, t: Time) {
    forall p :: IsActive(leases, p) ==> leases[p].lastSeenAt <= t
  }

  /** No report moves the time last seen back if clocks behave: a life starts no earlier than its leases were seen, each
      handler's clock is not behind the sections before its copy, and no bastion reports a time ahead of it. */
  lemma {:induction false} ClocksSuffice(b: Sys, t0: Time, ops: seq<Op>, notes: nat -> Note)
    requires Starts(b) && SeenBy(b.data.leases, t0)
    requires forall n :: 0 <= n < |ops| ==> WritesBack(b, ops, notes, n) && ClockOk(t0, ops, notes, n)
    ensures Orderly(b, ops, notes) && SeenBy(RunFrom(b, ops).data.leases, Latest(t0, ops, notes))
    decreases |ops|
  {
    hide FileStep, Starts, AllVisible, WritesBack, Record.Touched, RunFrom, Latest, Orderly;
    if ops != [] {
      var n := |ops| - 1;
      var note := NoteOn(ops[n], n, notes);
      ClockPrefix(b, t0, ops, notes, n);
      ClocksSuffice(b, t0, ops[..n], notes);
      if note.taken <= n {
        ClockPrefix(b, t0, ops, notes, note.taken);
        ClocksSuffice(b, t0, ops[..note.taken], notes);
      }
      assert ClockOk(t0, ops, notes, n) && WritesBack(b, ops, notes, n);
      ClockInTime(b, t0, ops, notes, n);
      OneMoreInOrder(b, ops, notes);
      forall p | IsActive(RunFrom(b, ops).data.leases, p)
        ensures RunFrom(b, ops).data.leases[p].lastSeenAt <= Latest(t0, ops, notes)
      {
        SeenByLatest(b, t0, ops, notes, p);
      }
    } else {
      NothingIsOrderly(b, t0, notes);
    }
  }

  lemma ClockInTime(b: Sys, t0: Time, ops: seq<Op>, notes: nat -> Note, n: nat)
    requires n < |ops| && ClockOk(t0, ops, notes, n)
    requires var taken := NoteOn(ops[n], n, notes).taken;
             taken <= n ==> SeenBy(RunFrom(b, ops[..taken]).data.leases, Latest(t0, ops[..taken], notes))
    ensures UpdatesInTime(b, ops, notes, n)
  {
    hide RunFrom, Latest, NoteOn;
  }

  lemma NothingIsOrderly(b: Sys, t0: Time, notes: nat -> Note)
    requires Starts(b)
    ensures Orderly(b, [], notes) && RunFrom(b, []) == b && Latest(t0, [], notes) == t0
  {
  }

  lemma OneMoreInOrder(b: Sys, ops: seq<Op>, notes: nat -> Note)
    requires ops != [] && Orderly(b, ops[..|ops| - 1], notes)
    requires WritesBack(b, ops, notes, |ops| - 1) && UpdatesInTime(b, ops, notes, |ops| - 1)
    ensures Orderly(b, ops, notes)
  {
    hide InTime, Starts, RunFrom;
    var k := |ops| - 1;
    forall n | 0 <= n < k ensures WritesBack(b, ops, notes, n) && UpdatesInTime(b, ops, notes, n) {
      assert WritesBack(b, ops[..k], notes, n) && UpdatesInTime(b, ops[..k], notes, n);
      assert forall j :: 0 <= j <= k ==> ops[..k][..j] == ops[..j];
    }
  }

  lemma SeenByLatest(b: Sys, t0: Time, ops: seq<Op>, notes: nat -> Note, p: Principal)
    requires ops != [] && Orderly(b, ops, notes) && ClockOk(t0, ops, notes, |ops| - 1)
    requires IsActive(RunFrom(b, ops).data.leases, p)
    requires forall k :: k == |ops| - 1 || k == NoteOn(ops[|ops| - 1], |ops| - 1, notes).taken < |ops| ==>
               SeenBy(RunFrom(b, ops[..k]).data.leases, Latest(t0, ops[..k], notes))
    ensures RunFrom(b, ops).data.leases[p].lastSeenAt <= Latest(t0, ops, notes)
  {
    hide FileStep, Orderly, AllVisible;
    var n := |ops| - 1;
    var s := RunFrom(b, ops[..n]);
    OrderlyPrefix(b, ops, notes, n);
    OrderlyStaysVisible(b, ops[..n], notes);
    OrderlyAt(b, ops, notes, n);
    if Creates(s.data, ops[n], p) {
      CreateLeaves(s, ops[n], p);
    } else if Updates(s.data, ops[n], p) {
      UpdateLeaves(b, ops, notes, p);
    } else {
      OthersLeaveLease(s, ops[n], p);
    }
  }

  predicate WritesUsual(op: Op) {
    op.Upsert? && op.lease.state == Active ==> op.lease.idleTimeout == 30 * MINUTE
  }

  lemma StepKeepsTimeouts(s: Sys, op: Op)
    requires UsualTimeouts(s.data.leases) && WritesUsual(op)
    ensures UsualTimeouts(FileStep(s, op).0.data.leases)
  {
    hide Env.Save;
  }

  lemma {:induction false} RunsKeepTimeouts(s: Sys, ops: seq<Op>)
    requires UsualTimeouts(s.data.leases) && forall op :: op in ops ==> WritesUsual(op)
    ensures UsualTimeouts(RunFrom(s, ops).data.leases)
  {
    if ops != [] {
      RunsKeepTimeouts(s, ops[..|ops| - 1]);
      StepKeepsTimeouts(RunFrom(s, ops[..|ops| - 1]), ops[|ops| - 1]);
      hide FileStep, UsualTimeouts;
    }
  }

  lemma {:induction false} UpsertsAreUsual(list: seq<R.DiscoveryContainer>, now: Time, saves: nat -> SaveAnswer, i: nat)
    requires i <= |list|
    ensures forall op :: op in Upserts(list, now, saves, i) ==> WritesUsual(op)
  {
    if i > 0 {
      UpsertsAreUsual(list, now, saves, i - 1);
    }
  }

  lemma RestartIsUsual(life: Life)
    ensures forall op :: op in RestartOps(life) ==> WritesUsual(op)
  {
    if life.listing.Some? {
      UpsertsAreUsual(life.listing.value, life.now, life.saves, |life.listing.value|);
    }
  }

  ghost predicate FileUsual(f: File) {
    f.Whole? ==> UsualTimeouts(f.data.leases)
  }

  /** Whatever an earlier life left has the usual timeouts, if the bare writes of all of them had. */
  lemma {:induction false} LivesLeaveTimeouts(lives: seq<Life>)
    requires Possible(lives) && forall i, op :: 0 <= i < |lives| && op in lives[i].ops ==> WritesUsual(op)
    ensures FileUsual(Left(lives).file)
  {
    if lives != [] {
      var before, life := lives[..|lives| - 1], lives[|lives| - 1];
      LivesLeaveTimeouts(before);
      LivesLeaveVisibleFile(before);
      LifeLeavesVisibleFile(Left(before), life, life.crash);
      RestartIsUsual(life);
      var s, ops := Loaded(Left(before), life), RestartOps(life) + life.ops;
      hide RestartOps, WritesUsual, RunFrom, Lived;
      assert forall op :: op in ops ==> WritesUsual(op);
      forall j | 0 <= j <= |ops| ensures UsualTimeouts(RunFrom(s, ops[..j]).data.leases) {
        RunsKeepTimeouts(s, ops[..j]);
      }
    }
  }

  lemma LoadedIsUsual(pt: Durable, life: Life)
    requires FileUsual(pt.file)
    ensures UsualTimeouts(Loaded(pt, life).data.leases)
  {
  }

  lemma RestartKeepsTimeouts(pt: Durable, life: Life)
    requires FileUsual(pt.file)
    ensures UsualTimeouts(Restarted(pt, life).data.leases)
  {
    hide Loaded, RestartOps, UsualTimeouts, WritesUsual, RunFrom, FileUsual;
    LoadedIsUsual(pt, life);
    RestartIsUsual(life);
    RunsKeepTimeouts(Loaded(pt, life), RestartOps(life));
  }

  /** So a life that follows others, each crashed at any instant, starts as the evidence theorems ask. */
  lemma LivesStart(lives: seq<Life>, life: Life)
    requires Possible(lives) && LoadFile(Left(lives).file, life.read).Some?
    requires forall i, op :: 0 <= i < |lives| && op in lives[i].ops ==> WritesUsual(op)
    ensures Starts(Restarted(Left(lives), life))
  {
    hide Restarted, Left, RunFrom, Possible, AllVisible, UsualTimeouts, FileUsual, FileVisible, WritesUsual, LoadFile;
    LivesLeaveVisibleFile(lives);
    LivesLeaveTimeouts(lives);
    RestartIsVisible(Left(lives), life);
    RestartKeepsTimeouts(Left(lives), life);
  }

  // --- the idle release ---

  lemma SinceExceeds(now: Time, t: Time, limit: Duration)
    requires -MAX_DURATION <= limit < MAX_DURATION
    ensures Since(now, t) > limit <==> now - t > limit
  {
  }

  /** What the idle trigger asks for. */
  ghost predicate IdleRelease(a: ReleaseArgs) {
    a.trigger == Idle && forall l :: a.shouldRelease(l) <==> l.IsIdle(a.now)
  }

  /** In any orderly life an idle release goes through exactly when the lease is Active, the last thing learnt showed no
      channel, and every sign of activity is more than 30 minutes old. */
  lemma IdleReleaseIsSafe(b: Sys, ops: seq<Op>, notes: nat -> Note, a: ReleaseArgs)
    requires Orderly(b, ops, notes) && IdleRelease(a)
    ensures var evs := Learnt(b, ops, notes, a.p);
            a.Applies(RunFrom(b, ops).data.leases) <==>
              && IsActive(RunFrom(b, ops).data.leases, a.p)
              && evs != [] && Count(evs[|evs| - 1]) == 0
              && forall t :: t in AllTimes(evs) ==> a.now - t > 30 * MINUTE
  {
    LeasesRecordEvidence(b, ops, notes, a.p);
    hide Orderly, RunFrom, Learnt, AllTimes;
    if IsActive(RunFrom(b, ops).data.leases, a.p) {
      var l := RunFrom(b, ops).data.leases[a.p];
      assert l.lastSeenAt in AllTimes(Learnt(b, ops, notes, a.p));
      SinceExceeds(a.now, l.lastSeenAt, 30 * MINUTE);
    }
  }

  // --- from the bastion to the release ---

  /** What the tracker's roster says of `p`. */
  function TrackerReport(h: seq<Event>, p: Principal): Report {
    match Known(h, p)
    case None => Missing
    case Some((n, at)) => Listed(n, Some(at))
  }

  /** The controller hears of each principal exactly what the tracker knows, once. */
  lemma {:induction false} RosterCarriesTracker(sessions: seq<Session>, h: seq<Event>, p: Principal)
    requires IsRosterOf(sessions, h) && p != ""
    ensures (if Entries(sessions, p) == [] then [Missing] else Entries(sessions, p)) == [TrackerReport(h, p)]
  {
    if exists i :: 0 <= i < |sessions| && sessions[i].principal == p {
      var i :| 0 <= i < |sessions| && sessions[i].principal == p;
      OneEntry(sessions, p, i, |sessions|);
    } else {
      NamedHasEntries(sessions, p);
    }
    assert sessions[..|sessions|] == sessions;
  }

  lemma {:induction false} OneEntry(sessions: seq<Session>, p: Principal, i: nat, n: nat)
    requires i < |sessions| && n <= |sessions| && p != "" && sessions[i].principal == p
    requires forall j :: 0 <= j < |sessions| && j != i ==> sessions[j].principal != p
    ensures Entries(sessions[..n], p) == if i < n then [Listed(sessions[i].count, sessions[i].lastActive)] else []
  {
    if n > 0 {
      assert sessions[..n][..n - 1] == sessions[..n - 1];
      OneEntry(sessions, p, i, n - 1);
    }
  }

  function AsTold(reports: seq<Report>, now: Time): seq<Evidence> {
    if reports == [] then [] else AsTold(reports[..|reports| - 1], now) + [Told(reports[|reports| - 1], now)]
  }

  lemma OneTold(report: Report, now: Time)
    ensures AsTold([report], now) == [Told(report, now)]
  {
    assert [report][..0] == [];
  }

  lemma TouchIsLearnt(b: Sys, ops: seq<Op>, notes: nat -> Note, op: Op, p: Principal)
    requires op.Touch?
    ensures Learnt(b, ops + [op], notes, p)
         == Learnt(b, ops, notes, p)
            + if op.p == p && IsActive(RunFrom(b, ops).data.leases, p) then [Told(op.report, op.now)] else []
  {
    assert (ops + [op])[..|ops|] == ops;
    hide RunFrom;
  }

  lemma OneMoreTold(ops: seq<Op>, op: Op, now: Time, p: Principal)
    requires op.Touch?
    ensures AsTold(ReportsFor(ops + [op], p), now)
         == AsTold(ReportsFor(ops, p), now) + if op.p == p then [Told(op.report, now)] else []
  {
    assert (ops + [op])[..|ops|] == ops;
    var reports := ReportsFor(ops, p);
    assert (reports + [op.report])[..|reports|] == reports;
  }

  lemma TouchesTo(ops: seq<Op>, op: Op, now: Time)
    requires Touches(ops + [op], now)
    ensures Touches(ops, now) && op.Touch? && op.now == now
  {
    assert forall x :: x in ops ==> x in ops + [op];
    assert op in ops + [op];
  }

  /** The touches of a roster are learnt one by one. */
  lemma {:induction false} TouchesAreLearnt(b: Sys, before: seq<Op>, ops: seq<Op>, notes: nat -> Note, now: Time,
                                            p: Principal)
    requires var leases := RunFrom(b, before).data.leases; AllVisible(leases) && IsActive(leases, p)
    requires Touches(ops, now)
    ensures IsActive(RunFrom(b, before + ops).data.leases, p)
    ensures Learnt(b, before + ops, notes, p) == Learnt(b, before, notes, p) + AsTold(ReportsFor(ops, p), now)
  {
    if ops == [] {
      assert before + ops == before;
    } else {
      hide RunFrom, AllVisible, Replay, Touches, Learnt, AsTold, ReportsFor;
      var init, op := ops[..|ops| - 1], ops[|ops| - 1];
      assert ops == init + [op] && before + ops == (before + init) + [op];
      TouchesTo(init, op, now);
      TouchesAreLearnt(b, before, init, notes, now, p);
      RunFromAppend(b, before, ops);
      TouchesReplay(RunFrom(b, before), ops, now, p);
      TouchIsLearnt(b, before + init, notes, op, p);
      OneMoreTold(init, op, now, p);
    }
  }

  /** The controller's side of a roster: what the handler does with it, in a run. */
  ghost function RosterOps(sessions: seq<Session>, order: seq<Principal>, now: Time, saves: nat -> SaveAnswer): seq<Op>
  {
    SessionOps(sessions, now, saves) + MissingOps(order, sessions, now, saves)
  }

  /** `order` lists the owners of the leases, as the handler finds them. */
  ghost predicate Lists(order: seq<Principal>, leases: map<Principal, Record>) {
    (forall i, j :: 0 <= i < j < |order| ==> order[i] != order[j]) && forall p :: p in order <==> p in leases
  }

  /** One round of the bastion's reporting loop that reaches the controller. */
  method ReportRoster(tracker: SessionTracker, store: FileStore, e: Env, now: Time, saves: nat -> SaveAnswer)
    returns (e': Env, ghost sessions: seq<Session>, ghost order: seq<Principal>)
    requires tracker.Valid() && store.table.Valid() && AllVisible(store.Data().leases)
    modifies store.table
    ensures store.table.Valid() && tracker.history == old(tracker.history)
    ensures IsRosterOf(sessions, tracker.history) && Lists(order, old(store.Data()).leases)
    ensures Sys(store.Data(), e') == RunFrom(Sys(old(store.Data()), e), RosterOps(sessions, order, now, saves))
  {
    hide RunFrom, FileStep, AllVisible, LeaseTable.Valid, SessionOps, MissingOps;
    var roster := tracker.Roster();
    sessions := roster;
    e', order := HandleRoster(store, e, roster, now, saves);
  }

  /** When a roster of the tracker is applied, the controller learns of an Active lease's owner exactly what the tracker
      knows. */
  lemma RosterIsLearnt(b: Sys, before: seq<Op>, notes: nat -> Note, sessions: seq<Session>, order: seq<Principal>,
                       h: seq<Event>, now: Time, saves: nat -> SaveAnswer, p: Principal)
    requires var leases := RunFrom(b, before).data.leases;
             AllVisible(leases) && IsActive(leases, p) && Lists(order, leases)
    requires IsRosterOf(sessions, h) && p != ""
    ensures Learnt(b, before + RosterOps(sessions, order, now, saves), notes, p)
         == Learnt(b, before, notes, p) + [Told(TrackerReport(h, p), now)]
  {
    hide RunFrom, SessionOps, MissingOps, ReportsFor, AllVisible, Entries, Learnt, IsRosterOf, AsTold, TrackerReport;
    hide Touches;
    ReportsOfRoster(sessions, order, now, saves, p);
    TouchesAreLearnt(b, before, RosterOps(sessions, order, now, saves), notes, now, p);
    RosterCarriesTracker(sessions, h, p);
    OneTold(TrackerReport(h, p), now);
  }

  /** The section neither updates the lease of `p` nor creates it. */
  predicate Spares(op: Op, p: Principal) {
    !(op.Upsert? && op.lease.owner == p) && !(op.Touch? && op.p == p) && !(op.Create? && op.create.p == p)
  }

  /** Sections that neither update nor create for `p` teach nothing new, and an Active lease was Active before them. */
  lemma {:induction false} OthersTeachNothing(b: Sys, before: seq<Op>, notes: nat -> Note, later: seq<Op>, p: Principal)
    requires AllVisible(RunFrom(b, before).data.leases) && IsActive(RunFrom(b, before + later).data.leases, p)
    requires forall op :: op in later ==> WritesVisible(op) && Spares(op, p)
    ensures IsActive(RunFrom(b, before).data.leases, p)
    ensures Learnt(b, before + later, notes, p) == Learnt(b, before, notes, p)
  {
    hide AllVisible, Env.Save, FileStep;
    if later == [] {
      assert before + later == before;
    } else {
      var init, op := later[..|later| - 1], later[|later| - 1];
      var s := RunFrom(b, before + init);
      assert (before + later)[..|before + later| - 1] == before + init && (before + later)[|before + later| - 1] == op;
      assert op in later;
      RunFromAppend(b, before, init);
      RunsStayVisible(RunFrom(b, before), init);
      OthersLeaveLease(s, op, p);
      OthersTeachNothing(b, before, notes, init, p);
    }
  }

  /** A copy written back before anything else was learnt of its owner forgets nothing. */
  lemma FreshCopyForgetsNothing(b: Sys, before: seq<Op>, notes: nat -> Note, between: seq<Op>, write: Op)
    requires Orderly(b, before + between + [write], notes)
    requires write.Upsert? && notes(|before + between|).taken == |before|
    requires IsActive(RunFrom(b, before + between).data.leases, write.lease.owner)
    requires forall op :: op in between ==> Spares(op, write.lease.owner)
    ensures var note, p := notes(|before + between|), write.lease.owner;
            Learnt(b, before + between + [write], notes, p)
            == Learnt(b, before + between, notes, p) + [Told(note.report, note.now)]
  {
    hide RunFrom, Orderly, AllVisible, Spares, WritesVisible;
    var run := before + between;
    OrderlyStaysVisible(b, run + [write], notes);
    assert (run + [write])[..|run|] == run && (run + [write])[..|before|] == before;
    OrderlyPrefix(b, run + [write], notes, |before|);
    OrderlyStaysVisible(b, before, notes);
    OthersTeachNothing(b, before, notes, between, write.lease.owner);
  }

  /** From the bastion to the release, in any orderly life: a tracker with history `h` reports, the controller applies
      the roster, other sections follow that neither hear of `p` again nor create for it, and an idle release goes
      through. Then by the tracker's books no run of events since the owner's last drain had opened more channels than
      it closed. */
  lemma IdleMeansQuietTracker(b: Sys, before: seq<Op>, notes: nat -> Note, sessions: seq<Session>,
                              order: seq<Principal>, now: Time, saves: nat -> SaveAnswer, later: seq<Op>,
                              h: seq<Event>, a: ReleaseArgs)
    requires Lists(order, RunFrom(b, before).data.leases) && IsRosterOf(sessions, h)
    requires Orderly(b, before + RosterOps(sessions, order, now, saves) + later, notes)
    requires forall op :: op in later ==> Spares(op, a.p)
    requires a.p != "" && IdleRelease(a)
    requires a.Applies(RunFrom(b, before + RosterOps(sessions, order, now, saves) + later).data.leases)
    ensures forall k :: SinceDrain(h, a.p) <= k <= |h| ==> Balance(h[k..], a.p) <= 0
  {
    hide RunFrom, Learnt, RosterOps, Orderly, AllVisible, Lists, IsRosterOf, Balance, Spares, WritesVisible;
    var roster := RosterOps(sessions, order, now, saves);
    var run := before + roster;
    IdleReleaseIsSafe(b, run + later, notes, a);
    OrderlyStaysVisible(b, run + later, notes);
    assert (run + later)[..|run|] == run && (run + later)[..|before|] == before;
    OrderlyPrefix(b, run + later, notes, |run|);
    OrderlyPrefix(b, run + later, notes, |before|);
    OrderlyStaysVisible(b, run, notes);
    OrderlyStaysVisible(b, before, notes);
    OthersTeachNothing(b, run, notes, later, a.p);
    RosterKeepsActive(b, before, sessions, order, now, saves, a.p);
    RosterIsLearnt(b, before, notes, sessions, order, h, now, saves, a.p);
    CountIsPeakBalance(h, a.p);
    assert Count(Told(TrackerReport(h, a.p), now)) == 0;
  }

  lemma BothTouch(first: seq<Op>, second: seq<Op>, now: Time)
    requires Touches(first, now) && Touches(second, now)
    ensures Touches(first + second, now)
  {
  }

  lemma RosterKeepsActive(b: Sys, before: seq<Op>, sessions: seq<Session>, order: seq<Principal>, now: Time,
                          saves: nat -> SaveAnswer, p: Principal)
    requires AllVisible(RunFrom(b, before).data.leases) && Lists(order, RunFrom(b, before).data.leases)
    ensures IsActive(RunFrom(b, before + RosterOps(sessions, order, now, saves)).data.leases, p)
            <==> IsActive(RunFrom(b, before).data.leases, p)
  {
    hide RunFrom, SessionOps, MissingOps, ReportsFor, AllVisible, Replay, Touches;
    var roster := RosterOps(sessions, order, now, saves);
    SessionReports(sessions, now, saves, p);
    MissingReports(order, sessions, now, saves, p);
    BothTouch(SessionOps(sessions, now, saves), MissingOps(order, sessions, now, saves), now);
    RunFromAppend(b, before, roster);
    TouchesReplay(RunFrom(b, before), roster, now, p);
  }
}
