/** Lives of the controller: restart, run, crash at any instant, and again. */
module Recovery {
  import opened Wrappers
  import opened LeaseModel
  import opened Environment
  import opened StoreTypes
  import opened Operations
  import opened FileStores
  import opened Runs
  import opened Snapshots
  import opened Conservation
  import R = Reattach

  /** One life of the process: what runs when it starts, how reading the snapshot goes, what the runtime lists (None:
      the listing failed), the sections it gets through, and the instant it crashes at. */
  datatype Life = Life(
    running: map<ContainerId, Principal>,
    read: ReadAnswer,
    listing: Option<seq<R.DiscoveryContainer>>,
    now: Time,
    saves: nat -> SaveAnswer,
    ops: seq<Op>,
    crash: nat)

  /** Reattachment as sections: one bare write per recognised container. */
  function Upserts(list: seq<R.DiscoveryContainer>, now: Time, saves: nat -> SaveAnswer, i: nat): seq<Op>
    requires i <= |list|
  {
    if i == 0 then []
    else if !R.Recognised(list[i - 1]) then Upserts(list, now, saves, i - 1)
    else Upserts(list, now, saves, i - 1) + [Upsert(R.Recovered(list[i - 1], now), saves(i - 1))]
  }

  lemma {:induction false} AttachIsRun(s: Sys, list: seq<R.DiscoveryContainer>, now: Time, saves: nat -> SaveAnswer,
                                       i: nat)
    requires i <= |list|
    ensures var p := R.Attach(s.data, s.env, list, now, saves, i);
            RunFrom(s, Upserts(list, now, saves, i)) == Sys(p.data, p.env)
  {
    if i > 0 {
      AttachIsRun(s, list, now, saves, i - 1);
      if R.Recognised(list[i - 1]) {
        RunFromSnoc(s, Upserts(list, now, saves, i - 1), Upsert(R.Recovered(list[i - 1], now), saves(i - 1)));
      }
    }
  }

  function RestartOps(life: Life): seq<Op> {
    match life.listing
    case None => []
    case Some(list) => Upserts(list, life.now, life.saves, |list|)
  }

  lemma {:induction false} UpsertsAreVisible(list: seq<R.DiscoveryContainer>, now: Time, saves: nat -> SaveAnswer,
                                             i: nat)
    requires i <= |list|
    ensures forall op :: op in Upserts(list, now, saves, i) ==> WritesVisible(op)
  {
    if i > 0 {
      UpsertsAreVisible(list, now, saves, i - 1);
    }
  }

  /** The store as loaded, and the log of a new process. */
  ghost function Loaded(pt: Durable, life: Life): Sys {
    var d := pt.(running := life.running);
    Sys(LoadFile(pt.file, life.read).GetOr(EMPTY_DATA), Env(d, [], [d]))
  }

  ghost function Restarted(pt: Durable, life: Life): Sys {
    RunFrom(Loaded(pt, life), RestartOps(life))
  }

  ghost function Lived(pt: Durable, life: Life): Sys {
    RunFrom(Restarted(pt, life), life.ops)
  }

  /** What the crash of the last life leaves; an empty disk before the first. */
  ghost function Left(lives: seq<Life>): Durable {
    if lives == [] then Durable(Absent, Absent, map[])
    else
      var life := lives[|lives| - 1];
      var e := Lived(Left(lives[..|lives| - 1]), life).env;
      if life.crash < |e.points| then e.points[life.crash] else e.disk
  }

  /** Each life starts from what the one before left, is not refused, writes settled leases only, and crashes at one
      of its instants, the restart's own among them. */
  ghost predicate Possible(lives: seq<Life>) {
    lives != [] ==>
      var before, life := lives[..|lives| - 1], lives[|lives| - 1];
      && Possible(before)
      && LoadFile(Left(before).file, life.read).Some?
      && (forall op :: op in life.ops ==> WritesVisible(op))
      && life.crash < |Lived(Left(before), life).env.points|
  }

  lemma LifeIsRun(pt: Durable, life: Life)
    ensures Lived(pt, life) == RunFrom(Loaded(pt, life), RestartOps(life) + life.ops)
  {
    RunFromAppend(Loaded(pt, life), RestartOps(life), life.ops);
  }

  lemma LoadedIsVisible(pt: Durable, life: Life)
    requires FileVisible(pt.file)
    ensures AllVisible(Loaded(pt, life).data.leases)
  {
  }

  lemma LifeWritesVisible(life: Life)
    requires forall op :: op in life.ops ==> WritesVisible(op)
    ensures forall op :: op in RestartOps(life) + life.ops ==> WritesVisible(op)
  {
    if life.listing.Some? {
      UpsertsAreVisible(life.listing.value, life.now, life.saves, |life.listing.value|);
    }
  }

  /** At every instant of a life, its restart included, the file is the one the life found or a settled memory state the
      life had reached. */
  lemma LifeLeavesVisibleFile(pt: Durable, life: Life, k: nat)
    requires FileVisible(pt.file) && k < |Lived(pt, life).env.points|
    requires forall op :: op in life.ops ==> WritesVisible(op)
    ensures var f := Lived(pt, life).env.points[k].file;
            && FileVisible(f)
            && (f == pt.file
                || exists j :: 0 <= j <= |RestartOps(life) + life.ops|
                               && f == Whole(RunFrom(Loaded(pt, life), (RestartOps(life) + life.ops)[..j]).data))
  {
    hide AllVisible, WritesVisible, RestartOps, FileStep, Lived, LastSaved, RunFrom;
    var s, ops := Loaded(pt, life), RestartOps(life) + life.ops;
    LifeIsRun(pt, life);
    LoadedIsVisible(pt, life);
    LifeWritesVisible(life);
    if k > 0 {
      PointsAreSnapshots(s, ops, k);
      var j :| 0 <= j <= |ops| && RunFrom(s, ops).env.points[k].file == LastSaved(s, ops[..j]);
      SnapshotsAreVisible(s, ops[..j]);
      if LastSaved(s, ops[..j]) != pt.file {
        var i :| 0 <= i <= j && LastSaved(s, ops[..j]) == Whole(RunFrom(s, ops[..j][..i]).data);
        assert ops[..j][..i] == ops[..i];
      }
    } else {
      FirstPoint(s, ops);
    }
  }

  lemma {:induction false} FirstPoint(s: Sys, ops: seq<Op>)
    requires s.env.points != []
    ensures RunFrom(s, ops).env.points != [] && RunFrom(s, ops).env.points[0] == s.env.points[0]
  {
    if ops != [] {
      FirstPoint(s, ops[..|ops| - 1]);
      StepPoints(RunFrom(s, ops[..|ops| - 1]), ops[|ops| - 1]);
    }
  }

  /** After any number of lives, each crashed at any instant, the file is absent or a settled state; so only a failing
      read keeps the next life from starting. */
  lemma {:induction false} LivesLeaveVisibleFile(lives: seq<Life>)
    requires Possible(lives)
    ensures FileVisible(Left(lives).file) && LoadFile(Left(lives).file, ReadOk).Some?
  {
    if lives != [] {
      LivesLeaveVisibleFile(lives[..|lives| - 1]);
      LifeLeavesVisibleFile(Left(lives[..|lives| - 1]), lives[|lives| - 1], lives[|lives| - 1].crash);
    }
  }

  // --- recovery ---

  /** The listing shows exactly what runs, each container recognised and labelled with its owner. */
  ghost predicate Complete(list: seq<R.DiscoveryContainer>, running: map<ContainerId, Principal>) {
    && (forall id :: id in running ==> exists i :: 0 <= i < |list| && list[i].id == id)
    && (forall i :: 0 <= i < |list| ==>
         R.Recognised(list[i]) && list[i].id in running && R.Owner(list[i]) == running[list[i].id])
  }

  /** Container names are unique, and the name is made from the owner. */
  ghost predicate OnePerOwner(running: map<ContainerId, Principal>) {
    forall i, j :: i in running && j in running && running[i] == running[j] ==> i == j
  }

  ghost predicate FindsAll(life: Life) {
    life.listing.Some? && Complete(life.listing.value, life.running) && OnePerOwner(life.running)
  }

  /** After a restart an owner's lease is Active on its running container; only an owner without one keeps what the file
      said. So an Active lease names a container that does not run exactly when the file says so and its owner runs
      nothing. */
  lemma RestartHoldsWhatRuns(pt: Durable, life: Life)
    requires FindsAll(life)
    ensures var d0, d := Loaded(pt, life).data, Restarted(pt, life).data;
            && (forall id :: id in life.running ==> Held(d, life.running[id], id))
            && (forall p, id :: Held(d, p, id) && !(id in life.running && life.running[id] == p) <==>
                  Held(d0, p, id) && p !in life.running.Values)
  {
    var list, running := life.listing.value, life.running;
    var s := Loaded(pt, life);
    var d0, d := s.data, Restarted(pt, life).data;
    AttachIsRun(s, list, life.now, life.saves, |list|);
    forall p ensures Find(d.leases, p)
      == (if R.LastOf(list, |list|, p) >= 0 then Some(R.Recovered(list[R.LastOf(list, |list|, p)], life.now))
          else Find(d0.leases, p))
    {
      R.AttachedLease(d0, s.env, list, life.now, life.saves, |list|, p);
    }
    hide RestartOps, RunFrom, R.Attach, R.Recognised;
    forall id | id in running ensures Held(d, running[id], id) {
      var i :| 0 <= i < |list| && list[i].id == id;
      var j := R.LastOf(list, |list|, running[id]);
      assert running[list[j].id] == running[id];
    }
    forall p, id
      ensures Held(d, p, id) && !(id in running && running[id] == p) <==> Held(d0, p, id) && p !in running.Values
    {
      var j := R.LastOf(list, |list|, p);
      assert j >= 0 ==> list[j].id in running && running[list[j].id] == p;
      if p in running.Values {
        var k :| k in running && running[k] == p;
        assert Held(d, p, k);
      }
    }
  }

  /** After any number of lives, each crashed at any instant, a restart that lists everything ends with every running
      container held by its owner's Active lease and every lease settled, whatever its own snapshots do. */
  lemma CrashRecovery(lives: seq<Life>, life: Life)
    requires Possible(lives) && LoadFile(Left(lives).file, life.read).Some? && FindsAll(life)
    ensures var s := Restarted(Left(lives), life);
            && AllVisible(s.data.leases)
            && forall id :: id in life.running ==> Held(s.data, life.running[id], id)
  {
    LivesLeaveVisibleFile(lives);
    RestartHoldsWhatRuns(Left(lives), life);
    RestartIsVisible(Left(lives), life);
    hide Held, AllVisible, RestartOps, Possible;
  }

  lemma RestartIsVisible(pt: Durable, life: Life)
    requires FileVisible(pt.file)
    ensures AllVisible(Restarted(pt, life).data.leases)
  {
    LoadedIsVisible(pt, life);
    if life.listing.Some? {
      UpsertsAreVisible(life.listing.value, life.now, life.saves, |life.listing.value|);
    }
    RunsStayVisible(Loaded(pt, life), RestartOps(life));
  }

  /** Reattachment reaches no runtime. */
  lemma {:induction false} RestartIsQuiet(s: Sys, list: seq<R.DiscoveryContainer>, now: Time,
                                          saves: nat -> SaveAnswer, i: nat)
    requires i <= |list| && Quiet(s.env)
    ensures var t := RunFrom(s, Upserts(list, now, saves, i));
            Quiet(t.env) && t.env.disk.running == s.env.disk.running
  {
    if i > 0 {
      RestartIsQuiet(s, list, now, saves, i - 1);
      if R.Recognised(list[i - 1]) {
        var ops, op := Upserts(list, now, saves, i - 1), Upsert(R.Recovered(list[i - 1], now), saves(i - 1));
        RunFromSnoc(s, ops, op);
        SavingKeepsFates(RunFrom(s, ops).env, Write(RunFrom(s, ops).data, op), op.save);
        hide Env.Save;
      }
    }
  }

  /** What conservation becomes in a later life. The restart opens new books: on them is every container a lease
      holds, among them all that run if the listing was complete, also those an earlier life reported, left over, or
      lost in a crash. From then on each has exactly one fate; and nothing runs that is not held, reported or left
      over. */
  lemma LifeConserves(lives: seq<Life>, life: Life)
    requires Possible(lives) && LoadFile(Left(lives).file, life.read).Some?
    requires var b := Restarted(Left(lives), life);
             && FreshIds(b, life.ops) && GuardedWrites(b, life.ops)
             && forall n :: 0 <= n < |life.ops| ==> Wired(life.ops[n])
    ensures var b := Restarted(Left(lives), life);
            && Conserved(b, Lived(Left(lives), life))
            && (FindsAll(life) ==>
                 && (forall p, id :: !Stray(b, p, id))
                 && forall id :: id in life.running ==> OnBooks(b, b.env, life.running[id], id))
  {
    var pt := Left(lives);
    var b := Restarted(pt, life);
    LivesLeaveVisibleFile(lives);
    RestartIsVisible(pt, life);
    assert Quiet(b.env) && b.env.disk.running == life.running by {
      assert Quiet(Loaded(pt, life).env);
      if life.listing.Some? {
        RestartIsQuiet(Loaded(pt, life), life.listing.value, life.now, life.saves, |life.listing.value|);
      }
    }
    assert Keyed(b.data.leases);
    ContainersAreConserved(b, life.ops);
    hide Conserved, AllVisible, RestartOps, Possible, FreshIds, GuardedWrites, Held, Quiet;
    if FindsAll(life) {
      RestartHoldsWhatRuns(pt, life);
    }
  }

  /** What recovery cannot repair: a crash between the stop and the snapshot of a release leaves the file saying Active
      for a container that is gone, and a restart keeps that lease. */
  lemma CrashAfterStopStrandsLease(s: Sys, a: ReleaseArgs, save: SaveAnswer) returns (k: nat)
    requires a.Applies(s.data.leases) && a.DrainOk() && a.runtime == Some(StopDone)
    requires s.env.disk.file == Whole(s.data) && OnePerOwner(s.env.disk.running)
    requires var id := s.data.leases[a.p].containerID; id in s.env.disk.running && s.env.disk.running[id] == a.p
    ensures var t := FileStep(s, Release(a, save)).0;
            && |s.env.points| <= k < |t.env.points|
            && var pt := t.env.points[k];
               && pt.file == Whole(s.data) && a.p !in pt.running.Values
               && forall life: Life :: life.read == ReadOk && life.running == pt.running && FindsAll(life) ==>
                    Held(Restarted(pt, life).data, a.p, s.data.leases[a.p].containerID)
  {
    k := |s.env.points| + if a.drainer.Some? then 1 else 0;
    var e := a.Calls(s.env, s.data.leases[a.p].containerID);
    assert e.points[k].file == s.env.disk.file;
    SaveIsAtomic(e, FileStep(s, Release(a, save)).0.data, save);
    var pt := e.points[k];
    forall life: Life | life.read == ReadOk && life.running == pt.running && FindsAll(life)
      ensures Held(Restarted(pt, life).data, a.p, s.data.leases[a.p].containerID)
    {
      RestartHoldsWhatRuns(pt, life);
    }
  }

  // --- what a restart keeps of the rest of the state ---

  /** The state without its leases: keys, submissions and problem ids. */
  function Others(d: StoreData): StoreData {
    d.(leases := map[])
  }

  /** One of reattachment's own snapshots was written. */
  ghost predicate Rewrites(list: seq<R.DiscoveryContainer>, saves: nat -> SaveAnswer, i: nat)
    requires i <= |list|
  {
    exists k :: 0 <= k < i && R.Recognised(list[k]) && saves(k) == Saved
  }

  /** Reattachment touches leases only, in memory and in what it writes. */
  lemma {:induction false} AttachKeepsOthers(d: StoreData, e: Env, list: seq<R.DiscoveryContainer>, now: Time,
                                             saves: nat -> SaveAnswer, i: nat)
    requires i <= |list|
    ensures var p := R.Attach(d, e, list, now, saves, i);
            && Others(p.data) == Others(d)
            && (if Rewrites(list, saves, i) then p.env.disk.file.Whole? && Others(p.env.disk.file.data) == Others(d)
                else p.env.disk.file == e.disk.file)
  {
    if i > 0 {
      AttachKeepsOthers(d, e, list, now, saves, i - 1);
      var p, c := R.Attach(d, e, list, now, saves, i - 1), list[i - 1];
      SaveIsAtomic(p.env, p.data.(leases := p.data.leases[R.Owner(c) := R.Recovered(c, now)]), saves(i - 1));
      assert Rewrites(list, saves, i - 1) ==> Rewrites(list, saves, i);
      hide Env.Save, R.Recognised;
    }
  }

  /** What survives a restart, whatever is listed and whatever its own snapshots do. Memory has the keys, submissions
      and problem ids of the snapshot exactly when the snapshot was examined and read, or had none; and the file still
      has them exactly when that holds or reattachment wrote nothing. */
  lemma RestartKeepsOthers(pt: Durable, life: Life)
    requires pt.file.Whole? && LoadFile(pt.file, life.read).Some?
    ensures var s, kept := Restarted(pt, life), Others(pt.file.data);
            && (Others(s.data) == kept <==> life.read == ReadOk || kept == EMPTY_DATA)
            && s.env.disk.file.Whole?
            && (Others(s.env.disk.file.data) == kept <==>
                  || life.read == ReadOk || kept == EMPTY_DATA
                  || life.listing == None || !Rewrites(life.listing.value, life.saves, |life.listing.value|))
  {
    var s := Loaded(pt, life);
    if life.listing.Some? {
      AttachIsRun(s, life.listing.value, life.now, life.saves, |life.listing.value|);
      AttachKeepsOthers(s.data, s.env, life.listing.value, life.now, life.saves, |life.listing.value|);
    }
    hide R.Attach, Upserts, RunFrom, Rewrites;
  }

  /** So a snapshot is not safe from a failing stat: whatever is listed, the new life starts without keys, submissions
      and problem ids, and the first key it registers is the only one in the file. */
  lemma FailedStatForgets(pt: Durable, life: Life, p: Principal, key: string)
    requires life.read == StatFailed
    ensures Others(Restarted(pt, life).data) == EMPTY_DATA
    ensures FileStep(Restarted(pt, life), Op.RegisterKey(p, key, Saved)).0.env.disk.file
         == Whole(Restarted(pt, life).data.(keys := map[p := key]))
  {
    var s := Loaded(pt, life);
    if life.listing.Some? {
      AttachIsRun(s, life.listing.value, life.now, life.saves, |life.listing.value|);
      AttachKeepsOthers(s.data, s.env, life.listing.value, life.now, life.saves, |life.listing.value|);
    }
    hide R.Attach, Upserts, RunFrom, Rewrites;
  }
}
