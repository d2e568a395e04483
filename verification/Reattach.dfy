/** Startup reattachment, pkg/controller/reattach.go. */
module Reattach {
  import opened Wrappers
  import opened LeaseModel
  import opened Environment
  import opened Lease
  import opened StoreTypes
  import opened Operations
  import opened FileStores
  import opened Separators

  type Labels = map<string, string>

  const OWNER := "platform.io/owner"
  const COURSE := "platform.io/course"
  const PROBLEM := "platform.io/problem"

  datatype DiscoveryContainer = DiscoveryContainer(
    id: ContainerId, name: string, host: string, port: nat, labels: Labels)

  /** A volume (removed by name) or a network (removed by id). */
  datatype Resource = Resource(name: string, handle: string, labels: Labels)

  datatype Removal = Removal(handle: string, ok: bool)

  /** What the runtime lists; None: the listing failed. `cleaner`: the client can remove resources. */
  datatype Discovery = Discovery(
    containers: Option<seq<DiscoveryContainer>>, volumes: Option<seq<Resource>>, networks: Option<seq<Resource>>,
    cleaner: bool)

  datatype ReattachResult = ReattachResult(
    reattached: nat, orphaned: nat, orphanVolumes: nat, orphanNetworks: nat, reclaimedVolumes: nat, reclaimedNets: nat)

  function Label(labels: Labels, key: string): string {
    if key in labels then labels[key] else ""
  }

  predicate FullyLabelled(labels: Labels) {
    Label(labels, OWNER) != "" && Label(labels, COURSE) != "" && Label(labels, PROBLEM) != ""
  }

  predicate Svc(name: string) {
    "svc-" <= name
  }

  predicate Recognised(c: DiscoveryContainer) {
    FullyLabelled(c.labels) && Svc(c.name)
  }

  function Owner(c: DiscoveryContainer): Principal {
    Label(c.labels, OWNER)
  }

  /** owner/course/problem, the key containers and resources are matched on. */
  function ServiceKey(labels: Labels): string {
    Label(labels, OWNER) + ("/" + (Label(labels, COURSE) + ("/" + Label(labels, PROBLEM))))
  }

  predicate SameLabels(a: Labels, b: Labels) {
    && Label(a, OWNER) == Label(b, OWNER)
    && Label(a, COURSE) == Label(b, COURSE)
    && Label(a, PROBLEM) == Label(b, PROBLEM)
  }

  function Recovered(c: DiscoveryContainer, now: Time): Record {
    NewRecord(Owner(c), c.id, c.name, c.host, c.port, 8 * HOUR, 30 * MINUTE, now)
  }

  datatype Progress = Progress(data: StoreData, env: Env, reattached: nat, orphaned: nat, active: set<string>)

  /** The first loop after `i` containers; `saves(k)` is the answer to the snapshot after container k. */
  ghost function Attach(d: StoreData, e: Env, list: seq<DiscoveryContainer>, now: Time, saves: nat -> SaveAnswer,
                        i: nat): Progress
    requires i <= |list|
  {
    if i == 0 then Progress(d, e, 0, 0, {})
    else
      var p, c := Attach(d, e, list, now, saves, i - 1), list[i - 1];
      if !Recognised(c) then p.(orphaned := p.orphaned + 1)
      else
        var d' := p.data.(leases := p.data.leases[Owner(c) := Recovered(c, now)]);
        Progress(d', p.env.Save(d', saves(i - 1)), if saves(i - 1) == Saved then p.reattached + 1 else p.reattached,
                 p.orphaned, p.active + {ServiceKey(c.labels)})
  }

  predicate Orphan(r: Resource, active: set<string>) {
    Svc(r.name) && (!FullyLabelled(r.labels) || ServiceKey(r.labels) !in active)
  }

  function Orphans(list: seq<Resource>, active: set<string>): seq<Resource> {
    if list == [] then []
    else
      Orphans(list[..|list| - 1], active) + if Orphan(list[|list| - 1], active) then [list[|list| - 1]] else []
  }

  function Successes(log: seq<Removal>): nat {
    if log == [] then 0 else Successes(log[..|log| - 1]) + if log[|log| - 1].ok then 1 else 0
  }

  /** The outcome of sweeping one listing; a listing that failed sweeps nothing. */
  ghost predicate Swept(list: Option<seq<Resource>>, active: set<string>, cleaner: bool, answers: nat -> bool,
                        orphans: nat, reclaimed: nat, log: seq<Removal>)
  {
    match list
    case None => orphans == 0 && reclaimed == 0 && log == []
    case Some(rs) =>
      && orphans == |Orphans(rs, active)| && |log| == (if cleaner then orphans else 0)
      && (forall k :: 0 <= k < |log| ==> log[k] == Removal(Orphans(rs, active)[k].handle, answers(k)))
      && reclaimed == Successes(log)
  }

  lemma OneMoreResource(list: seq<Resource>, i: nat, active: set<string>)
    requires i < |list|
    ensures Orphans(list[..i + 1], active)
            == Orphans(list[..i], active) + if Orphan(list[i], active) then [list[i]] else []
  {
    assert list[..i + 1][..i] == list[..i];
  }

  /** The second and third loop: counts the orphans in the list and, with a cleaner, asks for each to be removed. */
  method ReclaimOrphans(list: seq<Resource>, active: set<string>, cleaner: bool, answers: nat -> bool)
    returns (orphans: nat, reclaimed: nat, log: seq<Removal>)
    ensures orphans == |Orphans(list, active)|
    ensures |log| == if cleaner then orphans else 0
    ensures forall k :: 0 <= k < |log| ==> log[k] == Removal(Orphans(list, active)[k].handle, answers(k))
    ensures reclaimed == Successes(log)
  {
    orphans, reclaimed, log := 0, 0, [];
    assert Orphans(list[..0], active) == [];
    hide Orphans, FullyLabelled, ServiceKey, Svc;
    for i := 0 to |list|
      invariant orphans == |Orphans(list[..i], active)|
      invariant |log| == if cleaner then orphans else 0
      invariant forall k :: 0 <= k < |log| ==> log[k] == Removal(Orphans(list[..i], active)[k].handle, answers(k))
      invariant reclaimed == Successes(log)
    {
      OneMoreResource(list, i, active);
      var r := list[i];
      if !Svc(r.name) {
        continue;
      }
      if !FullyLabelled(r.labels) || ServiceKey(r.labels) !in active {
        orphans := orphans + 1;
        if cleaner {
          var ok := answers(|log|);
          assert (log + [Removal(r.handle, ok)])[..|log|] == log;
          log := log + [Removal(r.handle, ok)];
          if ok {
            reclaimed := reclaimed + 1;
          }
        }
      }
    }
    assert list[..|list|] == list;
  }

  /** The first loop. */
  method AttachContainers(store: FileStore, e: Env, list: seq<DiscoveryContainer>, now: Time, saves: nat -> SaveAnswer)
    returns (e': Env, reattached: nat, orphaned: nat, active: set<string>)
    requires store.table.Valid()
    modifies store.table
    ensures store.table.Valid()
    ensures Progress(store.Data(), e', reattached, orphaned, active)
         == Attach(old(store.Data()), e, list, now, saves, |list|)
  {
    e', reattached, orphaned, active := e, 0, 0, {};
    ghost var d := store.Data();
    for i := 0 to |list|
      invariant store.table.Valid()
      invariant Progress(store.Data(), e', reattached, orphaned, active) == Attach(d, e, list, now, saves, i)
    {
      var c := list[i];
      if !Recognised(c) {
        orphaned := orphaned + 1;
        continue;
      }
      active := active + {ServiceKey(c.labels)};
      var l := new Lease.Copy(Recovered(c, now), None);
      var saved;
      e', saved := store.UpsertLease(e', l, saves(i));
      if !saved {
        continue;
      }
      reattached := reattached + 1;
    }
  }

  /** `ReattachLeases`: an error without a client or a container list; otherwise the three loops. */
  method ReattachLeases(store: FileStore, e: Env, client: Option<Discovery>, now: Time, saves: nat -> SaveAnswer,
                        volumeAnswers: nat -> bool, networkAnswers: nat -> bool)
    returns (e': Env, r: Option<ReattachResult>, volumeLog: seq<Removal>, networkLog: seq<Removal>)
    requires store.table.Valid()
    modifies store.table
    ensures store.table.Valid()
    ensures r.Some? <==> client.Some? && client.value.containers.Some?
    ensures r == None ==> store.Data() == old(store.Data()) && e' == e && volumeLog == [] && networkLog == []
    ensures r.Some? ==>
              var list := client.value.containers.value;
              var p := Attach(old(store.Data()), e, list, now, saves, |list|);
              && store.Data() == p.data && e' == p.env
              && r.value.reattached == p.reattached && r.value.orphaned == p.orphaned
              && Swept(client.value.volumes, p.active, client.value.cleaner, volumeAnswers,
                       r.value.orphanVolumes, r.value.reclaimedVolumes, volumeLog)
              && Swept(client.value.networks, p.active, client.value.cleaner, networkAnswers,
                       r.value.orphanNetworks, r.value.reclaimedNets, networkLog)
  {
    e', r, volumeLog, networkLog := e, None, [], [];
    if client == None || client.value.containers == None {
      return;
    }
    var active;
    var result := ReattachResult(0, 0, 0, 0, 0, 0);
    var reattached, orphaned;
    e', reattached, orphaned, active := AttachContainers(store, e, client.value.containers.value, now, saves);
    var volumes, reclaimedVolumes, networks, reclaimedNets := 0, 0, 0, 0;
    if client.value.volumes.Some? {
      volumes, reclaimedVolumes, volumeLog :=
        ReclaimOrphans(client.value.volumes.value, active, client.value.cleaner, volumeAnswers);
    }
    if client.value.networks.Some? {
      networks, reclaimedNets, networkLog :=
        ReclaimOrphans(client.value.networks.value, active, client.value.cleaner, networkAnswers);
    }
    r := Some(ReattachResult(reattached, orphaned, volumes, networks, reclaimedVolumes, reclaimedNets));
  }

  /** The position of the last recognised container of `o` among the first `i`, or -1. */
  function LastOf(list: seq<DiscoveryContainer>, i: nat, o: Principal): (j: int)
    requires i <= |list|
    ensures -1 <= j < i
    ensures j >= 0 ==> Recognised(list[j]) && Owner(list[j]) == o
    ensures forall k :: j < k < i ==> !(Recognised(list[k]) && Owner(list[k]) == o)
  {
    if i == 0 then -1
    else if Recognised(list[i - 1]) && Owner(list[i - 1]) == o then i - 1
    else LastOf(list, i - 1, o)
  }

  /** An owner's lease after the first loop, and what the loop leaves alone. */
  lemma {:induction false} AttachedLease(d: StoreData, e: Env, list: seq<DiscoveryContainer>, now: Time,
                                         saves: nat -> SaveAnswer, i: nat, o: Principal)
    requires i <= |list|
    ensures var p := Attach(d, e, list, now, saves, i);
            var j := LastOf(list, i, o);
            && Find(p.data.leases, o) == (if j >= 0 then Some(Recovered(list[j], now)) else Find(d.leases, o))
            && p.data == d.(leases := p.data.leases)
            && p.env.disk.running == e.disk.running
  {
    if i > 0 {
      AttachedLease(d, e, list, now, saves, i - 1, o);
    }
  }

  predicate HasLabel(labels: Labels, key: string) {
    key in labels && labels[key] != ""
  }

  /** The container is a service of `o`: named so, and with all three labels. */
  predicate Serves(c: DiscoveryContainer, o: Principal) {
    && |c.name| >= 4 && c.name[..4] == "svc-"
    && HasLabel(c.labels, "platform.io/owner") && c.labels["platform.io/owner"] == o
    && HasLabel(c.labels, "platform.io/course") && HasLabel(c.labels, "platform.io/problem")
  }

  lemma RecognisedServes(c: DiscoveryContainer, o: Principal)
    ensures Serves(c, o) <==> Recognised(c) && Owner(c) == o
  {
  }

  /** The lease of `o` is Active on the container, field by field, with 8 hours to live and 30 minutes to idle, in
      nanoseconds. */
  predicate RunsOn(l: Record, o: Principal, c: DiscoveryContainer, now: Time) {
    && l.owner == o && l.containerID == c.id && l.containerName == c.name && l.host == c.host && l.port == c.port
    && l.startedAt == now && l.deadlineAt == now + 28_800_000_000_000
    && l.idleTimeout == 1_800_000_000_000 && l.lastSeenAt == now && l.channels == 0
    && l.state == Active && l.releasedBy == None && l.releasedAt == 0
  }

  predicate EndsOn(leases: map<Principal, Record>, o: Principal, c: DiscoveryContainer, now: Time) {
    o in leases && RunsOn(leases[o], o, c, now)
  }

  predicate SameLease(a: map<Principal, Record>, b: map<Principal, Record>, o: Principal) {
    if o in b then o in a && a[o] == b[o] else o !in a
  }

  /** For any list and any snapshot failures: every owner of a listed service ends Active on the last one listed; every
      other lease is untouched, and nothing but leases changes. */
  lemma LastContainerWins(d: StoreData, e: Env, list: seq<DiscoveryContainer>, now: Time, saves: nat -> SaveAnswer,
                          o: Principal)
    ensures var d' := Attach(d, e, list, now, saves, |list|).data;
            && d' == d.(leases := d'.leases)
            && (forall j :: 0 <= j < |list| && Serves(list[j], o)
                            && (forall k :: j < k < |list| ==> !Serves(list[k], o)) ==>
                  EndsOn(d'.leases, o, list[j], now))
            && ((forall k :: 0 <= k < |list| ==> !Serves(list[k], o)) ==> SameLease(d'.leases, d.leases, o))
  {
    AttachedLease(d, e, list, now, saves, |list|, o);
    forall k | 0 <= k < |list| ensures Serves(list[k], o) <==> Recognised(list[k]) && Owner(list[k]) == o {
      RecognisedServes(list[k], o);
    }
    hide Attach, Recognised, Serves, Owner;
  }

  function Positions(i: nat, f: nat -> bool): set<nat> {
    set k: nat | k < i && f(k)
  }

  lemma OnePositionMore(i: nat, f: nat -> bool)
    ensures |Positions(0, f)| == 0 && |Positions(i + 1, f)| == |Positions(i, f)| + if f(i) then 1 else 0
  {
    assert Positions(0, f) == {};
    if f(i) {
      assert Positions(i + 1, f) == Positions(i, f) + {i} && i !in Positions(i, f);
    } else {
      assert Positions(i + 1, f) == Positions(i, f);
    }
  }

  /** Whether the container is recognised and its snapshot was, or was not, written; whether it is not recognised. */
  function Upserted(list: seq<DiscoveryContainer>, saves: nat -> SaveAnswer, saved: bool): nat -> bool {
    (k: nat) => k < |list| && Recognised(list[k]) && (saves(k) == Saved) == saved
  }

  function Unrecognised(list: seq<DiscoveryContainer>): nat -> bool {
    (k: nat) => k < |list| && !Recognised(list[k])
  }

  /** Each container listed is counted exactly once: reattached, orphaned, or a failed upsert. */
  lemma {:induction false} EveryContainerIsCounted(d: StoreData, e: Env, list: seq<DiscoveryContainer>, now: Time,
                                                   saves: nat -> SaveAnswer, i: nat)
    requires i <= |list|
    ensures var p := Attach(d, e, list, now, saves, i);
            && p.reattached == |Positions(i, Upserted(list, saves, true))|
            && p.orphaned == |Positions(i, Unrecognised(list))|
            && p.reattached + p.orphaned + |Positions(i, Upserted(list, saves, false))| == i
  {
    hide Recognised, Recovered, Env.Save, ServiceKey, Positions;
    var n := if i > 0 then i - 1 else 0;
    OnePositionMore(n, Upserted(list, saves, true));
    OnePositionMore(n, Upserted(list, saves, false));
    OnePositionMore(n, Unrecognised(list));
    if i > 0 {
      EveryContainerIsCounted(d, e, list, now, saves, i - 1);
    }
  }

  /** Even a container whose upsert failed protects the resources that carry its labels. */
  lemma {:induction false} ActiveKeys(d: StoreData, e: Env, list: seq<DiscoveryContainer>, now: Time,
                                      saves: nat -> SaveAnswer, i: nat, key: string)
    requires i <= |list|
    ensures key in Attach(d, e, list, now, saves, i).active
       <==> exists k :: 0 <= k < i && Recognised(list[k]) && ServiceKey(list[k].labels) == key
  {
    if i > 0 {
      ActiveKeys(d, e, list, now, saves, i - 1, key);
    }
  }

  /** Each orphan occurs as often as it is listed. */
  lemma {:induction false} OrphansAreCounted(list: seq<Resource>, active: set<string>, r: Resource)
    ensures multiset(Orphans(list, active))[r] == if Orphan(r, active) then multiset(list)[r] else 0
  {
    if list != [] {
      OrphansAreCounted(list[..|list| - 1], active, r);
      assert list == list[..|list| - 1] + [list[|list| - 1]];
      hide Orphan;
    }
  }

  /** And in the order of the list. */
  lemma {:induction false} OrphansKeepOrder(a: seq<Resource>, b: seq<Resource>, active: set<string>)
    ensures Orphans(a + b, active) == Orphans(a, active) + Orphans(b, active)
  {
    if b == [] {
      assert a + b == a;
    } else {
      OrphansKeepOrder(a, b[..|b| - 1], active);
      assert (a + b)[..|a + b| - 1] == a + b[..|b| - 1];
    }
  }

  /** What is counted as reclaimed are the removals that worked. */
  lemma {:induction false} SuccessesAreCounted(log: seq<Removal>, n: nat)
    requires n <= |log|
    ensures Successes(log[..n]) == |Positions(n, (k: nat) => k < |log| && log[k].ok)|
  {
    hide Positions;
    OnePositionMore(if n > 0 then n - 1 else 0, (k: nat) => k < |log| && log[k].ok);
    if n > 0 {
      SuccessesAreCounted(log, n - 1);
      assert log[..n][..n - 1] == log[..n - 1];
    }
  }

  lemma {:induction false} OrphansAreListed(list: seq<Resource>, active: set<string>, r: Resource)
    ensures r in Orphans(list, active) <==> r in list && Orphan(r, active)
  {
    if list != [] {
      OrphansAreListed(list[..|list| - 1], active, r);
      assert list == list[..|list| - 1] + [list[|list| - 1]];
    }
  }

  /** A resource is counted as an orphan, and asked to be removed, exactly when its name has the prefix and its labels
      are incomplete or their joined key is no recognised container's. So a resource without the prefix, or whose
      three labels are those of a recognised container, is never touched. */
  lemma OnlyOrphansAreTouched(d: StoreData, e: Env, list: seq<DiscoveryContainer>, now: Time, saves: nat -> SaveAnswer,
                              resources: seq<Resource>, r: Resource)
    ensures var touched := r in Orphans(resources, Attach(d, e, list, now, saves, |list|).active);
            && (touched <==>
                 && r in resources && Svc(r.name)
                 && (FullyLabelled(r.labels) ==>
                      forall k :: 0 <= k < |list| && Recognised(list[k]) ==>
                        ServiceKey(list[k].labels) != ServiceKey(r.labels)))
            && ((exists k :: 0 <= k < |list| && Recognised(list[k]) && SameLabels(list[k].labels, r.labels)) ==>
                 !touched)
  {
    var active := Attach(d, e, list, now, saves, |list|).active;
    OrphansAreListed(resources, active, r);
    ActiveKeys(d, e, list, now, saves, |list|, ServiceKey(r.labels));
  }

  /** The joined key identifies the three labels when owner and course avoid the slash. */
  lemma ServiceKeyIdentifies(a: Labels, b: Labels)
    requires '/' !in Label(a, OWNER) && '/' !in Label(a, COURSE) && '/' !in Label(b, OWNER) && '/' !in Label(b, COURSE)
    ensures ServiceKey(a) == ServiceKey(b) <==> SameLabels(a, b)
  {
    if ServiceKey(a) == ServiceKey(b) {
      var restA := Label(a, COURSE) + ("/" + Label(a, PROBLEM));
      var restB := Label(b, COURSE) + ("/" + Label(b, PROBLEM));
      assert ServiceKey(a) == Label(a, OWNER) + ['/'] + restA && ServiceKey(b) == Label(b, OWNER) + ['/'] + restB;
      FirstSeparator(Label(a, OWNER), restA, Label(b, OWNER), restB, '/');
      assert restA == Label(a, COURSE) + ['/'] + Label(a, PROBLEM);
      assert restB == Label(b, COURSE) + ['/'] + Label(b, PROBLEM);
      FirstSeparator(Label(a, COURSE), Label(a, PROBLEM), Label(b, COURSE), Label(b, PROBLEM), '/');
    }
  }

  // --- which resources the joined key mistakes for another service's ---

  function Labelled(owner: string, course: string, problem: string): Labels {
    map[OWNER := owner, COURSE := course, PROBLEM := problem]
  }

  lemma LabelledAs(owner: string, course: string, problem: string)
    ensures var l := Labelled(owner, course, problem);
            Label(l, OWNER) == owner && Label(l, COURSE) == course && Label(l, PROBLEM) == problem
  {
    assert |OWNER| == 17 && |COURSE| == 18 && |PROBLEM| == 19;
  }

  /** A full set of labels shares its key with a different full set exactly when a slash stands at one of those
      places. */
  lemma KeyIsShared(a: Labels)
    requires FullyLabelled(a)
    ensures (exists b: Labels :: FullyLabelled(b) && ServiceKey(b) == ServiceKey(a) && !SameLabels(a, b))
            <==> Shared('/', Label(a, OWNER), Label(a, COURSE), Label(a, PROBLEM))
  {
    var o, c, p := Label(a, OWNER), Label(a, COURSE), Label(a, PROBLEM);
    if Shared('/', o, c, p) {
      var o', c', p' := SeparatorShares('/', o, c, p);
      LabelledAs(o', c', p');
      assert !SameLabels(a, Labelled(o', c', p'));
    }
    forall b: Labels | FullyLabelled(b) && ServiceKey(b) == ServiceKey(a) && !SameLabels(a, b)
      ensures Shared('/', o, c, p)
    {
      SharedHasSeparator('/', o, c, p, Label(b, OWNER), Label(b, COURSE), Label(b, PROBLEM));
    }
  }

  /** For the same owner: when the course has a slash after its first character or the problem one before its last. */
  lemma KeyIsSharedByOwner(a: Labels)
    requires FullyLabelled(a)
    ensures (exists b: Labels ::
               && FullyLabelled(b) && Label(b, OWNER) == Label(a, OWNER)
               && ServiceKey(b) == ServiceKey(a) && !SameLabels(a, b))
            <==> Stands('/', Label(a, COURSE), 1, |Label(a, COURSE)|)
                 || Stands('/', Label(a, PROBLEM), 0, |Label(a, PROBLEM)| - 1)
  {
    var o, c, p := Label(a, OWNER), Label(a, COURSE), Label(a, PROBLEM);
    if Stands('/', c, 1, |c|) {
      var k :| 1 <= k < |c| && c[k] == '/';
      assert c == c[..k] + "/" + c[k + 1..];
      SameOwnerKey(a, c[..k], c[k + 1..] + "/" + p);
    } else if Stands('/', p, 0, |p| - 1) {
      var k :| 0 <= k < |p| && k < |p| - 1 && p[k] == '/';
      assert p == p[..k] + "/" + p[k + 1..];
      SameOwnerKey(a, c + "/" + p[..k], p[k + 1..]);
    }
    forall b: Labels | FullyLabelled(b) && Label(b, OWNER) == o && ServiceKey(b) == ServiceKey(a) && !SameLabels(a, b)
      ensures Stands('/', c, 1, |c|) || Stands('/', p, 0, |p| - 1)
    {
      var c', p' := Label(b, COURSE), Label(b, PROBLEM);
      JoinedAt('/', o, c, p);
      JoinedAt('/', o, c', p');
      var k := Joined('/', o, c, p);
      assert k == Joined('/', o, c', p');
      if |c'| < |c| {
        assert c[|c'|] == k[|o| + 1 + |c'|] == '/';
      } else if |c'| > |c| {
        assert p[|c'| - |c| - 1] == k[|o| + 1 + |c'|] == '/';
      }
      SameLengths('/', o, c, p, o, c', p');
    }
  }

  lemma SameOwnerKey(a: Labels, course: string, problem: string)
    requires FullyLabelled(a) && course != "" && problem != "" && course != Label(a, COURSE)
    requires course + "/" + problem == Label(a, COURSE) + "/" + Label(a, PROBLEM)
    ensures exists b: Labels ::
              && FullyLabelled(b) && Label(b, OWNER) == Label(a, OWNER)
              && ServiceKey(b) == ServiceKey(a) && !SameLabels(a, b)
  {
    var b := Labelled(Label(a, OWNER), course, problem);
    LabelledAs(Label(a, OWNER), course, problem);
    assert course + ("/" + problem) == course + "/" + problem;
    assert Label(a, COURSE) + ("/" + Label(a, PROBLEM)) == Label(a, COURSE) + "/" + Label(a, PROBLEM);
    assert FullyLabelled(b) && ServiceKey(b) == ServiceKey(a) && !SameLabels(a, b);
  }

  /** Owners the controller makes containers for have no slash. With those a set of labels shares its key when its own
      owner has a slash, not as its first character, or else as within one owner. */
  predicate SharedWithPlain(owner: string, course: string, problem: string) {
    if '/' in owner then owner[0] != '/'
    else Stands('/', course, 1, |course|) || Stands('/', problem, 0, |problem| - 1)
  }

  lemma {:induction false} FirstSlash(s: string) returns (k: nat)
    requires '/' in s
    ensures k < |s| && s[k] == '/' && '/' !in s[..k]
  {
    k := 0;
    if s[0] != '/' {
      assert s == [s[0]] + s[1..];
      k := FirstSlash(s[1..]);
      k := k + 1;
      assert s[..k] == [s[0]] + s[1..][..k - 1];
    }
  }

  lemma OwnSlashShares(a: Labels) returns (b: Labels)
    requires FullyLabelled(a) && '/' in Label(a, OWNER) && Label(a, OWNER)[0] != '/'
    ensures FullyLabelled(b) && '/' !in Label(b, OWNER) && ServiceKey(b) == ServiceKey(a) && !SameLabels(a, b)
  {
    var o, c, p := Label(a, OWNER), Label(a, COURSE), Label(a, PROBLEM);
    var k := FirstSlash(o);
    SeparatorCuts('/', o, k);
    CutMoves('/', o[..k], o[k + 1..], c + ("/" + p));
    CutMoves('/', o[k + 1..], c, p);
    b := Labelled(o[..k], o[k + 1..] + "/" + c, p);
    LabelledAs(o[..k], o[k + 1..] + "/" + c, p);
  }

  /** A key shared with an owner without a slash: the own owner is that one, or has a slash after its first
      character. */
  lemma PlainOwnerOfKey(o: string, rest: string, o': string, rest': string)
    requires o != "" && o' != "" && '/' !in o' && o + ("/" + rest) == o' + ("/" + rest')
    ensures if '/' in o then o[0] != '/' else o == o'
  {
    var k := o + ("/" + rest);
    assert k == o + ['/'] + rest && k == o' + ['/'] + rest';
    assert k[0] == o[0] && k[0] == o'[0];
    if '/' !in o {
      FirstSeparator(o, rest, o', rest', '/');
    }
  }

  lemma KeyIsSharedWithPlain(a: Labels)
    requires FullyLabelled(a)
    ensures (exists b: Labels ::
               FullyLabelled(b) && '/' !in Label(b, OWNER) && ServiceKey(b) == ServiceKey(a) && !SameLabels(a, b))
            <==> SharedWithPlain(Label(a, OWNER), Label(a, COURSE), Label(a, PROBLEM))
  {
    hide Stands, SameLabels;
    var o, c, p := Label(a, OWNER), Label(a, COURSE), Label(a, PROBLEM);
    KeyIsSharedByOwner(a);
    if '/' in o && o[0] != '/' {
      var b := OwnSlashShares(a);
    }
    forall b: Labels | && FullyLabelled(b) && '/' !in Label(b, OWNER)
                       && ServiceKey(b) == ServiceKey(a) && !SameLabels(a, b)
      ensures SharedWithPlain(o, c, p)
    {
      PlainOwnerOfKey(o, c + ("/" + p), Label(b, OWNER), Label(b, COURSE) + ("/" + Label(b, PROBLEM)));
    }
    hide Label, ServiceKey;
  }

  /** A resource is left alone exactly when some recognised container carries its labels. */
  ghost predicate SweptExactly(d: StoreData, e: Env, list: seq<DiscoveryContainer>, now: Time, saves: nat -> SaveAnswer,
                               r: Resource)
  {
    r in Orphans([r], Attach(d, e, list, now, saves, |list|).active)
    <==> forall k :: 0 <= k < |list| && Recognised(list[k]) ==> !SameLabels(list[k].labels, r.labels)
  }

  /** That is so for every listing if and only if no other labels share its key. */
  lemma SweepIsExact(d: StoreData, e: Env, now: Time, saves: nat -> SaveAnswer, r: Resource)
    requires Svc(r.name) && FullyLabelled(r.labels)
    ensures (forall list :: SweptExactly(d, e, list, now, saves, r))
            <==> !Shared('/', Label(r.labels, OWNER), Label(r.labels, COURSE), Label(r.labels, PROBLEM))
  {
    hide Shared, Attach, Orphans, Svc, ServiceKey, SameLabels, FullyLabelled, Recognised, SweptExactly;
    KeyIsShared(r.labels);
    if Shared('/', Label(r.labels, OWNER), Label(r.labels, COURSE), Label(r.labels, PROBLEM)) {
      var b: Labels :| FullyLabelled(b) && ServiceKey(b) == ServiceKey(r.labels) && !SameLabels(r.labels, b);
      var list := OrphanIsKept(d, e, now, saves, r, b);
    } else {
      forall list ensures SweptExactly(d, e, list, now, saves, r) {
        RecognisedIsFull(list);
        OwnKeyIsSwept(d, e, list, now, saves, r);
      }
    }
  }

  /** The owners of the recognised containers are such as the controller makes containers for. */
  predicate PlainOwners(list: seq<DiscoveryContainer>) {
    forall k :: 0 <= k < |list| && Recognised(list[k]) ==> '/' !in Owner(list[k])
  }

  /** And for every listing of containers whose owners have no slash, if and only if no such labels do. */
  lemma PlainSweepIsExact(d: StoreData, e: Env, now: Time, saves: nat -> SaveAnswer, r: Resource)
    requires Svc(r.name) && FullyLabelled(r.labels)
    ensures (forall list :: PlainOwners(list) ==> SweptExactly(d, e, list, now, saves, r))
            <==> !SharedWithPlain(Label(r.labels, OWNER), Label(r.labels, COURSE), Label(r.labels, PROBLEM))
  {
    hide SharedWithPlain, Attach, Orphans, Svc, ServiceKey, SameLabels, FullyLabelled, Recognised, SweptExactly;
    KeyIsSharedWithPlain(r.labels);
    if SharedWithPlain(Label(r.labels, OWNER), Label(r.labels, COURSE), Label(r.labels, PROBLEM)) {
      var b: Labels :| FullyLabelled(b) && '/' !in Label(b, OWNER) && ServiceKey(b) == ServiceKey(r.labels)
                       && !SameLabels(r.labels, b);
      var list := OrphanIsKept(d, e, now, saves, r, b);
      assert PlainOwners(list);
    } else {
      forall list | PlainOwners(list) ensures SweptExactly(d, e, list, now, saves, r) {
        RecognisedIsFull(list);
        OwnKeyIsSwept(d, e, list, now, saves, r);
      }
    }
  }

  lemma RecognisedIsFull(list: seq<DiscoveryContainer>)
    ensures forall k :: 0 <= k < |list| && Recognised(list[k]) ==> FullyLabelled(list[k].labels)
  {
  }

  lemma OwnKeyIsSwept(d: StoreData, e: Env, list: seq<DiscoveryContainer>, now: Time, saves: nat -> SaveAnswer,
                      r: Resource)
    requires Svc(r.name) && FullyLabelled(r.labels)
    requires forall k :: 0 <= k < |list| && Recognised(list[k]) ==>
               ServiceKey(list[k].labels) == ServiceKey(r.labels) ==> SameLabels(r.labels, list[k].labels)
    ensures SweptExactly(d, e, list, now, saves, r)
  {
    OnlyOrphansAreTouched(d, e, list, now, saves, [r], r);
    hide Attach, Orphans, Svc, ServiceKey, SameLabels, FullyLabelled, Recognised;
    forall k | 0 <= k < |list| && Recognised(list[k])
      ensures ServiceKey(list[k].labels) == ServiceKey(r.labels) <==> SameLabels(list[k].labels, r.labels)
    {
      SameKeyOrShared(list[k], r);
    }
  }

  lemma SameKeyOrShared(c: DiscoveryContainer, r: Resource)
    requires Recognised(c)
    ensures SameLabels(c.labels, r.labels) ==> ServiceKey(c.labels) == ServiceKey(r.labels)
    ensures FullyLabelled(c.labels) && (SameLabels(c.labels, r.labels) <==> SameLabels(r.labels, c.labels))
  {
  }

  /** An orphan volume or network of a service stays because a container of another service has its key. */
  lemma OrphanIsKept(d: StoreData, e: Env, now: Time, saves: nat -> SaveAnswer, r: Resource, b: Labels)
    returns (list: seq<DiscoveryContainer>)
    requires Svc(r.name) && FullyLabelled(r.labels) && FullyLabelled(b)
    requires ServiceKey(b) == ServiceKey(r.labels) && !SameLabels(r.labels, b)
    ensures |list| == 1 && Recognised(list[0]) && list[0].labels == b && !SameLabels(list[0].labels, r.labels)
    ensures r !in Orphans([r], Attach(d, e, list, now, saves, |list|).active)
    ensures !SweptExactly(d, e, list, now, saves, r)
  {
    list := [DiscoveryContainer("id", "svc-" + Label(b, OWNER), "", 0, b)];
    assert Recognised(list[0]);
    OnlyOrphansAreTouched(d, e, list, now, saves, [r], r);
  }

  /** The volume of the service u, c/d, p survives although only a container of u, c, d/p runs. */
  lemma SlashedCourseIsAmbiguous(d: StoreData, e: Env, now: Time, saves: nat -> SaveAnswer)
    ensures var volume := Resource("svc-u", "svc-u", Labelled("u", "c/d", "p"));
            var container := DiscoveryContainer("id", "svc-u", "", 0, Labelled("u", "c", "d/p"));
            && FullyLabelled(volume.labels) && Recognised(container) && !SameLabels(container.labels, volume.labels)
            && volume !in Orphans([volume], Attach(d, e, [container], now, saves, 1).active)
  {
    LabelledAs("u", "c/d", "p");
    LabelledAs("u", "c", "d/p");
    var volume := Resource("svc-u", "svc-u", Labelled("u", "c/d", "p"));
    var container := DiscoveryContainer("id", "svc-u", "", 0, Labelled("u", "c", "d/p"));
    assert "c/d" != "c";
    assert ServiceKey(volume.labels) == "u/c/d/p" == ServiceKey(container.labels);
    assert Recognised([container][0]);
    OnlyOrphansAreTouched(d, e, [container], now, saves, [volume], volume);
  }
}
