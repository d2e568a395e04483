/** What the two stores have in common: their errors and the arguments of a release and of a create. */
module StoreTypes {
  import opened Wrappers
  import opened LeaseModel
  import opened Environment
  import opened Lease

  datatype StoreError =
    | Conflict(state: ReleaseState)
    | NotApplicable
    | ReleaseFailed(step: StepError)
    | ReleaseAndSaveFailed(step: StepError, save: SaveAnswer)
    | RuntimeFailed
    | SaveFailed(save: SaveAnswer)
    | SaveAndCleanupFailed(save: SaveAnswer)

  /** A release attempt: who asks, when, the condition re-checked under the lock, and what the bastion and the runtime
      answer (None: not wired). */
  datatype ReleaseArgs = ReleaseArgs(
    p: Principal, trigger: Trigger, now: Time, shouldRelease: Record -> bool, drainer: Option<bool>,
    runtime: Option<StopAnswer>)
  {
    function ToCallback(id: ContainerId): Callback {
      Callback(p, id, drainer, runtime)
    }

    predicate DrainOk() {
      drainer != Some(false)
    }

    predicate StopOk() {
      runtime.Some? ==> runtime.value.StopDone?
    }

    /** The environment after the calls one attempt makes: a drain, and a stop only if the drain did not fail. */
    function Calls(e: Env, id: ContainerId): Env {
      var e1 := if drainer.Some? then e.DrainChannels(p, drainer.value) else e;
      if DrainOk() && runtime.Some? then e1.StopService(ForRelease, p, id, runtime.value) else e1
    }

    /** The step an attempt fails at, if it fails. */
    function Failure(): Option<StepError> {
      if !DrainOk() then Some(CallbackFailed(Draining))
      else if !StopOk() then Some(CallbackFailed(Stopped))
      else None
    }

    predicate Applies(leases: map<Principal, Record>) {
      p in leases && leases[p].state == Active && shouldRelease(leases[p])
    }

    /** The lease after an attempt that applied. */
    function Result(l: Record): Record {
      if Failure() == None then l.Released(trigger, now) else l.RolledBack()
    }
  }

  /** A create attempt: the runtime's answer, the clock, and the cleanup's answer (None: no cleanup). */
  datatype CreateArgs = CreateArgs(p: Principal, answer: CreateAnswer, now: Time, cleanup: Option<StopAnswer>) {
    predicate Blocked(leases: map<Principal, Record>) {
      p in leases && leases[p].state != Reclaimed
    }

    /** The lease `handleCreateService` builds: named after the principal, 8 hours to live, 30 minutes to idle. */
    function Build(res: ServiceResult): Record {
      NewRecord(p, res.containerID, "svc-" + p, res.host, res.port, 8 * HOUR, 30 * MINUTE, now)
    }
  }

  function ProblemKey(course: string, contest: string, problem: string): string {
    course + ":" + contest + ":" + problem
  }

  /** Overwriting a reservation forgets it, and undoing it gives the map back. */
  lemma Restored<K, V>(m: map<K, V>, k: K, v: V, w: V)
    ensures m[k := v][k := w] == m[k := w]
    ensures m[k := w] - {k} == m - {k} && (k !in m ==> m[k := w] - {k} == m)
    ensures k in m ==> m[k := w][k := m[k]] == m
  {
  }

  lemma Unreserved<K, V>(m: map<K, V>, base: map<K, V>, k: K)
    requires k in m && m == base[k := m[k]]
    ensures k in base ==> m[k := base[k]] == base
    ensures k !in base ==> m - {k} == base
  {
  }

  lemma OneLeaseMore(m: map<Principal, Lease>, p: Principal, l: Lease?)
    ensures (m - {p}).Values <= m.Values
    ensures l != null ==> m[p := l].Values <= m.Values + {l}
  {
  }

  /** Starts the release of an Active lease, walks it to Reclaimed, or puts it back. */
  method Attempt(l: Lease, before: Env, a: ReleaseArgs) returns (env: Env, err: Option<StepError>)
    requires l.state == Active
    modifies l
    ensures l.Rec() == a.Result(old(l.Rec()))
    ensures env == a.Calls(before, old(l.containerID))
    ensures err == a.Failure()
  {
    var started := l.Release(a.trigger, a.now);
    var cb := a.ToCallback(l.containerID);
    ReleaseWalk(cb, before, l.state);
    env, err := l.ExecuteRelease(cb.Call(), before);
    if err.Some? {
      l.RollBack();
    }
  }

  /** The `map[string]*Lease` both stores hold. No two keys share an object, and readers get copies. */
  class LeaseTable {
    var leases: map<Principal, Lease>
    ghost var records: map<Principal, Record>

    ghost predicate Valid()
      reads this, leases.Values
    {
      && records.Keys == leases.Keys
      && (forall q :: q in leases ==> leases[q].slot == Some(q) && leases[q].Rec() == records[q])
    }

    /** What encoding the table reads. */
    function Snapshot(): (rs: map<Principal, Record>)
      requires Valid()
      reads this, leases.Values
      ensures rs == records
    {
      map p | p in leases :: leases[p].Rec()
    }

    constructor FromRecords(rs: map<Principal, Record>)
      ensures Valid() && records == rs && fresh(leases.Values)
    {
      leases, records := map[], rs;
      new;
      var rest := rs.Keys;
      while rest != {}
        invariant records == rs && rest <= rs.Keys && leases.Keys == rs.Keys - rest
        invariant forall p :: p in leases ==>
          fresh(leases[p]) && leases[p].slot == Some(p) && leases[p].Rec() == rs[p]
        decreases rest
      {
        var p :| p in rest;
        var l := new Lease.Copy(rs[p], Some(p));
        leases := leases[p := l];
        rest := rest - {p};
      }
    }

    /** `leases[p] = &r`, a new object for a value. */
    method Put(p: Principal, r: Record)
      requires Valid()
      modifies this
      ensures Valid()
      ensures fresh(leases.Values - old(leases.Values))
      ensures records == old(records)[p := r]
    {
      var l := new Lease.Copy(r, Some(p));
      leases, records := leases[p := l], records[p := r];
    }

    /** The table is `base` but for a reservation under `p`, which replaced the object `prior`. */
    ghost predicate Reserved(p: Principal, prior: Lease?, base: map<Principal, Record>)
      reads this, prior
    {
      && p in records && records == base[p := records[p]]
      && (prior == null <==> p !in base)
      && (prior != null ==> prior.slot == Some(p) && prior.Rec() == base[p])
    }

    /** Reserves `p` and returns the object the reservation replaced. */
    method Reserve(p: Principal) returns (prior: Lease?)
      requires Valid()
      modifies this
      ensures Valid() && Reserved(p, prior, old(records)) && records == old(records)[p := Placeholder(p)]
      ensures records[p].state == Closing && records[p].owner == p
      ensures fresh(leases.Values - old(leases.Values))
    {
      prior := if p in leases then leases[p] else null;
      Put(p, Placeholder(p));
    }

    /** `l := &r; cpy := *l; leases[p] = &cpy`: the lease replaces the reservation and the caller keeps its own
        object. */
    method Confirm(p: Principal, r: Record, prior: Lease?, ghost base: map<Principal, Record>) returns (l: Lease)
      requires Valid() && Reserved(p, prior, base)
      modifies this
      ensures Valid() && fresh(l) && l.Rec() == r
      ensures Reserved(p, prior, base) && records == base[p := r]
      ensures fresh(leases.Values - old(leases.Values))
    {
      hide Lease.Rec;
      l := new Lease.Copy(r, None);
      Put(p, l.Rec());
    }

    /** Takes the reservation, or what replaced it, back. */
    method Restore(p: Principal, prior: Lease?, ghost base: map<Principal, Record>)
      requires Valid() && Reserved(p, prior, base)
      modifies this
      ensures Valid() && records == base
      ensures leases.Values <= old(leases.Values) + {prior}
    {
      hide Lease.Rec;
      Unreserved(records, base, p);
      OneLeaseMore(leases, p, prior);
      if prior != null {
        leases, records := leases[p := prior], records[p := prior.Rec()];
      } else {
        leases, records := leases - {p}, records - {p};
      }
    }

    /** The state of a lease a create must not replace. */
    method Blocking(p: Principal) returns (s: Option<ReleaseState>)
      requires Valid()
      ensures s == if p in records && records[p].state != Reclaimed then Some(records[p].state) else None
    {
      s := if p in leases && leases[p].state != Reclaimed then Some(leases[p].state) else None;
    }

    /** `cpy := *leases[p]; &cpy`, or nil. */
    method CopyOut(p: Principal) returns (l: Lease?)
      requires Valid()
      ensures if p in records then l != null && fresh(l) && l.slot == None && l.Rec() == records[p] else l == null
    {
      if p !in leases {
        return null;
      }
      l := new Lease.Copy(leases[p].Rec(), None);
    }

    /** Copies of every lease, in some order. */
    method CopyAll() returns (all: seq<Record>, ghost order: seq<Principal>)
      requires Valid()
      ensures |all| == |order| && forall i :: 0 <= i < |all| ==> order[i] in records && all[i] == records[order[i]]
      ensures forall i, j :: 0 <= i < j < |order| ==> order[i] != order[j]
      ensures forall p :: p in order <==> p in records
    {
      all, order := [], [];
      var rest := leases.Keys;
      while rest != {}
        invariant |all| == |order| && rest <= leases.Keys
        invariant forall i, j :: 0 <= i < j < |order| ==> order[i] != order[j]
        invariant forall p :: p in order <==> p in leases && p !in rest
        invariant forall i :: 0 <= i < |all| ==> order[i] in records && all[i] == records[order[i]]
        decreases rest
      {
        var p :| p in rest;
        all, order, rest := all + [leases[p].Rec()], order + [p], rest - {p};
      }
    }

    /** The locked body both stores run on an Active lease. */
    method RunRelease(before: Env, a: ReleaseArgs) returns (env: Env, err: Option<StepError>)
      requires Valid() && a.p in leases && leases[a.p].state == Active
      modifies this, leases[a.p]
      ensures Valid() && leases == old(leases)
      ensures records == old(records)[a.p := a.Result(old(records)[a.p])]
      ensures env == a.Calls(before, old(records)[a.p].containerID)
      ensures err == a.Failure()
    {
      hide ReleaseArgs.Calls, ReleaseArgs.Result;
      var l := leases[a.p];
      ghost var r := records[a.p];
      assert l.Rec() == r && l.containerID == r.containerID;
      env, err := Attempt(l, before, a);
      assert leases[a.p := l] == leases;
      records := records[a.p := a.Result(r)];
      leases := leases[a.p := l];
    }
  }
}
