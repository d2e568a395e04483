/** The in-memory store of pkg/controller/store.go: the simple specification of the file-backed one. */
module SerializedStores {
  import opened Wrappers
  import opened LeaseModel
  import opened Environment
  import opened Lease
  import opened StoreTypes
  import opened Operations

  /** A release attempt on a store that keeps nothing on disk. */
  ghost function SerRelease(d: StoreData, e: Env, a: ReleaseArgs): (StoreData, Env, Option<StoreError>) {
    if !a.Applies(d.leases) then (d, e, Some(NotApplicable))
    else
      (d.(leases := d.leases[a.p := a.Result(d.leases[a.p])]),
       a.Calls(e, d.leases[a.p].containerID),
       if a.Failure() == None then None else Some(ReleaseFailed(a.Failure().value)))
  }

  ghost function SerCreate(d: StoreData, e: Env, a: CreateArgs): (StoreData, Env, Result<ServiceResult, StoreError>) {
    if a.Blocked(d.leases) then (d, e, Err(Conflict(d.leases[a.p].state)))
    else if a.answer.CreateFailed? then (d, e.CreateService(a.p, a.answer), Err(RuntimeFailed))
    else (d.(leases := d.leases[a.p := a.Build(a.answer.res)]), e.CreateService(a.p, a.answer), Ok(a.answer.res))
  }

  class SerializedStore {
    const table: LeaseTable
    var keys: map<Principal, string>
    var submissions: map<string, SubmissionRecord>
    var problemMap: map<string, string>

    ghost function Data(): StoreData
      reads this, table
    {
      StoreData(table.records, keys, submissions, problemMap)
    }

    constructor ()
      ensures fresh(table) && table.Valid() && Data() == EMPTY_DATA
    {
      table := new LeaseTable.FromRecords(map[]);
      keys, submissions, problemMap := map[], map[], map[];
    }

    method RegisterKey(p: Principal, key: string)
      modifies this`keys
      ensures Data() == old(Data()).(keys := old(keys)[p := key])
    {
      keys := keys[p := key];
    }

    method GetKey(p: Principal) returns (k: Option<string>)
      ensures TextSeen(k) == Read(Data(), Op.GetKey(p))
    {
      k := if p in keys then Some(keys[p]) else None;
    }

    /** A reader gets its own copy: the result is no object of the store. */
    method LookupByPrincipal(p: Principal) returns (l: Lease?)
      requires table.Valid()
      ensures if p in Data().leases then l != null && fresh(l) && l.slot == None && l.Rec() == Data().leases[p]
              else l == null
      ensures LeaseSeen(if l == null then None else Some(l.Rec())) == Read(Data(), Lookup(p))
    {
      l := table.CopyOut(p);
    }

    method UpsertLease(l: Lease)
      requires table.Valid()
      modifies table
      ensures table.Valid() && fresh(table.leases.Values - old(table.leases.Values))
      ensures Data() == old(Data()).(leases := old(Data()).leases[l.owner := l.Rec()])
    {
      table.Put(l.owner, l.Rec());
    }

    method AllLeases() returns (all: seq<Record>, ghost order: seq<Principal>)
      requires table.Valid()
      ensures |all| == |order|
      ensures forall i :: 0 <= i < |all| ==> order[i] in Data().leases && all[i] == Data().leases[order[i]]
      ensures forall i, j :: 0 <= i < j < |order| ==> order[i] != order[j]
      ensures forall p :: p in order <==> p in Data().leases
    {
      all, order := table.CopyAll();
    }

    method ReleaseLeaseIf(e: Env, a: ReleaseArgs) returns (e': Env, err: Option<StoreError>)
      requires table.Valid()
      modifies table, table.leases.Values
      ensures table.Valid() && table.leases == old(table.leases)
      ensures (Data(), e', err) == SerRelease(old(Data()), e, a)
    {
      if a.p !in table.leases || table.leases[a.p].state != Active || !a.shouldRelease(table.leases[a.p].Rec()) {
        return e, Some(NotApplicable);
      }
      var stepErr;
      e', stepErr := table.RunRelease(e, a);
      err := if stepErr.Some? then Some(ReleaseFailed(stepErr.value)) else None;
    }

    method CreateLeaseForPrincipal(e: Env, a: CreateArgs)
      returns (e': Env, l: Lease?, r: Result<ServiceResult, StoreError>)
      requires table.Valid()
      modifies table
      ensures table.Valid()
      ensures (Data(), e', r) == SerCreate(old(Data()), e, a)
      ensures if r.Err? then l == null else l != null && fresh(l) && l.Rec() == a.Build(r.value)
    {
      hide LeaseTable.Valid, LeaseTable.Reserved, Env.Save, Env.CreateService, Lease.Rec;
      var blocking := table.Blocking(a.p);
      if blocking.Some? {
        return e, null, Err(Conflict(blocking.value));
      }
      ghost var before := table.records;
      var prior := table.Reserve(a.p);
      e' := e.CreateService(a.p, a.answer);
      if a.answer.CreateFailed? {
        table.Restore(a.p, prior, before);
        return e', null, Err(RuntimeFailed);
      }
      l := table.Confirm(a.p, a.Build(a.answer.res), prior, before);
      r := Ok(a.answer.res);
    }

    method SaveSubmission(rec: SubmissionRecord)
      modifies this`submissions
      ensures Data() == old(Data()).(submissions := old(submissions)[rec.id := rec])
    {
      submissions := submissions[rec.id := rec];
    }

    method GetSubmission(id: string) returns (r: Option<SubmissionRecord>)
      ensures SubmissionSeen(r) == Read(Data(), Op.GetSubmission(id))
    {
      r := if id in submissions then Some(submissions[id]) else None;
    }

    method MapProblem(course: string, contest: string, problem: string, csojID: string)
      modifies this`problemMap
      ensures Data() == old(Data()).(problemMap := old(problemMap)[ProblemKey(course, contest, problem) := csojID])
    {
      problemMap := problemMap[ProblemKey(course, contest, problem) := csojID];
    }

    method ResolveProblem(course: string, contest: string, problem: string) returns (id: string)
      ensures TextSeen(Some(id)) == Read(Data(), Resolve(ProblemKey(course, contest, problem)))
    {
      var key := ProblemKey(course, contest, problem);
      id := if key in problemMap then problemMap[key] else "";
    }
  }
}
