/** The locked sections of a store as values: what each is asked, and what its caller observes. */
module Operations {
  import opened Wrappers
  import opened LeaseModel
  import opened Environment
  import opened StoreTypes

  /** One locked section. `Touch` is a roster's update of one lease done atomically; `Upsert` is a bare write. */
  datatype Op =
    | Create(create: CreateArgs, save: SaveAnswer)
    | Release(release: ReleaseArgs, save: SaveAnswer)
    | Touch(p: Principal, report: Report, now: Time, save: SaveAnswer)
    | Upsert(lease: Record, save: SaveAnswer)
    | RegisterKey(p: Principal, publicKey: string, save: SaveAnswer)
    | MapProblem(problemKey: string, id: string, save: SaveAnswer)
    | SaveSubmission(rec: SubmissionRecord, save: SaveAnswer)
    | Lookup(p: Principal)
    | List
    | GetKey(p: Principal)
    | Resolve(problemKey: string)
    | GetSubmission(id: string)
  {
    predicate TouchApplies(leases: map<Principal, Record>)
      requires Touch?
    {
      p in leases && leases[p].state == Active
    }
  }

  /** What the caller of one section observes. */
  datatype Obs =
    | CreateEnded(created: Result<ServiceResult, StoreError>)
    | ReleaseEnded(err: Option<StoreError>)
    | Written(ok: bool)
    | LeaseSeen(l: Option<Record>)
    | LeasesSeen(all: map<Principal, Record>)
    | TextSeen(text: Option<string>)
    | SubmissionSeen(sub: Option<SubmissionRecord>)

  function Find<K, V>(m: map<K, V>, k: K): Option<V> {
    if k in m then Some(m[k]) else None
  }

  function Read(d: StoreData, op: Op): Obs
    requires op.Lookup? || op.List? || op.GetKey? || op.Resolve? || op.GetSubmission?
  {
    match op
    case Lookup(p) => LeaseSeen(Find(d.leases, p))
    case List => LeasesSeen(d.leases)
    case GetKey(p) => TextSeen(Find(d.keys, p))
    case Resolve(k) => TextSeen(Some(if k in d.problemMap then d.problemMap[k] else ""))
    case GetSubmission(id) => SubmissionSeen(Find(d.submissions, id))
  }

  /** The state a plain write leaves in memory. */
  function Write(d: StoreData, op: Op): StoreData
    requires op.Touch? || op.Upsert? || op.RegisterKey? || op.MapProblem? || op.SaveSubmission?
    requires op.Touch? ==> op.TouchApplies(d.leases)
  {
    match op
    case Touch(p, report, now, _) =>
      var l := d.leases[p];
      d.(leases := d.leases[l.owner := l.Touched(report, now)])
    case Upsert(l, _) => d.(leases := d.leases[l.owner := l])
    case RegisterKey(p, k, _) => d.(keys := d.keys[p := k])
    case MapProblem(k, id, _) => d.(problemMap := d.problemMap[k := id])
    case SaveSubmission(rec, _) => d.(submissions := d.submissions[rec.id := rec])
  }
}
