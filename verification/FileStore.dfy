/** The file-backed store of pkg/controller/filestore.go. Every method is one section under the store's lock. */
module FileStores {
  import opened Wrappers
  import opened LeaseModel
  import opened Environment
  import opened Lease
  import opened StoreTypes
  import opened Operations

  /** A release attempt that applied is followed by a snapshot, whatever came of it. */
  ghost function FileRelease(d: StoreData, e: Env, a: ReleaseArgs, save: SaveAnswer)
    : (StoreData, Env, Option<StoreError>)
  {
    if !a.Applies(d.leases) then (d, e, Some(NotApplicable))
    else
      var l := d.leases[a.p];
      var d' := d.(leases := d.leases[a.p := a.Result(l)]);
      (d', a.Calls(e, l.containerID).Save(d', save),
       match a.Failure()
       case None => if save == Saved then None else Some(SaveFailed(save))
       case Some(step) => Some(if save == Saved then ReleaseFailed(step) else ReleaseAndSaveFailed(step, save)))
  }

  /** The end of a create whose snapshot was attempted: success, or a cleanup whose failure is reported too. */
  ghost function Settled(e: Env, a: CreateArgs, save: SaveAnswer): (Env, Result<ServiceResult, StoreError>)
    requires a.answer.Created?
  {
    if save == Saved then (e, Ok(a.answer.res))
    else match a.cleanup
      case None => (e, Err(SaveFailed(save)))
      case Some(stop) =>
        (e.StopService(ForCleanup, a.p, a.answer.res.containerID, stop),
         Err(if stop.StopDone? then SaveFailed(save) else SaveAndCleanupFailed(save)))
  }

  /** A create keeps its lease only when the snapshot was written; otherwise it stops the container again. */
  ghost function FileCreate(d: StoreData, e: Env, a: CreateArgs, save: SaveAnswer)
    : (StoreData, Env, Result<ServiceResult, StoreError>)
  {
    if a.Blocked(d.leases) then (d, e, Err(Conflict(d.leases[a.p].state)))
    else if a.answer.CreateFailed? then (d, e.CreateService(a.p, a.answer), Err(RuntimeFailed))
    else
      var d' := d.(leases := d.leases[a.p := a.Build(a.answer.res)]);
      var (e', r) := Settled(e.CreateService(a.p, a.answer).Save(d', save), a, save);
      (if save == Saved then d' else d, e', r)
  }

  /** Writes that do not roll back: memory keeps the change even when the snapshot fails. */
  ghost function FileWrite(d': StoreData, e: Env, save: SaveAnswer): (StoreData, Env, bool) {
    (d', e.Save(d', save), save == Saved)
  }

  ghost function FileMap(d: StoreData, e: Env, key: string, id: string, save: SaveAnswer): (StoreData, Env, bool) {
    var d' := d.(problemMap := d.problemMap[key := id]);
    (if save == Saved then d' else d, e.Save(d', save), save == Saved)
  }

  /** How far reading the snapshot at startup gets. */
  datatype ReadAnswer = StatFailed | ReadFailed | ReadOk

  /** What `NewFileStore` starts from: nothing if the file is absent or cannot be examined, else the snapshot, or an
      error for one that is torn or cannot be read. */
  function LoadFile(f: File, read: ReadAnswer): Option<StoreData> {
    match f
    case Absent => Some(EMPTY_DATA)
    case Torn => if read == StatFailed then Some(EMPTY_DATA) else None
    case Whole(data) =>
      match read
      case StatFailed => Some(EMPTY_DATA)
      case ReadFailed => None
      case ReadOk => Some(data)
  }

  class FileStore {
    var table: LeaseTable
    var keys: map<Principal, string>
    var submissions: map<string, SubmissionRecord>
    var problemMap: map<string, string>

    ghost function Data(): StoreData
      reads this, table
    {
      StoreData(table.records, keys, submissions, problemMap)
    }

    constructor ()
      ensures fresh(table) && fresh(table.leases.Values) && table.Valid()
      ensures Data() == EMPTY_DATA
    {
      table := new LeaseTable.FromRecords(map[]);
      keys, submissions, problemMap := map[], map[], map[];
    }

    /** Reads and parses the snapshot; the state changes only when all of it parsed. */
    method Load(f: File, readable: bool) returns (ok: bool)
      requires table.Valid()
      modifies this
      ensures table.Valid() && ok == (readable && f.Whole?)
      ensures if ok then fresh(table) && fresh(table.leases.Values) else table == old(table)
      ensures Data() == if ok then f.data else old(Data())
    {
      if !readable || !f.Whole? {
        return false;
      }
      table := new LeaseTable.FromRecords(f.data.leases);
      keys, submissions, problemMap := f.data.keys, f.data.submissions, f.data.problemMap;
      return true;
    }

    method UnsafeSaveLocked(e: Env, a: SaveAnswer) returns (e': Env, ok: bool)
      requires table.Valid()
      ensures e' == e.Save(Data(), a) && ok == (a == Saved)
    {
      e' := e;
      var data := StoreData(table.Snapshot(), keys, submissions, problemMap);
      if a == MarshalErr {
        return e', false;
      }
      e' := e'.WriteFile(data, a != WriteErr);
      if a == WriteErr {
        return e', false;
      }
      e' := e'.RenameFile(a != RenameErr);
      if a == RenameErr {
        e' := e'.RemoveFile();
        return e', false;
      }
      return e', true;
    }

    method LookupByPrincipal(p: Principal) returns (l: Lease?)
      requires table.Valid()
      ensures if p in Data().leases then l != null && fresh(l) && l.slot == None && l.Rec() == Data().leases[p]
              else l == null
      ensures LeaseSeen(if l == null then None else Some(l.Rec())) == Read(Data(), Lookup(p))
    {
      l := table.CopyOut(p);
    }

    method UpsertLease(e: Env, l: Lease, save: SaveAnswer) returns (e': Env, ok: bool)
      requires table.Valid()
      modifies table
      ensures table.Valid() && fresh(table.leases.Values - old(table.leases.Values))
      ensures (Data(), e', ok)
           == FileWrite(Write(old(Data()), Upsert(l.Rec(), save)), e, save)
    {
      table.Put(l.owner, l.Rec());
      e', ok := UnsafeSaveLocked(e, save);
    }

    method AllLeases() returns (all: seq<Record>, ghost order: seq<Principal>)
      requires table.Valid()
      ensures |all| == |order|
      ensures forall i :: 0 <= i < |all| ==> order[i] in Data().leases && all[i] == Data().leases[order[i]]
      ensures forall i, j :: 0 <= i < j < |order| ==> order[i] != order[j]
      ensures forall p :: p in order <==> p in Data().leases
    {
      all, order := table.CopyAll();
    }

    method RegisterKey(e: Env, p: Principal, key: string, save: SaveAnswer) returns (e': Env, ok: bool)
      requires table.Valid()
      modifies this`keys
      ensures table.Valid()
      ensures (Data(), e', ok) == FileWrite(Write(old(Data()), Op.RegisterKey(p, key, save)), e, save)
    {
      keys := keys[p := key];
      e', ok := UnsafeSaveLocked(e, save);
    }

    method GetKey(p: Principal) returns (k: Option<string>)
      ensures TextSeen(k) == Read(Data(), Op.GetKey(p))
    {
      k := if p in keys then Some(keys[p]) else None;
    }

    method MapProblem(e: Env, course: string, contest: string, problem: string, csojID: string, save: SaveAnswer)
      returns (e': Env, ok: bool)
      requires table.Valid()
      modifies this`problemMap
      ensures table.Valid()
      ensures (Data(), e', ok)
           == FileMap(old(Data()), e, ProblemKey(course, contest, problem), csojID, save)
    {
      var key := ProblemKey(course, contest, problem);
      var before := problemMap;
      problemMap := problemMap[key := csojID];
      e', ok := UnsafeSaveLocked(e, save);
      if !ok {
        Restored(before, key, csojID, csojID);
        problemMap := if key in before then problemMap[key := before[key]] else problemMap - {key};
      }
    }

    method ResolveProblem(course: string, contest: string, problem: string) returns (id: string)
      ensures TextSeen(Some(id)) == Read(Data(), Resolve(ProblemKey(course, contest, problem)))
    {
      var key := ProblemKey(course, contest, problem);
      id := if key in problemMap then problemMap[key] else "";
    }

    method SaveSubmission(e: Env, rec: SubmissionRecord, save: SaveAnswer) returns (e': Env, ok: bool)
      requires table.Valid()
      modifies this`submissions
      ensures table.Valid()
      ensures (Data(), e', ok)
           == FileWrite(Write(old(Data()), Op.SaveSubmission(rec, save)), e, save)
    {
      submissions := submissions[rec.id := rec];
      e', ok := UnsafeSaveLocked(e, save);
    }

    method GetSubmission(id: string) returns (r: Option<SubmissionRecord>)
      ensures SubmissionSeen(r) == Read(Data(), Op.GetSubmission(id))
    {
      r := if id in submissions then Some(submissions[id]) else None;
    }

    method ReleaseLeaseIf(e: Env, a: ReleaseArgs, save: SaveAnswer) returns (e': Env, err: Option<StoreError>)
      requires table.Valid()
      modifies table, table.leases.Values
      ensures table.Valid() && table.leases == old(table.leases)
      ensures (Data(), e', err) == FileRelease(old(Data()), e, a, save)
    {
      if a.p !in table.leases || table.leases[a.p].state != Active || !a.shouldRelease(table.leases[a.p].Rec()) {
        return e, Some(NotApplicable);
      }
      var stepErr;
      e', stepErr := table.RunRelease(e, a);
      var saved;
      e', saved := UnsafeSaveLocked(e', save);
      match stepErr {
        case None => err := if saved then None else Some(SaveFailed(save));
        case Some(step) => err := Some(if saved then ReleaseFailed(step) else ReleaseAndSaveFailed(step, save));
      }
    }

    /** Snapshots the confirmed lease. When that fails the container is stopped, and a failure of that is reported
        too. */
    method Settle(e: Env, a: CreateArgs, save: SaveAnswer) returns (e': Env, r: Result<ServiceResult, StoreError>)
      requires table.Valid() && a.answer.Created?
      ensures (e', r) == Settled(e.Save(Data(), save), a, save)
    {
      var saved;
      e', saved := UnsafeSaveLocked(e, save);
      if saved {
        return e', Ok(a.answer.res);
      }
      var cleaned := true;
      if a.cleanup.Some? {
        e' := e'.StopService(ForCleanup, a.p, a.answer.res.containerID, a.cleanup.value);
        cleaned := a.cleanup.value.StopDone?;
      }
      r := Err(if cleaned then SaveFailed(save) else SaveAndCleanupFailed(save));
    }

    method CreateLeaseForPrincipal(e: Env, a: CreateArgs, save: SaveAnswer)
      returns (e': Env, l: Lease?, r: Result<ServiceResult, StoreError>)
      requires table.Valid()
      modifies table
      ensures table.Valid()
      ensures (Data(), e', r) == FileCreate(old(Data()), e, a, save)
      ensures if r.Err? then l == null else l != null && fresh(l) && l.Rec() == a.Build(r.value)
    {
      hide LeaseTable.Valid, LeaseTable.Reserved, Env.Save, Env.CreateService, Lease.Rec;
      var blocking := table.Blocking(a.p);
      if blocking.Some? {
        return e, null, Err(Conflict(blocking.value));
      }
      ghost var before := table.records;
      var prior := table.Reserve(a.p);
      e' := e.CreateService(a.p, a.answer);
      if a.answer.CreateFailed? {
        table.Restore(a.p, prior, before);
        return e', null, Err(RuntimeFailed);
      }
      l := table.Confirm(a.p, a.Build(a.answer.res), prior, before);
      e', r := Settle(e', a, save);
      if r.Err? {
        table.Restore(a.p, prior, before);
        l := null;
      }
    }
  }

  /** `NewFileStore`: a file that is absent, or seems so, is an empty store; one that cannot be read or parsed is
      refused. */
  method NewFileStore(f: File, read: ReadAnswer) returns (fs: FileStore?)
    ensures fs == null <==> (f.Torn? && read != StatFailed) || (f.Whole? && read == ReadFailed)
    ensures fs != null ==> fs.Data() == if f.Whole? && read == ReadOk then f.data else EMPTY_DATA
    ensures fs == null <==> LoadFile(f, read) == None
    ensures fs != null ==> && fresh(fs) && fresh(fs.table) && fresh(fs.table.leases.Values) && fs.table.Valid()
                           && LoadFile(f, read) == Some(fs.Data())
  {
    fs := new FileStore();
    if f != Absent && read != StatFailed {
      var ok := fs.Load(f, read == ReadOk);
      if !ok {
        return null;
      }
    }
  }
}
