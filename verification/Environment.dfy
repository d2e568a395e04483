/** Everything outside the controller's memory: the container runtime, the bastion, the snapshot file.
    Each call is given its answer as an argument; the environment records the call and every durable state a crash could
    leave behind. */
module Environment {
  import opened Wrappers
  import opened LeaseModel

  datatype SubmissionRecord = SubmissionRecord(
    id: string, problemID: string, principal: Principal, submitted: Time,
    status: string, containers: seq<string>, idempotencyKey: string)

  /** The controller state that is persisted. */
  datatype StoreData = StoreData(
    leases: map<Principal, Record>,
    keys: map<Principal, string>,
    submissions: map<string, SubmissionRecord>,
    problemMap: map<string, string>)

  const EMPTY_DATA := StoreData(map[], map[], map[], map[])

  /** A file holds nothing, an interrupted write, or the encoding of a state; decoding a whole file gives that state. */
  datatype File = Absent | Torn | Whole(data: StoreData)

  datatype ServiceResult = ServiceResult(containerID: ContainerId, host: string, port: nat)

  /** A create that fails may leave a container behind. */
  datatype CreateAnswer = Created(res: ServiceResult) | CreateFailed(leftover: Option<ContainerId>)

  /** A stop that fails may nevertheless have removed the container. */
  datatype StopAnswer = StopDone | StopFailed(gone: bool)

  /** How far one snapshot write gets. */
  datatype SaveAnswer = MarshalErr | WriteErr | RenameErr | Saved

  datatype Purpose = ForRelease | ForCleanup

  datatype Call =
    | CreateOk(p: Principal, id: ContainerId)
    | CreateErr(p: Principal, leftover: Option<ContainerId>)
    | Drain(p: Principal, ok: bool)
    | Stop(why: Purpose, p: Principal, id: ContainerId, ok: bool)
    | WriteTmp(ok: bool)
    | Rename(ok: bool)
    | RemoveTmp

  /** What survives a crash of the controller process. */
  datatype Durable = Durable(file: File, tmp: File, running: map<ContainerId, Principal>)

  datatype Env = Env(disk: Durable, calls: seq<Call>, points: seq<Durable>) {
    function After(c: Call, d: Durable): Env {
      Env(d, calls + [c], points + [d])
    }

    function CreateService(p: Principal, a: CreateAnswer): Env {
      match a
      case Created(res) =>
        After(CreateOk(p, res.containerID), disk.(running := disk.running[res.containerID := p]))
      case CreateFailed(None) => After(CreateErr(p, None), disk)
      case CreateFailed(Some(id)) => After(CreateErr(p, Some(id)), disk.(running := disk.running[id := p]))
    }

    function DrainChannels(p: Principal, ok: bool): Env {
      After(Drain(p, ok), disk)
    }

    function StopService(why: Purpose, p: Principal, id: ContainerId, a: StopAnswer): Env {
      After(Stop(why, p, id, a.StopDone?),
            if a == StopFailed(false) then disk else disk.(running := disk.running - {id}))
    }

    /** Writing is not atomic: a crash can leave a torn temporary file. */
    function WriteFile(data: StoreData, ok: bool): Env {
      var torn := disk.(tmp := Torn);
      var end := if ok then disk.(tmp := Whole(data)) else torn;
      Env(end, calls + [WriteTmp(ok)], points + [torn, end])
    }

    function RenameFile(ok: bool): Env {
      After(Rename(ok), if ok then disk.(file := disk.tmp, tmp := Absent) else disk)
    }

    function RemoveFile(): Env {
      After(RemoveTmp, disk.(tmp := Absent))
    }

    /** One snapshot write: encode, write the temporary file, rename it over the snapshot. */
    function Save(data: StoreData, a: SaveAnswer): Env {
      match a
      case MarshalErr => this
      case WriteErr => WriteFile(data, false)
      case RenameErr => WriteFile(data, true).RenameFile(false).RemoveFile()
      case Saved => WriteFile(data, true).RenameFile(true)
    }

    /** `later` adds calls and crash points to this environment. */
    predicate Precedes(later: Env) {
      calls <= later.calls && points <= later.points
    }
  }

  const FRESH_ENV := Env(Durable(Absent, Absent, map[]), [], [])

  /** At every instant of a snapshot write the file is what it was, or the whole new state; it changes exactly when the
      write reports success. */
  lemma SaveIsAtomic(e: Env, data: StoreData, a: SaveAnswer)
    ensures var e' := e.Save(data, a);
            && e.Precedes(e')
            && e'.disk.running == e.disk.running
            && e'.disk.file == (if a == Saved then Whole(data) else e.disk.file)
            && e'.disk.tmp == (match a
                               case MarshalErr => e.disk.tmp
                               case WriteErr => Torn
                               case RenameErr => Absent
                               case Saved => Absent)
            && (forall i :: |e.points| <= i < |e'.points| ==>
                 && e'.points[i].running == e.disk.running
                 && (e'.points[i].file == e.disk.file || (a == Saved && e'.points[i].file == Whole(data))))
            && (forall c :: c in e'.calls ==> c in e.calls || c.WriteTmp? || c.Rename? || c.RemoveTmp?)
  {
  }
}
