/** The submission idempotency protocol of handleSubmissions, pkg/controller/leases.go: any number of requests, each a
    program counter; each locked section and each unlocked read is one step, in any interleaving. */
module Submissions {
  import opened Wrappers

  /** The two hashes a request computes before it first takes the lock. */
  datatype Request = Request(scope: string, payload: string)

  /** An `idempotencyEntry`. A request allocates at most one, so the request's number names it. */
  datatype Entry = Entry(submissionID: string, failed: bool, closed: bool)

  datatype Response =
    | Duplicate(id: string)
    | Conflict
    | PreviousFailed
    | Cancelled
    | SubmitFailed
    | Accepted(id: string, saved: bool)

  datatype Pc =
    | Start
    | Looked(e: nat)       // found an entry, about to read its id without the lock
    | CheckRecord(e: nat)  // saw an id, about to look the record up
    | Waiting(e: nat)      // blocked on the entry's done channel
    | Woken(e: nat)        // done was closed with an error, about to delete the scope's entry
    | Absent               // found no entry, about to double-check and reserve
    | Submitting           // reserved, inside Submit
    | Publishing           // holds the lock, outcome written
    | Closing              // holds the lock, done closed
    | Done(resp: Response)

  datatype Accept = Accept(e: nat, id: string)

  datatype State = State(
    pcs: seq<Pc>,
    idem: map<string, nat>,
    heap: map<nat, Entry>,
    subs: map<string, string>,  // submission id -> payload hash of its record
    lock: Option<nat>,
    accepted: seq<Accept>,      // submissions CSOJ accepted, oldest first
    closes: seq<nat>)           // entries whose done channel was closed, oldest first

  datatype Step =
    | Look(r: nat)
    | ReadId(r: nat)
    | Check(r: nat)
    | Wake(r: nat)
    | Cancel(r: nat)
    | Clear(r: nat)
    | Reserve(r: nat)
    | Return(r: nat, outcome: Option<string>)  // Submit came back: an id, or an error
    | Close(r: nat)
    | Finish(r: nat, saved: bool)

  function Initial(n: nat): State {
    State(seq(n, _ => Start), map[], map[], map[], None, [], [])
  }

  predicate At(s: State, r: nat, pc: Pc) {
    r < |s.pcs| && s.pcs[r] == pc
  }

  /** The step's request is at the right place; a locked section needs the lock to be free. */
  predicate Enabled(rs: seq<Request>, s: State, step: Step) {
    && step.r < |s.pcs| == |rs|
    && var pc := s.pcs[step.r];
       match step
       case Look(_) => pc == Start && s.lock == None
       case ReadId(_) => pc.Looked? && pc.e in s.heap && pc.e < |rs|
       case Check(_) => pc.CheckRecord? && pc.e in s.heap && s.lock == None
       case Wake(_) => pc.Waiting? && pc.e in s.heap && s.heap[pc.e].closed
       case Cancel(_) => pc.Waiting?
       case Clear(_) => pc.Woken? && s.lock == None
       case Reserve(r) => pc == Absent && s.lock == None && forall k :: k in s.idem ==> s.idem[k] in s.heap
       case Return(_, _) => pc == Submitting && step.r in s.heap && s.lock == None
       case Close(_) => pc == Publishing && step.r in s.heap
       case Finish(_, _) => pc == Closing && step.r in s.heap
  }

  function Goto(s: State, r: nat, pc: Pc): State
    requires r < |s.pcs|
  {
    s.(pcs := s.pcs[r := pc])
  }

  /** A completed submission is a duplicate only of the same payload. */
  function Recorded(s: State, id: string, payload: string): Response {
    if id in s.subs && s.subs[id] == payload then Duplicate(id) else Conflict
  }

  predicate InSubmission(step: Step) {
    step.Return? || step.Close? || step.Finish?
  }

  /** Steps that change no entry. */
  predicate Quiet(step: Step) {
    !step.Reserve? && !InSubmission(step)
  }

  /** Where a quiet step takes its request. */
  function Next(rs: seq<Request>, s: State, step: Step): Pc
    requires Enabled(rs, s, step) && Quiet(step)
  {
    var req, pc := rs[step.r], s.pcs[step.r];
    match step
    case Look(_) => if req.scope in s.idem then Looked(s.idem[req.scope]) else Absent
    case ReadId(_) =>
      if s.heap[pc.e].submissionID != "" then CheckRecord(pc.e)
      else if rs[pc.e].payload == req.payload then Waiting(pc.e)
      else Done(Conflict)
    case Check(_) => Done(Recorded(s, s.heap[pc.e].submissionID, req.payload))
    case Wake(_) => if s.heap[pc.e].failed then Woken(pc.e) else Done(Duplicate(s.heap[pc.e].submissionID))
    case Cancel(_) => Done(Cancelled)
    case Clear(_) => Done(PreviousFailed)
  }

  function Do(rs: seq<Request>, s: State, step: Step): State
    requires Enabled(rs, s, step)
  {
    var r, req := step.r, rs[step.r];
    match step
    case Reserve(_) =>
      if req.scope in s.idem then
        var id := s.heap[s.idem[req.scope]].submissionID;
        Goto(s, r, Done(if id != "" then Recorded(s, id, req.payload) else Conflict))
      else
        Goto(s.(idem := s.idem[req.scope := r], heap := s.heap[r := Entry("", false, false)]), r, Submitting)
    case Return(_, None) =>
      Goto(s.(heap := s.heap[r := s.heap[r].(failed := true)], lock := Some(r)), r, Publishing)
    case Return(_, Some(id)) =>
      Goto(s.(heap := s.heap[r := s.heap[r].(submissionID := id)], lock := Some(r), subs := s.subs[id := req.payload],
              accepted := s.accepted + [Accept(r, id)]), r, Publishing)
    case Close(_) =>
      Goto(s.(heap := s.heap[r := s.heap[r].(closed := true)], closes := s.closes + [r]), r, Closing)
    case Finish(_, saved) =>
      if s.heap[r].failed then Goto(s.(idem := s.idem - {req.scope}, lock := None), r, Done(SubmitFailed))
      else Goto(s.(lock := None), r, Done(Accepted(s.heap[r].submissionID, saved)))
    case _ => Goto(if step.Clear? then s.(idem := s.idem - {req.scope}) else s, r, Next(rs, s, step))
  }

  /** The state after a sequence of steps, if each was enabled in its turn. */
  function Exec(rs: seq<Request>, steps: seq<Step>): Option<State> {
    if steps == [] then Some(Initial(|rs|))
    else
      var before := Exec(rs, steps[..|steps| - 1]);
      if before.Some? && Enabled(rs, before.value, steps[|steps| - 1])
      then Some(Do(rs, before.value, steps[|steps| - 1]))
      else None
  }

  predicate Owns(pc: Pc) {
    pc.Submitting? || pc.Publishing? || pc.Closing?
  }

  /** Every index the state mentions is a request. */
  ghost predicate Shape(rs: seq<Request>, s: State) {
    && |s.pcs| == |rs|
    && (s.lock.Some? ==> s.lock.value < |rs|)
    && (forall e :: e in s.heap ==> e < |rs|)
    && (forall k :: k in s.idem ==> s.idem[k] in s.heap)
    && (forall a :: a in s.accepted ==> a.e in s.heap)
    && (forall r: nat :: r < |s.pcs| ==> Ref(s.pcs[r]).Some? ==> Ref(s.pcs[r]).value in s.heap)
  }

  /** The entry of another request that a request refers to. */
  function Ref(pc: Pc): Option<nat> {
    match pc
    case Looked(e) => Some(e)
    case CheckRecord(e) => Some(e)
    case Waiting(e) => Some(e)
    case Woken(e) => Some(e)
    case _ => None
  }

  /** A channel is closed at most once, and only of an entry that exists. */
  ghost predicate ClosesOk(s: State) {
    && (forall i, j :: 0 <= i < j < |s.closes| ==> s.closes[i] != s.closes[j])
    && (forall e :: e in s.closes ==> e in s.heap)
  }

  /** Before its done channel is closed an entry's owner is in Submit or publishing; the channel is closed once, by the
      owner, after the outcome was set. */
  ghost predicate EntriesOk(rs: seq<Request>, s: State)
    requires Shape(rs, s)
  {
    && (forall r: nat :: r < |s.pcs| && Owns(s.pcs[r]) ==> r in s.heap)
    && (forall e :: e in s.heap ==> EntryOk(rs, s, e))
    && ClosesOk(s)
  }

  ghost predicate EntryOk(rs: seq<Request>, s: State, e: nat)
    requires Shape(rs, s) && e in s.heap
  {
    && (Owns(s.pcs[e]) || s.pcs[e].Done?)
    && (s.heap[e].closed <==> s.pcs[e] == Closing || s.pcs[e].Done?)
    && (s.heap[e].closed <==> e in s.closes)
    && (s.pcs[e] == Submitting ==> s.heap[e] == Entry("", false, false))
    && (s.heap[e].failed ==> s.heap[e].submissionID == "")
    && (s.pcs[e] != Submitting && !s.heap[e].failed ==> Accept(e, s.heap[e].submissionID) in s.accepted)
  }

  /** References to other requests' entries stay within the scope, and waiters share the payload. */
  ghost predicate RefsOk(rs: seq<Request>, s: State)
    requires Shape(rs, s)
  {
    forall r: nat :: r < |s.pcs| ==> RefOk(rs, s, r)
  }

  ghost predicate RefOk(rs: seq<Request>, s: State, r: nat)
    requires Shape(rs, s) && r < |rs|
  {
    match s.pcs[r]
    case Looked(e) => e != r && rs[e].scope == rs[r].scope
    case CheckRecord(e) => e != r && rs[e].scope == rs[r].scope && s.heap[e].submissionID != ""
    case Waiting(e) => e != r && rs[e] == rs[r]
    case Woken(e) => e != r && rs[e] == rs[r] && s.heap[e].failed && s.heap[e].closed
    case _ => true
  }

  ghost predicate ScopeOk(rs: seq<Request>, s: State, k: string)
    requires Shape(rs, s) && k in s.idem
  {
    rs[s.idem[k]].scope == k && !(s.heap[s.idem[k]].failed && s.pcs[s.idem[k]].Done?)
  }

  /** The map holds entries of the right scope, and never one whose owner has failed and finished. */
  ghost predicate IdemOk(rs: seq<Request>, s: State)
    requires Shape(rs, s)
  {
    forall k :: k in s.idem ==> ScopeOk(rs, s, k)
  }

  ghost predicate LockOk(s: State) {
    forall r: nat :: r < |s.pcs| ==> (s.pcs[r] == Publishing || s.pcs[r] == Closing <==> s.lock == Some(r))
  }

  ghost predicate AcceptedOk(rs: seq<Request>, s: State)
    requires Shape(rs, s)
  {
    && (forall a :: a in s.accepted ==>
         s.pcs[a.e] != Submitting && !s.heap[a.e].failed && s.heap[a.e].submissionID == a.id)
    && (forall i, j :: 0 <= i < j < |s.accepted| ==> s.accepted[i].e != s.accepted[j].e)
  }

  ghost predicate Inv(rs: seq<Request>, s: State) {
    Shape(rs, s) && EntriesOk(rs, s) && RefsOk(rs, s) && IdemOk(rs, s) && LockOk(s) && AcceptedOk(rs, s)
  }

  /** What the invariant says of the request that steps: it owns an entry only once it reserved, and the entry is
      blank until Submit returns. */
  ghost predicate ActorOk(s: State, step: Step) {
    && (!InSubmission(step) ==> step.r !in s.heap && step.r !in s.closes)
    && (step.Return? ==> step.r in s.heap && s.heap[step.r] == Entry("", false, false))
  }

  lemma InvGivesActor(rs: seq<Request>, s: State, step: Step)
    requires Inv(rs, s) && Enabled(rs, s, step)
    ensures ActorOk(s, step)
  {
    assert step.r in s.heap ==> EntryOk(rs, s, step.r);
  }

  /** What a step changes, in terms of the request that takes it. */
  ghost predicate Changes(rs: seq<Request>, s: State, step: Step, t: State)
    requires Enabled(rs, s, step)
  {
    var r := step.r;
    && |t.pcs| == |rs| && t.pcs == s.pcs[r := t.pcs[r]] && !s.pcs[r].Done?
    && match step
       case Reserve(_) =>
         && s.pcs[r] == Absent
         && if rs[r].scope in s.idem then t == s.(pcs := t.pcs) && t.pcs[r].Done?
            else && t.pcs[r] == Submitting
                 && t == s.(pcs := t.pcs, idem := s.idem[rs[r].scope := r],
                            heap := s.heap[r := Entry("", false, false)])
       case Return(_, outcome) =>
         && s.pcs[r] == Submitting && t.pcs[r] == Publishing && s.lock == None && t.lock == Some(r) && r in s.heap
         && t.idem == s.idem && t.closes == s.closes
         && (match outcome
             case None =>
               && t.heap == s.heap[r := s.heap[r].(failed := true)]
               && t.subs == s.subs && t.accepted == s.accepted
             case Some(id) =>
               && t.heap == s.heap[r := s.heap[r].(submissionID := id)]
               && t.subs == s.subs[id := rs[r].payload] && t.accepted == s.accepted + [Accept(r, id)])
       case Close(_) =>
         && s.pcs[r] == Publishing && t.pcs[r] == Closing && r in s.heap
         && t == s.(pcs := t.pcs, heap := s.heap[r := s.heap[r].(closed := true)], closes := s.closes + [r])
       case Finish(_, saved) =>
         && s.pcs[r] == Closing && r in s.heap
         && t.pcs[r] == Done(if s.heap[r].failed then SubmitFailed else Accepted(s.heap[r].submissionID, saved))
         && t == s.(pcs := t.pcs, lock := None, idem := if s.heap[r].failed then s.idem - {rs[r].scope} else s.idem)
       case _ =>
         && !Owns(s.pcs[r]) && !Owns(t.pcs[r]) && t.pcs[r] == Next(rs, s, step)
         && t == s.(pcs := t.pcs, idem := if step.Clear? then s.idem - {rs[r].scope} else s.idem)
  }

  lemma Effect(rs: seq<Request>, s: State, step: Step)
    requires Enabled(rs, s, step)
    ensures step.r < |s.pcs| == |rs| && Changes(rs, s, step, Do(rs, s, step))
  {
  }

  lemma KeepsShape(rs: seq<Request>, s: State, step: Step)
    requires Shape(rs, s) && Enabled(rs, s, step)
    ensures Shape(rs, Do(rs, s, step))
  {
    var t := Do(rs, s, step);
    hide Ref;
    forall r: nat | r < |t.pcs| ensures Ref(t.pcs[r]).Some? ==> Ref(t.pcs[r]).value in t.heap {
      KeepsReference(rs, s, step, r);
    }
  }

  lemma KeepsReference(rs: seq<Request>, s: State, step: Step, r: nat)
    requires Shape(rs, s) && Enabled(rs, s, step) && r < |Do(rs, s, step).pcs|
    ensures var t := Do(rs, s, step); Ref(t.pcs[r]).Some? ==> Ref(t.pcs[r]).value in t.heap
  {
    hide Do;
    Effect(rs, s, step);
  }

  lemma KeepsEntry(rs: seq<Request>, s: State, step: Step, e: nat)
    requires Shape(rs, s) && Enabled(rs, s, step) && Shape(rs, Do(rs, s, step)) && e in Do(rs, s, step).heap
    requires (e in s.heap ==> EntryOk(rs, s, e)) && LockOk(s) && ActorOk(s, step)
    ensures EntryOk(rs, Do(rs, s, step), e)
  {
    hide Do, Enabled, Next;
    Effect(rs, s, step);
  }

  lemma NextRefOk(rs: seq<Request>, s: State, step: Step)
    requires Shape(rs, s) && Enabled(rs, s, step) && Quiet(step) && Shape(rs, Do(rs, s, step))
    requires RefOk(rs, s, step.r) && IdemOk(rs, s) && ActorOk(s, step)
    ensures RefOk(rs, Do(rs, s, step), step.r)
  {
    hide Do;
    Effect(rs, s, step);
  }

  lemma KeepsRef(rs: seq<Request>, s: State, step: Step, r: nat)
    requires Shape(rs, s) && Enabled(rs, s, step) && Shape(rs, Do(rs, s, step)) && r < |rs|
    requires RefOk(rs, s, r) && IdemOk(rs, s) && ActorOk(s, step)
    ensures RefOk(rs, Do(rs, s, step), r)
  {
    if r == step.r && Quiet(step) {
      NextRefOk(rs, s, step);
    } else {
      hide Do, Enabled, Next, IdemOk;
      Effect(rs, s, step);
    }
  }

  lemma KeepsIdem(rs: seq<Request>, s: State, step: Step, k: string)
    requires Shape(rs, s) && Enabled(rs, s, step) && Shape(rs, Do(rs, s, step)) && k in Do(rs, s, step).idem
    requires (k in s.idem ==> ScopeOk(rs, s, k)) && ActorOk(s, step)
    ensures ScopeOk(rs, Do(rs, s, step), k)
  {
    hide Do, Enabled, Next;
    Effect(rs, s, step);
  }

  lemma KeepsLock(rs: seq<Request>, s: State, step: Step)
    requires Enabled(rs, s, step) && LockOk(s)
    ensures LockOk(Do(rs, s, step))
  {
    hide Do, Enabled, Next;
    Effect(rs, s, step);
  }

  lemma KeepsAccepted(rs: seq<Request>, s: State, step: Step)
    requires Shape(rs, s) && Enabled(rs, s, step) && Shape(rs, Do(rs, s, step))
    requires AcceptedOk(rs, s) && ActorOk(s, step)
    ensures AcceptedOk(rs, Do(rs, s, step))
  {
    hide Do, Enabled, Next;
    Effect(rs, s, step);
  }

  lemma KeepsCloses(rs: seq<Request>, s: State, step: Step)
    requires Enabled(rs, s, step) && ClosesOk(s) && (step.Close? ==> step.r !in s.closes)
    ensures ClosesOk(Do(rs, s, step))
  {
    hide Do, Enabled, Next;
    Effect(rs, s, step);
  }

  lemma KeepsOwner(rs: seq<Request>, s: State, step: Step, r: nat)
    requires Enabled(rs, s, step) && r < |rs| && (Owns(s.pcs[r]) ==> r in s.heap)
    ensures |Do(rs, s, step).pcs| == |rs| && (Owns(Do(rs, s, step).pcs[r]) ==> r in Do(rs, s, step).heap)
  {
    hide Do, Enabled, Next;
    Effect(rs, s, step);
  }

  lemma CloserHasNotClosed(rs: seq<Request>, s: State, r: nat)
    requires Inv(rs, s) && Enabled(rs, s, Close(r))
    ensures r !in s.closes
  {
    assert EntryOk(rs, s, r);
  }

  lemma KeepsEntries(rs: seq<Request>, s: State, step: Step)
    requires Shape(rs, s) && Enabled(rs, s, step) && Shape(rs, Do(rs, s, step))
    requires EntriesOk(rs, s) && LockOk(s) && ActorOk(s, step) && (step.Close? ==> step.r !in s.closes)
    ensures EntriesOk(rs, Do(rs, s, step))
  {
    var t := Do(rs, s, step);
    hide Do, EntryOk, ActorOk, Enabled, LockOk;
    KeepsCloses(rs, s, step);
    forall e | e in t.heap ensures EntryOk(rs, t, e) {
      KeepsEntry(rs, s, step, e);
    }
    forall r: nat | r < |rs| ensures Owns(t.pcs[r]) ==> r in t.heap {
      KeepsOwner(rs, s, step, r);
    }
  }

  lemma KeepsReferences(rs: seq<Request>, s: State, step: Step)
    requires Shape(rs, s) && Enabled(rs, s, step) && Shape(rs, Do(rs, s, step))
    requires RefsOk(rs, s) && IdemOk(rs, s) && ActorOk(s, step)
    ensures RefsOk(rs, Do(rs, s, step)) && IdemOk(rs, Do(rs, s, step))
  {
    var t := Do(rs, s, step);
    hide Do, RefOk, ScopeOk, ActorOk, Enabled;
    forall k | k in t.idem ensures ScopeOk(rs, t, k) {
      KeepsIdem(rs, s, step, k);
    }
    forall r: nat | r < |rs| ensures RefOk(rs, t, r) {
      KeepsRef(rs, s, step, r);
    }
  }

  lemma {:induction false} StepKeepsInv(rs: seq<Request>, s: State, step: Step)
    requires Inv(rs, s) && Enabled(rs, s, step)
    ensures Inv(rs, Do(rs, s, step))
  {
    hide Do, Enabled, Shape, EntriesOk, RefsOk, IdemOk, LockOk, AcceptedOk, ActorOk;
    InvGivesActor(rs, s, step);
    if step.Close? {
      CloserHasNotClosed(rs, s, step.r);
    }
    KeepsShape(rs, s, step);
    KeepsLock(rs, s, step);
    KeepsAccepted(rs, s, step);
    KeepsEntries(rs, s, step);
    KeepsReferences(rs, s, step);
  }

  /** The invariant holds in every run, hypothesis or not. */
  lemma {:induction false} RunsKeepInv(rs: seq<Request>, steps: seq<Step>)
    requires Exec(rs, steps).Some?
    ensures Inv(rs, Exec(rs, steps).value)
  {
    if steps != [] {
      RunsKeepInv(rs, steps[..|steps| - 1]);
      StepKeepsInv(rs, Exec(rs, steps[..|steps| - 1]).value, steps[|steps| - 1]);
    }
  }
}
