/** handleSubmissions as it is written: entries shared between the map and the requests that found them, updated in
    place under the handler's lock. Each method is one locked section or one unlocked read of one request, and takes
    the step of the state machine of that name; `r` is the number of the request, which the code does not have. */
module SubmissionHandlers {
  import opened Wrappers
  import opened Submissions

  /** `idempotencyEntry`; `done`: the channel is closed. */
  class IdempotencyEntry {
    const payloadHash: string
    var submissionID: string
    var err: bool
    var done: bool

    constructor (payloadHash: string)
      ensures this.payloadHash == payloadHash && submissionID == "" && !err && !done
    {
      this.payloadHash := payloadHash;
      submissionID, err, done := "", false, false;
    }
  }

  type Entries = map<nat, IdempotencyEntry>  // by the request that reserved

  /** The objects hold what the state machine says of the entries; no two share an object. */
  ghost predicate Mirrors(entries: Entries, heap: map<nat, Entry>, rs: seq<Request>)
    reads entries.Values
  {
    && entries.Keys == heap.Keys
    && (forall i, j :: i in entries && j in entries && entries[i] == entries[j] ==> i == j)
    && (forall e :: e in entries ==>
         && e < |rs| && entries[e].payloadHash == rs[e].payload
         && heap[e] == Entry(entries[e].submissionID, entries[e].err, entries[e].done))
  }

  ghost predicate Refers(idempotency: map<string, IdempotencyEntry>, entries: Entries, idem: map<string, nat>) {
    idempotency.Keys == idem.Keys && forall k :: k in idem ==> idem[k] in entries && idempotency[k] == entries[idem[k]]
  }

  lemma TakenScopes(idempotency: map<string, IdempotencyEntry>, entries: Entries, idem: map<string, nat>,
                    scopeKey: string)
    requires Refers(idempotency, entries, idem)
    ensures scopeKey in idempotency <==> scopeKey in idem
  {
  }

  lemma MirrorsGrows(entries: Entries, heap: map<nat, Entry>, rs: seq<Request>, r: nat, entry: IdempotencyEntry)
    requires Mirrors(entries, heap, rs) && r !in heap && entry !in entries.Values
    requires r < |rs| && entry.payloadHash == rs[r].payload && entry.submissionID == "" && !entry.err && !entry.done
    ensures r !in entries && Mirrors(entries[r := entry], heap[r := Entry("", false, false)], rs)
  {
    assert forall e :: e in entries ==> entries[e] in entries.Values;
  }

  lemma RefersGrows(idempotency: map<string, IdempotencyEntry>, entries: Entries, idem: map<string, nat>,
                    scopeKey: string, r: nat, entry: IdempotencyEntry)
    requires Refers(idempotency, entries, idem) && r !in entries
    ensures Refers(idempotency[scopeKey := entry], entries[r := entry], idem[scopeKey := r])
  {
  }

  /** The entry a request found, reserved or waits for. */
  ghost predicate Names(entries: Entries, e: nat, entry: IdempotencyEntry) {
    e in entries && entries[e] == entry
  }

  class Handler {
    var idempotency: map<string, IdempotencyEntry>
    var submissions: map<string, string>  // submission id -> IdempotencyKey of its record
    ghost const rs: seq<Request>
    ghost var s: State
    ghost var entries: Entries

    /** The fields show the state of the state machine. */
    ghost predicate Valid()
      reads this, entries.Values
    {
      Inv(rs, s) && Mirrors(entries, s.heap, rs) && Refers(idempotency, entries, s.idem) && submissions == s.subs
    }

    constructor (ghost rs: seq<Request>)
      ensures Valid() && this.rs == rs && s == Initial(|rs|)
    {
      idempotency, submissions := map[], map[];
      this.rs := rs;
      s, entries := Initial(|rs|), map[];
    }

    /** The first locked section. */
    method Lookup(ghost r: nat, scopeKey: string) returns (existing: IdempotencyEntry?)
      requires Valid() && Enabled(rs, s, Look(r)) && scopeKey == rs[r].scope
      modifies this`s
      ensures Valid() && s == Do(rs, old(s), Look(r)) && r < |s.pcs|
      ensures if existing == null then s.pcs[r] == Absent else s.pcs[r].Looked? && Names(entries, s.pcs[r].e, existing)
    {
      hide Inv, Mirrors;
      StepKeepsInv(rs, s, Look(r));
      existing := if scopeKey in idempotency then idempotency[scopeKey] else null;
      s := Do(rs, s, Look(r));
    }

    /** The unlocked read of the entry: a response, or None with the entry still to be waited for (if it has no id) or
        to be compared. */
    method ReadEntry(ghost r: nat, existing: IdempotencyEntry, payloadHash: string) returns (resp: Option<Response>)
      requires Valid() && Enabled(rs, s, ReadId(r)) && payloadHash == rs[r].payload
      requires Names(entries, s.pcs[r].e, existing)
      modifies this`s
      ensures Valid() && s == Do(rs, old(s), ReadId(r)) && r < |s.pcs|
      ensures match resp
              case Some(v) => s.pcs[r] == Done(v)
              case None =>
                s.pcs[r] == if existing.submissionID == "" then Waiting(old(s).pcs[r].e)
                            else CheckRecord(old(s).pcs[r].e)
    {
      hide Inv, Refers;
      StepKeepsInv(rs, s, ReadId(r));
      resp := if existing.submissionID == "" && existing.payloadHash != payloadHash then Some(Conflict) else None;
      s := Do(rs, s, ReadId(r));
    }

    /** The locked look at the record of a finished submission. */
    method CompareRecord(ghost r: nat, existing: IdempotencyEntry, payloadHash: string) returns (resp: Response)
      requires Valid() && Enabled(rs, s, Check(r)) && payloadHash == rs[r].payload
      requires Names(entries, s.pcs[r].e, existing)
      modifies this`s
      ensures Valid() && s == Do(rs, old(s), Check(r)) && At(s, r, Done(resp))
    {
      hide Inv, Refers;
      StepKeepsInv(rs, s, Check(r));
      if existing.submissionID in submissions && submissions[existing.submissionID] == payloadHash {
        resp := Duplicate(existing.submissionID);
      } else {
        resp := Conflict;
      }
      s := Do(rs, s, Check(r));
    }

    /** The waiter after the channel was closed; None: the submission it waited for failed. */
    method AfterDone(ghost r: nat, existing: IdempotencyEntry) returns (resp: Option<Response>)
      requires Valid() && Enabled(rs, s, Wake(r))
      requires Names(entries, s.pcs[r].e, existing)
      modifies this`s
      ensures Valid() && s == Do(rs, old(s), Wake(r))
      ensures At(s, r, if resp.Some? then Done(resp.value) else Woken(old(s).pcs[r].e))
    {
      hide Inv, Refers;
      StepKeepsInv(rs, s, Wake(r));
      resp := if existing.err then None else Some(Duplicate(existing.submissionID));
      s := Do(rs, s, Wake(r));
    }

    /** The waiter's delete, whatever is under the key by now. */
    method ClearScope(ghost r: nat, scopeKey: string)
      requires Valid() && Enabled(rs, s, Clear(r)) && scopeKey == rs[r].scope
      modifies this`s, this`idempotency
      ensures Valid() && s == Do(rs, old(s), Clear(r)) && idempotency == old(idempotency) - {scopeKey}
    {
      hide Inv, Mirrors;
      StepKeepsInv(rs, s, Clear(r));
      idempotency := idempotency - {scopeKey};
      s := Do(rs, s, Clear(r));
    }

    /** The double check and the reservation; the entry, or the response if the scope is taken. */
    method Reserve(ghost r: nat, scopeKey: string, payloadHash: string)
      returns (entry: IdempotencyEntry?, resp: Response)
      requires Valid() && Enabled(rs, s, Step.Reserve(r)) && Request(scopeKey, payloadHash) == rs[r]
      modifies this
      ensures Valid() && s == Do(rs, old(s), Step.Reserve(r))
      ensures entry == null ==> At(s, r, Done(resp)) && unchanged(`idempotency, `submissions, `entries)
      ensures entry != null ==> At(s, r, Submitting) && fresh(entry) && entries == old(entries)[r := entry]
    {
      hide Inv, Do, Mirrors;
      if scopeKey in idempotency {
        resp := Taken(r, scopeKey, payloadHash);
        entry := null;
      } else {
        entry := new IdempotencyEntry(payloadHash);
        resp := Conflict;
        Put(r, scopeKey, entry);
      }
    }

    method Taken(ghost r: nat, scopeKey: string, payloadHash: string) returns (resp: Response)
      requires Valid() && Enabled(rs, s, Step.Reserve(r)) && Request(scopeKey, payloadHash) == rs[r]
      requires scopeKey in idempotency
      modifies this`s
      ensures Valid() && s == Do(rs, old(s), Step.Reserve(r)) && At(s, r, Done(resp))
    {
      hide Inv;
      StepKeepsInv(rs, s, Step.Reserve(r));
      var existing := idempotency[scopeKey];
      resp := Conflict;
      if existing.submissionID != "" {
        if existing.submissionID in submissions && submissions[existing.submissionID] == payloadHash {
          resp := Duplicate(existing.submissionID);
        }
      }
      s := Do(rs, s, Step.Reserve(r));
    }

    method Put(ghost r: nat, scopeKey: string, entry: IdempotencyEntry)
      requires Valid() && Enabled(rs, s, Step.Reserve(r)) && Request(scopeKey, entry.payloadHash) == rs[r]
      requires scopeKey !in idempotency && entry !in entries.Values
      requires entry.submissionID == "" && !entry.err && !entry.done
      modifies this`s, this`idempotency, this`entries
      ensures Valid() && s == Do(rs, old(s), Step.Reserve(r)) && At(s, r, Submitting)
      ensures entries == old(entries)[r := entry]
    {
      hide Inv, Do, Enabled, Mirrors, Refers;
      TakenScopes(idempotency, entries, s.idem, scopeKey);
      ReserveFree(rs, s, r);
      MirrorsGrows(entries, s.heap, rs, r, entry);
      RefersGrows(idempotency, entries, s.idem, scopeKey, r, entry);
      s := Do(rs, s, Step.Reserve(r));
      entries := entries[r := entry];
      idempotency := idempotency[scopeKey := entry];
    }

    /** Three steps in one locked section: set the outcome, close the channel, delete on failure or save. */
    method Publish(ghost r: nat, entry: IdempotencyEntry, scopeKey: string, payloadHash: string,
                   outcome: Option<string>, saved: bool)
      returns (resp: Response)
      requires Valid() && Enabled(rs, s, Return(r, outcome)) && Request(scopeKey, payloadHash) == rs[r]
      requires Names(entries, r, entry)
      modifies this`s, this`idempotency, this`submissions, entry
      ensures Valid() && s == Published(rs, old(s), r, outcome, saved) && At(s, r, Done(resp))
    {
      hide Inv, Mirrors, Refers;
      SetOutcome(r, entry, payloadHash, outcome);
      CloseDone(r, entry);
      resp := Leave(r, entry, scopeKey, saved);
    }

    method SetOutcome(ghost r: nat, entry: IdempotencyEntry, payloadHash: string, outcome: Option<string>)
      requires Valid() && Enabled(rs, s, Return(r, outcome)) && payloadHash == rs[r].payload
      requires Names(entries, r, entry)
      modifies this`s, this`submissions, entry
      ensures Valid() && s == Do(rs, old(s), Return(r, outcome))
    {
      hide Inv, Do, Enabled, Mirrors, Refers;
      if outcome.None? {
        SetError(r, entry);
      } else {
        SetID(r, entry, payloadHash, outcome.value);
      }
    }

    method SetError(ghost r: nat, entry: IdempotencyEntry)
      requires Valid() && Enabled(rs, s, Return(r, None)) && Names(entries, r, entry)
      modifies this`s, entry
      ensures Valid() && s == Do(rs, old(s), Return(r, None))
    {
      hide Inv, Refers, Do, Next, Enabled;
      StepKeepsInv(rs, s, Return(r, None));
      Effect(rs, s, Return(r, None));
      entry.err := true;
      s := Do(rs, s, Return(r, None));
    }

    method SetID(ghost r: nat, entry: IdempotencyEntry, payloadHash: string, id: string)
      requires Valid() && Enabled(rs, s, Return(r, Some(id))) && payloadHash == rs[r].payload
      requires Names(entries, r, entry)
      modifies this`s, this`submissions, entry
      ensures Valid() && s == Do(rs, old(s), Return(r, Some(id)))
    {
      hide Inv, Refers, Do, Next, Enabled;
      StepKeepsInv(rs, s, Return(r, Some(id)));
      Effect(rs, s, Return(r, Some(id)));
      submissions := submissions[id := payloadHash];
      entry.submissionID := id;
      s := Do(rs, s, Return(r, Some(id)));
    }

    method CloseDone(ghost r: nat, entry: IdempotencyEntry)
      requires Valid() && Enabled(rs, s, Close(r)) && Names(entries, r, entry)
      modifies this`s, entry
      ensures Valid() && s == Do(rs, old(s), Close(r))
    {
      hide Inv, Refers, Do, Next, Enabled;
      StepKeepsInv(rs, s, Close(r));
      Effect(rs, s, Close(r));
      entry.done := true;
      s := Do(rs, s, Close(r));
    }

    method Leave(ghost r: nat, entry: IdempotencyEntry, scopeKey: string, saved: bool) returns (resp: Response)
      requires Valid() && Enabled(rs, s, Finish(r, saved)) && Names(entries, r, entry) && scopeKey == rs[r].scope
      modifies this`s, this`idempotency
      ensures Valid() && s == Do(rs, old(s), Finish(r, saved)) && At(s, r, Done(resp))
    {
      hide Inv;
      StepKeepsInv(rs, s, Finish(r, saved));
      if entry.err {
        idempotency := idempotency - {scopeKey};
        resp := SubmitFailed;
      } else {
        resp := Accepted(entry.submissionID, saved);
      }
      s := Do(rs, s, Finish(r, saved));
    }
  }

  function Published(rs: seq<Request>, s: State, r: nat, outcome: Option<string>, saved: bool): State
    requires Enabled(rs, s, Return(r, outcome))
  {
    Do(rs, Do(rs, Do(rs, s, Return(r, outcome)), Close(r)), Finish(r, saved))
  }

  /** Reserving a free scope adds the request's blank entry, which it cannot have had before. */
  lemma {:induction false} ReserveFree(rs: seq<Request>, s: State, r: nat)
    requires Inv(rs, s) && Enabled(rs, s, Reserve(r)) && rs[r].scope !in s.idem
    ensures var t := Do(rs, s, Reserve(r));
            && Inv(rs, t) && t.idem == s.idem[rs[r].scope := r] && t.heap == s.heap[r := Entry("", false, false)]
            && t.subs == s.subs && At(t, r, Submitting) && r < |rs|
            && r !in s.heap
  {
    InvGivesActor(rs, s, Reserve(r));
    StepKeepsInv(rs, s, Reserve(r));
    hide Inv;
  }
}
