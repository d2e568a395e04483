/** Safety and progress of the submission protocol over all interleavings. */
module SubmissionTheorems {
  import opened Wrappers
  import opened Submissions

  lemma Extend(rs: seq<Request>, steps: seq<Step>, step: Step)
    requires Exec(rs, steps).Some? && Enabled(rs, Exec(rs, steps).value, step)
    ensures Exec(rs, steps + [step]) == Some(Do(rs, Exec(rs, steps).value, step))
  {
    assert (steps + [step])[..|steps|] == steps;
  }

  // --- at most once ---

  /** A waiter's delete takes away nothing but the entry it waited on. */
  predicate Harmless(rs: seq<Request>, s: State, step: Step)
    requires Enabled(rs, s, step)
  {
    step.Clear? ==>
      var scope := rs[step.r].scope;
      scope in s.idem ==> s.idem[scope] == s.pcs[step.r].e
  }

  /** A run in which every delete was harmless when it was made. */
  ghost predicate HarmlessRun(rs: seq<Request>, steps: seq<Step>) {
    steps != [] ==>
      var before, step := steps[..|steps| - 1], steps[|steps| - 1];
      && HarmlessRun(rs, before)
      && Exec(rs, before).Some? && Enabled(rs, Exec(rs, before).value, step)
      && Harmless(rs, Exec(rs, before).value, step)
  }

  /** In flight, or accepted. */
  predicate Live(s: State, e: nat) {
    e in s.heap && e < |s.pcs| && (Owns(s.pcs[e]) || !s.heap[e].failed)
  }

  ghost predicate LiveReserved(rs: seq<Request>, s: State) {
    forall e: nat :: e < |rs| && Live(s, e) ==> rs[e].scope in s.idem && s.idem[rs[e].scope] == e
  }

  lemma OwnerIsLive(rs: seq<Request>, s: State, r: nat)
    requires Inv(rs, s) && r < |rs| == |s.pcs| && Owns(s.pcs[r])
    ensures Live(s, r)
  {
  }

  /** Only a reservation makes an entry live. */
  lemma WasLive(rs: seq<Request>, s: State, step: Step, e: nat)
    requires Inv(rs, s) && Enabled(rs, s, step) && e < |rs| && Live(Do(rs, s, step), e) && e in s.heap
    ensures Live(s, e)
  {
    assert EntryOk(rs, s, e);
    hide Do, Next, Inv, Shape;
    Effect(rs, s, step);
  }

  /** The owner's own failure path deletes blindly too, but needs no hypothesis. */
  lemma {:induction false} StepKeepsLive(rs: seq<Request>, s: State, step: Step, e: nat)
    requires Inv(rs, s) && LiveReserved(rs, s) && Enabled(rs, s, step) && Harmless(rs, s, step)
    requires var t := Do(rs, s, step); e < |rs| && Live(t, e)
    ensures var t := Do(rs, s, step); rs[e].scope in t.idem && t.idem[rs[e].scope] == e
  {
    hide Do, Next, Inv, Shape, EntryOk;
    Effect(rs, s, step);
    InvGivesActor(rs, s, step);
    if step.Clear? {
      ClearedIsDead(rs, s, step.r);
    }
    if Owns(s.pcs[step.r]) {
      OwnerIsLive(rs, s, step.r);
    }
    if e in s.heap {
      WasLive(rs, s, step, e);
    }
  }

  lemma {:induction false} StepKeepsLiveReserved(rs: seq<Request>, s: State, step: Step)
    requires Inv(rs, s) && LiveReserved(rs, s) && Enabled(rs, s, step) && Harmless(rs, s, step)
    ensures LiveReserved(rs, Do(rs, s, step))
  {
    hide Inv, Do, Enabled, Live;
    forall e: nat | e < |rs| && Live(Do(rs, s, step), e)
      ensures var t := Do(rs, s, step); rs[e].scope in t.idem && t.idem[rs[e].scope] == e
    {
      StepKeepsLive(rs, s, step, e);
    }
  }

  /** A waiter that woke on an error and gets the lock finds the entry it waited on already gone from the map. So its
      delete is harmless exactly when it does nothing. */
  lemma ClearedIsDead(rs: seq<Request>, s: State, r: nat)
    requires Inv(rs, s) && Enabled(rs, s, Clear(r))
    ensures var e := s.pcs[r].e;
            && !Live(s, e)
            && (rs[r].scope in s.idem ==> s.idem[rs[r].scope] != e)
            && (Harmless(rs, s, Clear(r)) <==> rs[r].scope !in s.idem)
  {
    assert RefOk(rs, s, r);
    assert EntryOk(rs, s, s.pcs[r].e);
  }

  lemma {:induction false} HarmlessRunsKeepLiveReserved(rs: seq<Request>, steps: seq<Step>)
    requires Exec(rs, steps).Some? && HarmlessRun(rs, steps)
    ensures LiveReserved(rs, Exec(rs, steps).value)
  {
    if steps != [] {
      var before := steps[..|steps| - 1];
      HarmlessRunsKeepLiveReserved(rs, before);
      RunsKeepInv(rs, before);
      StepKeepsLiveReserved(rs, Exec(rs, before).value, steps[|steps| - 1]);
    }
  }

  /** In every interleaving in which no waiter's delete removes a newer entry: Submit calls for one scope never overlap,
      at most one is ever accepted, and none is under way once one was. */
  lemma {:induction false} AtMostOnce(rs: seq<Request>, steps: seq<Step>)
    requires Exec(rs, steps).Some? && HarmlessRun(rs, steps)
    ensures var s := Exec(rs, steps).value;
            && |s.pcs| == |rs|
            && (forall a :: a in s.accepted ==> a.e < |rs|)
            && (forall p: nat, q: nat | p < |rs| && q < |rs| && s.pcs[p] == Submitting && s.pcs[q] == Submitting ::
                  rs[p].scope == rs[q].scope ==> p == q)
            && (forall i, j | 0 <= i < |s.accepted| && 0 <= j < |s.accepted| ::
                  rs[s.accepted[i].e].scope == rs[s.accepted[j].e].scope ==> i == j)
            && (forall a, q: nat | a in s.accepted && q < |rs| && s.pcs[q] == Submitting ::
                  rs[a.e].scope != rs[q].scope)
  {
    RunsKeepInv(rs, steps);
    HarmlessRunsKeepLiveReserved(rs, steps);
    var s := Exec(rs, steps).value;
    assert forall q: nat :: q < |rs| && s.pcs[q] == Submitting ==> Live(s, q);
    assert forall a :: a in s.accepted ==> Live(s, a.e);
    hide Exec, EntriesOk, RefsOk, IdemOk, LockOk, HarmlessRun;
    forall i, j | 0 <= i < |s.accepted| && 0 <= j < |s.accepted|
                  && rs[s.accepted[i].e].scope == rs[s.accepted[j].e].scope
      ensures i == j
    {
      assert s.accepted[i] in s.accepted && s.accepted[j] in s.accepted;
      assert s.accepted[i].e == s.accepted[j].e;
    }
  }

  // --- duplicates ---

  /** CSOJ never returns the same submission id twice. */
  ghost predicate FreshReturns(steps: seq<Step>) {
    forall i, j :: 0 <= i < j < |steps| && steps[i].Return? && steps[j].Return? && steps[i].outcome.Some? ==>
      steps[i].outcome != steps[j].outcome
  }

  ghost predicate AcceptedBefore(s: State, id: string) {
    exists a :: a in s.accepted && a.id == id
  }

  /** CSOJ accepted a submission of the same scope and payload under that id. */
  ghost predicate AcceptedAlike(rs: seq<Request>, s: State, req: Request, id: string) {
    exists e: nat :: e < |rs| && rs[e] == req && Accept(e, id) in s.accepted
  }

  /** Records carry the payload they were accepted with, and every "duplicate" answer names an accepted submission of
      the same scope and payload. */
  ghost predicate DuplicatesOk(rs: seq<Request>, s: State) {
    RecordsOk(rs, s) && AnswersOk(rs, s)
  }

  ghost predicate RecordsOk(rs: seq<Request>, s: State) {
    forall a :: a in s.accepted ==> a.e < |rs| && a.id in s.subs && s.subs[a.id] == rs[a.e].payload
  }

  ghost predicate AnswersOk(rs: seq<Request>, s: State) {
    forall r: nat :: r < |s.pcs| == |rs| && s.pcs[r].Done? && s.pcs[r].resp.Duplicate? ==>
      AcceptedAlike(rs, s, rs[r], s.pcs[r].resp.id)
  }

  lemma StepAccepts(rs: seq<Request>, s: State, step: Step, a: Accept)
    requires Enabled(rs, s, step)
    ensures a in Do(rs, s, step).accepted
            <==> a in s.accepted || step == Return(a.e, Some(a.id))
  {
    hide Do, Next;
    Effect(rs, s, step);
  }

  /** Nobody but the request that steps moves, and records are only ever added for new ids. */
  lemma StepIsLocal(rs: seq<Request>, s: State, step: Step)
    requires Enabled(rs, s, step)
    ensures var t := Do(rs, s, step);
            && |t.pcs| == |rs| && (forall r: nat :: r < |rs| && r != step.r ==> t.pcs[r] == s.pcs[r])
            && t.subs == if step.Return? && step.outcome.Some?
                         then s.subs[step.outcome.value := rs[step.r].payload]
                         else s.subs
  {
    hide Do, Next;
    Effect(rs, s, step);
  }

  lemma StepKeepsRecords(rs: seq<Request>, s: State, step: Step)
    requires RecordsOk(rs, s) && Enabled(rs, s, step)
    requires step.Return? && step.outcome.Some? ==> !AcceptedBefore(s, step.outcome.value)
    ensures RecordsOk(rs, Do(rs, s, step))
  {
    StepIsLocal(rs, s, step);
    hide Do;
    forall a | a in Do(rs, s, step).accepted
      ensures a in s.accepted || step == Return(a.e, Some(a.id))
      ensures a in s.accepted && step.Return? ==> Some(a.id) != step.outcome
    {
      StepAccepts(rs, s, step, a);
      assert a in s.accepted ==> AcceptedBefore(s, a.id);
    }
  }

  lemma StepKeepsAnswers(rs: seq<Request>, s: State, step: Step)
    requires Inv(rs, s) && DuplicatesOk(rs, s) && Enabled(rs, s, step)
    ensures AnswersOk(rs, Do(rs, s, step))
  {
    StepIsLocal(rs, s, step);
    hide Inv, Do, Enabled, AcceptedAlike, RecordsOk;
    var t := Do(rs, s, step);
    forall a | a in s.accepted ensures a in t.accepted {
      StepAccepts(rs, s, step, a);
    }
    forall r: nat | r < |t.pcs| && t.pcs[r].Done? && t.pcs[r].resp.Duplicate?
      ensures AcceptedAlike(rs, t, rs[r], t.pcs[r].resp.id)
    {
      if r == step.r {
        NewDuplicate(rs, s, step);
      }
      AcceptedStays(rs, s, t, rs[r], t.pcs[r].resp.id);
    }
  }

  lemma AcceptedStays(rs: seq<Request>, s: State, t: State, req: Request, id: string)
    requires AcceptedAlike(rs, s, req, id) && forall a :: a in s.accepted ==> a in t.accepted
    ensures AcceptedAlike(rs, t, req, id)
  {
  }

  /** A duplicate answer to `req` gives the id of entry `e`, which is of the same scope. */
  ghost predicate Answers(rs: seq<Request>, s: State, req: Request, id: string, e: nat) {
    && e in s.heap && e < |rs| && rs[e].scope == req.scope && id == s.heap[e].submissionID
    && (id != "" || (s.heap[e].closed && !s.heap[e].failed))
    && (rs[e] == req || (id in s.subs && s.subs[id] == req.payload))
  }

  lemma ReaderAnswers(rs: seq<Request>, s: State, step: Step)
    requires Shape(rs, s) && Enabled(rs, s, step) && Quiet(step) && RefOk(rs, s, step.r)
    requires Next(rs, s, step).Done? && Next(rs, s, step).resp.Duplicate?
    ensures Ref(s.pcs[step.r]).Some?
    ensures Answers(rs, s, rs[step.r], Next(rs, s, step).resp.id, Ref(s.pcs[step.r]).value)
  {
  }

  lemma ReserverAnswers(rs: seq<Request>, s: State, r: nat)
    requires Shape(rs, s) && Enabled(rs, s, Reserve(r)) && (rs[r].scope in s.idem ==> ScopeOk(rs, s, rs[r].scope))
    requires var pc := Do(rs, s, Reserve(r)).pcs[r]; pc.Done? && pc.resp.Duplicate?
    ensures rs[r].scope in s.idem
    ensures Answers(rs, s, rs[r], Do(rs, s, Reserve(r)).pcs[r].resp.id, s.idem[rs[r].scope])
  {
  }

  lemma AnswerWasAccepted(rs: seq<Request>, s: State, req: Request, id: string, e: nat)
    requires Shape(rs, s) && RecordsOk(rs, s) && Answers(rs, s, req, id, e) && EntryOk(rs, s, e)
    ensures AcceptedAlike(rs, s, req, id)
  {
    assert Accept(e, id) in s.accepted;
    assert rs[e] == req;
  }

  lemma NewDuplicate(rs: seq<Request>, s: State, step: Step)
    requires Inv(rs, s) && DuplicatesOk(rs, s) && Enabled(rs, s, step)
    requires var pc := Do(rs, s, step).pcs[step.r]; pc.Done? && pc.resp.Duplicate?
    ensures AcceptedAlike(rs, s, rs[step.r], Do(rs, s, step).pcs[step.r].resp.id)
  {
    Effect(rs, s, step);
    assert RefOk(rs, s, step.r);
    assert rs[step.r].scope in s.idem ==> ScopeOk(rs, s, rs[step.r].scope);
    hide Do, Enabled, AnswersOk, RecordsOk, RefOk, ScopeOk, EntryOk, Answers, AcceptedAlike, Next;
    var e;
    if Quiet(step) {
      ReaderAnswers(rs, s, step);
      e := Ref(s.pcs[step.r]).value;
    } else {
      ReserverAnswers(rs, s, step.r);
      e := s.idem[rs[step.r].scope];
    }
    AnswerWasAccepted(rs, s, rs[step.r], Do(rs, s, step).pcs[step.r].resp.id, e);
  }

  lemma {:induction false} AcceptedWereReturned(rs: seq<Request>, steps: seq<Step>, a: Accept)
    requires Exec(rs, steps).Some? && a in Exec(rs, steps).value.accepted
    ensures exists n :: 0 <= n < |steps| && steps[n] == Return(a.e, Some(a.id))
  {
    var before := steps[..|steps| - 1];
    StepAccepts(rs, Exec(rs, before).value, steps[|steps| - 1], a);
    hide Do, Enabled;
    if a in Exec(rs, before).value.accepted {
      AcceptedWereReturned(rs, before, a);
      var n :| 0 <= n < |before| && before[n] == Return(a.e, Some(a.id));
      assert steps[n] == before[n];
    } else {
      assert steps[|steps| - 1] == Return(a.e, Some(a.id));
    }
  }

  /** In every interleaving, even with the unguarded deletes: a "duplicate" answer names a submission CSOJ accepted
      for the same scope and the same payload. */
  lemma {:induction false} DuplicatesAreSound(rs: seq<Request>, steps: seq<Step>)
    requires Exec(rs, steps).Some? && FreshReturns(steps)
    ensures DuplicatesOk(rs, Exec(rs, steps).value)
  {
    if steps != [] {
      var before, step := steps[..|steps| - 1], steps[|steps| - 1];
      assert FreshReturns(before);
      DuplicatesAreSound(rs, before);
      RunsKeepInv(rs, before);
      var s := Exec(rs, before).value;
      if step.Return? && step.outcome.Some? && AcceptedBefore(s, step.outcome.value) {
        var a :| a in s.accepted && a.id == step.outcome.value;
        AcceptedWereReturned(rs, before, a);
      }
      StepKeepsRecords(rs, s, step);
      StepKeepsAnswers(rs, s, step);
    }
  }

  // --- the done channel ---

  /** In every interleaving: a done channel is closed at most once, and only after the entry's outcome was set; until
      then its owner is in Submit or holds the lock, and is no waiter. */
  lemma {:induction false} DoneClosesOnce(rs: seq<Request>, steps: seq<Step>, e: nat)
    requires Exec(rs, steps).Some? && e in Exec(rs, steps).value.heap
    ensures var s := Exec(rs, steps).value;
            && multiset(s.closes)[e] == (if s.heap[e].closed then 1 else 0)
            && (s.heap[e].closed ==> s.heap[e].failed || Accept(e, s.heap[e].submissionID) in s.accepted)
            && e < |s.pcs| && (!s.heap[e].closed ==> Owns(s.pcs[e]))
  {
    RunsKeepInv(rs, steps);
    var s := Exec(rs, steps).value;
    assert EntryOk(rs, s, e);
    hide Exec;
    CountDistinct(s.closes, e);
  }

  lemma {:induction false} CountDistinct(closes: seq<nat>, e: nat)
    requires forall i, j :: 0 <= i < j < |closes| ==> closes[i] != closes[j]
    ensures multiset(closes)[e] == if e in closes then 1 else 0
  {
    if closes != [] {
      var init, last := closes[..|closes| - 1], closes[|closes| - 1];
      assert closes == init + [last];
      CountDistinct(init, e);
    }
  }

  // --- progress ---

  /** In every reachable state with an unfinished request some request can step without being cancelled. Nobody waits
      for ever: an entry a waiter is blocked on has its owner in Submit, in the locked section, or past closing the
      channel. */
  lemma DeadlockFree(rs: seq<Request>, steps: seq<Step>, r: nat) returns (step: Step)
    requires Exec(rs, steps).Some? && r < |rs| && !Exec(rs, steps).value.pcs[r].Done?
    ensures !step.Cancel? && Enabled(rs, Exec(rs, steps).value, step)
    ensures Exec(rs, steps + [step]).Some?
  {
    RunsKeepInv(rs, steps);
    var s := Exec(rs, steps).value;
    if s.lock.Some? {
      var o := s.lock.value;
      assert s.pcs[o] == Publishing || s.pcs[o] == Closing;
      step := if s.pcs[o] == Publishing then Close(o) else Finish(o, true);
    } else {
      assert RefOk(rs, s, r);
      match s.pcs[r]
      case Start => step := Look(r);
      case Looked(_) => step := ReadId(r);
      case CheckRecord(_) => step := Check(r);
      case Woken(_) => step := Clear(r);
      case Absent => step := Reserve(r);
      case Submitting => step := Return(r, None);
      case Waiting(e) =>
        assert EntryOk(rs, s, e);
        step := if s.heap[e].closed then Wake(r) else Return(e, None);
      case _ => assert false;
    }
    Extend(rs, steps, step);
  }

  /** Steps a request still has before it at most. */
  function Rank(pc: Pc): nat {
    match pc
    case Start => 5
    case Looked(_) => 4
    case CheckRecord(_) => 1
    case Waiting(_) => 2
    case Woken(_) => 1
    case Absent => 4
    case Submitting => 3
    case Publishing => 2
    case Closing => 1
    case Done(_) => 0
  }

  function Total(pcs: seq<Pc>): nat {
    if pcs == [] then 0 else Total(pcs[..|pcs| - 1]) + Rank(pcs[|pcs| - 1])
  }

  lemma {:induction false} TotalUpdate(pcs: seq<Pc>, r: nat, pc: Pc)
    requires r < |pcs|
    ensures Total(pcs[r := pc]) + Rank(pcs[r]) == Total(pcs) + Rank(pc)
  {
    var init := pcs[..|pcs| - 1];
    if r == |pcs| - 1 {
      assert pcs[r := pc][..|pcs| - 1] == init;
    } else {
      TotalUpdate(init, r, pc);
      assert pcs[r := pc][..|pcs| - 1] == init[r := pc];
    }
  }

  lemma {:induction false} TotalStart(n: nat)
    ensures Total(Initial(n).pcs) == 5 * n
  {
    if n > 0 {
      TotalStart(n - 1);
      assert Initial(n).pcs[..n - 1] == Initial(n - 1).pcs;
    }
  }

  lemma StepDescends(rs: seq<Request>, s: State, step: Step)
    requires Enabled(rs, s, step)
    ensures Total(Do(rs, s, step).pcs) < Total(s.pcs)
  {
    hide Do, Total;
    Effect(rs, s, step);
    TotalUpdate(s.pcs, step.r, Do(rs, s, step).pcs[step.r]);
  }

  /** n requests take at most 5n steps altogether, whatever the interleaving. */
  lemma {:induction false} RunsAreBounded(rs: seq<Request>, steps: seq<Step>)
    requires Exec(rs, steps).Some?
    ensures |steps| + Total(Exec(rs, steps).value.pcs) <= 5 * |rs|
  {
    if steps == [] {
      TotalStart(|rs|);
    } else {
      RunsAreBounded(rs, steps[..|steps| - 1]);
      StepDescends(rs, Exec(rs, steps[..|steps| - 1]).value, steps[|steps| - 1]);
    }
  }

  // --- the hypothesis of AtMostOnce is needed ---

  /** From Submit to a second acceptance: the request is accepted and leaves, everybody else stays where they are. */
  lemma {:induction false} Succeed(rs: seq<Request>, steps: seq<Step>, q: nat, id: string) returns (more: seq<Step>)
    requires Exec(rs, steps).Some? && q < |rs| == |Exec(rs, steps).value.pcs|
    requires var s := Exec(rs, steps).value; s.pcs[q] == Submitting && q in s.heap && s.lock == None
    ensures Exec(rs, more).Some? && |Exec(rs, more).value.pcs| == |rs|
    ensures var s, t := Exec(rs, steps).value, Exec(rs, more).value;
            && t.lock == None && t.accepted == s.accepted + [Accept(q, id)]
            && forall x: nat :: x < |rs| && x != q ==> t.pcs[x] == s.pcs[x] && (x in s.heap ==> x in t.heap)
  {
    Extend(rs, steps, Return(q, Some(id)));
    var two := steps + [Return(q, Some(id))];
    Extend(rs, two, Close(q));
    Extend(rs, two + [Close(q)], Finish(q, true));
    more := two + [Close(q)] + [Finish(q, true)];
    hide Exec;
  }

  /** After the delete the scope is free, every request of it may start, and all entries it has exist. */
  lemma ClearFrees(rs: seq<Request>, s: State, r: nat, q: nat)
    requires Inv(rs, s) && Enabled(rs, s, Clear(r)) && r != q && q < |rs| && rs[q].scope == rs[r].scope
    ensures var t := Do(rs, s, Clear(r));
            && t.lock == None && rs[q].scope !in t.idem && t.heap == s.heap && t.accepted == s.accepted
            && t.pcs == s.pcs[r := Done(PreviousFailed)] && forall k :: k in t.idem ==> t.idem[k] in t.heap
  {
  }

  /** After a harmful delete a new request of the scope walks through to Submit. */
  lemma {:induction false} ReserveAgain(rs: seq<Request>, steps: seq<Step>, r: nat, q: nat) returns (more: seq<Step>)
    requires Exec(rs, steps).Some? && q < |rs| && r != q
    requires var s := Exec(rs, steps).value;
             && Inv(rs, s) && Enabled(rs, s, Clear(r)) && s.pcs[q] == Start && rs[q].scope == rs[r].scope
    ensures Exec(rs, more).Some? && |Exec(rs, more).value.pcs| == |rs|
    ensures var s, t := Exec(rs, steps).value, Exec(rs, more).value;
            && t.lock == None && t.accepted == s.accepted && t.pcs[q] == Submitting && q in t.heap
            && forall x: nat :: x < |rs| && x != q && x != r ==> t.pcs[x] == s.pcs[x] && (x in s.heap ==> x in t.heap)
  {
    hide Exec, Inv;
    ClearFrees(rs, Exec(rs, steps).value, r, q);
    Extend(rs, steps, Clear(r));
    var one := steps + [Clear(r)];
    Extend(rs, one, Look(q));
    var two := one + [Look(q)];
    Extend(rs, two, Reserve(q));
    more := two + [Reserve(q)];
  }

  /** The newer entry a harmful delete takes away: its owner is inside Submit, or was accepted. */
  lemma {:induction false} HarmedEntry(rs: seq<Request>, s: State, r: nat) returns (e: nat)
    requires Inv(rs, s) && Enabled(rs, s, Clear(r)) && !Harmless(rs, s, Clear(r))
    ensures e < |rs| == |s.pcs| && e != r && rs[e].scope == rs[r].scope && e in s.heap && s.lock == None
    ensures s.pcs[e] != Start && (s.pcs[e] != Submitting ==> Accept(e, s.heap[e].submissionID) in s.accepted)
  {
    e := s.idem[rs[r].scope];
    assert EntryOk(rs, s, e);
  }

  ghost predicate AcceptedTwice(rs: seq<Request>, s: State, scope: string) {
    exists a, b :: a in s.accepted && b in s.accepted && a.e != b.e && a.e < |rs| && b.e < |rs|
                   && rs[a.e].scope == scope && rs[b.e].scope == scope
  }

  /** From any reachable state in which a waiter is about to delete a newer entry, one more request of the same scope is
      enough: some continuation has two accepted submissions for the scope. */
  lemma {:induction false} HarmfulClearBreaks(rs: seq<Request>, steps: seq<Step>, r: nat, q: nat, id1: string,
                                              id2: string) returns (more: seq<Step>)
    requires Exec(rs, steps).Some? && r < |rs| && q < |rs| && r != q && rs[q].scope == rs[r].scope
    requires var s := Exec(rs, steps).value;
             Enabled(rs, s, Clear(r)) && !Harmless(rs, s, Clear(r)) && s.pcs[q] == Start
    ensures Exec(rs, more).Some?
    ensures var t := Exec(rs, more).value;
            AcceptedTwice(rs, t, rs[r].scope)
  {
    hide Exec, Inv, Enabled, Harmless;
    RunsKeepInv(rs, steps);
    var s := Exec(rs, steps).value;
    var e := HarmedEntry(rs, s, r);
    more := ReserveAgain(rs, steps, r, q);
    if s.pcs[e] == Submitting {
      more := Succeed(rs, more, e, id1);
    }
    more := Succeed(rs, more, q, id2);
    var t := Exec(rs, more).value;
    var a := if s.pcs[e] == Submitting then Accept(e, id1) else Accept(e, s.heap[e].submissionID);
    assert a in t.accepted && Accept(q, id2) in t.accepted;
  }

  /** Nobody but the requests named has moved. */
  ghost predicate Others(s: State, moved: set<nat>) {
    forall y: nat :: y < |s.pcs| && y !in moved ==> s.pcs[y] == Start
  }

  /** `e` reserves and `r` waits for it. */
  lemma WaitFor(rs: seq<Request>, e: nat, r: nat) returns (steps: seq<Step>)
    requires e < |rs| && r < |rs| && e != r && rs[e] == rs[r]
    ensures Exec(rs, steps).Some?
    ensures var s := Exec(rs, steps).value;
            && |s.pcs| == |rs| && s.pcs[e] == Submitting && s.pcs[r] == Waiting(e) && Others(s, {e, r})
            && s.heap == map[e := Entry("", false, false)] && s.idem == map[rs[e].scope := e] && s.lock == None
  {
    steps := [];
    Extend(rs, steps, Look(e));
    steps := steps + [Look(e)];
    Extend(rs, steps, Reserve(e));
    steps := steps + [Reserve(e)];
    hide Exec;
    Extend(rs, steps, Look(r));
    steps := steps + [Look(r)];
    Extend(rs, steps, ReadId(r));
    steps := steps + [ReadId(r)];
  }

  /** `e` fails, and `r` wakes before `e` has deleted its entry. */
  lemma FailAndWake(rs: seq<Request>, e: nat, r: nat) returns (steps: seq<Step>)
    requires e < |rs| && r < |rs| && e != r && rs[e] == rs[r]
    ensures Exec(rs, steps).Some?
    ensures var s := Exec(rs, steps).value;
            && |s.pcs| == |rs| && s.pcs[e].Done? && s.pcs[r] == Woken(e) && Others(s, {e, r})
            && s.heap == map[e := Entry("", true, true)] && s.idem == map[] && s.lock == None
  {
    hide Exec;
    steps := WaitFor(rs, e, r);
    Extend(rs, steps, Return(e, None));
    steps := steps + [Return(e, None)];
    Extend(rs, steps, Close(e));
    steps := steps + [Close(e)];
    steps := WakeAndLeave(rs, steps, e, r);
  }

  lemma WakeAndLeave(rs: seq<Request>, steps: seq<Step>, e: nat, r: nat) returns (more: seq<Step>)
    requires Exec(rs, steps).Some? && e < |rs| && r < |rs| && e != r
    requires var s := Exec(rs, steps).value;
             && |s.pcs| == |rs| && s.pcs[e] == Closing && s.pcs[r] == Waiting(e) && Others(s, {e, r})
             && s.heap == map[e := Entry("", true, true)] && s.idem == map[rs[e].scope := e]
    ensures Exec(rs, more).Some?
    ensures var s := Exec(rs, more).value;
            && |s.pcs| == |rs| && s.pcs[e].Done? && s.pcs[r] == Woken(e) && Others(s, {e, r})
            && s.heap == map[e := Entry("", true, true)] && s.idem == map[] && s.lock == None
  {
    hide Exec;
    Extend(rs, steps, Wake(r));
    more := steps + [Wake(r)];
    Extend(rs, more, Finish(e, true));
    more := more + [Finish(e, true)];
  }

  /** And such a state is reached: the first of two equal requests fails while the second waits for it, and a third of
      their scope comes after it. */
  lemma HarmfulClearHappens(rs: seq<Request>, e: nat, r: nat, x: nat) returns (steps: seq<Step>)
    requires e < |rs| && r < |rs| && x < |rs| && e != r && x != e && x != r
    requires rs[e] == rs[r] && rs[x].scope == rs[r].scope
    ensures Exec(rs, steps).Some?
    ensures var s := Exec(rs, steps).value;
            && Enabled(rs, s, Clear(r)) && !Harmless(rs, s, Clear(r)) && s.pcs[x] == Submitting && x in s.heap
            && forall q: nat :: q < |rs| && q != e && q != r && q != x ==> s.pcs[q] == Start
  {
    steps := FailAndWake(rs, e, r);
    hide Exec;
    Extend(rs, steps, Look(x));
    steps := steps + [Look(x)];
    Extend(rs, steps, Reserve(x));
    steps := steps + [Reserve(x)];
  }

  // --- exactly which requests can have their scope accepted twice ---

  predicate Four(rs: seq<Request>, scope: string, e: nat, r: nat, x: nat, q: nat) {
    && e < |rs| && r < |rs| && x < |rs| && q < |rs|
    && e != r && e != x && e != q && r != x && r != q && x != q
    && rs[e] == rs[r] && rs[e].scope == scope && rs[x].scope == scope && rs[q].scope == scope
  }

  /** Four requests of the scope, two of them with the same payload. */
  ghost predicate FourWithTwins(rs: seq<Request>, scope: string) {
    exists e: nat, r: nat, x: nat, q: nat :: Four(rs, scope, e, r, x, q)
  }

  /** A waiter of the scope has left after the failure of its twin. */
  ghost predicate SpoiltBy(rs: seq<Request>, s: State, scope: string, e: nat, r: nat) {
    && e < |rs| && r < |rs| == |s.pcs| && e != r && rs[e] == rs[r] && rs[e].scope == scope
    && e in s.heap && s.heap[e].failed && r !in s.heap && s.pcs[r] == Done(PreviousFailed)
  }

  ghost predicate Spoilt(rs: seq<Request>, s: State, scope: string) {
    exists e: nat, r: nat :: SpoiltBy(rs, s, scope, e, r)
  }

  /** What every run keeps, hypothesis or not: an entry in flight or accepted is under its scope key, or the scope is
      spoilt. */
  ghost predicate ReservedOrSpoilt(rs: seq<Request>, s: State) {
    forall e: nat :: e < |rs| && Live(s, e) ==>
      (rs[e].scope in s.idem && s.idem[rs[e].scope] == e) || Spoilt(rs, s, rs[e].scope)
  }

  lemma FailedStays(rs: seq<Request>, s: State, step: Step, e: nat)
    requires Inv(rs, s) && Enabled(rs, s, step) && e in s.heap && s.heap[e].failed
    ensures e in Do(rs, s, step).heap && Do(rs, s, step).heap[e].failed
  {
    InvGivesActor(rs, s, step);
    hide Do, Next, Inv;
    Effect(rs, s, step);
  }

  lemma SpoiltStays(rs: seq<Request>, s: State, step: Step, scope: string)
    requires Inv(rs, s) && Enabled(rs, s, step) && Spoilt(rs, s, scope)
    ensures Spoilt(rs, Do(rs, s, step), scope)
  {
    hide Do, Next, Inv;
    var e: nat, r: nat :| SpoiltBy(rs, s, scope, e, r);
    Effect(rs, s, step);
    FailedStays(rs, s, step, e);
    assert SpoiltBy(rs, Do(rs, s, step), scope, e, r);
  }

  lemma ClearSpoils(rs: seq<Request>, s: State, r: nat)
    requires Inv(rs, s) && Enabled(rs, s, Clear(r))
    ensures Spoilt(rs, Do(rs, s, Clear(r)), rs[r].scope)
  {
    assert RefOk(rs, s, r);
    InvGivesActor(rs, s, Clear(r));
    assert SpoiltBy(rs, Do(rs, s, Clear(r)), rs[r].scope, s.pcs[r].e, r);
  }

  lemma StepKeepsReservedOrSpoilt(rs: seq<Request>, s: State, step: Step, e: nat)
    requires Inv(rs, s) && ReservedOrSpoilt(rs, s) && Enabled(rs, s, step)
    requires e < |rs| && Live(Do(rs, s, step), e)
    ensures var t := Do(rs, s, step);
            (rs[e].scope in t.idem && t.idem[rs[e].scope] == e) || Spoilt(rs, t, rs[e].scope)
  {
    hide Do, Next, Inv, Shape, EntryOk, Spoilt;
    Effect(rs, s, step);
    InvGivesActor(rs, s, step);
    if Owns(s.pcs[step.r]) {
      OwnerIsLive(rs, s, step.r);
    }
    if e in s.heap {
      WasLive(rs, s, step, e);
    }
    if Spoilt(rs, s, rs[e].scope) {
      SpoiltStays(rs, s, step, rs[e].scope);
    }
    if step.Clear? {
      ClearSpoils(rs, s, step.r);
    }
  }

  lemma {:induction false} RunsKeepReservedOrSpoilt(rs: seq<Request>, steps: seq<Step>)
    requires Exec(rs, steps).Some?
    ensures ReservedOrSpoilt(rs, Exec(rs, steps).value)
  {
    if steps != [] {
      var before, step := steps[..|steps| - 1], steps[|steps| - 1];
      RunsKeepReservedOrSpoilt(rs, before);
      RunsKeepInv(rs, before);
      var s := Exec(rs, before).value;
      hide Inv, Do, Enabled, Live, Spoilt;
      forall e: nat | e < |rs| && Live(Do(rs, s, step), e)
        ensures var t := Do(rs, s, step);
                (rs[e].scope in t.idem && t.idem[rs[e].scope] == e) || Spoilt(rs, t, rs[e].scope)
      {
        StepKeepsReservedOrSpoilt(rs, s, step, e);
      }
    }
  }

  /** The scope has two Submit calls at once. */
  ghost predicate Overlaps(rs: seq<Request>, s: State, scope: string) {
    exists p: nat, q: nat :: p < |rs| && q < |rs| == |s.pcs| && p != q
                             && s.pcs[p] == Submitting && s.pcs[q] == Submitting
                             && rs[p].scope == scope && rs[q].scope == scope
  }

  /** A Submit of the scope is under way although one was accepted. */
  ghost predicate SubmitsAgain(rs: seq<Request>, s: State, scope: string) {
    exists a, q: nat :: a in s.accepted && a.e < |rs| && q < |rs| == |s.pcs| && s.pcs[q] == Submitting
                        && rs[a.e].scope == scope && rs[q].scope == scope
  }

  /** One of the three things AtMostOnce excludes. */
  ghost predicate Repeats(rs: seq<Request>, s: State, scope: string) {
    Overlaps(rs, s, scope) || SubmitsAgain(rs, s, scope) || AcceptedTwice(rs, s, scope)
  }

  /** An entry that has not failed. */
  predicate Unfailed(s: State, e: nat) {
    e in s.heap && !s.heap[e].failed
  }

  lemma SubmittingIsUnfailed(rs: seq<Request>, s: State, q: nat)
    requires Inv(rs, s) && q < |rs| && s.pcs[q] == Submitting
    ensures Unfailed(s, q) && forall a :: a in s.accepted ==> a.e != q
  {
    assert EntryOk(rs, s, q);
  }

  lemma AcceptedIsUnfailed(rs: seq<Request>, s: State, a: Accept)
    requires Shape(rs, s) && AcceptedOk(rs, s) && a in s.accepted
    ensures Unfailed(s, a.e)
  {
  }

  lemma TwoUnfailedAreSpoilt(rs: seq<Request>, s: State, a: nat, b: nat)
    requires ReservedOrSpoilt(rs, s) && |s.pcs| == |rs|
    requires a < |rs| && b < |rs| && a != b && rs[a].scope == rs[b].scope && Unfailed(s, a) && Unfailed(s, b)
    ensures FourWithTwins(rs, rs[a].scope)
  {
    assert Live(s, a) && Live(s, b);
    assert Spoilt(rs, s, rs[a].scope);
    var e: nat, r: nat :| SpoiltBy(rs, s, rs[a].scope, e, r);
    assert Four(rs, rs[a].scope, e, r, a, b);
  }

  lemma RepeatsNeedFour(rs: seq<Request>, steps: seq<Step>, scope: string)
    requires Exec(rs, steps).Some? && Repeats(rs, Exec(rs, steps).value, scope)
    ensures FourWithTwins(rs, scope)
  {
    hide Exec, Shape, AcceptedOk, EntriesOk, RefsOk, IdemOk, LockOk, ReservedOrSpoilt, FourWithTwins, Unfailed;
    RunsKeepInv(rs, steps);
    RunsKeepReservedOrSpoilt(rs, steps);
    var s := Exec(rs, steps).value;
    var a, b := TwoUnfailed(rs, s, scope);
    TwoUnfailedAreSpoilt(rs, s, a, b);
  }

  lemma TwoUnfailed(rs: seq<Request>, s: State, scope: string) returns (a: nat, b: nat)
    requires Inv(rs, s) && Repeats(rs, s, scope)
    ensures |s.pcs| == |rs| && a < |rs| && b < |rs| && a != b && rs[a].scope == scope && rs[b].scope == scope
    ensures Unfailed(s, a) && Unfailed(s, b)
  {
    if Overlaps(rs, s, scope) {
      a, b :| a < |rs| && b < |rs| && a != b && s.pcs[a] == Submitting && s.pcs[b] == Submitting
              && rs[a].scope == scope && rs[b].scope == scope;
      SubmittingIsUnfailed(rs, s, a);
      SubmittingIsUnfailed(rs, s, b);
    } else if SubmitsAgain(rs, s, scope) {
      var acc: Accept, q: nat :| acc in s.accepted && acc.e < |rs| && q < |rs| && s.pcs[q] == Submitting
                         && rs[acc.e].scope == scope && rs[q].scope == scope;
      a, b := acc.e, q;
      AcceptedIsUnfailed(rs, s, acc);
      SubmittingIsUnfailed(rs, s, q);
    } else {
      var x, y :| x in s.accepted && y in s.accepted && x.e != y.e && x.e < |rs| && y.e < |rs|
                  && rs[x.e].scope == scope && rs[y.e].scope == scope;
      a, b := x.e, y.e;
      AcceptedIsUnfailed(rs, s, x);
      AcceptedIsUnfailed(rs, s, y);
    }
  }

  /** Four such requests have, one after the other: two Submit calls at once, one beside an acceptance, and two
      acceptances. */
  lemma FourRepeat(rs: seq<Request>, scope: string) returns (overlap: seq<Step>, again: seq<Step>, twice: seq<Step>)
    requires FourWithTwins(rs, scope)
    ensures Exec(rs, overlap).Some? && Overlaps(rs, Exec(rs, overlap).value, scope)
    ensures Exec(rs, again).Some? && SubmitsAgain(rs, Exec(rs, again).value, scope)
    ensures Exec(rs, twice).Some? && AcceptedTwice(rs, Exec(rs, twice).value, scope)
  {
    hide Exec, Enabled, Harmless, Inv;
    var e: nat, r: nat, x: nat, q: nat :| Four(rs, scope, e, r, x, q);
    var steps := HarmfulClearHappens(rs, e, r, x);
    RunsKeepInv(rs, steps);
    overlap := ReserveAgain(rs, steps, r, q);
    again := Succeed(rs, overlap, x, "1");
    assert Accept(x, "1") in Exec(rs, again).value.accepted;
    twice := HarmfulClearBreaks(rs, steps, r, q, "1", "2");
  }

  /** At most once, exactly: each of the three things AtMostOnce excludes happens in some interleaving of the requests
      if and only if four of them are of the scope and two of those have the same payload. */
  lemma RepeatsExactly(rs: seq<Request>, scope: string)
    ensures (exists steps :: Exec(rs, steps).Some? && Overlaps(rs, Exec(rs, steps).value, scope))
            <==> FourWithTwins(rs, scope)
    ensures (exists steps :: Exec(rs, steps).Some? && SubmitsAgain(rs, Exec(rs, steps).value, scope))
            <==> FourWithTwins(rs, scope)
    ensures (exists steps :: Exec(rs, steps).Some? && AcceptedTwice(rs, Exec(rs, steps).value, scope))
            <==> FourWithTwins(rs, scope)
  {
    hide Exec, Overlaps, SubmitsAgain, AcceptedTwice, FourWithTwins;
    if FourWithTwins(rs, scope) {
      var overlap, again, twice := FourRepeat(rs, scope);
    }
    forall steps | Exec(rs, steps).Some? && Repeats(rs, Exec(rs, steps).value, scope) ensures FourWithTwins(rs, scope) {
      RepeatsNeedFour(rs, steps, scope);
    }
  }
}
