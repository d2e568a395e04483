/** What each request is told, over all interleavings. */
module SubmissionAnswers {
  import opened Wrappers
  import opened Submissions
  import opened SubmissionTheorems

  /** The outcome Submit returned to `r`, if it has returned. */
  ghost predicate Returned(steps: seq<Step>, r: nat, outcome: Option<string>) {
    Return(r, outcome) in steps
  }

  /** The answer follows from the steps the request took. */
  ghost predicate Follows(steps: seq<Step>, r: nat, resp: Response) {
    && (resp == SubmitFailed <==> Returned(steps, r, None))
    && (forall id :: Returned(steps, r, Some(id)) <==> resp.Accepted? && resp.id == id)
    && (forall saved :: resp.Accepted? ==> (Finish(r, saved) in steps <==> resp.saved == saved))
    && (resp == Cancelled <==> Cancel(r) in steps)
    && (resp == PreviousFailed <==> Clear(r) in steps)
  }

  /** What the steps so far say about where `r` is. */
  ghost predicate Story(s: State, steps: seq<Step>, r: nat)
    requires r < |s.pcs|
  {
    match s.pcs[r]
    case Done(resp) => Follows(steps, r, resp)
    case Publishing => Unanswered(steps, r) && r in s.heap && OutcomeIs(steps, r, s.heap[r])
    case Closing => Unanswered(steps, r) && r in s.heap && OutcomeIs(steps, r, s.heap[r])
    case _ => Unanswered(steps, r) && forall o :: !Returned(steps, r, o)
  }

  ghost predicate Unanswered(steps: seq<Step>, r: nat) {
    Cancel(r) !in steps && Clear(r) !in steps && forall saved :: Finish(r, saved) !in steps
  }

  ghost predicate OutcomeIs(steps: seq<Step>, r: nat, entry: Entry) {
    forall o :: Returned(steps, r, o) <==> o == if entry.failed then None else Some(entry.submissionID)
  }

  /** What one more step adds to what was done by `r`. */
  lemma OneMoreStep(steps: seq<Step>, step: Step, r: nat)
    ensures forall o :: Returned(steps + [step], r, o) <==> Returned(steps, r, o) || step == Return(r, o)
    ensures forall x :: Finish(r, x) in steps + [step] <==> Finish(r, x) in steps || step == Finish(r, x)
    ensures Cancel(r) in steps + [step] <==> Cancel(r) in steps || step == Cancel(r)
    ensures Clear(r) in steps + [step] <==> Clear(r) in steps || step == Clear(r)
  {
  }

  lemma OthersKeepStory(rs: seq<Request>, s: State, steps: seq<Step>, step: Step, r: nat)
    requires Enabled(rs, s, step) && r < |rs| && step.r != r && Story(s, steps, r)
    ensures |Do(rs, s, step).pcs| == |rs| && Story(Do(rs, s, step), steps + [step], r)
  {
    hide Do, Next, Enabled, Returned;
    OneMoreStep(steps, step, r);
    Effect(rs, s, step);
    var t := Do(rs, s, step);
    assert t.pcs[r] == s.pcs[r] && (r in s.heap ==> r in t.heap && t.heap[r] == s.heap[r]);
    hide Changes;
  }

  lemma QuietStory(rs: seq<Request>, s: State, steps: seq<Step>, step: Step)
    requires Enabled(rs, s, step) && Quiet(step) && Story(s, steps, step.r)
    ensures |Do(rs, s, step).pcs| == |rs| && Story(Do(rs, s, step), steps + [step], step.r)
  {
    hide Do, Returned;
    OneMoreStep(steps, step, step.r);
    Effect(rs, s, step);
  }

  lemma ReserveStory(rs: seq<Request>, s: State, steps: seq<Step>, r: nat)
    requires Enabled(rs, s, Reserve(r)) && Story(s, steps, r)
    ensures var t := Do(rs, s, Reserve(r)); |t.pcs| == |rs| && Story(t, steps + [Reserve(r)], r)
  {
    hide Returned;
    OneMoreStep(steps, Reserve(r), r);
  }

  lemma OwnerStory(rs: seq<Request>, s: State, steps: seq<Step>, step: Step)
    requires Enabled(rs, s, step) && InSubmission(step) && ActorOk(s, step) && Story(s, steps, step.r)
    ensures |Do(rs, s, step).pcs| == |rs| && Story(Do(rs, s, step), steps + [step], step.r)
  {
    hide Do, Next, Returned;
    OneMoreStep(steps, step, step.r);
    Effect(rs, s, step);
  }

  /** In every interleaving: a request that is answered is told that Submit failed exactly when its Submit failed, that
      it was accepted under an id exactly when its Submit returned that id, with the outcome of saving the record, that
      it was cancelled or that the earlier submission failed exactly when that is how it left. */
  lemma {:induction false} AnswersFollow(rs: seq<Request>, steps: seq<Step>, r: nat)
    requires Exec(rs, steps).Some? && r < |rs|
    ensures var s := Exec(rs, steps).value;
            && |s.pcs| == |rs| && Story(s, steps, r)
            && (s.pcs[r].Done? ==> Follows(steps, r, s.pcs[r].resp))
            && forall id :: Accept(r, id) in s.accepted <==> Returned(steps, r, Some(id))
  {
    if steps != [] {
      var before, step := steps[..|steps| - 1], steps[|steps| - 1];
      var s := Exec(rs, before).value;
      AnswersFollow(rs, before, r);
      RunsKeepInv(rs, before);
      assert steps == before + [step];
      hide Do, Inv, Enabled, Story, Follows, Returned, ActorOk;
      InvGivesActor(rs, s, step);
      if step.r != r {
        OthersKeepStory(rs, s, before, step, r);
      } else if InSubmission(step) {
        OwnerStory(rs, s, before, step);
      } else if step.Reserve? {
        ReserveStory(rs, s, before, r);
      } else {
        QuietStory(rs, s, before, step);
      }
      forall id ensures Accept(r, id) in Do(rs, s, step).accepted <==> Returned(steps, r, Some(id)) {
        StepAccepts(rs, s, step, Accept(r, id));
      }
    }
  }

  // --- exact repeats ---

  /** The entry of another request that a request is compared with. */
  function Seen(rs: seq<Request>, s: State, step: Step): Option<nat>
    requires Enabled(rs, s, step)
  {
    if !step.Reserve? then Ref(s.pcs[step.r])
    else if rs[step.r].scope in s.idem then Some(s.idem[rs[step.r].scope])
    else None
  }

  /** The request is compared with an accepted submission: `id` answers it as a duplicate. A waiter learns any id; the
      other comparisons take an empty one for none. */
  ghost predicate Repeats(rs: seq<Request>, s: State, step: Step, e: nat, id: string)
    requires step.r < |rs| && e < |rs|
  {
    rs[e] == rs[step.r] && Accept(e, id) in s.accepted && (id != "" || step.Wake?)
  }

  /** Why a request is turned away: another payload under the same files, or it came to reserve and found one that is
      not accepted yet. */
  ghost predicate Differs(rs: seq<Request>, s: State, step: Step, e: nat)
    requires step.r < |rs| && e < |rs|
  {
    || rs[e].payload != rs[step.r].payload
    || (step.Reserve? && forall id :: Accept(e, id) in s.accepted ==> id == "")
  }

  lemma ReaderIsAnswered(rs: seq<Request>, s: State, step: Step, id: string)
    requires Shape(rs, s) && Enabled(rs, s, step) && Quiet(step) && RefOk(rs, s, step.r)
    requires Next(rs, s, step).Done? && (Next(rs, s, step).resp.Duplicate? || Next(rs, s, step).resp == Conflict)
    requires var e := s.pcs[step.r].e; e in s.heap && EntryOk(rs, s, e) && AcceptedOk(rs, s) && RecordsOk(rs, s)
    ensures var e := s.pcs[step.r].e;
            && (Next(rs, s, step).resp == Duplicate(id) <==> Repeats(rs, s, step, e, id))
            && (Next(rs, s, step).resp == Conflict ==> Differs(rs, s, step, e))
  {
    var e := s.pcs[step.r].e;
    assert s.heap[e].closed && !s.heap[e].failed ==> Accept(e, s.heap[e].submissionID) in s.accepted;
    assert s.heap[e].submissionID != "" ==> Accept(e, s.heap[e].submissionID) in s.accepted;
  }

  lemma ReserverIsAnswered(rs: seq<Request>, s: State, r: nat, id: string)
    requires Shape(rs, s) && Enabled(rs, s, Reserve(r)) && rs[r].scope in s.idem
    requires var e := s.idem[rs[r].scope];
             ScopeOk(rs, s, rs[r].scope) && EntryOk(rs, s, e) && AcceptedOk(rs, s) && RecordsOk(rs, s)
    ensures var e, pc := s.idem[rs[r].scope], Do(rs, s, Reserve(r)).pcs[r];
            && pc.Done? && (pc.resp == Duplicate(id) <==> Repeats(rs, s, Reserve(r), e, id))
            && (pc.resp == Conflict ==> Differs(rs, s, Reserve(r), e))
  {
    var e := s.idem[rs[r].scope];
    assert s.heap[e].submissionID != "" ==> Accept(e, s.heap[e].submissionID) in s.accepted;
  }

  /** In every interleaving: a request answered by comparison was compared with an entry of its scope. It is told
      "duplicate" with an id exactly when that entry was accepted under the id with the same payload; a conflict means
      another payload, or that it came between its lookup and its reservation too late to wait. */
  lemma {:induction false} RepeatsAreAnswered(rs: seq<Request>, steps: seq<Step>, step: Step, s: State, t: State,
                                              id: string)
    requires Exec(rs, steps) == Some(s) && Enabled(rs, s, step) && Exec(rs, steps + [step]) == Some(t)
    requires FreshReturns(steps) && step.r < |t.pcs| && t.pcs[step.r].Done?
    requires t.pcs[step.r].resp.Duplicate? || t.pcs[step.r].resp == Conflict
    ensures Seen(rs, s, step).Some? && Seen(rs, s, step).value < |rs|
    ensures var e, resp := Seen(rs, s, step).value, t.pcs[step.r].resp;
            && rs[e].scope == rs[step.r].scope
            && (resp == Duplicate(id) <==> Repeats(rs, s, step, e, id))
            && (resp == Conflict ==> Differs(rs, s, step, e))
  {
    Extend(rs, steps, step);
    RunsKeepInv(rs, steps);
    DuplicatesAreSound(rs, steps);
    Effect(rs, s, step);
    assert RefOk(rs, s, step.r);
    assert rs[step.r].scope in s.idem ==> ScopeOk(rs, s, rs[step.r].scope);
    assert Seen(rs, s, step).Some? ==> EntryOk(rs, s, Seen(rs, s, step).value);
    hide Exec, Do, Next, AnswersOk, RecordsOk, EntryOk, AcceptedOk, Repeats, Differs;
    if step.Reserve? {
      ReserverIsAnswered(rs, s, step.r, id);
    } else {
      ReaderIsAnswered(rs, s, step, id);
    }
  }

  ghost predicate HasAnother(rs: seq<Request>, r: nat)
    requires r < |rs|
  {
    exists e: nat :: e < |rs| && e != r && rs[e].scope == rs[r].scope
  }

  lemma StepConflicts(rs: seq<Request>, s: State, step: Step)
    requires Inv(rs, s) && Enabled(rs, s, step) && At(Do(rs, s, step), step.r, Done(Conflict))
    ensures HasAnother(rs, step.r)
  {
    assert RefOk(rs, s, step.r);
    assert rs[step.r].scope in s.idem ==> ScopeOk(rs, s, rs[step.r].scope);
    InvGivesActor(rs, s, step);
    Effect(rs, s, step);
    hide EntriesOk, RefsOk, IdemOk, LockOk, AcceptedOk, Do;
    var e := if step.Reserve? then s.idem[rs[step.r].scope] else s.pcs[step.r].e;
    assert e < |rs| && e != step.r && rs[e].scope == rs[step.r].scope;
  }

  lemma {:induction false} ConflictNeedsAnother(rs: seq<Request>, steps: seq<Step>, r: nat)
    requires Exec(rs, steps).Some? && r < |rs| && At(Exec(rs, steps).value, r, Done(Conflict))
    ensures HasAnother(rs, r)
  {
    if steps != [] {
      var before, step := steps[..|steps| - 1], steps[|steps| - 1];
      var s := Exec(rs, before).value;
      RunsKeepInv(rs, before);
      StepIsLocal(rs, s, step);
      hide Inv, Do, Enabled, HasAnother;
      if step.r == r {
        StepConflicts(rs, s, step);
      } else {
        ConflictNeedsAnother(rs, before, r);
      }
    }
  }

  /** Two requests look their scope up before either reserves it; the second to reserve is refused. */
  lemma LateRepeatIsRefused(rs: seq<Request>, e: nat, r: nat) returns (steps: seq<Step>)
    requires e < |rs| && r < |rs| && e != r && rs[e].scope == rs[r].scope
    ensures Exec(rs, steps).Some? && At(Exec(rs, steps).value, r, Done(Conflict))
  {
    steps := [];
    Extend(rs, steps, Look(e));
    steps := steps + [Look(e)];
    Extend(rs, steps, Look(r));
    steps := steps + [Look(r)];
    hide Exec;
    Extend(rs, steps, Reserve(e));
    steps := steps + [Reserve(e)];
    Extend(rs, steps, Reserve(r));
    steps := steps + [Reserve(r)];
  }

  /** So even an exact repeat can be refused as a conflict: some interleaving refuses a request if and only if there is
      another of its scope, whatever the payloads. */
  lemma RefusedExactly(rs: seq<Request>, r: nat)
    requires r < |rs|
    ensures (exists steps :: Exec(rs, steps).Some? && At(Exec(rs, steps).value, r, Done(Conflict)))
            <==> HasAnother(rs, r)
  {
    if HasAnother(rs, r) {
      var e: nat :| e < |rs| && e != r && rs[e].scope == rs[r].scope;
      var steps := LateRepeatIsRefused(rs, e, r);
    }
    hide Exec, HasAnother;
    forall steps | Exec(rs, steps).Some? && At(Exec(rs, steps).value, r, Done(Conflict)) ensures HasAnother(rs, r) {
      ConflictNeedsAnother(rs, steps, r);
    }
  }
}
