/** getResource, upsertContest, upsertProblem and SyncProblem of pkg/adapter/adapter.go, against an arbitrary server. */
module Upserts {
  import opened Wrappers
  import opened ProblemIds
  import opened Adapter

  // --- reading the log ---

  /** What was answered before does not change when the log grows. */
  lemma AnswersStay(w: World, log: seq<Request>, log': seq<Request>)
    requires log <= log'
    ensures forall k: nat :: k < |log| ==> Answer(w, log', k) == Answer(w, log, k)
  {
    forall k: nat | k < |log| ensures Answer(w, log', k) == Answer(w, log, k) {
      assert log'[..k + 1] == log[..k + 1];
    }
  }

  /** The k-th request of the log asked for this and succeeded. */
  predicate Got(w: World, log: seq<Request>, k: nat, target: Target) {
    k < |log| && log[k] == Request(GET, target) && Answer(w, log, k).Ok?
  }

  /** The k-th request of the log asked for this and was answered 404. */
  predicate Gone(w: World, log: seq<Request>, k: nat, target: Target) {
    k < |log| && log[k] == Request(GET, target) && IsMissing(Answer(w, log, k))
  }

  predicate Wrote(w: World, log: seq<Request>, k: nat) {
    k < |log| && log[k].verb != GET && Answer(w, log, k).Ok?
  }

  /** The last request of the log is one made after `start`, and was an accepted write. */
  predicate EndsWritten(w: World, start: nat, log: seq<Request>) {
    start < |log| && Wrote(w, log, |log| - 1)
  }

  /** The log ends with this request, unless it could not even be built. */
  predicate EndsWith(w: World, log: seq<Request>, req: Request) {
    w.builds(req) ==> log != [] && log[|log| - 1] == req
  }

  /** Only the last request since `start` can be an accepted write. */
  predicate WritesOnce(w: World, start: nat, log: seq<Request>) {
    forall k | start <= k < |log| - 1 :: !Wrote(w, log, k)
  }

  /** The error is what the last request was answered, or the wait for its repetition was cancelled, or a request could
      not be built. */
  ghost predicate Blames(w: World, start: nat, log: seq<Request>, f: Failure) {
    || (start < |log| && Answer(w, log, |log| - 1) == Err(f))
    || (start < |log| && f == Cancelled && w.cancelled(log))
    || (f == NotBuilt && exists req :: !w.builds(req))
  }

  // --- getResource ---

  function Found(o: Outcome): Result<bool, Failure> {
    if IsMissing(o) then Ok(false) else if o.Ok? then Ok(true) else Err(o.error)
  }

  function Resource(w: World, target: Target, log: seq<Request>): (Result<bool, Failure>, seq<Request>) {
    var (o, end) := Call(w, Request(GET, target), log);
    (Found(o), end)
  }

  method GetResource(w: World, target: Target, log: seq<Request>)
    returns (found: Result<bool, Failure>, log': seq<Request>)
    ensures (found, log') == Resource(w, target, log)
  {
    var res;
    res, log' := DoCSOJ(w, Request(GET, target), log);
    if res.Err? {
      found := if IsMissing(res) then Ok(false) else Err(res.error);
    } else {
      found := Ok(true);
    }
  }

  /** True exactly after a success, false exactly after a 404; only the last of its requests can be either. */
  lemma ResourceIsAnswered(w: World, target: Target, log: seq<Request>)
    ensures var (found, end) := Resource(w, target, log);
            && log <= end && |end| <= |log| + 4
            && (forall k :: |log| <= k < |end| ==> end[k] == Request(GET, target))
            && (forall k :: |log| <= k < |end| - 1 ==> Transient(Answer(w, end, k)))
            && (found == Ok(true) <==> |log| < |end| && Got(w, end, |end| - 1, target))
            && (found == Ok(false) <==> |log| < |end| && Gone(w, end, |end| - 1, target))
            && (found.Err? ==> Blames(w, |log|, end, found.error) && found.error != Elsewhere)
            && (w.builds(Request(GET, target)) ==> |log| < |end|)
  {
    hide Call, Answer, Attempt;
    CallIsSent(w, Request(GET, target), log);
  }

  // --- upsertContest ---

  function ContestUpsert(w: World, contest: seq<Byte>, log: seq<Request>): (Option<Failure>, seq<Request>) {
    var (found, middle) := Resource(w, Contest(contest), log);
    match found
    case Err(f) => (Some(f), middle)
    case Ok(there) =>
      var (res, end) := Call(w, if there then Request(PUT, Contest(contest)) else Request(POST, Contests), middle);
      (ErrorOf(res), end)
  }

  method UpsertContest(w: World, contest: seq<Byte>, log: seq<Request>)
    returns (err: Option<Failure>, log': seq<Request>)
    ensures (err, log') == ContestUpsert(w, contest, log)
  {
    hide Call;
    var found, res;
    found, log' := GetResource(w, Contest(contest), log);
    if found.Err? {
      return Some(found.error), log';
    }
    if found.value {
      res, log' := DoCSOJ(w, Request(PUT, Contest(contest)), log');
    } else {
      res, log' := DoCSOJ(w, Request(POST, Contests), log');
    }
    err := ErrorOf(res);
  }

  /** From `start` on all requests are about this contest; it is updated only if found, and created only after a 404. */
  ghost predicate ContestRequests(w: World, contest: seq<Byte>, start: nat, log: seq<Request>) {
    forall k | start <= k < |log| ::
      || log[k] == Request(GET, Contest(contest))
      || (log[k] == Request(PUT, Contest(contest)) && exists j | start <= j < k :: Got(w, log, j, Contest(contest)))
      || (log[k] == Request(POST, Contests) && exists j | start <= j < k :: Gone(w, log, j, Contest(contest)))
  }

  /** At most 8 requests. A contest that was found is updated, one that was not is created, and there is no error
      exactly when the last request was that write and CSOJ accepted it; otherwise the error is that of the last
      request. */
  lemma ContestIsUpserted(w: World, contest: seq<Byte>, log: seq<Request>)
    ensures var (err, end) := ContestUpsert(w, contest, log);
            && log <= end && |end| <= |log| + 8
            && ContestRequests(w, contest, |log|, end)
            && (err.None? <==> EndsWritten(w, |log|, end)) && WritesOnce(w, |log|, end)
            && (err.Some? ==> Blames(w, |log|, end, err.value))
            && (w.builds(Request(GET, Contest(contest))) ==> |log| < |end|)
            && ((exists j | |log| <= j < |end| :: Got(w, end, j, Contest(contest))) ==>
                 EndsWith(w, end, Request(PUT, Contest(contest))))
            && ((exists j | |log| <= j < |end| :: Gone(w, end, j, Contest(contest))) ==>
                 EndsWith(w, end, Request(POST, Contests)))
  {
    hide Call, Answer, Attempt, Resource;
    ResourceIsAnswered(w, Contest(contest), log);
    var (found, middle) := Resource(w, Contest(contest), log);
    if found.Ok? {
      var req := if found.value then Request(PUT, Contest(contest)) else Request(POST, Contests);
      CallIsSent(w, req, middle);
      var (res, end) := Call(w, req, middle);
      AnswersStay(w, middle, end);
      assert if found.value then Got(w, end, |middle| - 1, Contest(contest))
             else Gone(w, end, |middle| - 1, Contest(contest));
    }
  }

  /** A server that says plainly that it has no such contest is asked once, and then only to create it. */
  lemma MissingContestIsCreated(w: World, contest: seq<Byte>, log: seq<Request>, env: Envelope)
    requires w.builds(Request(GET, Contest(contest))) && w.builds(Request(POST, Contests))
    requires w.answer(log + [Request(GET, Contest(contest))]) == Reply(404, Some(env)) && !ReadsLikePolicy(env.message)
    ensures var (err, end) := ContestUpsert(w, contest, log);
            && log + [Request(GET, Contest(contest))] <= end && |log| + 1 < |end|
            && (forall k :: |log| < k < |end| ==> end[k] == Request(POST, Contests))
            && (err.None? <==> Answer(w, end, |end| - 1).Ok?)
  {
    var req := Request(GET, Contest(contest));
    WhatIsMissing(Reply(404, Some(env)));
    assert Repeat(req, 1) == [req];
    hide Attempt, ReadsLikePolicy;
    FailuresAreOvercome(Outcomes(w, req, log), Cancels(w, req, log), 0);
    assert Call(w, req, log) == (Attempt(Reply(404, Some(env))), log + [req]);
    hide Call, Answer;
    CallIsSent(w, Request(POST, Contests), log + [req]);
  }

  // --- upsertProblem ---

  predicate Lists(o: Outcome, id: string) {
    o.Ok? && o.value.problems.Some? && id in o.value.problems.value
  }

  predicate GotListing(w: World, log: seq<Request>, k: nat, contest: seq<Byte>, id: string) {
    && k < |log| && log[k] == Request(GET, Contest(contest)) && Answer(w, log, k).Ok?
    && Answer(w, log, k).value.problems.Some? && id in Answer(w, log, k).value.problems.value
  }

  function ProblemUpsert(w: World, contest: seq<Byte>, id: string, log: seq<Request>): (Option<Failure>, seq<Request>) {
    var (listing, first) := Call(w, Request(GET, Contest(contest)), log);
    if Lists(listing, id) then
      var (res, end) := Call(w, Request(PUT, Problem(id)), first);
      (ErrorOf(res), end)
    else
      var (found, second) := Resource(w, Problem(id), first);
      match found
      case Err(f) => (Some(f), second)
      case Ok(true) => (Some(Elsewhere), second)
      case Ok(false) =>
        var (res, end) := Call(w, Request(POST, ProblemsOf(contest)), second);
        (ErrorOf(res), end)
  }

  method InList(problems: seq<string>, id: string) returns (found: bool)
    ensures found <==> id in problems
  {
    for i := 0 to |problems|
      invariant id !in problems[..i]
    {
      if problems[i] == id {
        return true;
      }
    }
    return false;
  }

  method UpsertProblem(w: World, contest: seq<Byte>, id: string, log: seq<Request>)
    returns (err: Option<Failure>, log': seq<Request>)
    ensures (err, log') == ProblemUpsert(w, contest, id, log)
  {
    hide Call, Resource;
    var res, found;
    res, log' := DoCSOJ(w, Request(GET, Contest(contest)), log);
    var inContest := false;
    if res.Ok? && res.value.problems.Some? {
      inContest := InList(res.value.problems.value, id);
    }
    if inContest {
      res, log' := DoCSOJ(w, Request(PUT, Problem(id)), log');
      return ErrorOf(res), log';
    }
    found, log' := GetResource(w, Problem(id), log');
    if found.Err? {
      return Some(found.error), log';
    }
    if found.value {
      return Some(Elsewhere), log';
    }
    res, log' := DoCSOJ(w, Request(POST, ProblemsOf(contest)), log');
    err := ErrorOf(res);
  }

  /** Every request after `start` is about this problem; it is overwritten only after its contest was seen to list it,
      and created only after CSOJ said 404 for it and no answer listed it. */
  ghost predicate ProblemRequests(w: World, contest: seq<Byte>, id: string, start: nat, log: seq<Request>) {
    forall k | start <= k < |log| ::
      || log[k] == Request(GET, Contest(contest))
      || log[k] == Request(GET, Problem(id))
      || (log[k] == Request(PUT, Problem(id)) && exists j | start <= j < k :: GotListing(w, log, j, contest, id))
      || (log[k] == Request(POST, ProblemsOf(contest))
          && (exists j | start <= j < k :: Gone(w, log, j, Problem(id)))
          && (forall j | start <= j < |log| :: !GotListing(w, log, j, contest, id)))
  }

  /** At most 12 requests. A listed problem is overwritten, a missing one created, one that exists elsewhere is an
      error; there is no error exactly when the last request was a write and CSOJ accepted it. */
  lemma ProblemIsUpserted(w: World, contest: seq<Byte>, id: string, log: seq<Request>)
    ensures var (err, end) := ProblemUpsert(w, contest, id, log);
            && log <= end && |end| <= |log| + 12
            && ProblemRequests(w, contest, id, |log|, end)
            && (err.None? <==> EndsWritten(w, |log|, end)) && WritesOnce(w, |log|, end)
            && (err.Some? && err != Some(Elsewhere) ==> Blames(w, |log|, end, err.value))
            && (w.builds(Request(GET, Problem(id))) ==>
                 || (exists j | |log| <= j < |end| :: GotListing(w, end, j, contest, id))
                 || (exists j | |log| <= j < |end| :: end[j] == Request(GET, Problem(id))))
            && ((exists j | |log| <= j < |end| :: GotListing(w, end, j, contest, id)) ==>
                 EndsWith(w, end, Request(PUT, Problem(id))))
            && ((exists j | |log| <= j < |end| :: Gone(w, end, j, Problem(id))) ==>
                 EndsWith(w, end, Request(POST, ProblemsOf(contest))))
            && (err == Some(Elsewhere) <==> |end| > |log| && Got(w, end, |end| - 1, Problem(id)))
  {
    hide Call, Answer, Attempt, Resource;
    CallIsSent(w, Request(GET, Contest(contest)), log);
    var (listing, first) := Call(w, Request(GET, Contest(contest)), log);
    if Lists(listing, id) {
      CallIsSent(w, Request(PUT, Problem(id)), first);
      var (_, end) := Call(w, Request(PUT, Problem(id)), first);
      AnswersStay(w, first, end);
      assert GotListing(w, end, |first| - 1, contest, id);
    } else {
      ResourceIsAnswered(w, Problem(id), first);
      var (found, second) := Resource(w, Problem(id), first);
      AnswersStay(w, first, second);
      if found == Ok(false) {
        CallIsSent(w, Request(POST, ProblemsOf(contest)), second);
        var (_, end) := Call(w, Request(POST, ProblemsOf(contest)), second);
        AnswersStay(w, second, end);
        assert Gone(w, end, |second| - 1, Problem(id));
      }
    }
  }

  // --- SyncProblem ---

  function ProblemSync(w: World, contest: seq<Byte>, problem: seq<Byte>, log: seq<Request>)
    : (string, Option<Failure>, seq<Request>)
  {
    var id := CSOJProblemID(contest, problem);
    var (contestErr, middle) := ContestUpsert(w, contest, log);
    if contestErr.Some? then ("", contestErr, middle)
    else
      var (err, end) := ProblemUpsert(w, contest, id, middle);
      (id, err, end)
  }

  method SyncProblem(w: World, contest: seq<Byte>, problem: seq<Byte>, log: seq<Request>)
    returns (id: string, err: Option<Failure>, log': seq<Request>)
    ensures (id, err, log') == ProblemSync(w, contest, problem, log)
  {
    hide ContestUpsert, ProblemUpsert;
    var problemID := CSOJProblemID(contest, problem);
    err, log' := UpsertContest(w, contest, log);
    if err.Some? {
      return "", err, log';
    }
    err, log' := UpsertProblem(w, contest, problemID, log');
    id := problemID;
  }

  predicate OverwritesProblem(req: Request) {
    req.verb == PUT && req.target.Problem?
  }

  predicate CreatesProblem(req: Request) {
    req.verb == POST && req.target.ProblemsOf?
  }

  ghost predicate WroteContestBefore(w: World, contest: seq<Byte>, start: nat, log: seq<Request>, k: nat) {
    exists j | start <= j < k :: Wrote(w, log, j) && log[j].target in {Contests, Contest(contest)}
  }

  /** A problem is overwritten only if the target contest was seen to list it, created only if CSOJ has no problem of
      that id, not both, and neither before CSOJ accepted the contest. */
  ghost predicate Safe(w: World, contest: seq<Byte>, id: string, start: nat, log: seq<Request>) {
    && (forall k | start <= k < |log| && OverwritesProblem(log[k]) ::
          && log[k].target == Problem(id) && WroteContestBefore(w, contest, start, log, k)
          && exists j | start <= j < k :: GotListing(w, log, j, contest, id))
    && (forall k | start <= k < |log| && CreatesProblem(log[k]) ::
          && log[k].target == ProblemsOf(contest) && WroteContestBefore(w, contest, start, log, k)
          && exists j | start <= j < k :: Gone(w, log, j, Problem(id)))
    && (forall k, l | start <= k < |log| && start <= l < |log| ::
          !(OverwritesProblem(log[k]) && CreatesProblem(log[l])))
  }

  lemma NoProblemWrites(w: World, contest: seq<Byte>, start: nat, log: seq<Request>)
    requires ContestRequests(w, contest, start, log)
    ensures forall k :: start <= k < |log| ==> !OverwritesProblem(log[k]) && !CreatesProblem(log[k])
  {
  }

  lemma WroteStays(w: World, contest: seq<Byte>, start: nat, log: seq<Request>, log': seq<Request>)
    requires log <= log' && start <= |log|
    ensures WroteContestBefore(w, contest, start, log', |log|) <==> WroteContestBefore(w, contest, start, log, |log|)
    ensures EndsWritten(w, start, log) && log[|log| - 1].target in {Contests, Contest(contest)} ==>
              WroteContestBefore(w, contest, start, log, |log|)
  {
    hide Answer;
    AnswersStay(w, log, log');
  }

  lemma SafeAfter(w: World, contest: seq<Byte>, id: string, start: nat, middle: nat, log: seq<Request>)
    requires start <= middle <= |log| && WroteContestBefore(w, contest, start, log, middle)
    requires forall k :: start <= k < middle ==> !OverwritesProblem(log[k]) && !CreatesProblem(log[k])
    requires ProblemRequests(w, contest, id, middle, log)
    ensures Safe(w, contest, id, start, log)
  {
    hide Answer;
  }

  /** Against any server: at most 20 requests, all of them safe. */
  lemma SyncIsSafe(w: World, contest: seq<Byte>, problem: seq<Byte>, log: seq<Request>)
    ensures var (_, _, end) := ProblemSync(w, contest, problem, log);
            && log <= end && |end| <= |log| + 20
            && Safe(w, contest, CSOJProblemID(contest, problem), |log|, end)
  {
    hide Answer, Attempt, CSOJProblemID, ContestUpsert, ProblemUpsert, WroteContestBefore, EndsWith;
    var id := CSOJProblemID(contest, problem);
    ContestIsUpserted(w, contest, log);
    var (contestErr, middle) := ContestUpsert(w, contest, log);
    NoProblemWrites(w, contest, |log|, middle);
    if contestErr.None? {
      ProblemIsUpserted(w, contest, id, middle);
      var (_, end) := ProblemUpsert(w, contest, id, middle);
      ContestEnd(w, contest, |log|, middle);
      WroteStays(w, contest, |log|, middle, end);
      hide ContestRequests, EndsWritten;
      SafeAfter(w, contest, id, |log|, |middle|, end);
    }
  }

  lemma ContestEnd(w: World, contest: seq<Byte>, start: nat, log: seq<Request>)
    requires EndsWritten(w, start, log) && ContestRequests(w, contest, start, log)
    ensures log[|log| - 1].target in {Contests, Contest(contest)}
  {
  }

  lemma ContestNotWritten(w: World, contest: seq<Byte>, start: nat, log: seq<Request>)
    requires start <= |log| && WritesOnce(w, start, log) && !EndsWritten(w, start, log)
    ensures !WroteContestBefore(w, contest, start, log, |log|)
  {
    hide Answer;
  }

  lemma ProblemEnd(w: World, contest: seq<Byte>, id: string, start: nat, log: seq<Request>)
    requires EndsWritten(w, start, log) && ProblemRequests(w, contest, id, start, log)
    ensures log[|log| - 1].target in {ProblemsOf(contest), Problem(id)}
  {
    hide Answer;
  }

  lemma ProblemTargetsOnly(w: World, contest: seq<Byte>, start: nat, middle: nat, log: seq<Request>, id: string)
    requires start <= middle <= |log| && ProblemRequests(w, contest, id, middle, log)
    ensures WroteContestBefore(w, contest, start, log, |log|) <==> WroteContestBefore(w, contest, start, log, middle)
  {
    hide Answer;
  }

  /** There is no error exactly when CSOJ accepted the problem with the last request, and that means it accepted the
      contest before. The id is returned exactly when the contest was accepted; an error is that of the last request,
      unless the problem exists elsewhere, a request could not be built, or it was cancelled. */
  lemma SyncIsAnswered(w: World, contest: seq<Byte>, problem: seq<Byte>, log: seq<Request>)
    ensures var (id, err, end) := ProblemSync(w, contest, problem, log);
            var own := CSOJProblemID(contest, problem);
            && id == (if WroteContestBefore(w, contest, |log|, end, |end|) then own else "")
            && (err.None? <==>
                  && WroteContestBefore(w, contest, |log|, end, |end|)
                  && EndsWritten(w, |log|, end) && end[|end| - 1].target in {ProblemsOf(contest), Problem(own)})
            && (err.Some? && err != Some(Elsewhere) ==> Blames(w, |log|, end, err.value))
  {
    hide Answer, Attempt, CSOJProblemID, ContestUpsert, ProblemUpsert, WroteContestBefore, EndsWith, Wrote;
    var own := CSOJProblemID(contest, problem);
    ContestIsUpserted(w, contest, log);
    var (contestErr, middle) := ContestUpsert(w, contest, log);
    if contestErr.None? {
      ProblemIsUpserted(w, contest, own, middle);
      var (err, end) := ProblemUpsert(w, contest, own, middle);
      ContestEnd(w, contest, |log|, middle);
      WroteStays(w, contest, |log|, middle, end);
      ProblemTargetsOnly(w, contest, |log|, |middle|, end, own);
      if err.None? {
        ProblemEnd(w, contest, own, |middle|, end);
      }
    } else {
      ContestNotWritten(w, contest, |log|, middle);
    }
    hide ContestRequests, ProblemRequests;
  }
}
