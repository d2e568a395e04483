/** One call to CSOJ, pkg/adapter/adapter.go: retryWithBackoff and doCSOJ, against an arbitrary server. */
module Adapter {
  import opened Wrappers
  import opened ProblemIds

  datatype Failure =
    | CSOJError(status: int, code: int, message: string)
    | PolicyError(code: int, message: string)
    | Unparsable
    | NotBuilt    // http.NewRequestWithContext refused
    | Cancelled   // ctx.Err() while waiting to retry
    | Elsewhere   // the problem exists, but not in the target contest

  /** The parsed {code, message, data}; `problems` is the list in the data, if the data holds one. */
  datatype Envelope = Envelope(code: int, message: string, problems: Option<seq<string>>)

  /** What one HTTP exchange comes to. */
  datatype Exchange =
    | Unreached(message: string)
    | CutShort(status: int, message: string)  // the body could not be read
    | Reply(status: int, body: Option<Envelope>)

  predicate IsRetryable(f: Failure) {
    f.CSOJError? && (f.status >= 500 || f.status == 0)
  }

  // --- policy rejections ---

  /** strings.ToLower as far as it can produce an ASCII letter. */
  function Lower(c: char): char {
    if 'A' <= c <= 'Z' then (c as int - 'A' as int + 'a' as int) as char
    else if c == '\U{0130}' then 'i'
    else if c == '\U{212A}' then 'k'
    else c
  }

  predicate StandsAt(word: string, message: string, i: nat)
    requires i + |word| <= |message|
  {
    forall k | 0 <= k < |word| :: Lower(message[i + k]) == word[k]
  }

  /** strings.Contains after strings.ToLower. */
  predicate Mentions(message: string, word: string) {
    exists i | 0 <= i <= |message| - |word| :: StandsAt(word, message, i)
  }

  predicate IsPolicyRejection(f: Failure) {
    && f.CSOJError?
    && 400 <= f.status < 500
    && (Mentions(f.message, "ban") || Mentions(f.message, "disallowed") || Mentions(f.message, "forbidden"))
  }

  function MapPolicy(f: Failure): Failure {
    if IsPolicyRejection(f) then PolicyError(f.code, f.message) else f
  }

  function ValidateEnvelope(status: int, body: Option<Envelope>): Result<Envelope, Failure> {
    match body
    case None => Err(Unparsable)
    case Some(env) =>
      if status < 200 || status >= 300 || env.code != 0 then Err(CSOJError(status, env.code, env.message)) else Ok(env)
  }

  /** The outcome of one attempt. Only a validated envelope goes through the policy mapping. */
  function Attempt(x: Exchange): Result<Envelope, Failure> {
    match x
    case Unreached(m) => Err(CSOJError(0, 0, m))
    case CutShort(status, m) => Err(CSOJError(status, 0, m))
    case Reply(status, body) =>
      match ValidateEnvelope(status, body)
      case Ok(env) => Ok(env)
      case Err(f) => Err(MapPolicy(f))
  }

  /** `v` spells the word, each letter in either case; the dotted capital I counts as an i. */
  predicate Spells(v: string, small: string, capital: string)
    requires |small| == |capital|
  {
    |v| == |small|
    && forall k | 0 <= k < |v| :: v[k] == small[k] || v[k] == capital[k] || (small[k] == 'i' && v[k] == '\U{0130}')
  }

  ghost predicate HasWord(message: string, small: string, capital: string)
    requires |small| == |capital|
  {
    exists u: string, v: string, w: string :: message == u + v + w && Spells(v, small, capital)
  }

  /** The message has one of the three words in it. */
  ghost predicate ReadsLikePolicy(message: string) {
    HasWord(message, "ban", "BAN") || HasWord(message, "disallowed", "DISALLOWED")
    || HasWord(message, "forbidden", "FORBIDDEN")
  }

  /** A small letter and its capital. */
  predicate Letter(small: char, capital: char) {
    'A' <= capital <= 'Z' && capital != 'K' && capital as int + 32 == small as int
  }

  lemma LetterLowers(c: char, small: char, capital: char)
    requires Letter(small, capital)
    ensures Lower(c) == small <==> c == small || c == capital || (small == 'i' && c == '\U{0130}')
  {
  }

  lemma StandsSpelled(message: string, i: nat, small: string, capital: string)
    requires i + |small| <= |message| && |small| == |capital|
    requires forall k :: 0 <= k < |small| ==> Letter(small[k], capital[k])
    ensures StandsAt(small, message, i) <==> Spells(message[i..i + |small|], small, capital)
  {
    hide Lower, Letter;
    forall k | 0 <= k < |small|
      ensures Lower(message[i + k]) == small[k] <==>
                || message[i..i + |small|][k] == small[k] || message[i..i + |small|][k] == capital[k]
                || (small[k] == 'i' && message[i..i + |small|][k] == '\U{0130}')
    {
      LetterLowers(message[i + k], small[k], capital[k]);
    }
  }

  lemma MentionsSpelled(message: string, small: string, capital: string)
    requires |small| == |capital| && forall k :: 0 <= k < |small| ==> Letter(small[k], capital[k])
    ensures Mentions(message, small) <==> HasWord(message, small, capital)
  {
    hide Letter, StandsAt, Spells;
    if Mentions(message, small) {
      var i :| 0 <= i <= |message| - |small| && StandsAt(small, message, i);
      StandsSpelled(message, i, small, capital);
      assert message == message[..i] + message[i..i + |small|] + message[i + |small|..];
    }
    if HasWord(message, small, capital) {
      var u: string, v: string, w: string :| message == u + v + w && Spells(v, small, capital);
      assert |v| == |small| by { SpellsLength(v, small, capital); }
      assert message[|u|..|u| + |small|] == v;
      StandsSpelled(message, |u|, small, capital);
    }
  }

  lemma SpellsLength(v: string, small: string, capital: string)
    requires |small| == |capital| && Spells(v, small, capital)
    ensures |v| == |small|
  {
  }

  lemma PolicyWords(message: string)
    ensures Mentions(message, "ban") || Mentions(message, "disallowed") || Mentions(message, "forbidden")
            <==> ReadsLikePolicy(message)
  {
    MentionsSpelled(message, "ban", "BAN");
    MentionsSpelled(message, "disallowed", "DISALLOWED");
    MentionsSpelled(message, "forbidden", "FORBIDDEN");
    hide Mentions, HasWord;
  }

  /** What a parsed reply comes to: its envelope exactly with a 2xx status and code 0; a policy rejection exactly with a
      4xx status and one of the words in the message; and otherwise an error with what the reply said, as far as it
      could be read. */
  lemma WhatAReplyMeans(status: int, env: Envelope)
    ensures var res := Attempt(Reply(status, Some(env)));
            && (res == Ok(env) <==> 200 <= status <= 299 && env.code == 0)
            && (res == Err(PolicyError(env.code, env.message)) <==>
                  400 <= status <= 499 && ReadsLikePolicy(env.message))
            && (res != Ok(env) && res != Err(PolicyError(env.code, env.message)) ==>
                 res == Err(CSOJError(status, env.code, env.message)))
            && Attempt(Reply(status, None)) == Err(Unparsable)
            && Attempt(CutShort(status, env.message)) == Err(CSOJError(status, 0, env.message))
            && Attempt(Unreached(env.message)) == Err(CSOJError(0, 0, env.message))
  {
    PolicyWords(env.message);
    hide Mentions, ReadsLikePolicy;
  }

  /** What is retried, in terms of the exchange: no answer at all, or a status of 500 and above; but not when a body was
      received that does not parse. */
  lemma WhatIsRetried(x: Exchange)
    ensures Attempt(x).Err? && IsRetryable(Attempt(x).error)
            <==> match x
                 case Unreached(_) => true
                 case CutShort(status, _) => status >= 500 || status == 0
                 case Reply(status, body) => body.Some? && (status >= 500 || status == 0)
  {
  }

  predicate IsMissing(r: Result<Envelope, Failure>) {
    r.Err? && r.error.CSOJError? && r.error.status == 404
  }

  /** What counts as "not there": a 404, unless its body does not parse or its message reads like a policy rejection. */
  lemma WhatIsMissing(x: Exchange)
    ensures IsMissing(Attempt(x))
            <==> match x
                 case Unreached(_) => false
                 case CutShort(status, _) => status == 404
                 case Reply(status, body) =>
                   && status == 404 && body.Some?
                   && !ReadsLikePolicy(body.value.message)
  {
    if x.Reply? && x.body.Some? {
      WhatAReplyMeans(x.status, x.body.value);
      hide ReadsLikePolicy, Attempt;
    }
  }

  // --- retry ---

  type Outcome = Result<Envelope, Failure>

  function Pow2(n: nat): nat {
    if n == 0 then 1 else 2 * Pow2(n - 1)
  }

  predicate Transient(o: Outcome) {
    o.Err? && IsRetryable(o.error)
  }

  /** The result and the number of calls, when k attempts have failed and been waited out. */
  function Retried(r: nat, outcome: nat -> Outcome, cancelled: nat -> bool, k: nat): (Outcome, nat)
    requires k <= r
    decreases r - k
  {
    if !Transient(outcome(k)) || k == r then (outcome(k), k + 1)
    else if cancelled(k) then (Err(Cancelled), k + 1)
    else Retried(r, outcome, cancelled, k + 1)
  }

  method RetryWithBackoff(r: nat, base: nat, outcome: nat -> Outcome, cancelled: nat -> bool)
    returns (res: Outcome, calls: nat, waited: nat)
    ensures (res, calls) == Retried(r, outcome, cancelled, 0)
    ensures calls > 0 && waited == base * (Pow2(calls - 1) - 1)
  {
    var attempt := 0;
    waited := 0;
    res := Err(Cancelled);
    while attempt <= r
      invariant attempt <= r && Retried(r, outcome, cancelled, 0) == Retried(r, outcome, cancelled, attempt)
      invariant waited == base * (Pow2(attempt) - 1)
    {
      res := outcome(attempt);
      if res.Ok? || !IsRetryable(res.error) {
        return res, attempt + 1, waited;
      }
      if attempt < r {
        if cancelled(attempt) {
          return Err(Cancelled), attempt + 1, waited;
        }
        waited := waited + base * Pow2(attempt);
        attempt := attempt + 1;
      } else {
        return res, attempt + 1, waited;
      }
    }
  }

  /** n attempts, all but the last transient failures; it stops because it may, because it must, or because it was
      told to. */
  ghost predicate Stops(r: nat, outcome: nat -> Outcome, cancelled: nat -> bool, res: Outcome, n: nat) {
    && 1 <= n <= r + 1
    && (forall k: nat :: k < n - 1 ==> Transient(outcome(k)) && !cancelled(k))
    && if Transient(outcome(n - 1)) && n <= r && cancelled(n - 1) then res == Err(Cancelled)
       else res == outcome(n - 1) && (n <= r ==> !Transient(outcome(n - 1)))
  }

  lemma {:induction false} RetriedFrom(r: nat, outcome: nat -> Outcome, cancelled: nat -> bool, k: nat)
    requires k <= r && forall j: nat :: j < k ==> Transient(outcome(j)) && !cancelled(j)
    ensures var (res, n) := Retried(r, outcome, cancelled, k); Stops(r, outcome, cancelled, res, n)
    decreases r - k
  {
    if Transient(outcome(k)) && k < r && !cancelled(k) {
      RetriedFrom(r, outcome, cancelled, k + 1);
    }
  }

  /** Bounded retry: exactly one way to stop, and the loop takes it. */
  lemma RetryIsBounded(r: nat, outcome: nat -> Outcome, cancelled: nat -> bool, res: Outcome, n: nat)
    ensures (res, n) == Retried(r, outcome, cancelled, 0) <==> Stops(r, outcome, cancelled, res, n)
  {
    RetriedFrom(r, outcome, cancelled, 0);
    var (res0, n0) := Retried(r, outcome, cancelled, 0);
    hide Retried, Transient;
  }

  const MAX_RETRIES := 3
  const RETRY_DELAY_MS := 200

  /** With the source's constants: at most 4 calls, after waits of 200, 400 and 800 ms. */
  lemma WaitsAreShort(outcome: nat -> Outcome, cancelled: nat -> bool)
    ensures var (_, n) := Retried(MAX_RETRIES, outcome, cancelled, 0);
            1 <= n <= 4 && RETRY_DELAY_MS * (Pow2(n - 1) - 1) == [0, 200, 600, 1400][n - 1]
  {
    RetriedFrom(MAX_RETRIES, outcome, cancelled, 0);
    assert Pow2(0) == 1 && Pow2(1) == 2 && Pow2(2) == 4 && Pow2(3) == 8;
  }

  /** Up to three transient failures in a row are overcome, and a fourth is the end. */
  lemma FailuresAreOvercome(outcome: nat -> Outcome, cancelled: nat -> bool, n: nat)
    requires n < 4 && forall k: nat :: k < n ==> Transient(outcome(k)) && !cancelled(k)
    requires n == 3 || !Transient(outcome(n))
    ensures Retried(MAX_RETRIES, outcome, cancelled, 0) == (outcome(n), n + 1)
  {
    assert Stops(3, outcome, cancelled, outcome(n), n + 1);
    RetryIsBounded(3, outcome, cancelled, outcome(n), n + 1);
  }

  // --- requests ---

  datatype Verb = GET | PUT | POST

  datatype Target = Contests | Contest(contest: seq<Byte>) | ProblemsOf(contest: seq<Byte>) | Problem(id: string)

  datatype Request = Request(verb: Verb, target: Target)

  /** Everything outside the adapter: each answer may depend on all requests so far. */
  datatype World = World(
    builds: Request -> bool,
    answer: seq<Request> -> Exchange,
    cancelled: seq<Request> -> bool)

  function Repeat(req: Request, n: nat): seq<Request> {
    seq(n, _ => req)
  }

  /** The log after n attempts at a request, and the outcome of the last of them. */
  function LogAfter(w: World, req: Request, log: seq<Request>, n: nat): seq<Request> {
    if w.builds(req) then log + Repeat(req, n) else log
  }

  function Outcomes(w: World, req: Request, log: seq<Request>): nat -> Outcome {
    (n: nat) => if w.builds(req) then Attempt(w.answer(log + Repeat(req, n + 1))) else Err(NotBuilt)
  }

  function Cancels(w: World, req: Request, log: seq<Request>): nat -> bool {
    (n: nat) => w.cancelled(LogAfter(w, req, log, n + 1))
  }

  /** One call of doCSOJ: its outcome and the log after it. */
  function Call(w: World, req: Request, log: seq<Request>): (Outcome, seq<Request>) {
    var (o, n) := Retried(MAX_RETRIES, Outcomes(w, req, log), Cancels(w, req, log), 0);
    (o, LogAfter(w, req, log, n))
  }

  method DoCSOJ(w: World, req: Request, log: seq<Request>) returns (res: Outcome, log': seq<Request>)
    ensures (res, log') == Call(w, req, log)
  {
    var calls, waited;
    res, calls, waited := RetryWithBackoff(MAX_RETRIES, RETRY_DELAY_MS, Outcomes(w, req, log), Cancels(w, req, log));
    log' := LogAfter(w, req, log, calls);
  }

  /** The outcome the k-th request of a log had. */
  function Answer(w: World, log: seq<Request>, k: nat): Outcome
    requires k < |log|
  {
    Attempt(w.answer(log[..k + 1]))
  }

  /** One call of doCSOJ, seen in the log: the same request at most four times, all answers but the last transient
      failures; the result is the last answer if that was not transient or the fourth, and no success and no 404 comes
      from elsewhere: the only other results are that it could not be built and was never sent, or was cancelled. */
  ghost predicate Sent(w: World, req: Request, log: seq<Request>, res: Outcome, log': seq<Request>) {
    && log <= log' && |log'| <= |log| + 4 && (w.builds(req) <==> |log| < |log'|)
    && (!w.builds(req) ==> res == Err(NotBuilt))
    && (w.builds(req) && res != Answer(w, log', |log'| - 1) ==>
         res == Err(Cancelled) && w.cancelled(log') && |log'| < |log| + 4)
    && (forall k :: |log| <= k < |log'| ==> log'[k] == req)
    && (forall k :: |log| <= k < |log'| - 1 ==> Transient(Answer(w, log', k)))
    && (|log| < |log'| && !Transient(Answer(w, log', |log'| - 1)) ==> res == Answer(w, log', |log'| - 1))
    && res != Err(Elsewhere)
    && (res.Ok? || IsMissing(res) ==> |log| < |log'| && res == Answer(w, log', |log'| - 1))
  }

  lemma AnswerToAttempt(w: World, req: Request, log: seq<Request>, n: nat, k: nat)
    requires w.builds(req) && k < n
    ensures var log' := LogAfter(w, req, log, n);
            |log'| == |log| + n && Answer(w, log', |log| + k) == Outcomes(w, req, log)(k)
  {
    assert LogAfter(w, req, log, n)[..|log| + k + 1] == log + Repeat(req, k + 1);
  }

  lemma ErrorsOfExchange(x: Exchange)
    ensures Attempt(x).Err? ==>
              Attempt(x).error.CSOJError? || Attempt(x).error.PolicyError? || Attempt(x).error.Unparsable?
  {
  }

  lemma CallIsSent(w: World, req: Request, log: seq<Request>)
    ensures var (o, log') := Call(w, req, log); Sent(w, req, log, o, log')
  {
    var outcome, cancelled := Outcomes(w, req, log), Cancels(w, req, log);
    RetriedFrom(MAX_RETRIES, outcome, cancelled, 0);
    hide Retried, Attempt, Answer;
    var (o, n) := Retried(MAX_RETRIES, outcome, cancelled, 0);
    var log' := LogAfter(w, req, log, n);
    assert forall x :: Attempt(x) != Err(Elsewhere) by {
      forall x { ErrorsOfExchange(x); }
    }
    if w.builds(req) {
      AnswerToAttempt(w, req, log, n, n - 1);
      forall k | |log| <= k < |log'| - 1 ensures Transient(Answer(w, log', k)) {
        AnswerToAttempt(w, req, log, n, k - |log|);
      }
    }
  }

  function ErrorOf(o: Outcome): Option<Failure> {
    if o.Err? then Some(o.error) else None
  }
}
