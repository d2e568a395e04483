/** The bastion's session tracker, cmd/bastion-mgmt/main.go. */
module Tracker {
  import opened Wrappers
  import opened LeaseModel

  datatype Event = Opened(p: Principal, at: Time) | Closed(p: Principal, at: Time) | Drained(p: Principal)

  /** A roster entry. */
  datatype Session = Session(principal: Principal, count: int, lastActive: Option<Time>)

  /** Formatting a time to whole seconds and parsing it again. */
  function Stamp(at: Time): Time {
    at - at % SECOND
  }

  /** What the tracker knows of `p` after a history of events: nothing, or a count and the last stamp. */
  function Known(h: seq<Event>, p: Principal): Option<(nat, Time)> {
    if h == [] then None
    else
      var before := Known(h[..|h| - 1], p);
      match h[|h| - 1]
      case Opened(q, at) =>
        if q != p then before else Some((if before == None then 1 else before.value.0 + 1, Stamp(at)))
      case Closed(q, at) =>
        if q != p || before == None then before
        else if before.value.0 <= 1 then Some((0, Stamp(at))) else Some((before.value.0 - 1, before.value.1))
      case Drained(q) => if q == p then None else before
  }

  class PrincipalSession {
    const principal: Principal
    var channelCount: nat
    var lastActive: Option<Time>

    constructor (p: Principal)
      ensures principal == p && channelCount == 0 && lastActive == None
    {
      principal, channelCount, lastActive := p, 0, None;
    }
  }

  class SessionTracker {
    var sessions: map<Principal, PrincipalSession>
    ghost var history: seq<Event>

    /** The sessions are what the history says, and each has an object of its own. */
    ghost predicate Valid()
      reads this, sessions.Values
    {
      && (forall p :: p in sessions <==> Known(history, p).Some?)
      && (forall p :: p in sessions ==>
           && sessions[p].principal == p
           && Known(history, p) == Some((sessions[p].channelCount, sessions[p].lastActive.GetOr(0)))
           && sessions[p].lastActive.Some?)
    }

    constructor ()
      ensures Valid() && history == []
    {
      sessions, history := map[], [];
    }

    method OpenChannel(p: Principal, now: Time)
      requires Valid()
      modifies this, sessions.Values
      ensures Valid() && history == old(history) + [Opened(p, now)]
    {
      ghost var h := history + [Opened(p, now)];
      assert h[..|h| - 1] == history;
      if p !in sessions {
        var session := new PrincipalSession(p);
        sessions := sessions[p := session];
      }
      var s := sessions[p];
      s.channelCount := s.channelCount + 1;
      s.lastActive := Some(Stamp(now));
      history := h;
    }

    method CloseChannel(p: Principal, now: Time)
      requires Valid()
      modifies this, sessions.Values
      ensures Valid() && history == old(history) + [Closed(p, now)]
    {
      ghost var h := history + [Closed(p, now)];
      assert h[..|h| - 1] == history;
      history := h;
      if p !in sessions {
        return;
      }
      var s := sessions[p];
      if s.channelCount > 0 {
        s.channelCount := s.channelCount - 1;
      }
      if s.channelCount == 0 {
        s.lastActive := Some(Stamp(now));
      }
    }

    method Drain(p: Principal)
      requires Valid()
      modifies this
      ensures Valid() && history == old(history) + [Drained(p)]
    {
      ghost var h := history + [Drained(p)];
      assert h[..|h| - 1] == history;
      sessions := sessions - {p};
      history := h;
    }

    /** One entry for each principal with a session, in some order. */
    method Roster() returns (result: seq<Session>)
      requires Valid()
      ensures IsRosterOf(result, history)
    {
      result := [];
      var rest := sessions.Keys;
      ghost var at: map<Principal, nat> := map[];
      while rest != {}
        invariant at.Keys + rest == sessions.Keys && at.Keys !! rest
        invariant forall p :: p in at ==> at[p] < |result| && result[at[p]].principal == p
        invariant forall i :: 0 <= i < |result| ==> result[i].principal in at && at[result[i].principal] == i
        invariant forall i :: 0 <= i < |result| ==> Entry(history, result[i].principal) == Some(result[i])
        decreases rest
      {
        var p :| p in rest;
        var s := sessions[p];
        at := at[p := |result|];
        result := result + [Session(s.principal, s.channelCount, s.lastActive)];
        rest := rest - {p};
      }
      forall p | Known(history, p).Some? ensures exists i :: 0 <= i < |result| && result[i].principal == p {
        assert p in at;
      }
    }
  }

  /** The roster entry a history calls for. */
  function Entry(h: seq<Event>, p: Principal): Option<Session> {
    match Known(h, p)
    case None => None
    case Some((n, at)) => Some(Session(p, n, Some(at)))
  }

  ghost predicate IsRosterOf(result: seq<Session>, h: seq<Event>) {
    && (forall i, j :: 0 <= i < j < |result| ==> result[i].principal != result[j].principal)
    && (forall i :: 0 <= i < |result| ==> Entry(h, result[i].principal) == Some(result[i]))
    && (forall p :: Known(h, p).Some? ==> exists i :: 0 <= i < |result| && result[i].principal == p)
  }

  /** Opens minus closes of `p`. */
  function Balance(h: seq<Event>, p: Principal): int {
    if h == [] then 0
    else
      Balance(h[..|h| - 1], p) + match h[|h| - 1]
        case Opened(q, _) => if q == p then 1 else 0
        case Closed(q, _) => if q == p then -1 else 0
        case Drained(_) => 0
  }

  function Count(h: seq<Event>, p: Principal): nat {
    match Known(h, p)
    case None => 0
    case Some((n, _)) => n
  }

  /** The events since the last drain of `p`. */
  function SinceDrain(h: seq<Event>, p: Principal): (k: nat)
    ensures k <= |h|
  {
    if h == [] then 0 else if h[|h| - 1] == Drained(p) then |h| else SinceDrain(h[..|h| - 1], p)
  }

  /** One more event moves every balance by its own. */
  lemma BalanceMoves(h: seq<Event>, k: nat, p: Principal)
    requires k < |h|
    ensures Balance(h[k..], p) == Balance(h[..|h| - 1][k..], p) + Balance([h[|h| - 1]], p)
  {
    var last := h[|h| - 1];
    assert h[k..][..|h| - k - 1] == h[..|h| - 1][k..];
    assert [last][..0] == [];
  }

  /** The tracked count is the largest balance of any run of events up to now that does not reach back over a drain: a
      count of zero means that nothing opened since then is still open by the tracker's books. */
  lemma {:induction false} CountIsPeakBalance(h: seq<Event>, p: Principal)
    ensures forall k :: SinceDrain(h, p) <= k <= |h| ==> Balance(h[k..], p) <= Count(h, p)
    ensures exists k :: SinceDrain(h, p) <= k <= |h| && Balance(h[k..], p) == Count(h, p)
  {
    if h == [] {
      assert h[0..] == [];
    } else {
      var before, last := h[..|h| - 1], h[|h| - 1];
      CountIsPeakBalance(before, p);
      assert h[|h|..] == [];
      forall k | 0 <= k < |h| ensures Balance(h[k..], p) == Balance(before[k..], p) + Balance([last], p) {
        BalanceMoves(h, k, p);
      }
      var k :| SinceDrain(before, p) <= k <= |before| && Balance(before[k..], p) == Count(before, p);
      assert [last][..0] == [];
      if last != Drained(p) && Count(h, p) == Count(before, p) + Balance([last], p) {
        assert Balance(h[k..], p) == Count(h, p);
      } else {
        assert Balance(h[|h|..], p) == Count(h, p);
      }
    }
  }

  predicate Opens(ev: Event, p: Principal) {
    ev.Opened? && ev.p == p
  }

  /** Since its last drain `p` opened a channel. */
  ghost predicate HasOpened(h: seq<Event>, p: Principal) {
    exists k :: SinceDrain(h, p) <= k < |h| && Opens(h[k], p)
  }

  /** The tracker has a session for `p` exactly if `p` opened a channel since its last drain. */
  lemma {:induction false} SessionsAreOpened(h: seq<Event>, p: Principal)
    ensures Known(h, p).Some? <==> HasOpened(h, p)
  {
    if h != [] {
      var before, last := h[..|h| - 1], h[|h| - 1];
      SessionsAreOpened(before, p);
      if HasOpened(before, p) {
        var k :| SinceDrain(before, p) <= k < |before| && Opens(before[k], p);
        assert last != Drained(p) ==> Opens(h[k], p);
      }
      if HasOpened(h, p) {
        var k :| SinceDrain(h, p) <= k < |h| && Opens(h[k], p);
        assert k < |before| ==> Opens(before[k], p);
      }
      assert Opens(last, p) ==> Opens(h[|h| - 1], p);
    }
  }

  /** The event is activity of `p`: a channel opened, or the last one closed. */
  ghost predicate IsActivity(h: seq<Event>, k: nat, p: Principal)
    requires k < |h|
  {
    || Opens(h[k], p)
    || (h[k].Closed? && h[k].p == p && HasOpened(h[..k], p) && Count(h[..k + 1], p) == 0)
  }

  /** The time an entry carries is that of the last activity, to whole seconds. */
  lemma {:induction false} TimeIsLastActivity(h: seq<Event>, p: Principal) returns (k: nat)
    requires Known(h, p).Some?
    ensures SinceDrain(h, p) <= k < |h| && IsActivity(h, k, p) && !h[k].Drained?
    ensures forall m :: k < m < |h| ==> !IsActivity(h, m, p)
    ensures Known(h, p).value.1 == h[k].at / 1_000_000_000 * 1_000_000_000
  {
    var before, last := h[..|h| - 1], h[|h| - 1];
    SessionsAreOpened(before, p);
    assert h[..|h|] == h;
    k := |h| - 1;
    if !IsActivity(h, |h| - 1, p) {
      k := TimeIsLastActivity(before, p);
      forall m | 0 <= m < |before| ensures IsActivity(h, m, p) <==> IsActivity(before, m, p) {
        assert h[..m] == before[..m] && h[..m + 1] == before[..m + 1];
      }
    }
  }
}
