/** The lease object of pkg/lease/lease.go, whose methods update it in place. */
module Lease {
  import opened Wrappers
  import opened LeaseModel
  import opened Environment

  datatype StepError = CallbackFailed(step: ReleaseState) | IllegalStep(at: ReleaseState, step: ReleaseState)

  const STEPS: seq<ReleaseState> := [Closing, Draining, Stopped, Reclaimed]

  /** What a store hands to `ExecuteRelease`: drain before Draining, stop before Stopped, each only when wired. */
  datatype Callback = Callback(p: Principal, id: ContainerId, drainer: Option<bool>, runtime: Option<StopAnswer>) {
    predicate Answer(s: ReleaseState) {
      (s == Draining ==> drainer != Some(false)) && (s == Stopped && runtime.Some? ==> runtime.value.StopDone?)
    }

    function Effect(e: Env, s: ReleaseState): Env {
      if s == Draining && drainer.Some? then e.DrainChannels(p, drainer.value)
      else if s == Stopped && runtime.Some? then e.StopService(ForRelease, p, id, runtime.value)
      else e
    }

    /** The closure over the principal and the container. */
    function Call(): (Env, ReleaseState) -> (Env, bool) {
      (e: Env, s: ReleaseState) => (Effect(e, s), Answer(s))
    }
  }

  /** The environment, the state and the error after walking STEPS[i..] from state `st` with any callback. */
  ghost function Walk(callback: (Env, ReleaseState) -> (Env, bool), e: Env, st: ReleaseState, i: nat)
    : (Env, ReleaseState, Option<StepError>)
    requires i <= |STEPS|
    decreases |STEPS| - i
  {
    if i == |STEPS| then (e, st, None)
    else if st == STEPS[i] then Walk(callback, e, st, i + 1)
    else
      var (e', ok) := callback(e, STEPS[i]);
      if !ok then (e', st, Some(CallbackFailed(STEPS[i])))
      else if !CanTransition(st, STEPS[i]) then (e', st, Some(IllegalStep(st, STEPS[i])))
      else Walk(callback, e', STEPS[i], i + 1)
  }

  /** The whole release succeeds exactly from Active or Closing with both callbacks succeeding; then the channels were
      drained before the container was stopped. A failed drain stops nothing, and from a later state nothing is
      called. */
  lemma ReleaseWalk(cb: Callback, e: Env, st: ReleaseState)
    ensures var (e', st', err) := Walk(cb.Call(), e, st, 0);
            && (err == None <==> (st == Active || st == Closing) && cb.Answer(Draining) && cb.Answer(Stopped))
            && (err == None ==> st' == Reclaimed && e' == cb.Effect(cb.Effect(e, Draining), Stopped))
            && ((st == Active || st == Closing) && !cb.Answer(Draining) ==>
                 e' == cb.Effect(e, Draining) && st' == Closing && err == Some(CallbackFailed(Draining)))
            && ((st == Active || st == Closing) && cb.Answer(Draining) && !cb.Answer(Stopped) ==>
                 && e' == cb.Effect(cb.Effect(e, Draining), Stopped) && st' == Draining
                 && err == Some(CallbackFailed(Stopped)))
            && (st != Active && st != Closing ==> e' == e && st' == st && err == Some(IllegalStep(st, Closing)))
  {
  }

  class Lease {
    var owner: Principal
    var containerID: ContainerId
    var containerName: string
    var host: string
    var port: nat
    var startedAt: Time
    var deadlineAt: Time
    var idleTimeout: Duration
    var lastSeenAt: Time
    var channels: int
    var state: ReleaseState
    var releasedBy: Option<Trigger>
    var releasedAt: Time
    /** The table entry the object was made for, if any; distinct entries therefore hold distinct objects. */
    ghost const slot: Option<Principal>

    /** `*l`, the value a copy is made from. */
    function Rec(): Record
      reads this
    {
      Record(owner, containerID, containerName, host, port, startedAt, deadlineAt, idleTimeout, lastSeenAt, channels,
             state, releasedBy, releasedAt)
    }

    /** `cpy := *l; &cpy`. */
    constructor Copy(r: Record, ghost slot: Option<Principal>)
      ensures Rec() == r && this.slot == slot
    {
      this.slot := slot;
      owner, containerID, containerName, host, port := r.owner, r.containerID, r.containerName, r.host, r.port;
      startedAt, deadlineAt, idleTimeout := r.startedAt, r.deadlineAt, r.idleTimeout;
      lastSeenAt, channels := r.lastSeenAt, r.channels;
      state, releasedBy, releasedAt := r.state, r.releasedBy, r.releasedAt;
    }

    method Transition(next: ReleaseState) returns (ok: bool)
      modifies this`state
      ensures ok == CanTransition(old(state), next)
      ensures state == if ok then next else old(state)
    {
      if !CanTransition(state, next) {
        return false;
      }
      state := next;
      return true;
    }

    /** Starts a release: only from Active, and only once. */
    method Release(trigger: Trigger, now: Time) returns (ok: bool)
      modifies this
      ensures ok == (old(state) == Active)
      ensures Rec() == if ok then old(Rec()).Released(trigger, now).(state := Closing) else old(Rec())
    {
      if state != Active {
        return false;
      }
      releasedBy := Some(trigger);
      releasedAt := now;
      ok := Transition(Closing);
    }

    /** Walks the lease to Reclaimed, calling back before each step. */
    method ExecuteRelease(callback: (Env, ReleaseState) -> (Env, bool), before: Env)
      returns (env: Env, err: Option<StepError>)
      modifies this`state
      ensures (env, state, err) == Walk(callback, before, old(state), 0)
    {
      env := before;
      for i := 0 to |STEPS|
        invariant Walk(callback, before, old(state), 0) == Walk(callback, env, state, i)
      {
        var s := STEPS[i];
        if state == s {
          continue;
        }
        var result := callback(env, s);
        env := result.0;
        if !result.1 {
          return env, Some(CallbackFailed(s));
        }
        var ok := Transition(s);
        if !ok {
          return env, Some(IllegalStep(state, s));
        }
        if s == Reclaimed {
          return env, None;
        }
      }
      return env, None;
    }

    /** What both stores write back when a release fails. */
    method RollBack()
      modifies this
      ensures Rec() == old(Rec()).RolledBack()
    {
      state := Active;
      releasedBy := None;
      releasedAt := 0;
    }
  }
}
