/** The lease as a value: its states, its clock predicates and the transition table of pkg/lease/lease.go. */
module LeaseModel {
  import opened Wrappers

  type Principal = string
  type ContainerId = string

  /** Nanoseconds since Go's zero time, so 0 is what `IsZero` tests for. */
  type Time = nat
  type Duration = int

  const SECOND: Duration := 1_000_000_000
  const MINUTE: Duration := 60 * SECOND
  const HOUR: Duration := 60 * MINUTE
  const MAX_DURATION: Duration := 0x7FFF_FFFF_FFFF_FFFF

  datatype ReleaseState = Active | Closing | Draining | Stopped | Reclaimed

  datatype Trigger = Manual | MaxLife | Idle

  const VALID_TRANSITIONS: map<ReleaseState, seq<ReleaseState>> :=
    map[Active := [Closing], Closing := [Draining], Draining := [Stopped], Stopped := [Reclaimed], Reclaimed := []]

  predicate CanTransition(current: ReleaseState, next: ReleaseState) {
    current in VALID_TRANSITIONS && next in VALID_TRANSITIONS[current]
  }

  function Rank(s: ReleaseState): nat {
    match s
    case Active => 0
    case Closing => 1
    case Draining => 2
    case Stopped => 3
    case Reclaimed => 4
  }

  /** The table is exactly the successor relation of the five-state line: nothing is skipped, nothing goes back. */
  lemma TransitionsClimbOneRank(current: ReleaseState, next: ReleaseState)
    ensures CanTransition(current, next) <==> Rank(next) == Rank(current) + 1
  {
  }

  /** `time.Since`: the difference, saturated at the largest duration. */
  function Since(now: Time, t: Time): Duration {
    if now - t > MAX_DURATION then MAX_DURATION
    else if now - t < -MAX_DURATION - 1 then -MAX_DURATION - 1
    else now - t
  }

  /** A roster's word on one principal: an entry (its time absent or unparsable: None), or no entry. */
  datatype Report = Listed(count: int, lastActive: Option<Time>) | Missing

  datatype Record = Record(
    owner: Principal,
    containerID: ContainerId,
    containerName: string,
    host: string,
    port: nat,
    startedAt: Time,
    deadlineAt: Time,
    idleTimeout: Duration,
    lastSeenAt: Time,
    channels: int,
    state: ReleaseState,
    releasedBy: Option<Trigger>,
    releasedAt: Time)
  {
    predicate IsExpired(now: Time) {
      deadlineAt != 0 && now > deadlineAt
    }

    predicate IsIdle(now: Time) {
      idleTimeout > 0 && channels == 0 && Since(now, lastSeenAt) > idleTimeout
    }

    /** What a trigger re-checks under the store lock before it releases. */
    predicate Due(trigger: Trigger, now: Time) {
      match trigger
      case Manual => true
      case MaxLife => IsExpired(now)
      case Idle => IsIdle(now)
    }

    /** The end of a completed release. */
    function Released(trigger: Trigger, now: Time): Record {
      this.(state := Reclaimed, releasedBy := Some(trigger), releasedAt := now)
    }

    /** What the rollback of a failed release leaves. */
    function RolledBack(): Record {
      this.(state := Active, releasedBy := None, releasedAt := 0)
    }

    /** An Active lease carries no release metadata. */
    predicate Clean() {
      state == Active ==> releasedBy == None && releasedAt == 0
    }

    /** What one roster says about the lease's owner, as `handleBastionRoster` applies it at time `at`. */
    function Touched(report: Report, at: Time): Record {
      match report
      case Missing => this.(channels := 0)
      case Listed(count, lastActive) =>
        var seen := if count > 0 then at else lastSeenAt;
        this.(channels := count,
              lastSeenAt := if lastActive.Some? && lastActive.value > seen then lastActive.value else seen)
    }

    /** What a store may show between two locked sections under the key `key`. */
    predicate Visible(key: Principal) {
      owner == key && (state == Active || state == Reclaimed) && Clean()
    }
  }

  /** The value `NewLease` builds at time `now`. */
  function NewRecord(owner: Principal, id: ContainerId, name: string, host: string, port: nat,
                     maxLife: Duration, idleTimeout: Duration, now: Time): Record
  {
    Record(owner, id, name, host, port, now, if maxLife > 0 then now + maxLife else 0, idleTimeout, now, 0,
           Active, None, 0)
  }

  /** The reservation a create holds while the runtime works. */
  function Placeholder(p: Principal): Record {
    Record(p, "", "", "", 0, 0, 0, 0, 0, 0, Closing, None, 0)
  }
}
