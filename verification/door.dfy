/**
 * The door as the service keeps it: one status record and one configuration
 * record, updated in place, and a log that only grows. Each method performs
 * the handler's steps in the handler's order and is proved to reach the
 * state the matching rule in `Engine` describes, keeping the status and the
 * log in agreement.
 */
module DoorLock {
  import opened Clock
  import opened Request
  import opened Settings
  import opened Engine

  class Door {
    var locked: bool
    var lastAccess: int
    var config: Config
    var log: seq<LogEntry>

    /** The stored records as one value. */
    function State(): DoorState
      reads this
    {
      DoorState(Status(locked, lastAccess), config, log)
    }

    ghost predicate Valid()
      reads this
    {
      Consistent(State())
    }

    /** `init_db` on an empty store: locked, default configuration, no log entries. */
    constructor (now: int)
      ensures Valid() && State() == Initial(now)
    {
      locked := true;
      lastAccess := now;
      config := InitialConfig(now);
      log := [];
      new;
      InitialConsistent(now);
    }

    /** `_perform_lock`: lock, stamp the status, append one successful entry. */
    method PerformLock(cause: Cause, now: int)
      modifies this
      ensures State() == LockBy(old(State()), cause, now)
    {
      locked := true;
      lastAccess := now;
      log := log + [LogEntry(Lock(cause), now, true)];
    }

    /** `_perform_unlock`: unlock, stamp the status, append one successful entry. */
    method PerformUnlock(cause: UnlockCause, now: int)
      modifies this
      ensures State() == UnlockBy(old(State()), cause, now)
    {
      locked := false;
      lastAccess := now;
      log := log + [LogEntry(Unlock(cause), now, true)];
    }

    /**
     * `GET /door/status`: apply the auto-lock rule, refresh the local view of
     * the lock, apply the schedule rule, and report the stored status.
     */
    method Evaluate(now: int) returns (s: Status)
      requires Valid()
      modifies this
      ensures Valid()
      ensures State() == Engine.Evaluate(old(State()), now)
      ensures s == Status(locked, lastAccess)
    {
      ghost var before := State();
      var isLocked := locked;
      var delay := config.autoLockDelay;
      if !isLocked && delay > 0 {
        if now - lastAccess > delay {
          PerformLock(Auto, now);
          isLocked := locked;
        }
      }
      assert State() == AutoLockCheck(before, now);
      if config.scheduleEnabled {
        var current := HHMM(now);
        if current == config.scheduleLockTime && !isLocked {
          PerformLock(Schedule, now);
          isLocked := locked;
        } else if current == config.scheduleUnlockTime && isLocked {
          PerformUnlock(Schedule, now);
        }
      }
      s := Status(locked, lastAccess);
      EvaluateConsistent(before, now);
    }

    /** `POST /door/lock`: a manual lock, whatever the current state, with no evaluation first. */
    method RequestLock(now: int)
      requires Valid()
      modifies this
      ensures Valid()
      ensures State() == Engine.RequestLock(old(State()), now)
    {
      ghost var before := State();
      PerformLock(Manual, now);
      RequestLockConsistent(before, now);
    }

    /**
     * `POST /door/unlock`: with the right PIN a manual unlock; otherwise one
     * failed attempt is logged and the status is left alone.
     */
    method RequestUnlock(body: Body, now: int) returns (reply: UnlockReply)
      requires Valid()
      modifies this
      ensures Valid()
      ensures (State(), reply) == Engine.RequestUnlock(old(State()), body, now)
    {
      ghost var before := State();
      var pin := Get(body, "pin", JNull);
      if pin == JString(CorrectPin) {
        PerformUnlock(Manual, now);
        reply := Unlocked;
      } else {
        log := log + [LogEntry(UnlockFail, now, false)];
        reply := InvalidPin;
      }
      RequestUnlockConsistent(before, body, now);
    }

    /**
     * `PUT /config`: convert the body's fields, falling back to defaults, and
     * replace the configuration record; on a failed conversion or a refused
     * value the old record stays.
     */
    method UpdateConfig(body: Body, now: int) returns (saved: bool)
      requires Valid()
      modifies this
      ensures Valid()
      ensures (State(), saved) == Engine.UpdateConfig(old(State()), body, now)
    {
      var parsed := ParseConfig(body, now);
      if parsed.Success? {
        config := parsed.value;
        saved := true;
      } else {
        saved := false;
      }
    }
  }
}
