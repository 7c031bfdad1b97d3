/**
 * The lock-state engine as values: the door's status, its configuration and
 * its append-only activity log, and the rules that move them. Each rule is a
 * function from the state before to the state after; the `Door` class in
 * door.dfy performs the same steps in place and is proved against these.
 */
module Engine {
  import opened Clock
  import opened Request
  import opened Settings

  /** The secret a manual unlock must present. */
  const CorrectPin := "1234"

  /** What made a transition happen. */
  datatype Cause = Manual | Auto | Schedule

  /** The causes an unlock can have: the service never unlocks on its own timer. */
  type UnlockCause = c: Cause | c != Auto witness Manual

  /** The action recorded in a log entry. */
  datatype Action = Lock(cause: Cause) | Unlock(unlockCause: UnlockCause) | UnlockFail {
    /** The text the log stores for the action. */
    function Text(): string {
      match this
      case Lock(Manual) => "lock (manual)"
      case Lock(Auto) => "lock (auto)"
      case Lock(Schedule) => "lock (schedule)"
      case Unlock(c) => if c == Manual then "unlock (manual)" else "unlock (schedule)"
      case UnlockFail => "unlock (fail)"
    }
  }

  datatype LogEntry = LogEntry(action: Action, time: int, success: bool)

  /** The door status record: whether it is locked and when it last changed. */
  datatype Status = Status(locked: bool, lastAccess: int)

  datatype DoorState = DoorState(status: Status, config: Config, log: seq<LogEntry>)

  /** The state `init_db` sets up: locked, default configuration, empty log. */
  function Initial(now: int): DoorState {
    DoorState(Status(true, now), InitialConfig(now), [])
  }

  /** `_perform_lock`: lock, stamp the status and log one successful entry. */
  function LockBy(d: DoorState, cause: Cause, now: int): DoorState {
    d.(status := Status(true, now), log := d.log + [LogEntry(Lock(cause), now, true)])
  }

  /** `_perform_unlock`: unlock, stamp the status and log one successful entry. */
  function UnlockBy(d: DoorState, cause: UnlockCause, now: int): DoorState {
    d.(status := Status(false, now), log := d.log + [LogEntry(Unlock(cause), now, true)])
  }

  /** The auto-lock condition: unlocked, auto-lock enabled and idle for strictly longer than the delay. */
  predicate AutoLockDue(d: DoorState, now: int) {
    && !d.status.locked
    && d.config.autoLockDelay > 0
    && now - d.status.lastAccess > d.config.autoLockDelay
  }

  /** First rule of an evaluation. */
  function AutoLockCheck(d: DoorState, now: int): DoorState {
    if AutoLockDue(d, now) then LockBy(d, Auto, now) else d
  }

  /** Second rule of an evaluation: lock at the lock minute, otherwise unlock at the unlock minute. */
  function ScheduleCheck(d: DoorState, now: int): DoorState {
    if !d.config.scheduleEnabled then d
    else
      var current := HHMM(now);
      if current == d.config.scheduleLockTime && !d.status.locked then LockBy(d, Schedule, now)
      else if current == d.config.scheduleUnlockTime && d.status.locked then UnlockBy(d, Schedule, now)
      else d
  }

  /**
   * `GET /door/status`: the auto-lock rule, then the schedule rule on the
   * state the first rule left. Only the log grows; the configuration is
   * never touched; at most two entries are added, all successful and
   * stamped `now`; and when nothing is logged nothing changes.
   */
  function Evaluate(d: DoorState, now: int): (r: DoorState)
    ensures r.config == d.config
    ensures |d.log| <= |r.log| <= |d.log| + 2 && r.log[..|d.log|] == d.log
    ensures forall i :: |d.log| <= i < |r.log| ==> r.log[i].time == now && r.log[i].success
    ensures |r.log| == |d.log| ==> r == d
  {
    ScheduleCheck(AutoLockCheck(d, now), now)
  }

  /** `POST /door/lock`: an unconditional manual lock, without evaluating the rules first. */
  function RequestLock(d: DoorState, now: int): DoorState {
    LockBy(d, Manual, now)
  }

  /** The two replies of `POST /door/unlock`: success, or 401 for a wrong PIN. */
  datatype UnlockReply = Unlocked | InvalidPin

  /** The PIN test: Python `==` against the secret, so only that exact text matches. */
  predicate PinMatches(pin: Json) {
    pin == JString(CorrectPin)
  }

  /**
   * `POST /door/unlock`: the right PIN always unlocks and logs a manual
   * unlock, even when the door is already unlocked; any other PIN, or none,
   * leaves status and configuration alone and logs exactly one failed
   * attempt.
   */
  function RequestUnlock(d: DoorState, body: Body, now: int): (r: (DoorState, UnlockReply))
    ensures r.1 == Unlocked <==> PinMatches(Get(body, "pin", JNull))
    ensures r.0.config == d.config
    ensures r.1 == Unlocked ==>
      r.0.status == Status(false, now) && r.0.log == d.log + [LogEntry(Unlock(Manual), now, true)]
    ensures r.1 == InvalidPin ==>
      r.0.status == d.status && r.0.log == d.log + [LogEntry(UnlockFail, now, false)]
  {
    if PinMatches(Get(body, "pin", JNull)) then (UnlockBy(d, Manual, now), Unlocked)
    else (d.(log := d.log + [LogEntry(UnlockFail, now, false)]), InvalidPin)
  }

  /**
   * `PUT /config`: store the parsed record, or keep the old one when parsing
   * or storing fails. Status and log are never touched.
   */
  function UpdateConfig(d: DoorState, body: Body, now: int): (r: (DoorState, bool))
    ensures r.0.status == d.status && r.0.log == d.log
    ensures r.1 <==> ParseConfig(body, now).Success?
    ensures r.1 ==> r.0.config == ParseConfig(body, now).value
    ensures !r.1 ==> r.0.config == d.config
  {
    match ParseConfig(body, now)
    case Success(c) => (d.(config := c), true)
    case Failure(_) => (d, false)
  }

  // ----- The audit invariant --------------------------------------------

  /** The most recent successful entry of the log: the last transition. */
  function LastTransition(log: seq<LogEntry>): Option<LogEntry> {
    if log == [] then None
    else if log[|log| - 1].success then Some(log[|log| - 1])
    else LastTransition(log[..|log| - 1])
  }

  /** An entry the handlers can produce: transitions succeed, failed unlocks do not. */
  predicate WellFormed(e: LogEntry) {
    e.success == (e.action != UnlockFail)
  }

  /**
   * The status agrees with the log: the last transition says whether the
   * door is locked and carries its last-access time, and with no
   * transition yet the door is still in its initial, locked state.
   */
  predicate Consistent(d: DoorState) {
    && (forall i :: 0 <= i < |d.log| ==> WellFormed(d.log[i]))
    && match LastTransition(d.log)
       case None => d.status.locked
       case Some(e) => e.action.Lock? == d.status.locked && e.time == d.status.lastAccess
  }

  lemma LastTransitionAppend(log: seq<LogEntry>, e: LogEntry)
    ensures LastTransition(log + [e]) == if e.success then Some(e) else LastTransition(log)
  {
    assert (log + [e])[..|log|] == log;
  }

  lemma LockByConsistent(d: DoorState, cause: Cause, now: int)
    requires Consistent(d)
    ensures Consistent(LockBy(d, cause, now))
  {
    LastTransitionAppend(d.log, LogEntry(Lock(cause), now, true));
  }

  lemma UnlockByConsistent(d: DoorState, cause: UnlockCause, now: int)
    requires Consistent(d)
    ensures Consistent(UnlockBy(d, cause, now))
  {
    LastTransitionAppend(d.log, LogEntry(Unlock(cause), now, true));
  }

  lemma InitialConsistent(now: int)
    ensures Consistent(Initial(now))
  {
  }

  /** Evaluation keeps the status and the log in agreement. */
  lemma {:induction false} EvaluateConsistent(d: DoorState, now: int)
    requires Consistent(d)
    ensures Consistent(Evaluate(d, now))
  {
    var a := AutoLockCheck(d, now);
    if AutoLockDue(d, now) {
      LockByConsistent(d, Auto, now);
    }
    if a.config.scheduleEnabled {
      var current := HHMM(now);
      if current == a.config.scheduleLockTime && !a.status.locked {
        LockByConsistent(a, Schedule, now);
      } else if current == a.config.scheduleUnlockTime && a.status.locked {
        UnlockByConsistent(a, Schedule, now);
      }
    }
  }

  /** A manual lock keeps the status and the log in agreement. */
  lemma {:induction false} RequestLockConsistent(d: DoorState, now: int)
    requires Consistent(d)
    ensures Consistent(RequestLock(d, now))
  {
    LockByConsistent(d, Manual, now);
  }

  /** An unlock attempt, right or wrong, keeps the status and the log in agreement. */
  lemma {:induction false} RequestUnlockConsistent(d: DoorState, body: Body, now: int)
    requires Consistent(d)
    ensures Consistent(RequestUnlock(d, body, now).0)
  {
    if PinMatches(Get(body, "pin", JNull)) {
      UnlockByConsistent(d, Manual, now);
    } else {
      LastTransitionAppend(d.log, LogEntry(UnlockFail, now, false));
    }
  }

  /** A configuration update keeps the status and the log in agreement. */
  lemma {:induction false} UpdateConfigConsistent(d: DoorState, body: Body, now: int)
    requires Consistent(d)
    ensures Consistent(UpdateConfig(d, body, now).0)
  {
  }

  /**
   * The two-state machine: an unlocked door was last unlocked by hand or by
   * the schedule, and a locked door was locked by some transition or has
   * not changed since initialisation.
   */
  lemma {:induction false} UnlockedOnlyByPinOrSchedule(d: DoorState)
    requires Consistent(d) && !d.status.locked
    ensures LastTransition(d.log).Some?
    ensures LastTransition(d.log).value.action == Unlock(Manual)
         || LastTransition(d.log).value.action == Unlock(Schedule)
  {
    LastTransitionIsEntry(d.log);
    var i :| 0 <= i < |d.log| && d.log[i] == LastTransition(d.log).value && d.log[i].success;
    var e := d.log[i];
    assert WellFormed(e) && !e.action.Lock?;
    assert e.action.Unlock?;
  }

  lemma {:induction false} LastTransitionIsEntry(log: seq<LogEntry>)
    ensures LastTransition(log).Some? ==>
      exists i :: 0 <= i < |log| && log[i] == LastTransition(log).value && log[i].success
  {
    if log != [] && !log[|log| - 1].success {
      var init := log[..|log| - 1];
      LastTransitionIsEntry(init);
      if LastTransition(init).Some? {
        var i :| 0 <= i < |init| && init[i] == LastTransition(init).value && init[i].success;
        assert log[i] == init[i];
      }
    }
  }

  // ----- The evaluation rules -------------------------------------------

  /**
   * Auto-lock: the first entry an evaluation adds is a `lock (auto)` stamped
   * `now` exactly when the door is unlocked, the delay is positive and the
   * door has been idle strictly longer than the delay; when the auto-lock
   * is the only entry, the door ends locked and stamped `now`.
   */
  lemma {:induction false} AutoLockRule(d: DoorState, now: int)
    ensures AutoLockDue(d, now) <==>
      |Evaluate(d, now).log| > |d.log| && Evaluate(d, now).log[|d.log|] == LogEntry(Lock(Auto), now, true)
    ensures AutoLockDue(d, now) && |Evaluate(d, now).log| == |d.log| + 1 ==> Evaluate(d, now).status == Status(true, now)
  {
    var a := AutoLockCheck(d, now);
    if AutoLockDue(d, now) {
      assert a.log[|d.log|] == LogEntry(Lock(Auto), now, true);
      assert Evaluate(d, now).log[..|a.log|] == a.log by {
        assert ScheduleCheck(a, now).log[..|a.log|] == a.log;
      }
    }
  }

  /** A delay of zero or less never auto-locks, however long the door has been idle. */
  lemma {:induction false} NonPositiveDelayNeverAutoLocks(d: DoorState, now: int)
    requires d.config.autoLockDelay <= 0
    ensures forall i :: |d.log| <= i < |Evaluate(d, now).log| ==> Evaluate(d, now).log[i].action != Lock(Auto)
  {
    assert AutoLockCheck(d, now) == d;
  }

  /**
   * With the schedule off and no auto-lock due, evaluating changes nothing
   * and reports the stored status.
   */
  lemma {:induction false} QuietEvaluation(d: DoorState, now: int)
    requires !d.config.scheduleEnabled && !AutoLockDue(d, now)
    ensures Evaluate(d, now) == d
  {
    assert AutoLockCheck(d, now) == d;
  }

  /**
   * The schedule lock fires only in the exact minute its configured text
   * names, only with the schedule on, and only on a door that was unlocked
   * and not auto-locked in the same evaluation; it leaves the door locked.
   */
  lemma {:induction false} ScheduleLockOnlyAtItsMinute(d: DoorState, now: int)
    requires LogEntry(Lock(Schedule), now, true) in Evaluate(d, now).log[|d.log|..]
    ensures d.config.scheduleEnabled && !d.status.locked && !AutoLockDue(d, now)
    ensures IsClockText(d.config.scheduleLockTime)
    ensures ClockTextMinute(d.config.scheduleLockTime) == MinuteOfDay(now)
    ensures Evaluate(d, now).status == Status(true, now)
  {
    ScheduleShape(d, now);
    HHMMMatches(now, d.config.scheduleLockTime);
  }

  /**
   * The schedule unlock fires only in the exact minute its configured text
   * names, only with the schedule on, only when the lock minute is not the
   * current one or the door was already locked, and only on a door that
   * was locked when the schedule rule ran (possibly by auto-lock in the
   * same evaluation).
   */
  lemma {:induction false} ScheduleUnlockOnlyAtItsMinute(d: DoorState, now: int)
    requires LogEntry(Unlock(Schedule), now, true) in Evaluate(d, now).log[|d.log|..]
    ensures d.config.scheduleEnabled && (d.status.locked || AutoLockDue(d, now))
    ensures IsClockText(d.config.scheduleUnlockTime)
    ensures ClockTextMinute(d.config.scheduleUnlockTime) == MinuteOfDay(now)
    ensures Evaluate(d, now).status == Status(false, now)
  {
    ScheduleShape(d, now);
    HHMMMatches(now, d.config.scheduleUnlockTime);
  }

  /** The entries one evaluation can add, and the conditions for each. */
  lemma {:induction false} ScheduleShape(d: DoorState, now: int)
    ensures var r := Evaluate(d, now); var added := r.log[|d.log|..];
      var auto := LogEntry(Lock(Auto), now, true);
      var schedLock := LogEntry(Lock(Schedule), now, true);
      var schedUnlock := LogEntry(Unlock(Schedule), now, true);
      && (added == [] || added == [auto] || added == [schedLock] || added == [schedUnlock] || added == [auto, schedUnlock])
      && (auto in added <==> AutoLockDue(d, now))
      && (schedLock in added <==>
            d.config.scheduleEnabled && HHMM(now) == d.config.scheduleLockTime
            && !d.status.locked && !AutoLockDue(d, now))
      && (schedUnlock in added <==>
            d.config.scheduleEnabled && HHMM(now) == d.config.scheduleUnlockTime
            && (d.status.locked || AutoLockDue(d, now))
            && (HHMM(now) != d.config.scheduleLockTime || d.status.locked || AutoLockDue(d, now)))
      && (schedLock in added ==> r.status == Status(true, now))
      && (schedUnlock in added ==> r.status == Status(false, now))
  {
    var a := AutoLockCheck(d, now);
    var r := Evaluate(d, now);
    assert a.log[..|d.log|] == d.log;
    assert a.log[|d.log|..] == if AutoLockDue(d, now) then [LogEntry(Lock(Auto), now, true)] else [];
    assert r.log[|d.log|..] == a.log[|d.log|..] + r.log[|a.log|..];
  }

  /**
   * One evaluation performs at most two transitions, and when it performs
   * two they are an auto-lock followed by the schedule unlock: the schedule
   * branches are exclusive, and after an auto-lock the schedule lock cannot
   * fire.
   */
  lemma {:induction false} AtMostTwoTransitions(d: DoorState, now: int)
    ensures |Evaluate(d, now).log| - |d.log| <= 2
    ensures |Evaluate(d, now).log| - |d.log| == 2 ==>
      Evaluate(d, now).log[|d.log|..] == [LogEntry(Lock(Auto), now, true), LogEntry(Unlock(Schedule), now, true)]
    ensures !(LogEntry(Lock(Schedule), now, true) in Evaluate(d, now).log[|d.log|..]
              && LogEntry(Unlock(Schedule), now, true) in Evaluate(d, now).log[|d.log|..])
  {
    ScheduleShape(d, now);
  }

  /**
   * Evaluating at the lock minute on an unlocked door leaves it locked, by
   * the schedule or, when idle too long, by auto-lock; a second evaluation
   * in the same minute adds nothing, provided the lock and unlock times
   * differ.
   */
  lemma {:induction false} ScheduleLockDoesNotRefire(d: DoorState, now: int, later: int)
    requires d.config.scheduleEnabled && !d.status.locked
    requires HHMM(now) == d.config.scheduleLockTime
    requires d.config.scheduleLockTime != d.config.scheduleUnlockTime
    requires MinuteOfDay(later) == MinuteOfDay(now)
    ensures Evaluate(d, now).status == Status(true, now)
    ensures Evaluate(Evaluate(d, now), later) == Evaluate(d, now)
  {
    SameTextSameMinute(now, later);
    var e := Evaluate(d, now);
    assert AutoLockCheck(e, later) == e;
  }

  /**
   * When the lock and unlock times are the same text, each evaluation during
   * that minute toggles the door: a locked door is unlocked, an unlocked one
   * (not due for auto-lock) is locked.
   */
  lemma {:induction false} EqualTimesToggle(d: DoorState, now: int)
    requires d.config.scheduleEnabled
    requires HHMM(now) == d.config.scheduleLockTime == d.config.scheduleUnlockTime
    requires d.status.locked || !AutoLockDue(d, now)
    ensures Evaluate(d, now).status == Status(!d.status.locked, now)
  {
    assert AutoLockCheck(d, now) == d;
  }

  /**
   * While the clock does not run backwards, the last-access time never
   * decreases: every transition stamps the current instant.
   */
  lemma {:induction false} LastAccessMonotone(d: DoorState, body: Body, now: int)
    requires d.status.lastAccess <= now
    ensures d.status.lastAccess <= Evaluate(d, now).status.lastAccess <= now
    ensures RequestLock(d, now).status.lastAccess == now
    ensures d.status.lastAccess <= RequestUnlock(d, body, now).0.status.lastAccess <= now
  {
    ScheduleShape(d, now);
  }

  // ----- The command handlers over several requests ---------------------

  /** A run of manual locks, one per instant in `times`. */
  function LockRepeatedly(d: DoorState, times: seq<int>): DoorState
    decreases |times|
  {
    if times == [] then d else LockRepeatedly(RequestLock(d, times[0]), times[1..])
  }

  /**
   * Manual locks are idempotent in effect but not in the log: n requests
   * leave the door locked and add exactly n `lock (manual)` entries, never
   * more.
   */
  lemma {:induction false} RepeatedLocksLogEach(d: DoorState, times: seq<int>)
    requires times != []
    ensures LockRepeatedly(d, times).status == Status(true, times[|times| - 1])
    ensures |LockRepeatedly(d, times).log| == |d.log| + |times|
    ensures LockRepeatedly(d, times).log[..|d.log|] == d.log
    ensures forall i :: 0 <= i < |times| ==>
      LockRepeatedly(d, times).log[|d.log| + i] == LogEntry(Lock(Manual), times[i], true)
    decreases |times|
  {
    var d1 := RequestLock(d, times[0]);
    if |times| > 1 {
      RepeatedLocksLogEach(d1, times[1..]);
      var r := LockRepeatedly(d1, times[1..]);
      assert r.log[..|d1.log|] == d1.log;
      forall i | 0 <= i < |times|
        ensures r.log[|d.log| + i] == LogEntry(Lock(Manual), times[i], true)
      {
        if i == 0 {
          assert r.log[|d.log|] == d1.log[|d.log|];
        } else {
          assert times[1..][i - 1] == times[i];
        }
      }
      assert r.log[..|d.log|] == d1.log[..|d.log|];
    }
  }

  /** The PIN is compared as text: the number 1234, or " 1234", is a wrong PIN. */
  lemma WrongPinShapes(d: DoorState, now: int)
    ensures RequestUnlock(d, map["pin" := JInt(1234)], now).1 == InvalidPin
    ensures RequestUnlock(d, map["pin" := JString(" 1234")], now).1 == InvalidPin
    ensures RequestUnlock(d, map[], now).1 == InvalidPin
    ensures RequestUnlock(d, map["pin" := JString("1234")], now).1 == Unlocked
  {
    assert " 1234" != CorrectPin by { assert " 1234"[0] != CorrectPin[0]; }
  }

  /**
   * From a fresh installation: unlock with the right PIN, wait longer than
   * the default delay of 30 seconds, then ask for the status: the door is
   * locked again, and the log reads `unlock (manual)`, `lock (auto)`.
   */
  lemma EndToEndAutoRelock(t0: int, t1: int, t2: int)
    requires t2 - t1 > DefaultAutoLockDelay
    ensures var u := RequestUnlock(Initial(t0), map["pin" := JString(CorrectPin)], t1);
      && u.1 == Unlocked
      && u.0.status == Status(false, t1)
      && Evaluate(u.0, t2).status == Status(true, t2)
      && Evaluate(u.0, t2).log == [LogEntry(Unlock(Manual), t1, true), LogEntry(Lock(Auto), t2, true)]
  {
  }
}
