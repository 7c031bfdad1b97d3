/**
 * The door's single configuration record: the auto-lock delay and the daily
 * schedule. `init_db` writes the default record; `PUT /config` replaces it
 * from a request body, filling in a default for every missing field.
 */
module Settings {
  import opened Request

  const DefaultAutoLockDelay := 30
  const DefaultLockTime := "22:00"
  const DefaultUnlockTime := "06:00"

  datatype Config = Config(
    autoLockDelay: int,
    scheduleEnabled: bool,
    scheduleLockTime: string,
    scheduleUnlockTime: string,
    updatedAt: int)

  /** Why a configuration update was refused, leaving the old record in place. */
  datatype ConfigError =
    | InvalidDelay   // `int()` of the delay raised ValueError or TypeError
    | StoreRejected  // the store refused a time value (null or not convertible to text)

  /** The configuration record `init_db` creates when none exists. */
  function InitialConfig(now: int): Config {
    Config(DefaultAutoLockDelay, false, DefaultLockTime, DefaultUnlockTime, now)
  }

  /**
   * The text the store keeps for a time field: text as given, numbers and
   * booleans as the database connector renders them; null, arrays and
   * objects are refused.
   */
  function StoredText(v: Json): Option<string> {
    match v
    case JString(s) => Some(s)
    case JInt(i) => Some(IntText(i))
    case JBool(b) => Some(if b then "1" else "0")
    case JNull => None
    case JList(_) => None
    case JDict(_) => None
  }

  /**
   * The record `PUT /config` stores for `body` at instant `now`, or why it
   * is refused and the old record kept.
   */
  function ParseConfig(body: Body, now: int): Result<Config, ConfigError> {
    var delay := IntOf(Get(body, "auto_lock_delay", JInt(DefaultAutoLockDelay)));
    var enabled := Truthy(Get(body, "schedule_enabled", JBool(false)));
    var lockTime := StoredText(Get(body, "schedule_lock_time", JString(DefaultLockTime)));
    var unlockTime := StoredText(Get(body, "schedule_unlock_time", JString(DefaultUnlockTime)));
    if delay.None? then Failure(InvalidDelay)
    else if lockTime.None? || unlockTime.None? then Failure(StoreRejected)
    else Success(Config(delay.value, enabled, lockTime.value, unlockTime.value, now))
  }

  /** An empty body stores exactly the record `init_db` writes, stamped with the update time. */
  lemma EmptyBodyGivesInitialConfig(now: int)
    ensures ParseConfig(map[], now) == Success(InitialConfig(now))
  {
  }

  /**
   * Every field left out of the body takes its default (delay 30, schedule
   * off, "22:00", "06:00"), and the record is stamped with the update time.
   */
  lemma MissingFieldsTakeDefaults(body: Body, now: int)
    requires ParseConfig(body, now).Success?
    ensures ParseConfig(body, now).value.updatedAt == now
    ensures "auto_lock_delay" !in body ==> ParseConfig(body, now).value.autoLockDelay == 30
    ensures "schedule_enabled" !in body ==> !ParseConfig(body, now).value.scheduleEnabled
    ensures "schedule_lock_time" !in body ==> ParseConfig(body, now).value.scheduleLockTime == "22:00"
    ensures "schedule_unlock_time" !in body ==> ParseConfig(body, now).value.scheduleUnlockTime == "06:00"
  {
  }

  /**
   * The update is refused with InvalidDelay exactly when `int()` of the
   * delay fails; a failing delay wins over a bad time value, since it is
   * converted before the store is reached.
   */
  lemma DelayDecidesRefusal(body: Body, now: int)
    ensures ParseConfig(body, now) == Failure(InvalidDelay)
      <==> "auto_lock_delay" in body && IntOf(body["auto_lock_delay"]).None?
  {
  }

  /**
   * Time texts are stored verbatim, with no check that they are "HH:MM":
   * whatever text is sent is what the schedule rule later compares against.
   */
  lemma TimesStoredVerbatim(body: Body, now: int, lock: string, unlock: string)
    requires IntOf(Get(body, "auto_lock_delay", JInt(30))).Some?
    requires "schedule_lock_time" in body && body["schedule_lock_time"] == JString(lock)
    requires "schedule_unlock_time" in body && body["schedule_unlock_time"] == JString(unlock)
    ensures ParseConfig(body, now).Success?
    ensures ParseConfig(body, now).value.scheduleLockTime == lock
    ensures ParseConfig(body, now).value.scheduleUnlockTime == unlock
  {
  }

  /**
   * A delay sent as a decimal text, with or without surrounding whitespace,
   * is stored as the number it spells, negative numbers included: no range
   * check is made.
   */
  lemma DelayTextAccepted(body: Body, now: int, d: int, pre: string, post: string)
    requires AllSpace(pre) && AllSpace(post)
    requires "auto_lock_delay" in body && body["auto_lock_delay"] == JString(pre + IntText(d) + post)
    requires StoredText(Get(body, "schedule_lock_time", JString(DefaultLockTime))).Some?
    requires StoredText(Get(body, "schedule_unlock_time", JString(DefaultUnlockTime))).Some?
    ensures ParseConfig(body, now).Success? && ParseConfig(body, now).value.autoLockDelay == d
  {
    ParseIntTextOfIntText(d, pre, post);
  }

  /**
   * The schedule switch is Python truthiness, not a boolean check: the text
   * "false", like any non-empty text or non-zero number, turns the schedule
   * on; null, 0, "" and false turn it off.
   */
  lemma ScheduleSwitchIsTruthiness(body: Body, now: int, v: Json)
    requires ParseConfig(body, now).Success?
    requires "schedule_enabled" in body && body["schedule_enabled"] == v
    ensures v == JString("false") ==> ParseConfig(body, now).value.scheduleEnabled
    ensures v in {JNull, JInt(0), JString(""), JBool(false)} ==> !ParseConfig(body, now).value.scheduleEnabled
  {
  }
}
