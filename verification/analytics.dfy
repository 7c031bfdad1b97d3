/**
 * The hourly activity report: the store groups the successful log entries
 * by hour of day and action text and counts them; the service then sorts
 * each group into a "locks" or an "unlocks" tally and reports all 24 hours.
 * The sorting rule is a parameter, so that the rule as written and the rule
 * the report evidently intends can both be stated and compared.
 */
module Analytics {
  import opened Engine

  /** One row of the grouped query: an hour of day, an action text and how many entries share them. */
  datatype HourRow = HourRow(hour: int, action: string, count: int)

  /** One line of the report. */
  datatype HourStat = HourStat(hour: int, locks: int, unlocks: int)

  datatype Tally = Tally(locks: int, unlocks: int)

  /** Which tally a row is added to. */
  datatype Bucket = Locks | Unlocks | Neither

  /** `sub` occurs in `s` starting at index `i`. */
  predicate OccursAt(s: string, sub: string, i: nat) {
    i + |sub| <= |s| && s[i..i + |sub|] == sub
  }

  /** Python's `sub in s` on texts. */
  predicate Contains(s: string, sub: string) {
    exists i: nat | i <= |s| :: OccursAt(s, sub, i)
  }

  /** The rule as written: `'lock' in action` is tested first, `'unlock' in action` only otherwise. */
  function SubstringBucket(action: string): Bucket {
    if Contains(action, "lock") then Locks
    else if Contains(action, "unlock") then Unlocks
    else Neither
  }

  /**
   * The rule the report evidently intends, and the one the total-counts
   * report applies with `LIKE 'unlock%'` and `LIKE 'lock%'`: classify by the
   * leading word.
   */
  function PrefixBucket(action: string): Bucket {
    if "unlock" <= action then Unlocks
    else if "lock" <= action then Locks
    else Neither
  }

  /** The total of the rows for hour `h` that `classify` puts into bucket `b`. */
  function TallyAt(rows: seq<HourRow>, h: int, classify: string -> Bucket, b: Bucket): int {
    if rows == [] then 0
    else
      var last := rows[|rows| - 1];
      TallyAt(rows[..|rows| - 1], h, classify, b)
        + (if last.hour == h && classify(last.action) == b then last.count else 0)
  }

  /** The total of all rows for hour `h`. */
  function CountAt(rows: seq<HourRow>, h: int): int {
    if rows == [] then 0
    else
      var last := rows[|rows| - 1];
      CountAt(rows[..|rows| - 1], h) + (if last.hour == h then last.count else 0)
  }

  /** `hourly_stats[h]` of the default dictionary: a zero tally for an hour not yet seen. */
  function TallyOf(hourly: map<int, Tally>, h: int): Tally {
    if h in hourly then hourly[h] else Tally(0, 0)
  }

  /**
   * `get_activity_by_hour` after the query: add each row's count to its
   * hour's tally, then report hours 0 to 23 in order, each with the totals
   * the classification gives it.
   */
  method ActivityByHour(rows: seq<HourRow>, classify: string -> Bucket) returns (stats: seq<HourStat>)
    ensures |stats| == 24
    ensures forall h :: 0 <= h < 24 ==>
      stats[h] == HourStat(h, TallyAt(rows, h, classify, Locks), TallyAt(rows, h, classify, Unlocks))
  {
    var hourly: map<int, Tally> := map[];
    var i := 0;
    while i < |rows|
      invariant 0 <= i <= |rows|
      invariant forall h :: TallyOf(hourly, h) ==
                            Tally(TallyAt(rows[..i], h, classify, Locks), TallyAt(rows[..i], h, classify, Unlocks))
    {
      var row := rows[i];
      var t := TallyOf(hourly, row.hour);
      var b := classify(row.action);
      if b == Locks {
        hourly := hourly[row.hour := t.(locks := t.locks + row.count)];
      } else if b == Unlocks {
        hourly := hourly[row.hour := t.(unlocks := t.unlocks + row.count)];
      }
      assert rows[..i + 1][..i] == rows[..i];
      i := i + 1;
    }
    assert rows[..i] == rows;
    stats := seq(24, h requires 0 <= h < 24 => HourStat(h, TallyOf(hourly, h).locks, TallyOf(hourly, h).unlocks));
  }

  /** Every text containing "unlock" contains "lock", two characters further on. */
  lemma {:induction false} UnlockContainsLock(s: string)
    requires Contains(s, "unlock")
    ensures Contains(s, "lock")
  {
    var i: nat :| i <= |s| && OccursAt(s, "unlock", i);
    assert s[i + 2..i + 6] == s[i..i + 6][2..];
    assert OccursAt(s, "lock", i + 2);
  }

  /** As written, the `unlocks` branch can never be taken, for any action text. */
  lemma {:induction false} SubstringBucketNeverUnlocks(action: string)
    ensures SubstringBucket(action) != Unlocks
  {
    if Contains(action, "unlock") {
      UnlockContainsLock(action);
    }
  }

  /** So the report as written shows zero unlocks in every hour, whatever the log holds. */
  lemma {:induction false} SubstringReportHasNoUnlocks(rows: seq<HourRow>, h: int)
    ensures TallyAt(rows, h, SubstringBucket, Unlocks) == 0
  {
    if rows != [] {
      SubstringReportHasNoUnlocks(rows[..|rows| - 1], h);
      SubstringBucketNeverUnlocks(rows[|rows| - 1].action);
    }
  }

  /** The input that shows it: a manual unlock is tallied as a lock. */
  lemma UnlockTalliedAsLock()
    ensures SubstringBucket(Unlock(Manual).Text()) == Locks
  {
    assert OccursAt("unlock (manual)", "lock", 2);
  }

  /** Every action text the service logs contains "lock", so the rule as written puts it under locks. */
  lemma {:induction false} SubstringBucketAllLocks(a: Action)
    ensures SubstringBucket(a.Text()) == Locks
  {
    var i := if a.Lock? then 0 else 2;
    assert OccursAt(a.Text(), "lock", i);
  }

  /** The leading-word rule puts every lock action under locks and every unlock action under unlocks. */
  lemma {:induction false} PrefixBucketSeparates(a: Action)
    ensures PrefixBucket(a.Text()) == if a.Lock? then Locks else Unlocks
  {
    if a.Lock? {
      assert a.Text()[..4] == "lock";
      assert !("unlock" <= a.Text()) by { assert a.Text()[0] != 'u'; }
    } else {
      assert a.Text()[..6] == "unlock";
    }
  }

  /** A text the service writes to the log for some action. */
  ghost predicate IsActionText(t: string) {
    exists a: Action :: t == a.Text()
  }

  /** The rows whose action text is one the service logs. */
  ghost predicate LoggedActions(rows: seq<HourRow>) {
    forall i :: 0 <= i < |rows| ==> IsActionText(rows[i].action)
  }

  /**
   * With the leading-word rule, each hour's locks and unlocks together
   * account for every counted entry of that hour.
   */
  lemma {:induction false} PrefixReportAccountsForAll(rows: seq<HourRow>, h: int)
    requires LoggedActions(rows)
    ensures TallyAt(rows, h, PrefixBucket, Locks) + TallyAt(rows, h, PrefixBucket, Unlocks) == CountAt(rows, h)
  {
    if rows != [] {
      var init := rows[..|rows| - 1];
      assert LoggedActions(init) by {
        forall i | 0 <= i < |init| ensures IsActionText(init[i].action) {
          assert init[i] == rows[i];
        }
      }
      PrefixReportAccountsForAll(init, h);
      assert IsActionText(rows[|rows| - 1].action);
      var a: Action :| rows[|rows| - 1].action == a.Text();
      PrefixBucketSeparates(a);
    }
  }
}
