/**
 What one timer entry does, as functions of its values (enigma2/timer.py and
 enigma2/RecordTimer.py): repetition by weekday, activation, back-off,
 automatic extension.  Times are integer seconds; local time is UTC plus a
 fixed offset.
 */
module TimerValues {
  import Bytes

  const DAY: int := 86400
  const PREPARE_TIME: int := 20
  const AUTOINCREASE_TIME: int := 86400

  const WAITING: int := 0
  const PREPARED: int := 1
  const RUNNING: int := 2
  const ENDED: int := 3

  datatype Val = Val(
    begin: int, end: int, state: int,
    repeated: nat, repeatedbegindate: int,
    disabled: bool, cancelled: bool, justplay: bool, autoincrease: bool,
    startPrepare: int, backoff: nat, firstTryPrepare: bool)

  // -------------------------------------------------------------- repetition

  /** tm_wday: Monday is 0, and the epoch was a Thursday. */
  function Weekday(time: int, offset: int): (d: nat)
    ensures d < 7
  {
    ((time + offset) / DAY + 3) % 7
  }

  /** Bit `d` of the repetition flags. */
  predicate Enabled(flags: nat, d: nat) {
    if d == 0 then flags % 2 == 1 else Enabled(flags / 2, d - 1)
  }

  /**
   Comparing broken-down times.  A time that was moved by a day carries the
   daylight flag -1, one that came from `localtime` carries 0, and the flag is
   the last field compared: a moved time that equals `now` counts as past.
   */
  predicate Past(time: int, now: int, moved: bool) {
    time < now || (time == now && moved)
  }

  /** The guard of the loop in `processRepeated`, after `k` rounds; `now` is already one second ahead. */
  predicate Skips(v: Val, now: int, offset: int, findRunning: bool, k: nat) {
    var b, e := v.begin + k * DAY, v.end + k * DAY;
    || !Enabled(v.repeated, Weekday(b, offset))
    || v.repeatedbegindate > b
    || Past(if findRunning then e else b, now, k > 0)
  }

  function Abs(x: int): nat {
    if x < 0 then -x else x
  }

  /** From this round on only the weekday can still be wrong. */
  function Settled(v: Val, now: int): nat {
    Abs(v.repeatedbegindate - v.begin) + Abs(now - v.begin) + Abs(now - v.end) + 1
  }

  /** Days from weekday `d` on until an enabled one. */
  function DaysUntil(flags: nat, d: nat, n: nat): nat
    requires d < 7 && n <= 7
    decreases 7 - n
  {
    if n == 7 || Enabled(flags, (d + n) % 7) then n else DaysUntil(flags, d, n + 1)
  }

  /** A round at which the loop has certainly stopped. */
  function StopDay(v: Val, now: int, offset: int): nat {
    var s := Settled(v, now);
    s + DaysUntil(v.repeated, Weekday(v.begin + s * DAY, offset), 0)
  }

  /** One of the seven flags the loop looks at is set. */
  predicate Repeatable(flags: nat) {
    exists d :: 0 <= d < 7 && Enabled(flags, d)
  }

  function FirstDay(v: Val, now: int, offset: int, findRunning: bool, k: nat): (r: nat)
    requires Repeatable(v.repeated) && k <= StopDay(v, now, offset)
    ensures k <= r && !Skips(v, now, offset, findRunning, r)
    ensures forall j :: k <= j < r ==> Skips(v, now, offset, findRunning, j)
    decreases StopDay(v, now, offset) - k
  {
    StopDayStops(v, now, offset, findRunning);
    if Skips(v, now, offset, findRunning, k) then FirstDay(v, now, offset, findRunning, k + 1) else k
  }

  /** One round of the loop. */
  lemma FirstDayRound(v: Val, now: int, offset: int, findRunning: bool, k: nat)
    requires Repeatable(v.repeated) && k <= StopDay(v, now, offset)
    ensures if Skips(v, now, offset, findRunning, k)
            then k < StopDay(v, now, offset) && FirstDay(v, now, offset, findRunning, k) == FirstDay(v, now, offset, findRunning, k + 1)
            else FirstDay(v, now, offset, findRunning, k) == k
  {
    hide Skips, StopDay;
    StopDayStops(v, now, offset, findRunning);
  }

  ghost predicate SkipsAllBefore(v: Val, now: int, offset: int, findRunning: bool, k: nat) {
    forall j: nat :: j < k ==> Skips(v, now, offset, findRunning, j)
  }

  function TimeChanged(v: Val): Val {
    v.(startPrepare := v.begin - PREPARE_TIME, backoff := 0)
  }

  /** The occurrence `k` days on, with an empty one stretched to a second. */
  function Moved(v: Val, k: nat): Val {
    var b, e := v.begin + k * DAY, v.end + k * DAY;
    TimeChanged(v.(begin := b, end := if b == e then e + 1 else e))
  }

  predicate WellFormed(v: Val) {
    v.repeated == 0 || Repeatable(v.repeated)
  }

  function ProcessRepeated(v: Val, time: int, offset: int, findRunning: bool): Val
    requires WellFormed(v)
  {
    if v.repeated == 0 then v else Moved(v, FirstDay(v, time + 1, offset, findRunning, 0))
  }

  // -- lemmas on repetition

  lemma {:induction false} DaysUntilFinds(flags: nat, d: nat, n: nat, target: nat)
    requires d < 7 && n <= target < 7 && Enabled(flags, (d + target) % 7)
    ensures n <= DaysUntil(flags, d, n) <= target
    ensures Enabled(flags, (d + DaysUntil(flags, d, n)) % 7)
    decreases 7 - n
  {
    if !Enabled(flags, (d + n) % 7) {
      DaysUntilFinds(flags, d, n + 1, target);
    }
  }

  lemma WeekdayAfter(time: int, offset: int, n: nat)
    ensures Weekday(time + n * DAY, offset) == (Weekday(time, offset) + n) % 7
  {
    DaysLater(time + offset, n);
    var d := (time + offset) / DAY + 3;
    assert (d + n) % 7 == (d % 7 + n) % 7;
  }

  lemma DaysLater(time: int, n: nat)
    ensures (time + n * DAY) / DAY == time / DAY + n
  {
  }

  lemma SettledIs(v: Val, now: int)
    ensures var s := Settled(v, now);
            s > 0 && v.begin + s * DAY > v.repeatedbegindate && v.begin + s * DAY > now && v.end + s * DAY > now
  {
  }

  lemma StopDayStops(v: Val, now: int, offset: int, findRunning: bool)
    requires Repeatable(v.repeated)
    ensures !Skips(v, now, offset, findRunning, StopDay(v, now, offset))
  {
    var s := Settled(v, now);
    SettledIs(v, now);
    hide Settled, Weekday, DaysUntil;
    var d := Weekday(v.begin + s * DAY, offset);
    var t :| 0 <= t < 7 && Enabled(v.repeated, t);
    var n: nat := if d <= t then t - d else t + 7 - d;
    assert (d + n) % 7 == t;
    DaysUntilFinds(v.repeated, d, 0, n);
    var m := DaysUntil(v.repeated, d, 0);
    WeekdayAfter(v.begin + s * DAY, offset, m);
    assert v.begin + s * DAY + m * DAY == v.begin + (s + m) * DAY;
  }

  /** The loop stops if and only if one of the seven weekday flags is set. */
  lemma StopsIff(v: Val, now: int, offset: int, findRunning: bool)
    ensures (exists k: nat :: !Skips(v, now, offset, findRunning, k)) <==> Repeatable(v.repeated)
  {
    if Repeatable(v.repeated) {
      StopDayStops(v, now, offset, findRunning);
    }
  }

  /**
   What repetition achieves: the first enabled day on or after the current one
   that is neither before the series nor over (or, on demand, not even begun);
   every day passed over fails one of these; the duration is kept (an empty occurrence becomes one second).
   */
  lemma RepeatedMeetsItsGoal(v: Val, time: int, offset: int, findRunning: bool)
    requires v.repeated != 0 && WellFormed(v)
    ensures var r := ProcessRepeated(v, time, offset, findRunning);
            && Enabled(v.repeated, Weekday(r.begin, offset))
            && r.begin >= v.repeatedbegindate && (if findRunning then r.end else r.begin) > time
            && r.end - r.begin == (if v.begin == v.end then 1 else v.end - v.begin)
            && (exists k: nat :: r.begin == v.begin + k * DAY && SkipsAllBefore(v, time + 1, offset, findRunning, k))
            && r.startPrepare == r.begin - 20 && r.backoff == 0 && r.state == v.state
  {
  }

  // -- repetition in plain numbers

  /** The flags have bit `d`, counted from Monday on, and day `k` falls on that day of the week; day 0 of the clock was a Thursday. */
  predicate FallsOn(v: Val, offset: int, k: nat, d: nat) {
    v.repeated / Bytes.Pow2(d) % 2 == 1 && (v.begin + k * 86400 + offset) / 86400 % 7 == (d + 4) % 7
  }

  /** An occurrence that may be taken: on a day of the series, not before it, and not over (or not begun). */
  ghost predicate Fits(v: Val, time: int, offset: int, findRunning: bool, k: nat) {
    && (exists d :: 0 <= d < 7 && FallsOn(v, offset, k, d))
    && v.begin + k * 86400 >= v.repeatedbegindate
    && (if findRunning then v.end else v.begin) + k * 86400 > time + (if k > 0 then 1 else 0)
  }

  lemma {:induction false} EnabledIsBit(flags: nat, d: nat)
    ensures Enabled(flags, d) <==> flags / Bytes.Pow2(d) % 2 == 1
    decreases d
  {
    if d > 0 {
      EnabledIsBit(flags / 2, d - 1);
      Bytes.DivDiv(flags, 2, Bytes.Pow2(d - 1));
    }
  }

  lemma WeekdayIs(time: int, offset: int, d: nat)
    requires d < 7
    ensures Weekday(time, offset) == d <==> (time + offset) / 86400 % 7 == (d + 4) % 7
  {
  }

  lemma FitsIff(v: Val, time: int, offset: int, findRunning: bool, k: nat)
    ensures Fits(v, time, offset, findRunning, k) <==> !Skips(v, time + 1, offset, findRunning, k)
  {
    hide Enabled, Weekday;
    var day := Weekday(v.begin + k * DAY, offset);
    forall d | 0 <= d < 7 ensures FallsOn(v, offset, k, d) <==> Enabled(v.repeated, day) && day == d {
      EnabledIsBit(v.repeated, d);
      WeekdayIs(v.begin + k * DAY, offset, d);
    }
    if Enabled(v.repeated, day) {
      assert FallsOn(v, offset, k, day);
    }
  }

  /** The day that repetition moves to is the first one that fits. */
  lemma RepetitionIsFirstFit(v: Val, time: int, offset: int, findRunning: bool)
    requires v.repeated != 0 && WellFormed(v)
    ensures var r := ProcessRepeated(v, time, offset, findRunning);
            exists k: nat :: r.begin == v.begin + k * 86400 && Fits(v, time, offset, findRunning, k)
                             && forall j: nat :: j < k ==> !Fits(v, time, offset, findRunning, j)
  {
    hide Skips, StopDay, Repeatable, Fits;
    var k := FirstDay(v, time + 1, offset, findRunning, 0);
    FitsIff(v, time, offset, findRunning, k);
    forall j: nat | j < k ensures !Fits(v, time, offset, findRunning, j) {
      FitsIff(v, time, offset, findRunning, j);
    }
  }

  /** A series of one day of the week stays on it. */
  lemma RepeatsOnItsDay(v: Val, time: int, offset: int, findRunning: bool, d: nat)
    requires d < 7 && v.repeated == Bytes.Pow2(d)
    ensures WellFormed(v)
    ensures (ProcessRepeated(v, time, offset, findRunning).begin + offset) / 86400 % 7 == (d + 4) % 7
  {
    hide ProcessRepeated, Enabled, FallsOn;
    EnabledIsBit(v.repeated, d);
    SelfDivided(Bytes.Pow2(d));
    assert WellFormed(v) by {
      assert Enabled(v.repeated, d);
    }
    RepetitionIsFirstFit(v, time, offset, findRunning);
    var k: nat :| ProcessRepeated(v, time, offset, findRunning).begin == v.begin + k * 86400 && Fits(v, time, offset, findRunning, k);
    var e :| 0 <= e < 7 && FallsOn(v, offset, k, e);
    OneBit(v, offset, k, d, e);
  }

  lemma SelfDivided(p: nat)
    requires p > 0
    ensures p / p % 2 == 1
  {
  }

  lemma OneBit(v: Val, offset: int, k: nat, d: nat, e: nat)
    requires v.repeated == Bytes.Pow2(d) && FallsOn(v, offset, k, e)
    ensures (v.begin + k * 86400 + offset) / 86400 % 7 == (d + 4) % 7
  {
    if d != e {
      PowersApart(d, e);
    }
  }

  lemma PowersApart(d: nat, e: nat)
    requires d != e
    ensures Bytes.Pow2(d) / Bytes.Pow2(e) % 2 == 0
  {
    if d < e {
      Bytes.PowerPairs(d, e - d);
      Smaller(Bytes.Pow2(d), Bytes.Pow2(e - d));
    } else {
      Bytes.PowerPairs(e, d - e);
      Larger(Bytes.Pow2(e), Bytes.Pow2(d - e));
    }
  }

  lemma Smaller(p: nat, q: nat)
    requires p > 0 && q > 1
    ensures p / (p * q) == 0
  {
    assert p * q >= p * 2;
    Bytes.DivUnique(p, p * q, 0, p);
  }

  lemma Larger(p: nat, q: nat)
    requires p > 0 && q % 2 == 0
    ensures p * q / p % 2 == 0
  {
    Bytes.DivUnique(p * q, p, q, 0);
  }

  /** With the same clock a second call changes nothing. */
  lemma RepeatedIsIdempotent(v: Val, time: int, offset: int, findRunning: bool)
    requires WellFormed(v)
    ensures var r := ProcessRepeated(v, time, offset, findRunning);
            WellFormed(r) && ProcessRepeated(r, time, offset, findRunning) == r
  {
  }

  /** A finished occurrence moves strictly later, and then it is not over. */
  lemma FinishedMovesOn(v: Val, time: int, offset: int)
    requires v.repeated != 0 && WellFormed(v) && v.end <= time
    ensures var r := ProcessRepeated(v, time, offset, true);
            r.begin >= v.begin + DAY && r.end > time + 1
  {
  }

  // -------------------------------------------------------------- activation

  /** How the receiver answers `tryPrepare`: no service at all, a failing prepare, or success. */
  datatype Preparation = NoService | PrepareFails | PrepareWorks

  /** Everything outside that one activation depends on; `conflict` is the begin of an overlapping timer. */
  datatype Outcome = Outcome(prepare: Preparation, startFails: bool, conflict: Conflict)

  datatype Conflict = NoConflict | Overlap(begin: int)

  function NextBackoff(b: nat): nat {
    if b == 0 then 5 else if b * 2 > 100 then 100 else b * 2
  }

  /** The delay after `n` failures in a row. */
  function Delay(n: nat): nat {
    if n == 0 then 0 else NextBackoff(Delay(n - 1))
  }

  /** The delays double from 5 seconds on, and stay at 100. */
  lemma {:induction false} DelayDoubles(n: nat)
    requires n > 0
    ensures Delay(n) == if 5 * Bytes.Pow2(n - 1) <= 100 then 5 * Bytes.Pow2(n - 1) else 100
  {
    if n > 1 {
      DelayDoubles(n - 1);
    }
  }

  predicate ShouldSkip(v: Val, time: int) {
    v.end <= time && v.state == WAITING
  }

  function NextActivation(v: Val): int {
    if v.state == WAITING then v.startPrepare else if v.state == PREPARED then v.begin else v.end
  }

  function NewEnd(time: int, c: Conflict): int {
    if c.Overlap? then c.begin - 30 else time + AUTOINCREASE_TIME
  }

  /**
   `activate`, together with the step to the next state that `doActivate`
   takes when the activation was accepted.
   */
  function Activated(v: Val, time: int, o: Outcome): Val {
    if v.state == WAITING then
      if v.justplay || o.prepare == PrepareWorks then v.(state := PREPARED, backoff := 0)
      else if o.prepare == PrepareFails then
        var b := NextBackoff(v.backoff);
        v.(backoff := b, startPrepare := time + b, firstTryPrepare := false)
      else v.(firstTryPrepare := false)
    else if v.state == PREPARED then
      if v.cancelled || v.justplay || !o.startFails then v.(state := RUNNING)
      else
        var b := NextBackoff(v.backoff);
        v.(backoff := b, begin := time + b)
    else if v.autoincrease && NewEnd(time, o.conflict) > time then v.(end := NewEnd(time, o.conflict))
    else v.(state := ENDED)
  }

  /** The first half of `doActivate`. */
  function Stepped(v: Val, time: int, o: Outcome): Val {
    if ShouldSkip(v, time) then v.(state := ENDED) else Activated(v, time, o)
  }

  /** The second half for a repeating entry that has ended. */
  function Restarted(v: Val, time: int, offset: int): Val
    requires WellFormed(v)
  {
    ProcessRepeated(v, time, offset, true).(state := WAITING, firstTryPrepare := true)
  }

  predicate Due(v: Val, time: int) {
    NextActivation(v) < time + 1
  }

  /** Activations an entry can still take at this clock value. */
  function Rank(v: Val, time: int): nat {
    if v.state == ENDED || !Due(v, time) then 0
    else if v.end <= time then
      if v.state == WAITING then 4 else if v.state == PREPARED then 6 else 5
    else if v.state == WAITING then 2 else if v.state == PREPARED then 1 else 0
  }

  /** Does the entry hold a recorder? */
  predicate Holds(v: Val) {
    !v.justplay && (v.state == PREPARED || v.state == RUNNING)
  }

  predicate ValidState(s: int) {
    WAITING <= s <= ENDED
  }

  /** The one activation that gets nowhere: no service for an entry that could still be recorded. */
  predicate Stuck(v: Val, time: int, o: Outcome) {
    v.state == WAITING && !v.justplay && o.prepare == NoService && v.end > time
  }

  // -- lemmas on activation

  /** Without trouble: preparing 20 seconds ahead, recording from the begin to the end, with a recorder from the first to the last. */
  lemma LifeOfARecording(v: Val, t0: int, t1: int, t2: int, o: Outcome)
    requires v.state == WAITING && v == TimeChanged(v) && !v.justplay && !v.autoincrease
    requires o.prepare == PrepareWorks && !o.startFails && t0 < v.end
    ensures var prepared := Stepped(v, t0, o);
            var running := Stepped(prepared, t1, o);
            var ended := Stepped(running, t2, o);
            && (Due(v, t0) <==> t0 >= v.begin - 20) && !Holds(v)
            && prepared.state == 1 && (Due(prepared, t1) <==> t1 >= v.begin) && Holds(prepared)
            && running.state == 2 && (Due(running, t2) <==> t2 >= v.end) && Holds(running)
            && ended.state == 3 && !Holds(ended)
            && prepared.begin == running.begin == ended.begin == v.begin && prepared.end == running.end == ended.end == v.end
  {
  }

  /** A zap timer goes the same way whatever the receiver answers, and never has a recorder. */
  lemma LifeOfAZap(v: Val, t0: int, t1: int, t2: int, o: Outcome)
    requires v.state == WAITING && v == TimeChanged(v) && v.justplay && !v.autoincrease && t0 < v.end
    ensures var prepared := Stepped(v, t0, o);
            var running := Stepped(prepared, t1, o);
            var ended := Stepped(running, t2, o);
            && prepared == v.(state := 1, backoff := 0) && running == prepared.(state := 2) && ended == running.(state := 3)
            && !Holds(v) && !Holds(prepared) && !Holds(running) && !Holds(ended)
  {
  }

  /** After `n` failures a recording that can not be prepared is tried again as many seconds later as the series says. */
  lemma RetryOfPreparing(v: Val, time: int, o: Outcome, n: nat, later: int)
    requires v.state == WAITING && !v.justplay && o.prepare == PrepareFails && time < v.end && v.backoff == Delay(n)
    ensures var r := Stepped(v, time, o);
            && r.state == 0 && r.backoff == Delay(n + 1) && r.begin == v.begin && r.end == v.end
            && (Due(r, later) <==> later >= time + Delay(n + 1))
  {
  }

  /** One that can not be started stays prepared, and its begin moves. */
  lemma RetryOfStarting(v: Val, time: int, o: Outcome, n: nat, later: int)
    requires v.state == PREPARED && !v.justplay && !v.cancelled && o.startFails && v.backoff == Delay(n)
    ensures var r := Stepped(v, time, o);
            && r.state == 1 && r.backoff == Delay(n + 1) && r.begin == time + Delay(n + 1) && r.end == v.end
            && (Due(r, later) <==> later >= time + Delay(n + 1))
  {
  }

  /** An extended recording goes on for a day, or up to 30 seconds before the timer it would overlap, if that is not over. */
  lemma EndOfExtension(v: Val, time: int, o: Outcome)
    requires v.state == RUNNING
    ensures var r := Stepped(v, time, o);
            var last := if o.conflict.Overlap? then o.conflict.begin - 30 else time + 24 * 60 * 60;
            if v.autoincrease && last > time then r == v.(end := last) else r == v.(state := 3)
  {
  }

  /** An entry that is over before it was prepared ends without a recorder. */
  lemma TooLate(v: Val, time: int, o: Outcome)
    requires v.state == WAITING && v.end <= time
    ensures Stepped(v, time, o) == v.(state := 3)
  {
  }

  /** A due entry makes progress exactly if it is not stuck; a stuck one is due again at once. */
  lemma ProgressIff(v: Val, time: int, o: Outcome)
    requires ValidState(v.state) && v.state != ENDED && Due(v, time)
    ensures var s := Stepped(v, time, o);
            && ValidState(s.state)
            && (Rank(s, time) < Rank(v, time) <==> !Stuck(v, time, o))
            && (Stuck(v, time, o) ==> s == v.(firstTryPrepare := false))
  {
    if v.state == WAITING {
    } else if v.state == PREPARED {
    } else {
    }
  }

  /** A repeating entry that has just ended starts again below the rank it had. */
  lemma RestartRanksLower(v: Val, time: int, offset: int, o: Outcome)
    requires WellFormed(v) && ValidState(v.state) && v.state != ENDED && Due(v, time) && v.repeated != 0
    requires Stepped(v, time, o).state == ENDED
    ensures WellFormed(Stepped(v, time, o))
    ensures Rank(Restarted(Stepped(v, time, o), time, offset), time) < Rank(v, time)
  {
    hide ProcessRepeated;
    RepeatedMeetsItsGoal(Stepped(v, time, o), time, offset, true);
  }

  /**
   A repeating entry that has ended is due again at once if and only if one of
   the days at which the repetition may stop begins, up to the time for
   preparing, by now.  Being due it is stuck again if there is still no service.
   */
  lemma DueAgainIff(v: Val, time: int, offset: int, o: Outcome)
    requires v.repeated != 0 && WellFormed(v) && v.end <= time
    ensures var r := Restarted(v, time, offset);
            && (Due(r, time) <==>
                exists k: nat :: !Skips(v, time + 1, offset, true, k) && v.begin + k * DAY - PREPARE_TIME <= time)
            && (!v.justplay && o.prepare == NoService ==> Stuck(r, time, o))
  {
    hide Skips, StopDay;
    RepeatedMeetsItsGoal(v, time, offset, true);
    var first := FirstDay(v, time + 1, offset, true, 0);
    assert Restarted(v, time, offset).begin == v.begin + first * DAY;
    assert Due(Restarted(v, time, offset), time) <==> v.begin + first * DAY - PREPARE_TIME <= time;
    if k: nat :| !Skips(v, time + 1, offset, true, k) && v.begin + k * DAY - PREPARE_TIME <= time {
      assert first <= k;
    }
  }

  /**
   A daily entry that lasts a full day is due again whenever it restarts, and
   stuck again if there is still no service: nothing ends the processing of
   such an entry but a service.
   */
  lemma FullDayStuckAgain(v: Val, time: int, offset: int, o: Outcome)
    requires v.repeated == 127 && v.repeatedbegindate <= v.begin && v.end == v.begin + DAY && v.end <= time
    requires !v.justplay && o.prepare == NoService
    ensures WellFormed(v)
    ensures var r := Restarted(v, time, offset);
            Due(r, time) && Stuck(r, time, o) && Due(Stepped(r, time, o), time)
  {
    assert Enabled(v.repeated, 0);
    EveryDay(Weekday(v.begin, offset));
    var k := FirstDay(v, time + 1, offset, true, 0);
    assert Skips(v, time + 1, offset, true, 0);
    assert k > 0 && Skips(v, time + 1, offset, true, k - 1);
    EveryDay(Weekday(v.begin + (k - 1) * DAY, offset));
    assert v.end + (k - 1) * DAY <= time + 1;
  }

  lemma EveryDay(d: nat)
    requires d < 7
    ensures Enabled(127, d)
  {
    assert Enabled(1, 0) && Enabled(3, 1) && Enabled(7, 2) && Enabled(15, 3) && Enabled(31, 4) && Enabled(63, 5);
  }

  /** A restarted entry is where repetition would put it; processing it again changes nothing. */
  lemma RestartedIsFixed(v: Val, time: int, offset: int)
    requires WellFormed(v) && v.repeated != 0
    ensures var r := Restarted(v, time, offset);
            && WellFormed(r) && ProcessRepeated(r, time, offset, true) == r
            && r.state == 0 && r.firstTryPrepare && r.startPrepare == r.begin - 20 && r.backoff == 0
  {
  }

  /** A recorder is taken up on preparing, kept while running, and given back at the end. */
  lemma HoldsChanges(v: Val, time: int, o: Outcome)
    requires ValidState(v.state) && v.state != ENDED
    ensures var s := Stepped(v, time, o);
            && (Holds(v) ==> Holds(s) || s.state == ENDED)
            && (!Holds(v) && Holds(s) ==> v.state == WAITING && s.state == PREPARED && o.prepare == PrepareWorks)
            && (v.justplay ==> !Holds(s))
  {
  }

  /** What no run of the scheduler changes, and what it changes only for some entries. */
  predicate Evolves(v: Val, v': Val) {
    && v'.repeated == v.repeated && v'.repeatedbegindate == v.repeatedbegindate
    && v'.disabled == v.disabled && v'.cancelled == v.cancelled
    && v'.justplay == v.justplay && v'.autoincrease == v.autoincrease
    && (v.repeated == 0 ==>
          && (!v.autoincrease ==> v'.end == v.end)
          && (v.cancelled && v.state != WAITING ==> v'.begin == v.begin)
          && (v'.state == WAITING ==> v'.end == v.end)
          && v.state <= v'.state)
  }

  lemma EvolvesTransitive(a: Val, b: Val, c: Val)
    requires Evolves(a, b) && Evolves(b, c) && ValidState(a.state)
    ensures Evolves(a, c)
  {
  }

  lemma SteppingEvolves(v: Val, time: int, offset: int, o: Outcome)
    requires WellFormed(v) && ValidState(v.state) && v.state != ENDED
    ensures var s := Stepped(v, time, o);
            WellFormed(s) && ValidState(s.state) && s.repeated == v.repeated && Evolves(v, s) && (s.state == ENDED && v.repeated != 0 ==> Evolves(v, Restarted(s, time, offset)))
  {
    hide FirstDay;
  }
}
