/**
 Charge statistics by screen state and by cool-down level: oplus_chg_track_cal_led_on_stats and
 oplus_chg_track_cal_cool_down_stats, evaluated one after the other at every observation.
 */
module ScreenStats {

  const TRACK_CYCLE_RECORDING_TIME_2MIN := 120
  const COOL_DOWN_LEVELS := 32

  /**
   One observation: the clock, whether the battery charges, the screen, the remaining capacity, whether
   the charge is all but done (fast-charge full or 98 percent reached), and the cool-down level asked for.
   */
  datatype Obs = Obs(t: int, charging: bool, screenOn: bool, rm: int, nearlyFull: bool, level: int)

  // ---------- screen time ----------

  /** `charging` is the status at the previous observation; `screenOn` the screen then. */
  datatype Led = Led(
    charging: bool,
    screenOn: bool,
    changeT: int,
    changeRm: int,
    onTime: int,
    offTime: int,
    longOnTime: int,
    longOffTime: int,
    longOnRm: int,
    longOffRm: int)

  /** Does this observation close the running screen interval? */
  predicate Closes(l: Led, o: Obs) {
    l.screenOn != o.screenOn || !o.charging || o.nearlyFull
  }

  /** Close the running interval; only one of more than two minutes counts for the charging speed. */
  function Close(l: Led, o: Obs): Led {
    var dt, drm := o.t - l.changeT, o.rm - l.changeRm;
    var long := dt > TRACK_CYCLE_RECORDING_TIME_2MIN;
    var l1 := l.(changeT := o.t, changeRm := o.rm);
    if l.screenOn then
      l1.(onTime := l.onTime + dt,
          longOnTime := if long then l.longOnTime + dt else l.longOnTime,
          longOnRm := if long then l.longOnRm + drm else l.longOnRm)
    else
      l1.(offTime := l.offTime + dt,
          longOffTime := if long then l.longOffTime + dt else l.longOffTime,
          longOffRm := if long then l.longOffRm + drm else l.longOffRm)
  }

  /** One evaluation, including the status kept for the next one. */
  function ObserveLed(l: Led, o: Obs): Led {
    var l1 := if !l.charging then l.(changeT := o.t, changeRm := o.rm)
              else if Closes(l, o) then Close(l, o) else l;
    l1.(screenOn := o.screenOn, charging := o.charging)
  }

  /** The counters when a charger is plugged in. */
  function PlugIn(o: Obs): Led {
    Led(o.charging, o.screenOn, o.t, o.rm, 0, 0, 0, 0, 0, 0)
  }

  class LedStats {
    var charging: bool
    var ledOn: bool
    var ledChangeT: int
    var ledChangeRm: int
    var continueLedOnTime: int
    var continueLedOffTime: int
    var ledOnTime: int
    var ledOffTime: int
    var ledOnRm: int
    var ledOffRm: int

    ghost function Value(): Led
      reads this
    {
      Led(charging, ledOn, ledChangeT, ledChangeRm, continueLedOnTime, continueLedOffTime,
          ledOnTime, ledOffTime, ledOnRm, ledOffRm)
    }

    /** The part of oplus_chg_track_status_reset_when_plugin that concerns the screen. */
    constructor (o: Obs)
      ensures Value() == PlugIn(o)
    {
      charging, ledOn, ledChangeT, ledChangeRm := o.charging, o.screenOn, o.t, o.rm;
      continueLedOnTime, continueLedOffTime := 0, 0;
      ledOnTime, ledOffTime, ledOnRm, ledOffRm := 0, 0, 0, 0;
    }

    /** oplus_chg_track_cal_led_on_stats, followed by the caller's update of the charging status */
    method CalLedOnStats(o: Obs)
      modifies this
      ensures Value() == ObserveLed(old(Value()), o)
    {
      if !charging {
        ledOn := o.screenOn;
        ledChangeT := o.t;
        ledChangeRm := o.rm;
        charging := o.charging;
        return;
      }
      var chgEnd := !o.charging;
      var needUpdate := chgEnd || o.nearlyFull;
      if ledOn && (!o.screenOn || needUpdate) {
        if o.t - ledChangeT > TRACK_CYCLE_RECORDING_TIME_2MIN {
          ledOnRm := ledOnRm + (o.rm - ledChangeRm);
          ledOnTime := ledOnTime + (o.t - ledChangeT);
        }
        continueLedOnTime := continueLedOnTime + (o.t - ledChangeT);
        ledChangeT := o.t;
        ledChangeRm := o.rm;
      } else if !ledOn && (o.screenOn || needUpdate) {
        if o.t - ledChangeT > TRACK_CYCLE_RECORDING_TIME_2MIN {
          ledOffRm := ledOffRm + (o.rm - ledChangeRm);
          ledOffTime := ledOffTime + (o.t - ledChangeT);
        }
        continueLedOffTime := continueLedOffTime + (o.t - ledChangeT);
        ledChangeT := o.t;
        ledChangeRm := o.rm;
      }
      ledOn := o.screenOn;
      charging := o.charging;
    }
  }

  // ---------- what is to be accumulated ----------

  /** The total length of the intervals that began while charging, from an observation at t0 on. */
  function ChargingTime(charging: bool, t0: int, obs: seq<Obs>): int
    decreases |obs|
  {
    if obs == [] then 0
    else (if charging then obs[0].t - t0 else 0) + ChargingTime(obs[0].charging, obs[0].t, obs[1..])
  }

  /** The same over the intervals that began while charging with the screen in the given state. */
  function ScreenTime(on: bool, charging: bool, screenOn: bool, t0: int, obs: seq<Obs>): int
    decreases |obs|
  {
    if obs == [] then 0
    else
      (if charging && screenOn == on then obs[0].t - t0 else 0)
      + ScreenTime(on, obs[0].charging, obs[0].screenOn, obs[0].t, obs[1..])
  }

  function RunLed(l: Led, obs: seq<Obs>): Led
    decreases |obs|
  {
    if obs == [] then l else RunLed(ObserveLed(l, obs[0]), obs[1..])
  }

  function LastTime(t0: int, obs: seq<Obs>): int {
    if obs == [] then t0 else obs[|obs| - 1].t
  }

  /** The part of the running interval that belongs to this screen state and is not yet closed, at time t. */
  function Unflushed(l: Led, on: bool, t: int): int {
    if l.screenOn == on then t - l.changeT else 0
  }

  /** While not charging nothing is outstanding. */
  predicate LedInv(l: Led, t: int) {
    !l.charging ==> l.changeT == t
  }

  /** One observation: each screen state gains the interval just if it began charging in that state. */
  lemma ScreenStep(l: Led, t: int, o: Obs)
    requires LedInv(l, t)
    ensures var l1, d := ObserveLed(l, o), o.t - t;
            && LedInv(l1, o.t)
            && l1.onTime + Unflushed(l1, true, o.t) ==
                 l.onTime + Unflushed(l, true, t) + (if l.charging && l.screenOn then d else 0)
            && l1.offTime + Unflushed(l1, false, o.t) ==
                 l.offTime + Unflushed(l, false, t) + (if l.charging && !l.screenOn then d else 0)
  {
  }

  /** The same over a run. */
  lemma {:induction false} ScreenTimeKept(l: Led, t: int, obs: seq<Obs>)
    requires LedInv(l, t)
    ensures var l1, t1 := RunLed(l, obs), LastTime(t, obs);
            && LedInv(l1, t1)
            && l1.onTime + Unflushed(l1, true, t1) ==
                 l.onTime + Unflushed(l, true, t) + ScreenTime(true, l.charging, l.screenOn, t, obs)
            && l1.offTime + Unflushed(l1, false, t1) ==
                 l.offTime + Unflushed(l, false, t) + ScreenTime(false, l.charging, l.screenOn, t, obs)
    decreases |obs|
  {
    if obs == [] {
    } else {
      ScreenStep(l, t, obs[0]);
      ScreenTimeKept(ObserveLed(l, obs[0]), obs[0].t, obs[1..]);
      assert LastTime(t, obs) == LastTime(obs[0].t, obs[1..]);
    }
  }

  lemma {:induction false} ScreenTimesAddUp(charging: bool, screenOn: bool, t0: int, obs: seq<Obs>)
    ensures ScreenTime(true, charging, screenOn, t0, obs) + ScreenTime(false, charging, screenOn, t0, obs) ==
              ChargingTime(charging, t0, obs)
    decreases |obs|
  {
    if obs == [] {
    } else {
      ScreenTimesAddUp(obs[0].charging, obs[0].screenOn, obs[0].t, obs[1..]);
    }
  }

  /**
   Main result: since the plug-in, screen-on time, screen-off time and the unflushed remainder are together
   the length of all intervals that began while charging, and each screen state gets its own share.
   */
  lemma ScreenAccount(o: Obs, obs: seq<Obs>)
    ensures var l, t := RunLed(PlugIn(o), obs), LastTime(o.t, obs);
            && l.onTime + Unflushed(l, true, t) == ScreenTime(true, o.charging, o.screenOn, o.t, obs)
            && l.offTime + Unflushed(l, false, t) == ScreenTime(false, o.charging, o.screenOn, o.t, obs)
            && l.onTime + l.offTime + (t - l.changeT) == ChargingTime(o.charging, o.t, obs)
  {
    ScreenTimeKept(PlugIn(o), o.t, obs);
    ScreenTimesAddUp(o.charging, o.screenOn, o.t, obs);
  }

  // ---------- long intervals ----------

  /**
   The time and capacity of the long intervals with the screen in one state: an interval begins where charging begins, the
   screen changes, or an interval has ended, at time t0 with capacity rm0; it ends where the screen changes, charging
   ends, or the charge is nearly done; and it is long beyond two minutes.
   */
  function LongTime(on: bool, charging: bool, screenOn: bool, t0: int, obs: seq<Obs>): int
    decreases |obs|
  {
    if obs == [] then 0
    else
      var o := obs[0];
      if !charging then LongTime(on, o.charging, o.screenOn, o.t, obs[1..])
      else if o.charging && o.screenOn == screenOn && !o.nearlyFull then LongTime(on, true, screenOn, t0, obs[1..])
      else
        (if screenOn == on && o.t - t0 > 120 then o.t - t0 else 0)
        + LongTime(on, o.charging, o.screenOn, o.t, obs[1..])
  }

  function LongCapacity(on: bool, charging: bool, screenOn: bool, t0: int, rm0: int, obs: seq<Obs>): int
    decreases |obs|
  {
    if obs == [] then 0
    else
      var o := obs[0];
      if !charging then LongCapacity(on, o.charging, o.screenOn, o.t, o.rm, obs[1..])
      else if o.charging && o.screenOn == screenOn && !o.nearlyFull then LongCapacity(on, true, screenOn, t0, rm0, obs[1..])
      else
        (if screenOn == on && o.t - t0 > 120 then o.rm - rm0 else 0)
        + LongCapacity(on, o.charging, o.screenOn, o.t, o.rm, obs[1..])
  }

  lemma {:induction false} LongTimeKept(l: Led, obs: seq<Obs>)
    ensures var l1 := RunLed(l, obs);
            && l1.longOnTime == l.longOnTime + LongTime(true, l.charging, l.screenOn, l.changeT, obs)
            && l1.longOffTime == l.longOffTime + LongTime(false, l.charging, l.screenOn, l.changeT, obs)
    decreases |obs|
  {
    if obs == [] {
    } else {
      LongTimeKept(ObserveLed(l, obs[0]), obs[1..]);
    }
  }

  lemma {:induction false} LongCapacityKept(l: Led, obs: seq<Obs>)
    ensures var l1 := RunLed(l, obs);
            && l1.longOnRm == l.longOnRm + LongCapacity(true, l.charging, l.screenOn, l.changeT, l.changeRm, obs)
            && l1.longOffRm == l.longOffRm + LongCapacity(false, l.charging, l.screenOn, l.changeT, l.changeRm, obs)
    decreases |obs|
  {
    if obs == [] {
    } else {
      LongCapacityKept(ObserveLed(l, obs[0]), obs[1..]);
    }
  }

  /** Main result: since the plug-in the totals for the charging speed are those of each screen state's long intervals. */
  lemma LongIntervals(o: Obs, obs: seq<Obs>)
    ensures var l := RunLed(PlugIn(o), obs);
            && l.longOnTime == LongTime(true, o.charging, o.screenOn, o.t, obs)
            && l.longOffTime == LongTime(false, o.charging, o.screenOn, o.t, obs)
            && l.longOnRm == LongCapacity(true, o.charging, o.screenOn, o.t, o.rm, obs)
            && l.longOffRm == LongCapacity(false, o.charging, o.screenOn, o.t, o.rm, obs)
  {
    LongTimeKept(PlugIn(o), obs);
    LongCapacityKept(PlugIn(o), obs);
  }

  // ---------- cool-down levels ----------

  /** `effects` counts the observations that found a level in effect while charging. */
  datatype Cool = Cool(charging: bool, status: int, changeT: int, table: seq<int>, effects: nat)

  predicate ValidLevel(level: int) {
    0 <= level < COOL_DOWN_LEVELS
  }

  predicate Tabled(c: Cool) {
    |c.table| == COOL_DOWN_LEVELS
  }

  /** One evaluation: the elapsed time goes to the level now asked for, whichever applied before. */
  function ObserveCool(c: Cool, o: Obs): (c1: Cool)
    requires Tabled(c)
    ensures Tabled(c1)
  {
    if !ValidLevel(o.level) then c.(charging := o.charging)
    else
      var table := if c.charging then c.table[o.level := c.table[o.level] + (o.t - c.changeT)] else c.table;
      Cool(o.charging, o.level, o.t, table, if o.charging && o.level != 0 then c.effects + 1 else c.effects)
  }

  function PlugInCool(o: Obs): (c: Cool)
    ensures Tabled(c)
  {
    Cool(o.charging, o.level, o.t, seq(COOL_DOWN_LEVELS, _ => 0), 0)
  }

  class CoolDownStats {
    var charging: bool
    var coolDownStatus: int
    var coolDownStatusChangeT: int
    const time: array<int>
    var coolDownEffectCnt: nat

    ghost predicate Valid()
      reads this, time
    {
      time.Length == COOL_DOWN_LEVELS
    }

    ghost function Value(): (c: Cool)
      reads this, time
      requires Valid()
      ensures Tabled(c)
    {
      Cool(charging, coolDownStatus, coolDownStatusChangeT, time[..], coolDownEffectCnt)
    }

    /** A cleared table, a cleared count and the plug-in reset. */
    constructor (o: Obs)
      ensures Valid() && fresh(time)
      ensures Value() == PlugInCool(o)
    {
      coolDownEffectCnt := 0;
      charging, coolDownStatus, coolDownStatusChangeT := o.charging, o.level, o.t;
      time := new int[COOL_DOWN_LEVELS](_ => 0);
      new;
      assert time[..] == seq(COOL_DOWN_LEVELS, _ => 0);
    }

    /** oplus_chg_track_cal_cool_down_stats, followed by the caller's update of the charging status */
    method CalCoolDownStats(o: Obs) returns (ok: bool)
      requires Valid()
      modifies this, time
      ensures Valid() && Value() == ObserveCool(old(Value()), o)
      ensures ok <==> ValidLevel(o.level)
    {
      var coolDownMax := time.Length - 1;
      if o.level > coolDownMax || o.level < 0 {
        charging := o.charging;
        return false;
      }
      ok := true;
      if o.charging && o.level != 0 {
        coolDownEffectCnt := coolDownEffectCnt + 1;
      }
      if !charging {
        coolDownStatus := o.level;
        coolDownStatusChangeT := o.t;
        charging := o.charging;
        return;
      }
      if coolDownStatus != o.level {
        time[o.level] := time[o.level] + (o.t - coolDownStatusChangeT);
      } else {
        time[coolDownStatus] := time[coolDownStatus] + (o.t - coolDownStatusChangeT);
      }
      coolDownStatus := o.level;
      coolDownStatusChangeT := o.t;
      charging := o.charging;
    }
  }

  function Sum(s: seq<int>): int {
    if s == [] then 0 else s[0] + Sum(s[1..])
  }

  lemma {:induction false} SumUpdate(s: seq<int>, i: nat, v: int)
    requires i < |s|
    ensures Sum(s[i := v]) == Sum(s) - s[i] + v
  {
    if i > 0 {
      assert s[i := v][1..] == s[1..][i - 1 := v];
      SumUpdate(s[1..], i - 1, v);
    } else {
      assert s[i := v][1..] == s[1..];
    }
  }

  lemma {:induction false} SumZeros(n: nat)
    ensures Sum(seq(n, _ => 0)) == 0
  {
    if n == 0 {
    } else {
      assert seq(n, _ => 0)[1..] == seq(n - 1, _ => 0);
      SumZeros(n - 1);
    }
  }

  function RunCool(c: Cool, obs: seq<Obs>): (c1: Cool)
    requires Tabled(c)
    ensures Tabled(c1)
    decreases |obs|
  {
    if obs == [] then c else RunCool(ObserveCool(c, obs[0]), obs[1..])
  }

  /** Time elapsed while charging that an evaluation with a bad level has left outstanding. */
  function Outstanding(c: Cool, t: int): int {
    if c.charging then t - c.changeT else 0
  }

  /** A good level, or a bad one that does not coincide with a change of the charging status. */
  predicate Clean(c: Cool, o: Obs) {
    ValidLevel(o.level) || c.charging == o.charging || o.t == c.changeT
  }

  /** The account balances over one observation if and only if the observation is clean. */
  lemma CoolStepIff(c: Cool, t: int, o: Obs)
    requires Tabled(c)
    ensures var c1 := ObserveCool(c, o);
            var passed := if c.charging then o.t - t else 0;
            (Sum(c1.table) + Outstanding(c1, o.t) == Sum(c.table) + Outstanding(c, t) + passed) <==> Clean(c, o)
  {
    if ValidLevel(o.level) {
      SumUpdate(c.table, o.level, c.table[o.level] + (o.t - c.changeT));
    }
  }

  predicate AllClean(c: Cool, obs: seq<Obs>)
    requires Tabled(c)
    decreases |obs|
  {
    obs == [] || (Clean(c, obs[0]) && AllClean(ObserveCool(c, obs[0]), obs[1..]))
  }

  lemma {:induction false} CoolTimeKept(c: Cool, t: int, obs: seq<Obs>)
    requires Tabled(c) && AllClean(c, obs)
    ensures var c1 := RunCool(c, obs);
            Sum(c1.table) + Outstanding(c1, LastTime(t, obs)) ==
              Sum(c.table) + Outstanding(c, t) + ChargingTime(c.charging, t, obs)
    decreases |obs|
  {
    if obs == [] {
    } else {
      CoolStepIff(c, t, obs[0]);
      CoolTimeKept(ObserveCool(c, obs[0]), obs[0].t, obs[1..]);
      assert LastTime(t, obs) == LastTime(obs[0].t, obs[1..]);
    }
  }

  /** The time spent in intervals that began while charging and ended with this level. */
  function LevelTime(level: int, charging: bool, t0: int, obs: seq<Obs>): int
    decreases |obs|
  {
    if obs == [] then 0
    else
      (if charging && obs[0].level == level then obs[0].t - t0 else 0)
      + LevelTime(level, obs[0].charging, obs[0].t, obs[1..])
  }

  predicate LevelsValid(obs: seq<Obs>) {
    forall i :: 0 <= i < |obs| ==> ValidLevel(obs[i].level)
  }

  lemma {:induction false} LevelTimeKept(c: Cool, obs: seq<Obs>, level: int)
    requires Tabled(c) && LevelsValid(obs) && ValidLevel(level)
    ensures var c1 := RunCool(c, obs);
            && c1.table[level] == c.table[level] + LevelTime(level, c.charging, c.changeT, obs)
            && c1.changeT == LastTime(c.changeT, obs)
    decreases |obs|
  {
    if obs == [] {
    } else {
      LevelTimeKept(ObserveCool(c, obs[0]), obs[1..], level);
      assert LastTime(c.changeT, obs) == LastTime(obs[0].t, obs[1..]);
    }
  }

  lemma {:induction false} ValidRunsAreClean(c: Cool, obs: seq<Obs>)
    requires Tabled(c) && LevelsValid(obs)
    ensures AllClean(c, obs)
    decreases |obs|
  {
    if obs == [] {
    } else {
      ValidRunsAreClean(ObserveCool(c, obs[0]), obs[1..]);
    }
  }

  /**
   Main result: since the plug-in, with valid levels, the whole table sums to the length of the intervals that
   began while charging (the total the screen times add up to), and each entry is the time
   of those intervals that ended with its level.
   */
  lemma CoolDownAccount(o: Obs, obs: seq<Obs>, level: int)
    requires LevelsValid(obs) && ValidLevel(level)
    ensures var c := RunCool(PlugInCool(o), obs);
            && Sum(c.table) == ChargingTime(o.charging, o.t, obs)
            && c.table[level] == LevelTime(level, o.charging, o.t, obs)
  {
    var c0 := PlugInCool(o);
    SumZeros(COOL_DOWN_LEVELS);
    ValidRunsAreClean(c0, obs);
    CoolTimeKept(c0, o.t, obs);
    LevelTimeKept(c0, obs, level);
  }

  /** The observations with a valid level in effect while charging. */
  function EffectsSeen(obs: seq<Obs>): nat {
    if obs == [] then 0
    else
      (if ValidLevel(obs[0].level) && obs[0].charging && obs[0].level != 0 then 1 else 0) + EffectsSeen(obs[1..])
  }

  /** The count is kept over any run, whether or not the levels are valid. */
  lemma {:induction false} EffectsCounted(c: Cool, obs: seq<Obs>)
    requires Tabled(c)
    ensures RunCool(c, obs).effects == c.effects + EffectsSeen(obs)
    decreases |obs|
  {
    if obs == [] {
    } else {
      EffectsCounted(ObserveCool(c, obs[0]), obs[1..]);
    }
  }

  /** Since the plug-in, which starts the count at zero; the levels that are valid are the entries of the table. */
  lemma EffectsSincePlugIn(o: Obs, obs: seq<Obs>, level: int)
    ensures RunCool(PlugInCool(o), obs).effects == EffectsSeen(obs)
    ensures ValidLevel(level) <==> 0 <= level < |RunCool(PlugInCool(o), obs).table|
  {
    EffectsCounted(PlugInCool(o), obs);
  }

  // ---------- the level in force ----------

  /** The time spent in intervals that began while charging with this level in force. */
  function ForceTime(level: int, charging: bool, status: int, t0: int, obs: seq<Obs>): int
    decreases |obs|
  {
    if obs == [] then 0
    else
      (if charging && status == level then obs[0].t - t0 else 0)
      + ForceTime(level, obs[0].charging, obs[0].level, obs[0].t, obs[1..])
  }

  /** The table with the elapsed time credited to the level that was in force. */
  function Credited(table: seq<int>, c: Cool, o: Obs): (t: seq<int>)
    requires |table| == COOL_DOWN_LEVELS && ValidLevel(c.status)
    ensures |t| == COOL_DOWN_LEVELS
  {
    if c.charging then table[c.status := table[c.status] + (o.t - c.changeT)] else table
  }

  /** The observation does not change the level while time has passed in charging. */
  predicate InForce(c: Cool, o: Obs) {
    !c.charging || o.level == c.status || o.t == c.changeT
  }

  /** One observation credits the level in force if and only if it does not change it at a cost. */
  lemma CreditStepIff(c: Cool, o: Obs)
    requires Tabled(c) && ValidLevel(c.status) && ValidLevel(o.level)
    ensures ObserveCool(c, o).table == Credited(c.table, c, o) <==> InForce(c, o)
  {
    var dt := o.t - c.changeT;
    if c.charging && o.level != c.status && dt != 0 {
      assert ObserveCool(c, o).table[o.level] == c.table[o.level] + dt;
      assert Credited(c.table, c, o)[o.level] == c.table[o.level];
    }
  }

  /** At every boundary of the run the table is the one that credits the level in force. */
  predicate CreditedThroughout(c: Cool, table: seq<int>, obs: seq<Obs>)
    requires Tabled(c) && |table| == COOL_DOWN_LEVELS && ValidLevel(c.status) && LevelsValid(obs)
    decreases |obs|
  {
    && c.table == table
    && (obs != [] ==> CreditedThroughout(ObserveCool(c, obs[0]), Credited(table, c, obs[0]), obs[1..]))
  }

  predicate AllInForce(c: Cool, obs: seq<Obs>)
    requires Tabled(c)
    decreases |obs|
  {
    obs == [] || (InForce(c, obs[0]) && AllInForce(ObserveCool(c, obs[0]), obs[1..]))
  }

  /**
   Main result: the entries are the times of the levels in force, all along a run, exactly if no level changes
   at a cost.
   */
  lemma {:induction false} CreditedIff(c: Cool, obs: seq<Obs>)
    requires Tabled(c) && ValidLevel(c.status) && LevelsValid(obs)
    ensures CreditedThroughout(c, c.table, obs) <==> AllInForce(c, obs)
    decreases |obs|
  {
    if obs == [] {
    } else {
      var c1 := ObserveCool(c, obs[0]);
      CreditStepIff(c, obs[0]);
      CreditedIff(c1, obs[1..]);
      if !InForce(c, obs[0]) {
        assert !CreditedThroughout(c1, Credited(c.table, c, obs[0]), obs[1..]);
      }
    }
  }

  /** Such a run ends with the time each level was in force. */
  lemma {:induction false} ForceTimeKept(c: Cool, obs: seq<Obs>, level: int)
    requires Tabled(c) && ValidLevel(c.status) && LevelsValid(obs) && ValidLevel(level)
    requires AllInForce(c, obs)
    ensures RunCool(c, obs).table[level] == c.table[level] + ForceTime(level, c.charging, c.status, c.changeT, obs)
    decreases |obs|
  {
    if obs == [] {
    } else {
      CreditStepIff(c, obs[0]);
      ForceTimeKept(ObserveCool(c, obs[0]), obs[1..], level);
    }
  }

  /** Since the plug-in: the level asked for at the plug-in is in force until the first observation. */
  lemma ForceTimeSincePlugIn(o: Obs, obs: seq<Obs>, level: int)
    requires ValidLevel(o.level) && LevelsValid(obs) && ValidLevel(level) && AllInForce(PlugInCool(o), obs)
    ensures RunCool(PlugInCool(o), obs).table[level] == ForceTime(level, o.charging, o.level, o.t, obs)
  {
    ForceTimeKept(PlugInCool(o), obs, level);
  }

  /** Ten seconds at level 0 end with a change to level 1, which is credited with them. */
  lemma LevelChangeIsMiscredited()
    ensures var o0, o1 := Obs(0, true, true, 0, false, 0), Obs(10, true, true, 0, false, 1);
            var c := RunCool(PlugInCool(o0), [o1]);
            && c.table[0] == 0 && ForceTime(0, true, 0, 0, [o1]) == 10
            && c.table[1] == 10 && ForceTime(1, true, 0, 0, [o1]) == 0
  {
    var o1 := Obs(10, true, true, 0, false, 1);
    assert [o1][1..] == [];
  }

  /** Ten seconds of charging end with a level that is not valid: they are in no entry and not outstanding. */
  lemma BadLevelLosesTime()
    ensures var o0, o1 := Obs(0, true, true, 0, false, 0), Obs(10, false, true, 0, false, COOL_DOWN_LEVELS);
            var c := RunCool(PlugInCool(o0), [o1]);
            && Sum(c.table) == 0 && Outstanding(c, 10) == 0 && ChargingTime(true, 0, [o1]) == 10
  {
    var o1 := Obs(10, false, true, 0, false, COOL_DOWN_LEVELS);
    assert [o1][1..] == [];
    SumZeros(COOL_DOWN_LEVELS);
  }
}
