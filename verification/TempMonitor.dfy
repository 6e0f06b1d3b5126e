/**
 The temperature evaluations of oplus_chg_comm.c in place: a threshold array scanned and rewritten by
 loops, and, for the battery, the decision when the new region is announced to the charger.
 */
module TempMonitor {
  import opened Kernel
  import opened TempRegion

  const BATT_TEMP_COOL := 3
  const BATT_TEMP_LITTLE_COOL := 4

  class Thresholds {
    const cfg: seq<int>
    const dyn: array<int>
    var region: nat

    ghost predicate Valid()
      reads this, dyn
    {
      dyn.Length == |cfg| && region <= |cfg| + 1
    }

    ghost function Value(): (m: Monitor)
      reads this, dyn
      requires Valid()
      ensures Sized(m)
    {
      Monitor(cfg, dyn[..], region)
    }

    /** The threshold part of oplus_chg_comm_status_init. */
    constructor (cfg: seq<int>)
      ensures Valid() && fresh(dyn) && Value() == Fresh(cfg)
    {
      this.cfg := cfg;
      dyn := new int[|cfg|](i requires 0 <= i < |cfg| => cfg[i]);
      region := |cfg| + 1;
      new;
      assert dyn[..] == cfg;
    }

    /** The scan of oplus_chg_comm_get_temp_region: the hottest region if no threshold is above temp. */
    method GetRegion(temp: int) returns (r: nat)
      requires Valid()
      ensures r == Classify(dyn[..], temp)
    {
      r := dyn.Length;
      var i := 0;
      while i < dyn.Length
        invariant 0 <= i <= dyn.Length
        invariant r == dyn.Length
        invariant forall j :: 0 <= j < i ==> dyn[j] <= temp
      {
        if temp < dyn[i] {
          r := i;
          break;
        }
        i := i + 1;
      }
    }

    /** The two loops that rewrite the thresholds when the region has changed to r. */
    method Enter(r: nat)
      requires Valid() && r <= |cfg|
      modifies this, dyn
      ensures Valid() && Value() == TempRegion.Enter(old(Value()), r)
    {
      if region == r {
        return;
      }
      var at, delta := if region > r then r else r - 1, if region > r then BATT_TEMP_HYST else -BATT_TEMP_HYST;
      var i := 0;
      while i < dyn.Length
        invariant 0 <= i <= dyn.Length
        invariant forall j :: 0 <= j < i ==> dyn[j] == if j == at then old(dyn[j]) + delta else cfg[j]
        invariant forall j :: i <= j < dyn.Length ==> dyn[j] == old(dyn[j])
      {
        dyn[i] := if i == at then dyn[i] + delta else cfg[i];
        i := i + 1;
      }
      region := r;
    }

    /** The first half of oplus_chg_comm_check_batt_temp: the very first region is adopted as it is. */
    method UpdateRegion(temp: int) returns (from: nat, r: nat)
      requires Valid()
      modifies this, dyn
      ensures Valid() && Value() == Observe(old(Value()), temp, true)
      ensures r == region && from == if old(region) == |cfg| + 1 then r else old(region)
    {
      r := GetRegion(temp);
      if region == |cfg| + 1 {
        region := r;
      }
      from := region;
      Enter(r);
    }

    /** oplus_chg_comm_get_ffc_temp_region */
    method GetFfcTempRegion(temp: int) returns (r: nat)
      requires Valid()
      modifies this, dyn
      ensures Valid() && Value() == Observe(old(Value()), temp, false)
      ensures r == region <= |cfg|
    {
      r := GetRegion(temp);
      Enter(r);
    }
  }

  // ---------- announcing the battery region ----------

  /**
   What oplus_chg_comm_check_batt_temp keeps beside the thresholds, the region whose float voltage it voted for
   last, and the region it announced to the wireless charger last.
   */
  datatype Notice = Notice(powerChanged: bool, volHigh: bool, voted: Option<nat>, announced: Option<nat>)

  /** The inputs of one check apart from the temperature; `hasFv` and `hasWls` say whom a change can be told to. */
  datatype Reading = Reading(
    ffcActive: bool, fastCharging: bool, gaugeOk: bool, vbat: int, limitMv: int, hasFv: bool, hasWls: bool)

  /** The voltage flag has a hysteresis of its own, with the same constant. */
  function VolHigh(high: bool, x: Reading): bool {
    if high then x.vbat >= x.limitMv - BATT_TEMP_HYST else x.vbat > x.limitMv
  }

  /** Is a change from one region to another told to the charger? */
  predicate Tells(from: nat, to: nat, x: Reading) {
    from != to &&
    (x.fastCharging ==> {from, to} == {BATT_TEMP_LITTLE_COOL, BATT_TEMP_COOL})
  }

  /**
   Without a voltage reading the announcement has to wait for a later check. Without the votable or the module it
   is lost: the flag is cleared all the same.
   */
  function Announce(n: Notice, changed: bool, to: nat, x: Reading): Notice {
    if !x.gaugeOk then n.(powerChanged := changed)
    else
      var high := VolHigh(n.volHigh, x);
      var tell := changed || high != n.volHigh;
      Notice(false, high, if tell && x.hasFv then Some(to) else n.voted,
             if tell && x.hasWls then Some(to) else n.announced)
  }

  function CheckNotice(n: Notice, from: nat, to: nat, x: Reading): Notice {
    Announce(n, n.powerChanged || Tells(from, to, x), to, x)
  }

  /** The battery's monitor and what has been announced of it. */
  datatype Battery = Battery(monitor: Monitor, notice: Notice)

  function Check(b: Battery, temp: int, x: Reading): (b1: Battery)
    requires Sized(b.monitor)
    ensures Sized(b1.monitor)
  {
    if x.ffcActive then b
    else
      var m1 := Observe(b.monitor, temp, true);
      var from := if b.monitor.region == |b.monitor.cfg| + 1 then m1.region else b.monitor.region;
      Battery(m1, CheckNotice(b.notice, from, m1.region, x))
  }

  /** A changed configuration asks for an announcement with the next check. */
  function Asked(b: Battery): Battery {
    b.(notice := b.notice.(powerChanged := true))
  }

  class BatteryTemp {
    const thresholds: Thresholds
    var notice: Notice

    ghost predicate Valid()
      reads this, thresholds, thresholds.dyn
    {
      thresholds.Valid()
    }

    ghost function Value(): (b: Battery)
      reads this, thresholds, thresholds.dyn
      requires Valid()
      ensures Sized(b.monitor)
    {
      Battery(thresholds.Value(), notice)
    }

    /** oplus_chg_comm_status_init asks for the first check to announce. */
    constructor (cfg: seq<int>)
      ensures Valid() && fresh(thresholds) && fresh(thresholds.dyn)
      ensures Value() == Battery(Fresh(cfg), Notice(true, false, None, None))
    {
      thresholds := new Thresholds(cfg);
      notice := Notice(true, false, None, None);
    }

    /** oplus_chg_comm_check_batt_temp */
    method CheckBattTemp(temp: int, x: Reading)
      requires Valid()
      modifies this, thresholds, thresholds.dyn
      ensures Valid()
      ensures Value() == Check(old(Value()), temp, x)
    {
      if x.ffcActive {
        return;
      }
      var from, r := thresholds.UpdateRegion(temp);
      var changed := notice.powerChanged;
      if from > r {
        if !x.fastCharging || (from == BATT_TEMP_LITTLE_COOL && r == BATT_TEMP_COOL) {
          changed := true;
        }
      } else if from < r {
        if !x.fastCharging || (from == BATT_TEMP_COOL && r == BATT_TEMP_LITTLE_COOL) {
          changed := true;
        }
      }
      CheckVoltage(changed, r, x);
    }

    /** oplus_chg_comm_update_config */
    method UpdateConfig(temp: int, x: Reading)
      requires Valid()
      modifies this, thresholds, thresholds.dyn
      ensures Valid()
      ensures Value() == Check(Asked(old(Value())), temp, x)
    {
      notice := notice.(powerChanged := true);
      CheckBattTemp(temp, x);
    }

    /** The second half of the check: the voltage flag, and the announcement. */
    method CheckVoltage(changed: bool, r: nat, x: Reading)
      modifies this
      ensures notice == Announce(old(notice), changed, r, x)
    {
      notice := notice.(powerChanged := changed);
      if !x.gaugeOk {
        return;
      }
      if x.vbat > x.limitMv && !notice.volHigh {
        notice := notice.(volHigh := true, powerChanged := true);
      } else if x.vbat < x.limitMv - BATT_TEMP_HYST && notice.volHigh {
        notice := notice.(volHigh := false, powerChanged := true);
      }
      if notice.powerChanged {
        notice := notice.(powerChanged := false);
        if x.hasFv {
          notice := notice.(voted := Some(r));
        }
        if x.hasWls {
          notice := notice.(announced := Some(r));
        }
      }
    }
  }

  // ---------- the charger knows the region ----------

  /** One check; `asked` means that it comes from a changed configuration. */
  datatype Sample = Sample(temp: int, reading: Reading, asked: bool)

  function CheckSample(b: Battery, sample: Sample): (b1: Battery)
    requires Sized(b.monitor)
    ensures Sized(b1.monitor)
  {
    Check(if sample.asked then Asked(b) else b, sample.temp, sample.reading)
  }

  function RunChecks(b: Battery, samples: seq<Sample>): (b1: Battery)
    requires Sized(b.monitor)
    ensures Sized(b1.monitor)
    decreases |samples|
  {
    if samples == [] then b else RunChecks(CheckSample(b, samples[0]), samples[1..])
  }

  /** The charger has been told the current region, or an announcement is waiting for a voltage reading. */
  ghost predicate UpToDate(b: Battery) {
    && Sized(b.monitor)
    && (b.notice.powerChanged || b.notice.announced == Some(b.monitor.region))
    && (b.monitor.region == |b.monitor.cfg| + 1 ==> b.notice.powerChanged)
  }

  /** Which checks keep the charger up to date: a caller can tell from the border crossed. */
  lemma UpToDateIff(b: Battery, temp: int, x: Reading)
    requires UpToDate(b) && !x.ffcActive
    ensures var b1 := Check(b, temp, x);
            var from, to := b.monitor.region, b1.monitor.region;
            UpToDate(b1) <==>
              || b.notice.announced == Some(to)
              || (&& (x.gaugeOk ==> x.hasWls)
                  && (|| b.notice.powerChanged
                      || (from != to && !x.fastCharging)
                      || {from, to} == {BATT_TEMP_LITTLE_COOL, BATT_TEMP_COOL}
                      || (x.gaugeOk && VolHigh(b.notice.volHigh, x) != b.notice.volHigh)))
  {
  }

  /** The very first announcement is lost for good if the wireless module is not there yet. */
  lemma EarlyAnnouncementIsLost(cfg: seq<int>, temp: int, x: Reading)
    requires !x.ffcActive && x.gaugeOk && !x.hasWls
    ensures !UpToDate(Check(Battery(Fresh(cfg), Notice(true, false, None, None)), temp, x))
  {
  }

  /**
   Without fast charging, and with the wireless module there, the region announced last is the current one or
   about to be, over any run of checks.
   */
  lemma {:induction false} AnnouncedIsCurrent(b: Battery, samples: seq<Sample>)
    requires UpToDate(b)
    requires forall i :: 0 <= i < |samples| ==> !samples[i].reading.fastCharging && samples[i].reading.hasWls
    ensures UpToDate(RunChecks(b, samples))
    decreases |samples|
  {
    if samples == [] {
    } else {
      var x, b0 := samples[0].reading, if samples[0].asked then Asked(b) else b;
      if !x.ffcActive {
        UpToDateIff(b0, samples[0].temp, x);
      }
      AnnouncedIsCurrent(CheckSample(b, samples[0]), samples[1..]);
    }
  }

  // ---------- the float voltage follows the region ----------

  /** The float voltage of the current region has been voted for, or an announcement is waiting for a voltage reading. */
  ghost predicate Voted(b: Battery) {
    && Sized(b.monitor)
    && (b.notice.powerChanged || b.notice.voted == Some(b.monitor.region))
    && (b.monitor.region == |b.monitor.cfg| + 1 ==> b.notice.powerChanged)
  }

  lemma VotedStep(b: Battery, temp: int, x: Reading)
    requires Voted(b) && !x.fastCharging && x.hasFv
    ensures Voted(Check(b, temp, x))
  {
  }

  /**
   Main result: without fast charging, and with the votable there, the float voltage voted for last is that of the current
   region or about to be, over any run of checks.
   */
  lemma {:induction false} VotedIsCurrent(b: Battery, samples: seq<Sample>)
    requires Voted(b)
    requires forall i :: 0 <= i < |samples| ==> !samples[i].reading.fastCharging && samples[i].reading.hasFv
    ensures Voted(RunChecks(b, samples))
    decreases |samples|
  {
    if samples == [] {
    } else {
      VotedStep(if samples[0].asked then Asked(b) else b, samples[0].temp, samples[0].reading);
      VotedIsCurrent(CheckSample(b, samples[0]), samples[1..]);
    }
  }

  /** A check that was asked for tells everybody who is there, fast charging or not; during FFC nothing happens. */
  lemma AskedCheckTells(b: Battery, temp: int, x: Reading)
    requires Sized(b.monitor)
    ensures var b1 := Check(Asked(b), temp, x);
            && (x.ffcActive ==> b1 == Asked(b))
            && (!x.ffcActive && !x.gaugeOk ==> b1.notice == Asked(b).notice)
            && (!x.ffcActive && x.gaugeOk ==>
                  && !b1.notice.powerChanged
                  && b1.notice.voted == (if x.hasFv then Some(b1.monitor.region) else b.notice.voted)
                  && b1.notice.announced == (if x.hasWls then Some(b1.monitor.region) else b.notice.announced))
  {
  }

  /**
   What else makes a check tell the charger, with everybody there and nothing waiting: the voltage flag, or a border crossed
   between two known regions, which during fast charging has to be that between COOL and LITTLE_COOL. The very first
   region is taken for what was there before.
   */
  lemma TellsIff(b: Battery, temp: int, x: Reading)
    requires Sized(b.monitor) && !b.notice.powerChanged && b.notice.voted.None? && b.notice.announced.None?
    requires !x.ffcActive && x.gaugeOk && x.hasFv && x.hasWls
    ensures var b1 := Check(b, temp, x);
            var from, to := b.monitor.region, b1.monitor.region;
            var crossed := from < |b.monitor.cfg| + 1 && from != to && (x.fastCharging ==> {from, to} == {3, 4});
            && (b1.notice.voted.Some? <==> crossed || b1.notice.volHigh != b.notice.volHigh)
            && b1.notice.announced == b1.notice.voted
            && (b1.notice.voted.Some? ==> b1.notice.voted == Some(to))
  {
  }

  // ---------- the voltage flag ----------

  /** A check that evaluates the voltage. */
  predicate Evaluates(x: Reading) {
    !x.ffcActive && x.gaugeOk
  }

  predicate Raises(x: Reading) {
    Evaluates(x) && x.vbat > x.limitMv
  }

  predicate Lowers(x: Reading) {
    Evaluates(x) && x.vbat < x.limitMv - BATT_TEMP_HYST
  }

  /** Sample k raises the flag and none after it lowers it. */
  predicate HighSince(samples: seq<Sample>, k: nat) {
    k < |samples| && Raises(samples[k].reading) && forall j :: k < j < |samples| ==> !Lowers(samples[j].reading)
  }

  predicate NeverLowered(samples: seq<Sample>) {
    forall j :: 0 <= j < |samples| ==> !Lowers(samples[j].reading)
  }

  /**
   Main result: after any run the voltage flag is up exactly if some voltage was above the limit, or the flag up at the
   start, and none since was more than the hysteresis below the limit.
   */
  lemma {:induction false} VoltageFlagIff(b: Battery, samples: seq<Sample>)
    requires Sized(b.monitor)
    ensures RunChecks(b, samples).notice.volHigh <==>
              (b.notice.volHigh && NeverLowered(samples)) || exists k :: HighSince(samples, k)
    decreases |samples|
  {
    if samples == [] {
    } else {
      var rest := samples[1..];
      VoltageFlagIff(CheckSample(b, samples[0]), rest);
      assert NeverLowered(samples) <==> !Lowers(samples[0].reading) && NeverLowered(rest);
      assert HighSince(samples, 0) <==> Raises(samples[0].reading) && NeverLowered(rest);
      forall k: nat ensures HighSince(rest, k) <==> HighSince(samples, k + 1) {
        if HighSince(samples, k + 1) {
          assert forall j :: k < j < |rest| ==> rest[j] == samples[j + 1];
        }
      }
      forall k: nat | HighSince(samples, k) ensures k == 0 || HighSince(rest, k - 1) {
      }
    }
  }

  // ---------- the checks drive the monitor ----------

  /** The temperatures that are evaluated: those of checks outside an FFC session. */
  function Evaluated(samples: seq<Sample>): seq<int> {
    if samples == [] then []
    else (if samples[0].reading.ffcActive then [] else [samples[0].temp]) + Evaluated(samples[1..])
  }

  /** A run of checks takes the monitor through these temperatures, so that what is proved of its runs holds here. */
  lemma {:induction false} ChecksRunMonitor(b: Battery, samples: seq<Sample>)
    requires Sized(b.monitor)
    ensures RunChecks(b, samples).monitor == TempRegion.Run(b.monitor, Evaluated(samples), true)
    decreases |samples|
  {
    if samples == [] {
    } else {
      ChecksRunMonitor(CheckSample(b, samples[0]), samples[1..]);
      if samples[0].reading.ffcActive {
        assert [] + Evaluated(samples[1..]) == Evaluated(samples[1..]);
      } else {
        assert ([samples[0].temp] + Evaluated(samples[1..]))[1..] == Evaluated(samples[1..]);
      }
    }
  }
}
