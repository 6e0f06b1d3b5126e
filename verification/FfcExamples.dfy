/** Runs of the FFC machine from the probed device that reach its two defects. */
module FfcExamples {
  import opened FfcSpec
  import opened FfcTheorems

  const PROBED := State(FfcDefault, 0, 0, 0, false, FFC_TEMP_NORMAL)

  /**
   A session, a check that finds the battery cool or warm and ends it, a second session, and a check in that
   same region: it indexes column -1 or 2, for every table and whatever else the checks read.
   */
  lemma SecondSessionEscapes(cfg: Config, x: Input, bad: nat)
    requires 1 <= cfg.stepMax && SwitchError(x) == 0 && x.gaugeRc >= 0
    requires bad == FFC_TEMP_COOL || bad == FFC_TEMP_WARM
    ensures var y := x.(region := bad);
            var first := Switch(PROBED, cfg, x).state;
            var second := Switch(Check(first, cfg, y).state, cfg, x).state;
            Cell(0, bad - 1) in Check(second, cfg, y).cells && !AllInTables(second, cfg, [y])
  {
    var y := x.(region := bad);
    var first := Switch(PROBED, cfg, x).state;
    var ended := Check(first, cfg, y).state;
    assert ended.preRegion == bad;
    var second := Switch(ended, cfg, x).state;
    assert Check(second, cfg, y).cells[1] == Cell(0, bad - 1);
    assert !InTables(Check(second, cfg, y).cells, cfg);
  }

  // ---------- a disable vote left behind ----------

  /** One step, which only a low current can complete. */
  const CONFIG := Config(1, [4500], [9999], [[100, 100]], [[200, 200]], [[300, 300]])

  const LOW := Input(FFC_TEMP_NORMAL, false, true, 0, 4400, 0, true, true, true, true, 0, 4435, 0)
  const WIRED := LOW.(usb := true)

  function Fast(lowCount: int): State {
    State(FfcFast, 0, 0, lowCount, true, FFC_TEMP_NORMAL)
  }

  function Idle(count: int): State {
    State(FfcIdle, 1, 0, count, true, FFC_TEMP_NORMAL)
  }

  function Checks(x: Input, n: nat): seq<Call> {
    if n == 0 then [] else [DoCheck(x)] + Checks(x, n - 1)
  }

  lemma SessionStarts()
    ensures Switch(PROBED, CONFIG, LOW).state == Fast(0) && Held(false, Switch(PROBED, CONFIG, LOW).casts) == false
  {
    HeldByOthers(false, Switch(PROBED, CONFIG, LOW).casts);
  }

  lemma LowCheck(count: int)
    requires 0 <= count <= 3
    ensures var o := Check(Fast(count), CONFIG, LOW);
            o.state == (if count < 3 then Fast(count + 1) else Idle(0)) && Held(false, o.casts) == (count == 3)
  {
    assert At(CONFIG.fccCutoff, 0, Col(LOW), 0) == 300 && Row(CONFIG.fvCutoff, 0, 0) == 9999;
    FastHoldsOutput(Fast(count), CONFIG, LOW);
  }

  lemma {:induction false} LowChecks(count: int, rest: seq<Call>)
    requires 0 <= count <= 3
    ensures var calls := Checks(LOW, 4 - count) + rest;
            && RunCalls(Fast(count), CONFIG, calls) == RunCalls(Idle(0), CONFIG, rest)
            && HeldAfter(false, Fast(count), CONFIG, calls) == HeldAfter(true, Idle(0), CONFIG, rest)
    decreases 4 - count
  {
    var calls := Checks(LOW, 4 - count) + rest;
    LowCheck(count);
    assert calls[1..] == Checks(LOW, 3 - count) + rest && calls[0] == DoCheck(LOW);
    if count == 3 {
      assert Checks(LOW, 0) + rest == rest;
    } else {
      LowChecks(count + 1, rest);
    }
  }

  lemma {:induction false} WiredChecks(count: int)
    requires 0 <= count <= 6
    ensures var calls := Checks(WIRED, 7 - count);
            && RunCalls(Idle(count), CONFIG, calls).status == FfcDefault
            && HeldAfter(true, Idle(count), CONFIG, calls)
    decreases 7 - count
  {
    var calls := Checks(WIRED, 7 - count);
    assert calls[1..] == Checks(WIRED, 6 - count) && calls[0] == DoCheck(WIRED);
    if count == 6 {
    } else {
      WiredChecks(count + 1);
    }
  }

  /** The session starts, and the calls that follow are seen from FFC_FAST. */
  lemma AfterStart(rest: seq<Call>)
    ensures RunCalls(PROBED, CONFIG, [DoSwitch(LOW)] + rest) == RunCalls(Fast(0), CONFIG, rest)
    ensures HeldAfter(false, PROBED, CONFIG, [DoSwitch(LOW)] + rest) == HeldAfter(false, Fast(0), CONFIG, rest)
  {
    SessionStarts();
    assert ([DoSwitch(LOW)] + rest)[1..] == rest;
  }

  /** Four low currents and seven checks with a wired charger: the session is over and the output still disabled. */
  lemma IdleLeavesOutputDisabled()
    ensures var calls := [DoSwitch(LOW)] + (Checks(LOW, 4) + Checks(WIRED, 7));
            && RunCalls(PROBED, CONFIG, calls).status == FfcDefault
            && HeldAfter(false, PROBED, CONFIG, calls)
  {
    AfterStart(Checks(LOW, 4) + Checks(WIRED, 7));
    LowChecks(0, Checks(WIRED, 7));
    WiredChecks(0);
  }

  /** A second switch in FFC_IDLE starts the next session with the output disabled. */
  lemma SwitchLeavesOutputDisabled()
    ensures var calls := [DoSwitch(LOW)] + (Checks(LOW, 4) + [DoSwitch(LOW)]);
            && RunCalls(PROBED, CONFIG, calls).status == FfcFast
            && HeldAfter(false, PROBED, CONFIG, calls)
  {
    AfterStart(Checks(LOW, 4) + [DoSwitch(LOW)]);
    LowChecks(0, [DoSwitch(LOW)]);
    assert [DoSwitch(LOW)][1..] == [];
    HeldByOthers(true, Switch(Idle(0), CONFIG, LOW).casts);
  }
}
