/** Debounced battery-full detection: oplus_chg_comm_check_batt_full_by_sw and its four static variables. */
module BatteryFull {
  import opened Kernel

  const FULL_COUNTS_SW := 5
  const FULL_COUNTS_HW := 3
  const HW_MARGIN_MV := 18
  const BATT_TEMP_UNKNOWN := 0
  const BATT_TEMP_LITTLE_COLD := 2
  const BATT_TEMP_HOT := 8

  datatype Config = Config(
    checkBySw: bool,
    vbatMax: seq<int>,
    fvOffset: int,
    littleColdIterm: int,
    swIterm: int,
    fullCountSwNum: int)

  predicate ValidConfig(cfg: Config) {
    |cfg.vbatMax| == BATT_TEMP_HOT + 1
  }

  /** What one call reads; `gaugeOk` is false if the gauge could not be read. */
  datatype Input = Input(
    ffcActive: bool, usb: bool, wls: bool, region: nat, gaugeOk: bool, vbat: int, ibat: int, decCv: int)

  predicate ValidInput(x: Input) {
    x.region <= BATT_TEMP_HOT
  }

  // ---------- what one call sees ----------

  /** No: not above the software limit, or draining too hard. Taper: within the termination current. */
  datatype SwVerdict = No | Taper | NotDraining

  /** A call is skipped outright, clears everything, or is counted. */
  datatype Verdict = Skipped | Cleared | Counted(sw: SwVerdict, hw: bool)

  function TermCurrent(cfg: Config, region: nat): int {
    if cfg.littleColdIterm > 0 && region == BATT_TEMP_LITTLE_COLD then cfg.littleColdIterm else cfg.swIterm
  }

  function Judge(cfg: Config, x: Input): Verdict
    requires ValidConfig(cfg) && ValidInput(x)
  {
    if !cfg.checkBySw || x.ffcActive then Skipped
    else if (!x.usb && !x.wls) || x.region == BATT_TEMP_UNKNOWN || x.region == BATT_TEMP_HOT then Cleared
    else if !x.gaugeOk then Skipped
    else
      var full := cfg.vbatMax[x.region];
      Counted(if x.vbat <= full - cfg.fvOffset - x.decCv then No
              else if x.ibat >= 0 then NotDraining
              else if Abs(x.ibat) <= TermCurrent(cfg, x.region) then Taper else No,
              x.vbat >= full + HW_MARGIN_MV - x.decCv)
  }

  // ---------- the counters ----------

  datatype State = State(retSw: bool, retHw: bool, countSw: int, countHw: int)

  const INITIAL := State(false, false, 0, 0)

  /** How many evaluations above the software limit it takes, by the current seen last. */
  function SwTarget(num: int, sw: SwVerdict): int {
    if sw == Taper then FULL_COUNTS_SW * num else FULL_COUNTS_SW * 2
  }

  function CountSw(s: State, num: int, sw: SwVerdict): State {
    if sw == No then s.(countSw := 0, retSw := false)
    else if s.countSw + 1 > SwTarget(num, sw) then s.(countSw := 0, retSw := true)
    else s.(countSw := s.countSw + 1)
  }

  function CountHw(s: State, hw: bool): State {
    if !hw then s.(countHw := 0, retHw := false)
    else if s.countHw + 1 >= FULL_COUNTS_HW then s.(countHw := 0, retHw := true)
    else s.(countHw := s.countHw + 1)
  }

  /** One call: the new state and whether the battery is reported full. */
  function Step(s: State, num: int, v: Verdict): (State, bool) {
    match v
    case Skipped => (s, false)
    case Cleared => (INITIAL, false)
    case Counted(sw, hw) =>
      var s1 := CountHw(CountSw(s, num, sw), hw);
      if s1.retSw || s1.retHw then (s1.(retSw := false, retHw := false), true) else (s1, false)
  }

  class Detector {
    const cfg: Config
    var retSw: bool
    var retHw: bool
    var vbatCountsSw: int
    var vbatCountsHw: int

    ghost function Value(): State
      reads this
    {
      State(retSw, retHw, vbatCountsSw, vbatCountsHw)
    }

    constructor (cfg: Config)
      ensures this.cfg == cfg && Value() == INITIAL
    {
      this.cfg := cfg;
      retSw, retHw, vbatCountsSw, vbatCountsHw := false, false, 0, 0;
    }

    method Clear()
      modifies this
      ensures Value() == INITIAL
    {
      vbatCountsSw, vbatCountsHw := 0, 0;
      retSw, retHw := false, false;
    }

    /** oplus_chg_comm_check_batt_full_by_sw */
    method CheckBattFull(x: Input) returns (full: bool)
      requires ValidConfig(cfg) && ValidInput(x)
      modifies this
      ensures (Value(), full) == Step(old(Value()), cfg.fullCountSwNum, Judge(cfg, x))
    {
      if !cfg.checkBySw {
        return false;
      }
      if x.ffcActive {
        return false;
      }
      if !x.usb && !x.wls {
        Clear();
        return false;
      }
      var fullHw := cfg.vbatMax[x.region];
      if x.region == BATT_TEMP_UNKNOWN || x.region == BATT_TEMP_HOT {
        Clear();
        return false;
      }
      var fullSw := fullHw - cfg.fvOffset;
      var term := TermCurrent(cfg, x.region);
      if !x.gaugeOk {
        return false;
      }
      if x.vbat > fullSw - x.decCv {
        if x.ibat < 0 && Abs(x.ibat) <= term {
          vbatCountsSw := vbatCountsSw + 1;
          if vbatCountsSw > FULL_COUNTS_SW * cfg.fullCountSwNum {
            vbatCountsSw := 0;
            retSw := true;
          }
        } else if x.ibat >= 0 {
          vbatCountsSw := vbatCountsSw + 1;
          if vbatCountsSw > FULL_COUNTS_SW * 2 {
            vbatCountsSw := 0;
            retSw := true;
          }
        } else {
          vbatCountsSw := 0;
          retSw := false;
        }
      } else {
        vbatCountsSw := 0;
        retSw := false;
      }
      if x.vbat >= fullHw + HW_MARGIN_MV - x.decCv {
        vbatCountsHw := vbatCountsHw + 1;
        if vbatCountsHw >= FULL_COUNTS_HW {
          vbatCountsHw := 0;
          retHw := true;
        }
      } else {
        vbatCountsHw := 0;
        retHw := false;
      }
      if retSw || retHw {
        retSw, retHw := false, false;
        return true;
      }
      return false;
    }
  }

  // ---------- runs ----------

  function After(num: int, vs: seq<Verdict>): State {
    if vs == [] then INITIAL else Step(After(num, vs[..|vs| - 1]), num, vs[|vs| - 1]).0
  }

  /** Does the last call of the run report? */
  predicate Reported(num: int, vs: seq<Verdict>) {
    vs != [] && Step(After(num, vs[..|vs| - 1]), num, vs[|vs| - 1]).1
  }

  /** The length of the unbroken row of evaluations at the hardware limit; skipped calls do not break it. */
  function HwRow(vs: seq<Verdict>): nat {
    if vs == [] then 0
    else
      match vs[|vs| - 1]
      case Skipped => HwRow(vs[..|vs| - 1])
      case Cleared => 0
      case Counted(_, hw) => if hw then 1 + HwRow(vs[..|vs| - 1]) else 0
  }

  /** The same for the software limit. */
  function SwRow(vs: seq<Verdict>): nat {
    if vs == [] then 0
    else
      match vs[|vs| - 1]
      case Skipped => SwRow(vs[..|vs| - 1])
      case Cleared => 0
      case Counted(sw, _) => if sw != No then 1 + SwRow(vs[..|vs| - 1]) else 0
  }

  /** Between calls both flags are down; the hardware counter is the row modulo 3. */
  lemma {:induction false} CountersFollowRows(num: int, vs: seq<Verdict>)
    ensures var s := After(num, vs);
            && !s.retSw && !s.retHw
            && s.countHw == HwRow(vs) % FULL_COUNTS_HW
            && 0 <= s.countSw <= SwRow(vs)
            && s.countSw <= Max(FULL_COUNTS_SW * num, FULL_COUNTS_SW * 2)
  {
    if vs == [] {
    } else {
      CountersFollowRows(num, vs[..|vs| - 1]);
    }
  }

  /** The fewest evaluations above the software limit that can lead to a report. */
  function SwNeeded(num: int): int {
    Max(1, Min(FULL_COUNTS_SW * num, FULL_COUNTS_SW * 2) + 1)
  }

  /**
   Main result: a report comes only on a counted evaluation that completes a row of three at the
   hardware limit, or one of at least SwNeeded above the software limit with a current that fits.
   */
  lemma FullOnlyAfterRow(num: int, vs: seq<Verdict>)
    requires Reported(num, vs)
    ensures vs[|vs| - 1].Counted?
    ensures (HwRow(vs) >= FULL_COUNTS_HW && HwRow(vs) % FULL_COUNTS_HW == 0) || SwRow(vs) >= SwNeeded(num)
  {
    var before, v := vs[..|vs| - 1], vs[|vs| - 1];
    CountersFollowRows(num, before);
    ReportNeedsRow(After(num, before), num, v, HwRow(before), SwRow(before));
  }

  /** One call that reports, given the rows before it. */
  lemma ReportNeedsRow(s: State, num: int, v: Verdict, hwRow: nat, swRow: nat)
    requires !s.retSw && !s.retHw && s.countHw == hwRow % FULL_COUNTS_HW && 0 <= s.countSw <= swRow
    requires Step(s, num, v).1
    ensures v.Counted?
    ensures || (v.hw && (hwRow + 1) % FULL_COUNTS_HW == 0)
            || (v.sw != No && swRow + 1 >= SwNeeded(num))
  {
  }

  /** Conversely every third evaluation in a row at the hardware limit reports. */
  lemma EveryThirdHwReports(num: int, vs: seq<Verdict>)
    requires vs != [] && vs[|vs| - 1].Counted?
    requires HwRow(vs) > 0 && HwRow(vs) % FULL_COUNTS_HW == 0
    ensures Reported(num, vs)
  {
    CountersFollowRows(num, vs[..|vs| - 1]);
  }

  /** No call of the continuation `more` reports. */
  ghost predicate Silent(num: int, vs: seq<Verdict>, more: seq<Verdict>) {
    forall k :: 0 < k <= |more| ==> !Reported(num, vs + more[..k])
  }

  lemma SilentStep(num: int, vs: seq<Verdict>, v: Verdict)
    requires v.Counted? && v.sw != No && !Reported(num, vs + [v])
    ensures After(num, vs + [v]).countSw == After(num, vs).countSw + 1
  {
    var all := vs + [v];
    assert all[..|all| - 1] == vs;
    CountersFollowRows(num, vs);
  }

  lemma {:induction false} SilentRowGrows(num: int, vs: seq<Verdict>, more: seq<Verdict>)
    requires Silent(num, vs, more)
    requires forall i :: 0 <= i < |more| ==> more[i].Counted? && more[i].sw != No
    ensures After(num, vs + more).countSw == After(num, vs).countSw + |more|
    decreases |more|
  {
    if more == [] {
      assert vs + more == vs;
    } else {
      var shorter, last := more[..|more| - 1], more[|more| - 1];
      forall k | 0 < k <= |shorter| ensures !Reported(num, vs + shorter[..k]) {
        assert shorter[..k] == more[..k];
      }
      SilentRowGrows(num, vs, shorter);
      assert vs + more == vs + shorter + [last] && more[..|more|] == more;
      SilentStep(num, vs + shorter, last);
    }
  }

  /**
   Main result: the debounce cannot miss. From any point of any run, evaluations that are all above the
   software limit with a fitting current stay silent for at most max(5 * num, 10) calls.
   */
  lemma SwReportsInTime(num: int, vs: seq<Verdict>, more: seq<Verdict>)
    requires Silent(num, vs, more)
    requires forall i :: 0 <= i < |more| ==> more[i].Counted? && more[i].sw != No
    ensures |more| <= Max(FULL_COUNTS_SW * num, FULL_COUNTS_SW * 2)
  {
    SilentRowGrows(num, vs, more);
    CountersFollowRows(num, vs);
    CountersFollowRows(num, vs + more);
  }
}
