/**
 The fast final charge (FFC) machine of oplus_chg_comm.c as functions of its state: entering a session
 (oplus_chg_comm_switch_ffc) and one periodic check (oplus_chg_comm_check_ffc).
 */
module FfcSpec {
  import opened Kernel

  const FFC_CHG_STEP_MAX := 4
  const FFC_TEMP_COOL := 0
  const FFC_TEMP_PRE_NORMAL := 1
  const FFC_TEMP_NORMAL := 2
  const FFC_TEMP_WARM := 3

  datatype Status = FfcDefault | FfcFast | FfcIdle

  /** The wireless FFC tables: one row a step, one column for each of the two charging regions. */
  datatype Config = Config(
    stepMax: int,
    fv: seq<int>,
    fvCutoff: seq<int>,
    icl: seq<seq<int>>,
    fcc: seq<seq<int>>,
    fccCutoff: seq<seq<int>>)

  /** `preRegion` is the function-local static of the check, which outlives a session. */
  datatype State = State(status: Status, step: int, fvCount: int, fccCount: int, charging: bool, preRegion: nat)

  /**
   What one call reads: the FFC temperature region, which chargers are online, the gauge and its return code
   (negative if a reading failed), which votables exist, the CV reduction and the normal full voltage.
   `junk` is what a read outside a table would find.
   */
  datatype Input = Input(
    region: nat,
    usb: bool,
    wls: bool,
    gaugeRc: int,
    vbat: int,
    ibat: int,
    hasIcl: bool,
    hasFcc: bool,
    hasFv: bool,
    hasOutDis: bool,
    decCv: int,
    vbatMax: int,
    junk: int)

  /** A vote cast as USER_VOTER. */
  datatype Cast = CastIcl(ma: int) | CastFcc(ma: int) | CastFv(mv: int) | CastOutDis(on: bool)

  /** A table access; a one-column table is accessed in column 0. */
  datatype Cell = Cell(row: int, col: int)

  /** The state after a call, its return code, the votes it cast and the table cells it read. */
  datatype Outcome = Outcome(state: State, rc: int, casts: seq<Cast>, cells: seq<Cell>)

  predicate Chargeable(region: nat) {
    region == FFC_TEMP_PRE_NORMAL || region == FFC_TEMP_NORMAL
  }

  function At(t: seq<seq<int>>, row: int, col: int, junk: int): int {
    if 0 <= row < |t| && 0 <= col < |t[row]| then t[row][col] else junk
  }

  function Row(t: seq<int>, row: int, junk: int): int {
    if 0 <= row < |t| then t[row] else junk
  }

  function Col(x: Input): int {
    x.region - 1
  }

  function Quit(s: State): State {
    s.(charging := false, fccCount := 0, fvCount := 0, status := FfcDefault)
  }

  // ---------- switch_ffc ----------

  /** Why a session cannot start, or 0. */
  function SwitchError(x: Input): int {
    if !Chargeable(x.region) || x.usb || !x.wls then -EINVAL
    else if !x.hasIcl || !x.hasFcc || !x.hasFv || !x.hasOutDis then -ENODEV
    else 0
  }

  function Switch(s: State, cfg: Config, x: Input): Outcome {
    var s1 := s.(step := 0);
    if SwitchError(x) != 0 then Outcome(Quit(s1), SwitchError(x), [], [])
    else
      Outcome(State(FfcFast, 0, 0, 0, true, s.preRegion), 0,
              [CastIcl(At(cfg.icl, 0, Col(x), x.junk)), CastFv(Row(cfg.fv, 0, x.junk)),
               CastFcc(At(cfg.fcc, 0, Col(x), x.junk))],
              [Cell(0, Col(x)), Cell(0, 0), Cell(0, Col(x))])
  }

  // ---------- check_ffc ----------

  /** A changed region is remembered first, then it must allow charging with the votables at hand. */
  function RegionError(s: State, x: Input): Option<int> {
    if s.preRegion == x.region then None
    else if !Chargeable(x.region) then Some(x.gaugeRc)
    else if x.usb || !x.wls then Some(-EINVAL)
    else if !x.hasIcl || !x.hasFcc then Some(-ENODEV)
    else None
  }

  /** The limits are revoted for a changed region. */
  function RegionCasts(s: State, cfg: Config, x: Input): seq<Cast> {
    if s.preRegion == x.region then []
    else [CastIcl(At(cfg.icl, s.step, Col(x), x.junk)), CastFcc(At(cfg.fcc, s.step, Col(x), x.junk))]
  }

  function RegionCells(s: State, x: Input): seq<Cell> {
    if s.preRegion == x.region then [] else [Cell(s.step, Col(x)), Cell(s.step, Col(x))]
  }

  predicate IsHigh(s: State, cfg: Config, x: Input) {
    x.vbat >= Row(cfg.fvCutoff, s.step, x.junk) - x.decCv
  }

  predicate IsLow(s: State, cfg: Config, x: Input) {
    Abs(x.ibat) < At(cfg.fccCutoff, s.step, Col(x), x.junk)
  }

  /** Six high voltages, or a fourth low current in a row, complete a step; the low count is kept. */
  function Advance(s: State, high: bool, low: bool): State {
    var fv := if high then s.fvCount + 1 else s.fvCount;
    var s1 := if fv > 5 then s.(step := s.step + 1, fvCount := 0) else s.(fvCount := fv);
    var fcc := if low then s.fccCount + 1 else 0;
    if fcc > 3 then s1.(step := s1.step + 1, fvCount := 0, fccCount := fcc) else s1.(fccCount := fcc)
  }

  /** After the counters: finish to FFC_IDLE, or vote the limits of the step reached. */
  function Conclude(s: State, cfg: Config, x: Input): Outcome {
    if s.step >= cfg.stepMax then
      if !x.hasOutDis then Outcome(Quit(s), -ENODEV, [], [])
      else Outcome(s.(fccCount := 0, fvCount := 0, status := FfcIdle), 0,
                   [CastOutDis(true)] + (if x.hasFv then [CastFv(x.vbatMax - x.decCv)] else []), [])
    else if !x.hasIcl || !x.hasFcc || !x.hasFv then Outcome(Quit(s), -ENODEV, [], [])
    else
      Outcome(s, 0,
              [CastIcl(At(cfg.icl, s.step, Col(x), x.junk)), CastFv(Row(cfg.fv, s.step, x.junk) - x.decCv),
               CastFcc(At(cfg.fcc, s.step, Col(x), x.junk))],
              [Cell(s.step, Col(x)), Cell(s.step, 0), Cell(s.step, Col(x))])
  }

  function CheckFast(s: State, cfg: Config, x: Input): Outcome {
    var s1 := s.(preRegion := x.region);
    if RegionError(s, x).Some? then Outcome(Quit(s1), RegionError(s, x).value, [], [])
    else
      var casts, cells := RegionCasts(s, cfg, x), RegionCells(s, x);
      if x.usb || !x.wls then Outcome(Quit(s1), -EINVAL, casts, cells)
      else
        var o := Conclude(Advance(s1, IsHigh(s, cfg, x), IsLow(s, cfg, x)), cfg, x);
        Outcome(o.state, o.rc, casts + o.casts, cells + [Cell(s.step, 0), Cell(s.step, Col(x))] + o.cells)
  }

  function CheckIdle(s: State, x: Input): Outcome {
    var n := s.fccCount + 1;
    if n <= 6 then Outcome(s.(fccCount := n), 0, [], [])
    else if x.usb then Outcome(Quit(s), -EINVAL, [], [])
    else if x.wls && !x.hasOutDis then Outcome(Quit(s), -ENODEV, [], [])
    else Outcome(Quit(s), 1, if x.wls then [CastOutDis(false)] else [], [])
  }

  function Check(s: State, cfg: Config, x: Input): Outcome {
    if s.status == FfcDefault then Outcome(Quit(s).(step := 0), -EINVAL, [], [])
    else if x.gaugeRc < 0 then Outcome(s, x.gaugeRc, [], [])
    else if s.status == FfcFast then CheckFast(s, cfg, x)
    else CheckIdle(s, x)
  }

  /** The state after a sequence of checks. */
  function Run(s: State, cfg: Config, xs: seq<Input>): State
    decreases |xs|
  {
    if xs == [] then s else Run(Check(s, cfg, xs[0]).state, cfg, xs[1..])
  }

  /** A call of either entry point. Nothing keeps callers from switching in the middle of a session. */
  datatype Call = DoSwitch(x: Input) | DoCheck(x: Input)

  function Do(s: State, cfg: Config, c: Call): Outcome {
    match c
    case DoSwitch(x) => Switch(s, cfg, x)
    case DoCheck(x) => Check(s, cfg, x)
  }

  /** The state after a sequence of calls. */
  function RunCalls(s: State, cfg: Config, calls: seq<Call>): State
    decreases |calls|
  {
    if calls == [] then s else RunCalls(Do(s, cfg, calls[0]).state, cfg, calls[1..])
  }
}
