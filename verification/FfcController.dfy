/** The fields of struct oplus_chg_comm that the FFC entry points update, and those entry points. */
module FfcController {
  import opened Kernel
  import opened FfcSpec

  class Controller {
    const cfg: Config
    var status: Status
    var ffcStep: int
    var ffcFvCount: int
    var ffcFccCount: int
    var ffcCharging: bool
    var preFfcTempRegion: nat
    /** Votes cast by the current call. */
    var casts: seq<Cast>
    /** Table cells read by the current call. */
    ghost var cells: seq<Cell>

    ghost function Value(): State
      reads this
    {
      State(status, ffcStep, ffcFvCount, ffcFccCount, ffcCharging, preFfcTempRegion)
    }

    /** The probed device: no session, and the static region at its initialiser. */
    constructor (cfg: Config)
      ensures this.cfg == cfg && Value() == State(FfcDefault, 0, 0, 0, false, FFC_TEMP_NORMAL)
    {
      this.cfg := cfg;
      status, ffcStep, ffcFvCount, ffcFccCount := FfcDefault, 0, 0, 0;
      ffcCharging, preFfcTempRegion := false, FFC_TEMP_NORMAL;
      casts, cells := [], [];
    }

    method ReadCell(t: seq<seq<int>>, col: int, junk: int) returns (v: int)
      modifies this`cells
      ensures v == At(t, ffcStep, col, junk)
      ensures cells == old(cells) + [Cell(ffcStep, col)]
    {
      v := At(t, ffcStep, col, junk);
      cells := cells + [Cell(ffcStep, col)];
    }

    method ReadRow(t: seq<int>, junk: int) returns (v: int)
      modifies this`cells
      ensures v == Row(t, ffcStep, junk)
      ensures cells == old(cells) + [Cell(ffcStep, 0)]
    {
      v := Row(t, ffcStep, junk);
      cells := cells + [Cell(ffcStep, 0)];
    }

    method Quit()
      modifies this`status, this`ffcFvCount, this`ffcFccCount, this`ffcCharging
      ensures Value() == FfcSpec.Quit(old(Value()))
    {
      ffcCharging := false;
      ffcFccCount := 0;
      ffcFvCount := 0;
      status := FfcDefault;
    }

    /** oplus_chg_comm_switch_ffc */
    method SwitchFfc(x: Input) returns (rc: int)
      modifies this
      ensures Outcome(Value(), rc, casts, cells) == Switch(old(Value()), cfg, x)
    {
      casts, cells := [], [];
      ffcStep := 0;
      if !Chargeable(x.region) || x.usb || !x.wls {
        Quit();
        return -EINVAL;
      }
      if !x.hasIcl || !x.hasFcc || !x.hasFv || !x.hasOutDis {
        Quit();
        return -ENODEV;
      }
      var icl := ReadCell(cfg.icl, Col(x), x.junk);
      var fv := ReadRow(cfg.fv, x.junk);
      var fcc := ReadCell(cfg.fcc, Col(x), x.junk);
      casts := [CastIcl(icl), CastFv(fv), CastFcc(fcc)];
      ffcFccCount := 0;
      ffcFvCount := 0;
      ffcCharging := true;
      status := FfcFast;
      return 0;
    }

    /** oplus_chg_comm_check_ffc */
    method CheckFfc(x: Input) returns (rc: int)
      modifies this
      ensures Outcome(Value(), rc, casts, cells) == Check(old(Value()), cfg, x)
    {
      casts, cells := [], [];
      if status == FfcDefault {
        Quit();
        ffcStep := 0;
        return -EINVAL;
      }
      if x.gaugeRc < 0 {
        return x.gaugeRc;
      }
      match status
      case FfcFast => rc := CheckFast(x);
      case FfcIdle => rc := CheckIdle(x);
    }

    /** A changed region is remembered; it ends the session or has its limits voted. */
    method MeetRegion(x: Input) returns (stop: bool, rc: int)
      requires casts == [] && cells == []
      modifies this
      ensures var s := old(Value());
              var s1 := s.(preRegion := x.region);
              if RegionError(s, x).Some?
              then stop && Outcome(Value(), rc, casts, cells) == Outcome(FfcSpec.Quit(s1), RegionError(s, x).value, [], [])
              else !stop && Value() == s1 && casts == RegionCasts(s, cfg, x) && cells == RegionCells(s, x)
    {
      stop, rc := false, 0;
      if preFfcTempRegion == x.region {
        return;
      }
      preFfcTempRegion := x.region;
      if !Chargeable(x.region) {
        Quit();
        return true, x.gaugeRc;
      }
      if x.usb || !x.wls {
        Quit();
        return true, -EINVAL;
      }
      if !x.hasIcl || !x.hasFcc {
        Quit();
        return true, -ENODEV;
      }
      var icl := ReadCell(cfg.icl, Col(x), x.junk);
      var fcc := ReadCell(cfg.fcc, Col(x), x.junk);
      casts := [CastIcl(icl), CastFcc(fcc)];
    }

    /** The arm for FFC_FAST: react to a changed region, count, advance. */
    method CheckFast(x: Input) returns (rc: int)
      requires status == FfcFast && casts == [] && cells == []
      modifies this
      ensures Outcome(Value(), rc, casts, cells) == FfcSpec.CheckFast(old(Value()), cfg, x)
    {
      var stop;
      stop, rc := MeetRegion(x);
      if stop {
        return;
      }
      if x.usb || !x.wls {
        Quit();
        return -EINVAL;
      }
      var cutoffMv := ReadRow(cfg.fvCutoff, x.junk);
      var cutoffMa := ReadCell(cfg.fccCutoff, Col(x), x.junk);
      Count(x.vbat >= cutoffMv - x.decCv, Abs(x.ibat) < cutoffMa);
      rc := Conclude(x);
    }

    method Count(high: bool, low: bool)
      modifies this`ffcStep, this`ffcFvCount, this`ffcFccCount
      ensures Value() == Advance(old(Value()), high, low)
    {
      if high {
        ffcFvCount := ffcFvCount + 1;
      }
      if ffcFvCount > 5 {
        ffcStep := ffcStep + 1;
        ffcFvCount := 0;
      }
      if low {
        ffcFccCount := ffcFccCount + 1;
      } else {
        ffcFccCount := 0;
      }
      if ffcFccCount > 3 {
        ffcStep := ffcStep + 1;
        ffcFvCount := 0;
      }
    }

    method Conclude(x: Input) returns (rc: int)
      modifies this
      ensures var o := FfcSpec.Conclude(old(Value()), cfg, x);
              Value() == o.state && rc == o.rc && casts == old(casts) + o.casts && cells == old(cells) + o.cells
    {
      rc := 0;
      if ffcStep >= cfg.stepMax {
        if !x.hasOutDis {
          Quit();
          return -ENODEV;
        }
        casts := casts + [CastOutDis(true)];
        ffcFccCount := 0;
        ffcFvCount := 0;
        status := FfcIdle;
        if x.hasFv {
          casts := casts + [CastFv(x.vbatMax - x.decCv)];
        }
      } else {
        if !x.hasIcl || !x.hasFcc || !x.hasFv {
          Quit();
          return -ENODEV;
        }
        var icl := ReadCell(cfg.icl, Col(x), x.junk);
        var fv := ReadRow(cfg.fv, x.junk);
        var fcc := ReadCell(cfg.fcc, Col(x), x.junk);
        casts := casts + [CastIcl(icl), CastFv(fv - x.decCv), CastFcc(fcc)];
      }
    }

    /** The arm for FFC_IDLE: the seventh check ends the session. */
    method CheckIdle(x: Input) returns (rc: int)
      requires status == FfcIdle && casts == [] && cells == []
      modifies this
      ensures Outcome(Value(), rc, casts, cells) == FfcSpec.CheckIdle(old(Value()), x)
    {
      ffcFccCount := ffcFccCount + 1;
      if ffcFccCount <= 6 {
        return 0;
      }
      ffcCharging := false;
      ffcFccCount := 0;
      ffcFvCount := 0;
      if x.usb {
        Quit();
        return -EINVAL;
      }
      if x.wls {
        if !x.hasOutDis {
          Quit();
          return -ENODEV;
        }
        casts := casts + [CastOutDis(false)];
      }
      status := FfcDefault;
      return 1;
    }
  }
}
