/**
 The FFC machine in terms of what its checks read: exactly when a step is completed, when FFC_IDLE ends, which limits
 end a session, and what the two entry points return.
 */
module FfcReadings {
  import opened Kernel
  import opened FfcSpec
  import opened FfcTheorems

  /** The voltage, with the reduction added back, has reached the cutoff of the step. */
  predicate HighReading(cfg: Config, step: int, x: Input) {
    x.vbat + x.decCv >= Row(cfg.fvCutoff, step, x.junk)
  }

  /** The current, in whichever direction it flows, is below the cutoff of the step and the region. */
  predicate LowReading(cfg: Config, step: int, x: Input) {
    var cutoff := At(cfg.fccCutoff, step, x.region - 1, x.junk);
    -cutoff < x.ibat < cutoff
  }

  // ---------- what the checks of a session have read ----------

  /** How many checks with a working gauge, up to the last one, found the current low in a row. */
  function LowRow(s: State, cfg: Config, xs: seq<Input>): nat {
    if xs == [] then 0
    else
      var before, x := xs[..|xs| - 1], xs[|xs| - 1];
      if x.gaugeRc < 0 then LowRow(s, cfg, before)
      else if LowReading(cfg, Run(s, cfg, before).step, x) then 1 + LowRow(s, cfg, before)
      else 0
  }

  /** How many checks with a working gauge have found the voltage high since the step last changed. */
  function HighsAtStep(s: State, cfg: Config, xs: seq<Input>): nat {
    if xs == [] then 0
    else
      var before, x := xs[..|xs| - 1], xs[|xs| - 1];
      var step := Run(s, cfg, before).step;
      if Run(s, cfg, xs).step != step then 0
      else HighsAtStep(s, cfg, before) + if x.gaugeRc >= 0 && HighReading(cfg, step, x) then 1 else 0
  }

  lemma {:induction false} RunOneMore(s: State, cfg: Config, xs: seq<Input>, x: Input)
    ensures Run(s, cfg, xs + [x]) == Check(Run(s, cfg, xs), cfg, x).state
    decreases |xs|
  {
    if xs == [] {
      assert [] + [x] == [x] && [x][1..] == [];
    } else {
      assert (xs + [x])[1..] == xs[1..] + [x];
      RunOneMore(Check(s, cfg, xs[0]).state, cfg, xs[1..], x);
    }
  }

  /** One check with a working gauge that goes as far as the counters. */
  lemma CountersStep(s: State, cfg: Config, x: Input)
    requires Counts(s, x)
    ensures var s1 := Advance(s.(preRegion := x.region), IsHigh(s, cfg, x), IsLow(s, cfg, x));
            var highs := s.fvCount + if HighReading(cfg, s.step, x) then 1 else 0;
            var lows := if LowReading(cfg, s.step, x) then s.fccCount + 1 else 0;
            && s1.step == s.step + (if highs >= 6 then 1 else 0) + (if lows >= 4 then 1 else 0)
            && s1.fccCount == lows
            && s1.fvCount == (if s1.step != s.step then 0 else highs)
            && s1.status == s.status
  {
  }

  /** In FFC_FAST the two counters are what the checks have read. */
  lemma {:induction false} CountersFollowReadings(s: State, cfg: Config, xs: seq<Input>)
    requires s.status == FfcFast && s.fvCount == 0 && s.fccCount == 0 && Run(s, cfg, xs).status == FfcFast
    ensures Run(s, cfg, xs).fccCount == LowRow(s, cfg, xs) && Run(s, cfg, xs).fvCount == HighsAtStep(s, cfg, xs)
  {
    if xs == [] {
    } else {
      var before, x := xs[..|xs| - 1], xs[|xs| - 1];
      assert xs == before + [x];
      RunOneMore(s, cfg, before, x);
      var s1 := Run(s, cfg, before);
      StaysFast(s1, cfg, x);
      CountersFollowReadings(s, cfg, before);
      if x.gaugeRc >= 0 {
        CountersStep(s1, cfg, x);
      }
    }
  }

  lemma StaysFast(s: State, cfg: Config, x: Input)
    requires Check(s, cfg, x).state.status == FfcFast
    ensures s.status == FfcFast
    ensures x.gaugeRc >= 0 ==>
              && Counts(s, x)
              && Check(s, cfg, x).state == Advance(s.(preRegion := x.region), IsHigh(s, cfg, x), IsLow(s, cfg, x))
  {
  }

  /** Nothing keeps this check from reaching the end of its arm. */
  predicate Unhindered(x: Input) {
    x.gaugeRc >= 0 && Chargeable(x.region) && !x.usb && x.wls && x.hasIcl && x.hasFcc && x.hasFv && x.hasOutDis
  }

  /** How many steps the next check completes, by the readings of the session. */
  function Completed(s: State, cfg: Config, xs: seq<Input>, x: Input): nat {
    var step := Run(s, cfg, xs).step;
    (if HighsAtStep(s, cfg, xs) + (if HighReading(cfg, step, x) then 1 else 0) >= 6 then 1 else 0)
    + (if LowReading(cfg, step, x) && LowRow(s, cfg, xs) + 1 >= 4 then 1 else 0)
  }

  /**
   Main result: at any point of any session a check completes one step for the sixth high voltage since the step last
   changed, and one for the fourth or any later low current in a row; it completes none otherwise. The session goes
   on to FFC_IDLE exactly when that completes the last step.
   */
  lemma StepsExactly(s: State, cfg: Config, x0: Input, xs: seq<Input>, x: Input)
    requires SwitchError(x0) == 0 && Unhindered(x)
    requires Run(Switch(s, cfg, x0).state, cfg, xs).status == FfcFast
    ensures var s0 := Switch(s, cfg, x0).state;
            var s1, done := Run(s0, cfg, xs), Completed(s0, cfg, xs, x);
            var s2 := Run(s0, cfg, xs + [x]);
            && s2.step == s1.step + done
            && s2.status == (if s1.step + done >= cfg.stepMax then FfcIdle else FfcFast)
  {
    var s0 := Switch(s, cfg, x0).state;
    var s1 := Run(s0, cfg, xs);
    CountersFollowReadings(s0, cfg, xs);
    RunOneMore(s0, cfg, xs, x);
    CountersStep(s1, cfg, x);
    ConcludeStatus(Advance(s1.(preRegion := x.region), IsHigh(s1, cfg, x), IsLow(s1, cfg, x)), cfg, x);
  }

  lemma ConcludeStatus(s: State, cfg: Config, x: Input)
    requires Unhindered(x) && s.status == FfcFast
    ensures var s1 := Conclude(s, cfg, x).state;
            s1.step == s.step && s1.status == if s.step >= cfg.stepMax then FfcIdle else FfcFast
  {
  }

  /** A check that finds neither resets the row of low currents and changes nothing else but the region remembered. */
  lemma QuietCheck(s: State, cfg: Config, x: Input)
    requires s.status == FfcFast && s.step < cfg.stepMax && s.fvCount <= 5 && Unhindered(x)
    requires !HighReading(cfg, s.step, x) && !LowReading(cfg, s.step, x)
    ensures Check(s, cfg, x).state == s.(fccCount := 0, preRegion := x.region)
  {
  }

  // ---------- the tables ----------

  /** Tables of four steps for two regions, of which stepMax are used. */
  predicate Shaped(cfg: Config) {
    && 1 <= cfg.stepMax <= 4
    && |cfg.fv| == |cfg.fvCutoff| == |cfg.icl| == |cfg.fcc| == |cfg.fccCutoff| == 4
    && forall i :: 0 <= i < 4 ==> |cfg.icl[i]| == |cfg.fcc[i]| == |cfg.fccCutoff[i]| == 2
  }

  /** The column of a charging region. */
  function Column(region: nat): nat {
    if region == FFC_TEMP_PRE_NORMAL then 0 else 1
  }

  /** In a charging region the readings are compared with the entries of the step and the region. */
  lemma ReadingsUseEntries(cfg: Config, step: nat, x: Input)
    requires Shaped(cfg) && step < 4 && Chargeable(x.region)
    ensures HighReading(cfg, step, x) <==> x.vbat + x.decCv >= cfg.fvCutoff[step]
    ensures LowReading(cfg, step, x) <==> Abs(x.ibat) < cfg.fccCutoff[step][Column(x.region)]
  {
  }

  /** A session that starts on a good region stays on good regions while it is in FFC_FAST. */
  lemma {:induction false} FastIsInTables(s: State, cfg: Config, x: Input, xs: seq<Input>)
    requires Counting(s, cfg) && Remembers(s) && Chargeable(x.region) && Run(s, cfg, xs).status == FfcFast
    ensures 0 <= Run(s, cfg, xs).step < cfg.stepMax && Chargeable(LastSeen(x, xs).region)
    decreases |xs|
  {
    if xs == [] {
    } else {
      var y := xs[0];
      StillFast(s, cfg, y, xs[1..]);
      CountingStep(s, cfg, y);
      CellsInTables(s, cfg, y);
      FastIsInTables(Check(s, cfg, y).state, cfg, if y.gaugeRc >= 0 then y else x, xs[1..]);
    }
  }

  /** Main result: in FFC_FAST the limits in force are entries of the configured tables, the voltage less the reduction. */
  lemma LimitsAreEntries(s: State, cfg: Config, x: Input, l: Limits, xs: seq<Input>)
    requires Shaped(cfg) && SwitchError(x) == 0 && Chargeable(s.preRegion)
    requires Run(Switch(s, cfg, x).state, cfg, xs).status == FfcFast
    ensures var o := Switch(s, cfg, x);
            var l1, step := RunLimits(LimitsAfter(l, o.casts), o.state, cfg, xs), Run(o.state, cfg, xs).step;
            var col := Column(LastSeen(x, xs).region);
            && 0 <= step < cfg.stepMax
            && l1.icl == cfg.icl[step][col] && l1.fcc == cfg.fcc[step][col]
            && l1.fv == cfg.fv[step] - LastReduction(0, xs)
  {
    SwitchCounting(s, cfg, x);
    SessionLimits(s, cfg, x, l, xs);
    FastIsInTables(Switch(s, cfg, x).state, cfg, x, xs);
  }

  // ---------- FFC_IDLE ----------

  /** FFC_IDLE ends with the seventh check that can read the gauge, and not before. */
  lemma {:induction false} IdleEndsOnSeventh(s: State, cfg: Config, xs: seq<Input>)
    requires s.status == FfcIdle && 0 <= s.fccCount <= 6
    requires forall i :: 0 <= i < |xs| ==> xs[i].gaugeRc >= 0
    ensures Run(s, cfg, xs).status == FfcIdle <==> s.fccCount + |xs| <= 6
    decreases |xs|
  {
    if xs == [] {
    } else if s.fccCount < 6 {
      IdleEndsOnSeventh(Check(s, cfg, xs[0]).state, cfg, xs[1..]);
    } else {
      StaysOut(Check(s, cfg, xs[0]).state, cfg, xs[1..]);
    }
  }

  /** A check does not start a session. */
  lemma {:induction false} StaysOut(s: State, cfg: Config, xs: seq<Input>)
    requires s.status == FfcDefault
    ensures Run(s, cfg, xs).status == FfcDefault
    decreases |xs|
  {
    if xs == [] {
    } else {
      StaysOut(Check(s, cfg, xs[0]).state, cfg, xs[1..]);
    }
  }

  /** On the way to FFC_IDLE the float voltage goes back to that of the region, less the CV reduction. */
  lemma IdleLimits(s: State, cfg: Config, x: Input, l: Limits)
    requires s.status == FfcFast && Check(s, cfg, x).state.status == FfcIdle
    ensures var l1 := LimitsAfter(l, Check(s, cfg, x).casts);
            && l1.fv == (if x.hasFv then x.vbatMax - x.decCv else l.fv)
            && (s.preRegion == x.region ==> l1.icl == l.icl && l1.fcc == l.fcc)
            && (s.preRegion != x.region ==>
                  l1.icl == At(cfg.icl, s.step, Col(x), x.junk) && l1.fcc == At(cfg.fcc, s.step, Col(x), x.junk))
    ensures Check(s, cfg, x).state.fccCount == 0
  {
    var region := RegionCasts(s, cfg, x);
    var s1 := Advance(s.(preRegion := x.region), IsHigh(s, cfg, x), IsLow(s, cfg, x));
    ConcludesToIdle(s1, cfg, x, LimitsAfter(l, region));
    LimitsAppend(l, region, Conclude(s1, cfg, x).casts);
    if s.preRegion != x.region {
      RevotedLimits(l, At(cfg.icl, s.step, Col(x), x.junk), At(cfg.fcc, s.step, Col(x), x.junk));
    }
  }

  lemma RevotedLimits(l: Limits, icl: int, fcc: int)
    ensures LimitsAfter(l, [CastIcl(icl), CastFcc(fcc)]) == l.(icl := icl, fcc := fcc)
  {
    assert [CastIcl(icl), CastFcc(fcc)][1..] == [CastFcc(fcc)] && [CastFcc(fcc)][1..] == [];
    assert LimitsAfter(l.(icl := icl), [CastFcc(fcc)]) == l.(icl := icl, fcc := fcc);
  }

  lemma ConcludesToIdle(s: State, cfg: Config, x: Input, l: Limits)
    requires Conclude(s, cfg, x).state.status == FfcIdle && s.status == FfcFast
    ensures LimitsAfter(l, Conclude(s, cfg, x).casts) == if x.hasFv then l.(fv := x.vbatMax - x.decCv) else l
    ensures Conclude(s, cfg, x).state.fccCount == 0
  {
    var rest := if x.hasFv then [CastFv(x.vbatMax - x.decCv)] else [];
    LimitsAppend(l, [CastOutDis(true)], rest);
    assert [CastOutDis(true)][1..] == [];
    if x.hasFv {
      assert rest[1..] == [];
    }
  }

  // ---------- what a call reads ----------

  /** Two configurations have the same entries at a cell; a table of one column has them in column 0. */
  predicate AgreeAt(a: Config, b: Config, cell: Cell, junk: int) {
    && At(a.icl, cell.row, cell.col, junk) == At(b.icl, cell.row, cell.col, junk)
    && At(a.fcc, cell.row, cell.col, junk) == At(b.fcc, cell.row, cell.col, junk)
    && At(a.fccCutoff, cell.row, cell.col, junk) == At(b.fccCutoff, cell.row, cell.col, junk)
    && (cell.col == 0 ==>
          && Row(a.fv, cell.row, junk) == Row(b.fv, cell.row, junk)
          && Row(a.fvCutoff, cell.row, junk) == Row(b.fvCutoff, cell.row, junk))
  }

  predicate AgreeOn(a: Config, b: Config, cells: seq<Cell>, junk: int) {
    a.stepMax == b.stepMax && forall i :: 0 <= i < |cells| ==> AgreeAt(a, b, cells[i], junk)
  }

  lemma AgreeOnParts(a: Config, b: Config, some: seq<Cell>, more: seq<Cell>, junk: int)
    requires AgreeOn(a, b, some + more, junk)
    ensures AgreeOn(a, b, some, junk) && AgreeOn(a, b, more, junk)
  {
    forall i | 0 <= i < |some| ensures AgreeAt(a, b, some[i], junk) {
      assert (some + more)[i] == some[i];
    }
    forall i | 0 <= i < |more| ensures AgreeAt(a, b, more[i], junk) {
      assert (some + more)[|some| + i] == more[i];
    }
  }

  lemma ConcludeReads(s: State, a: Config, b: Config, x: Input)
    requires AgreeOn(a, b, Conclude(s, a, x).cells, x.junk)
    ensures Conclude(s, a, x) == Conclude(s, b, x)
  {
    var o := Conclude(s, a, x);
    if o.cells != [] {
      assert AgreeAt(a, b, o.cells[0], x.junk) && AgreeAt(a, b, o.cells[1], x.junk);
    }
  }

  lemma FastReads(s: State, a: Config, b: Config, x: Input)
    requires Counts(s, x) && AgreeOn(a, b, Check(s, a, x).cells, x.junk)
    ensures Check(s, a, x) == Check(s, b, x)
  {
    var region, cutoffs := RegionCells(s, x), [Cell(s.step, 0), Cell(s.step, Col(x))];
    var s1 := Advance(s.(preRegion := x.region), IsHigh(s, a, x), IsLow(s, a, x));
    AgreeOnParts(a, b, region + cutoffs, Conclude(s1, a, x).cells, x.junk);
    AgreeOnParts(a, b, region, cutoffs, x.junk);
    assert AgreeAt(a, b, cutoffs[0], x.junk) && AgreeAt(a, b, cutoffs[1], x.junk);
    ConcludeReads(s1, a, b, x);
  }

  /**
   Main result: the table accesses recorded for a call are all there are. Whatever the tables hold elsewhere, the call has
   the same outcome; and each vote of a session that goes on reads one entry, besides the two cutoffs of a check.
   */
  lemma RecordedReadsDecide(s: State, a: Config, b: Config, x: Input)
    ensures AgreeOn(a, b, Switch(s, a, x).cells, x.junk) ==> Switch(s, a, x) == Switch(s, b, x)
    ensures AgreeOn(a, b, Check(s, a, x).cells, x.junk) ==> Check(s, a, x) == Check(s, b, x)
    ensures |Switch(s, a, x).cells| == |Switch(s, a, x).casts|
    ensures var o := Check(s, a, x);
            && (Counts(s, x) && o.state.status == FfcFast ==> |o.cells| == |o.casts| + 2)
            && (!Counts(s, x) ==> o.cells == [])
  {
    var o := Switch(s, a, x);
    if AgreeOn(a, b, o.cells, x.junk) && o.cells != [] {
      assert AgreeAt(a, b, o.cells[0], x.junk) && AgreeAt(a, b, o.cells[1], x.junk);
    }
    if Counts(s, x) && AgreeOn(a, b, Check(s, a, x).cells, x.junk) {
      FastReads(s, a, b, x);
    }
  }

  // ---------- return codes ----------

  /** A session starts, with all its counters at zero, exactly where it can; the code says what is missing. */
  lemma SwitchCodes(s: State, cfg: Config, x: Input)
    ensures var o := Switch(s, cfg, x);
            var place := Chargeable(x.region) && !x.usb && x.wls;
            var votables := x.hasIcl && x.hasFcc && x.hasFv && x.hasOutDis;
            && o.rc == (if !place then -EINVAL else if !votables then -ENODEV else 0)
            && o.state.status == (if place && votables then FfcFast else FfcDefault)
            && o.state.step == 0 && o.state.fvCount == 0 && o.state.fccCount == 0
            && o.state.preRegion == s.preRegion
            && (o.rc != 0 ==> o.casts == [])
  {
  }

  /**
   What a check returns: -EINVAL outside a session, the gauge's error with nothing changed, 1 for a session that has
   ended well, and otherwise an error exactly if it ends the session, except that a region that cannot charge ends
   it with the gauge's own code.
   */
  lemma CheckCodes(s: State, cfg: Config, x: Input)
    ensures var o := Check(s, cfg, x);
            && (s.status == FfcDefault ==>
                  o.rc == -EINVAL && o.state == s.(charging := false, fccCount := 0, fvCount := 0, step := 0))
            && (s.status != FfcDefault && x.gaugeRc < 0 ==> o.rc == x.gaugeRc && o.state == s && o.casts == [])
            && (s.status != FfcDefault && x.gaugeRc >= 0 ==>
                  var barred := s.status == FfcFast && s.preRegion != x.region && !Chargeable(x.region);
                  && (o.rc == 1 <==> (s.status == FfcIdle && s.fccCount >= 6 && !x.usb && (x.wls ==> x.hasOutDis))
                                     || (barred && x.gaugeRc == 1))
                  && (barred ==> o.rc == x.gaugeRc && o.state.status == FfcDefault && o.casts == [])
                  && (!barred && o.rc != 1 ==> (o.rc < 0 <==> o.state.status == FfcDefault)))
            && (o.rc == -EINVAL && s.status != FfcDefault && x.gaugeRc >= 0 ==> x.usb || !x.wls)
            && (o.rc == -ENODEV && s.status != FfcDefault && x.gaugeRc >= 0 ==>
                  !x.usb && x.wls && !(x.hasIcl && x.hasFcc && x.hasFv && x.hasOutDis))
  {
  }

  /** How many steps a check completes, by its reading and the counters so far. */
  function StepsDone(s: State, cfg: Config, x: Input): nat {
    (if s.fvCount + (if HighReading(cfg, s.step, x) then 1 else 0) >= 6 then 1 else 0)
    + (if LowReading(cfg, s.step, x) && s.fccCount >= 3 then 1 else 0)
  }

  /**
   What a fast check in a charging region needs: wireless alone; the two current votables if the region has changed; and at
   the end the output votable if the last step is completed, or all three limit votables if not. It ends the session if
   one is missing, and says so.
   */
  lemma FastCheckNeeds(s: State, cfg: Config, x: Input)
    requires s.status == FfcFast && x.gaugeRc >= 0 && Chargeable(x.region)
    ensures var o := Check(s, cfg, x);
            var place := !x.usb && x.wls;
            var changed := s.preRegion != x.region;
            var last := s.step + StepsDone(s, cfg, x) >= cfg.stepMax;
            var votables := (changed ==> x.hasIcl && x.hasFcc)
                            && (if last then x.hasOutDis else x.hasIcl && x.hasFcc && x.hasFv);
            && o.rc == (if !place then -EINVAL else if !votables then -ENODEV else 0)
            && o.state.status == (if !place || !votables then FfcDefault else if last then FfcIdle else FfcFast)
            && (changed && (!place || !x.hasIcl || !x.hasFcc) ==> o.casts == [])
  {
    if Counts(s, x) {
      CountersStep(s, cfg, x);
    }
  }
}
