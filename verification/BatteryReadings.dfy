/** Battery-full detection in terms of voltage, current, region and the configured limits. */
module BatteryReadings {
  import opened Kernel
  import opened BatteryFull

  // ---------- what a reading means ----------

  /** The detector is not switched off and no FFC session is on. */
  predicate Looks(cfg: Config, x: Input) {
    cfg.checkBySw && !x.ffcActive
  }

  /** A charger is there and the region is between the two that do not charge. */
  predicate CanBeFull(x: Input) {
    (x.usb || x.wls) && 1 <= x.region <= 7
  }

  /** 18 mV above the region's full voltage, less the CV reduction. */
  predicate AtHardwareLimit(cfg: Config, x: Input)
    requires ValidConfig(cfg) && ValidInput(x)
  {
    x.vbat + x.decCv >= cfg.vbatMax[x.region] + 18
  }

  /** Above the full voltage less its offset and the CV reduction. */
  predicate AboveSoftwareLimit(cfg: Config, x: Input)
    requires ValidConfig(cfg) && ValidInput(x)
  {
    x.vbat + x.decCv + cfg.fvOffset > cfg.vbatMax[x.region]
  }

  /** What still charges is within the termination current of the region. */
  predicate Tapering(cfg: Config, x: Input) {
    x.ibat < 0 && -x.ibat <= if x.region == 2 && cfg.littleColdIterm > 0 then cfg.littleColdIterm else cfg.swIterm
  }

  /** A reading that speaks for a full battery by software. */
  predicate LooksFull(cfg: Config, x: Input)
    requires ValidConfig(cfg) && ValidInput(x)
  {
    AboveSoftwareLimit(cfg, x) && (x.ibat >= 0 || Tapering(cfg, x))
  }

  predicate AllValid(cfg: Config, xs: seq<Input>) {
    ValidConfig(cfg) && forall i :: 0 <= i < |xs| ==> ValidInput(xs[i])
  }

  /** The evaluations made by a run of calls, for the counters. */
  function Verdicts(cfg: Config, xs: seq<Input>): (vs: seq<Verdict>)
    requires AllValid(cfg, xs)
    ensures |vs| == |xs|
    ensures forall i :: 0 <= i < |xs| ==> vs[i] == Judge(cfg, xs[i])
  {
    seq(|xs|, i requires 0 <= i < |xs| => Judge(cfg, xs[i]))
  }

  /** Does the last call of the run report a full battery? */
  predicate ReportsFull(cfg: Config, xs: seq<Input>)
    requires AllValid(cfg, xs)
  {
    Reported(cfg.fullCountSwNum, Verdicts(cfg, xs))
  }

  /** The state of the detector after the run. */
  function StateAfter(cfg: Config, xs: seq<Input>): BatteryFull.State
    requires AllValid(cfg, xs)
  {
    After(cfg.fullCountSwNum, Verdicts(cfg, xs))
  }

  // ---------- rows of readings ----------

  /** Readings at the hardware limit in a row; calls that do not look or cannot read the gauge do not break it. */
  function HardwareRow(cfg: Config, xs: seq<Input>): nat
    requires AllValid(cfg, xs)
  {
    if xs == [] then 0
    else
      var before, x := xs[..|xs| - 1], xs[|xs| - 1];
      if !Looks(cfg, x) then HardwareRow(cfg, before)
      else if !CanBeFull(x) then 0
      else if !x.gaugeOk then HardwareRow(cfg, before)
      else if AtHardwareLimit(cfg, x) then 1 + HardwareRow(cfg, before)
      else 0
  }

  /** The same for readings that speak for a full battery by software. */
  function SoftwareRow(cfg: Config, xs: seq<Input>): nat
    requires AllValid(cfg, xs)
  {
    if xs == [] then 0
    else
      var before, x := xs[..|xs| - 1], xs[|xs| - 1];
      if !Looks(cfg, x) then SoftwareRow(cfg, before)
      else if !CanBeFull(x) then 0
      else if !x.gaugeOk then SoftwareRow(cfg, before)
      else if LooksFull(cfg, x) then 1 + SoftwareRow(cfg, before)
      else 0
  }

  lemma VerdictsFront(cfg: Config, xs: seq<Input>)
    requires AllValid(cfg, xs) && xs != []
    ensures Verdicts(cfg, xs)[..|xs| - 1] == Verdicts(cfg, xs[..|xs| - 1])
    ensures Verdicts(cfg, xs)[|xs| - 1] == Judge(cfg, xs[|xs| - 1])
  {
  }

  lemma {:induction false} RowsAreReadings(cfg: Config, xs: seq<Input>)
    requires AllValid(cfg, xs)
    ensures HwRow(Verdicts(cfg, xs)) == HardwareRow(cfg, xs)
    ensures SwRow(Verdicts(cfg, xs)) == SoftwareRow(cfg, xs)
  {
    if xs == [] {
    } else {
      VerdictsFront(cfg, xs);
      RowsAreReadings(cfg, xs[..|xs| - 1]);
    }
  }

  /** A call that evaluates its reading. */
  predicate Evaluates(cfg: Config, x: Input) {
    Looks(cfg, x) && CanBeFull(x) && x.gaugeOk
  }

  /**
   Main result: the battery is reported full only by a call that evaluates its reading, and then either that reading
   completes three, six, ... in a row at the hardware limit, or at least as many in a row speak for it by software as the
   debounce asks.
   */
  lemma FullOnlyAfterReadings(cfg: Config, xs: seq<Input>)
    requires AllValid(cfg, xs) && ReportsFull(cfg, xs)
    ensures Evaluates(cfg, xs[|xs| - 1])
    ensures var hw, sw := HardwareRow(cfg, xs), SoftwareRow(cfg, xs);
            (hw > 0 && hw % 3 == 0) || sw >= Max(1, Min(5 * cfg.fullCountSwNum, 10) + 1)
  {
    VerdictsFront(cfg, xs);
    RowsAreReadings(cfg, xs);
    FullOnlyAfterRow(cfg.fullCountSwNum, Verdicts(cfg, xs));
  }

  /** Every third reading in a row at the hardware limit does report. */
  lemma ThirdReadingReports(cfg: Config, xs: seq<Input>)
    requires AllValid(cfg, xs) && xs != [] && Evaluates(cfg, xs[|xs| - 1])
    requires HardwareRow(cfg, xs) > 0 && HardwareRow(cfg, xs) % 3 == 0
    ensures ReportsFull(cfg, xs)
  {
    VerdictsFront(cfg, xs);
    RowsAreReadings(cfg, xs);
    EveryThirdHwReports(cfg.fullCountSwNum, Verdicts(cfg, xs));
  }

  // ---------- when the software debounce reports ----------

  /** A reading between the two limits that tapers, or does not charge any more. */
  predicate Steady(cfg: Config, x: Input, tapering: bool)
    requires ValidConfig(cfg) && ValidInput(x)
  {
    && Evaluates(cfg, x) && AboveSoftwareLimit(cfg, x) && !AtHardwareLimit(cfg, x)
    && if tapering then Tapering(cfg, x) else x.ibat >= 0
  }

  predicate Steadily(cfg: Config, xs: seq<Input>, tapering: bool)
    requires AllValid(cfg, xs)
  {
    forall i :: 0 <= i < |xs| ==> Steady(cfg, xs[i], tapering)
  }

  /** How many of them the debounce lets pass. */
  function Patience(cfg: Config, tapering: bool): int {
    if tapering then 5 * cfg.fullCountSwNum else 10
  }

  lemma SteadyVerdict(cfg: Config, x: Input, tapering: bool)
    requires ValidConfig(cfg) && ValidInput(x) && Steady(cfg, x, tapering)
    ensures Judge(cfg, x) == Counted(if tapering then Taper else NotDraining, false)
  {
  }

  /** Counting such readings from a detector at rest. */
  lemma {:induction false} SteadyCount(cfg: Config, xs: seq<Input>, more: seq<Input>, tapering: bool)
    requires AllValid(cfg, xs) && AllValid(cfg, more) && Steadily(cfg, more, tapering)
    requires StateAfter(cfg, xs).countSw == 0 && 0 <= |more| <= Patience(cfg, tapering) && cfg.fullCountSwNum >= 0
    ensures StateAfter(cfg, xs + more).countSw == |more|
    ensures more != [] ==> !ReportsFull(cfg, xs + more)
    decreases |more|
  {
    if more == [] {
      assert xs + more == xs;
    } else {
      var before, x := more[..|more| - 1], more[|more| - 1];
      SteadyCount(cfg, xs, before, tapering);
      SteadyLast(cfg, xs, more, tapering);
    }
  }

  /** One more reading of the kind, in terms of the detector's state. */
  lemma SteadyLast(cfg: Config, xs: seq<Input>, more: seq<Input>, tapering: bool)
    requires AllValid(cfg, xs) && AllValid(cfg, more) && Steadily(cfg, more, tapering) && more != []
    ensures var v := Counted(if tapering then Taper else NotDraining, false);
            var s := StateAfter(cfg, xs + more[..|more| - 1]);
            && StateAfter(cfg, xs + more) == Step(s, cfg.fullCountSwNum, v).0
            && ReportsFull(cfg, xs + more) == Step(s, cfg.fullCountSwNum, v).1
            && !s.retSw && !s.retHw
  {
    var all := xs + more;
    var before, x := more[..|more| - 1], more[|more| - 1];
    assert all[..|all| - 1] == xs + before && all[|all| - 1] == x;
    SteadyVerdict(cfg, x, tapering);
    VerdictsFront(cfg, all);
    CountersFollowRows(cfg.fullCountSwNum, Verdicts(cfg, xs + before));
  }

  /**
   Main result: from rest, readings above the software limit report for the first time with number 5 * num + 1 while the
   battery tapers, and with number 11 while it does not charge. The detector is then at rest again.
   */
  lemma SoftwareReportsExactly(cfg: Config, xs: seq<Input>, more: seq<Input>, tapering: bool)
    requires AllValid(cfg, xs) && AllValid(cfg, more) && Steadily(cfg, more, tapering)
    requires StateAfter(cfg, xs).countSw == 0 && cfg.fullCountSwNum >= 0
    requires 1 <= |more| <= Patience(cfg, tapering) + 1
    ensures ReportsFull(cfg, xs + more) <==> |more| == Patience(cfg, tapering) + 1
    ensures |more| == Patience(cfg, tapering) + 1 ==> StateAfter(cfg, xs + more).countSw == 0
  {
    if |more| <= Patience(cfg, tapering) {
      SteadyCount(cfg, xs, more, tapering);
    } else {
      SteadyCount(cfg, xs, more[..|more| - 1], tapering);
      SteadyLast(cfg, xs, more, tapering);
    }
  }

  /**
   From any point of any run, calls whose readings all speak for a full battery by software report at least once in
   max(5 * num, 10) + 1 of them.
   */
  lemma SoftwareReportsInTime(cfg: Config, xs: seq<Input>, more: seq<Input>) returns (k: nat)
    requires AllValid(cfg, xs) && AllValid(cfg, more)
    requires forall i :: 0 <= i < |more| ==> Evaluates(cfg, more[i]) && LooksFull(cfg, more[i])
    requires |more| > Max(5 * cfg.fullCountSwNum, 10)
    ensures 0 < k <= |more| && ReportsFull(cfg, xs + more[..k])
  {
    var num, vs, ws := cfg.fullCountSwNum, Verdicts(cfg, xs), Verdicts(cfg, more);
    assert forall i :: 0 <= i < |ws| ==> ws[i].Counted? && ws[i].sw != No;
    k := ReportIn(num, vs, ws);
    VerdictsAppend(cfg, xs, more, k);
  }

  lemma ReportIn(num: int, vs: seq<Verdict>, ws: seq<Verdict>) returns (k: nat)
    requires forall i :: 0 <= i < |ws| ==> ws[i].Counted? && ws[i].sw != No
    requires |ws| > Max(5 * num, 10)
    ensures 0 < k <= |ws| && Reported(num, vs + ws[..k])
  {
    if Silent(num, vs, ws) {
      SwReportsInTime(num, vs, ws);
      assert false;
    }
    k :| 0 < k <= |ws| && Reported(num, vs + ws[..k]);
  }

  lemma VerdictsAppend(cfg: Config, xs: seq<Input>, more: seq<Input>, k: nat)
    requires AllValid(cfg, xs) && AllValid(cfg, more) && k <= |more|
    ensures Verdicts(cfg, xs + more[..k]) == Verdicts(cfg, xs) + Verdicts(cfg, more)[..k]
  {
  }

  /** A detector is at rest after a reading that speaks against a full battery, and where it cannot be full. */
  lemma RestAfter(cfg: Config, xs: seq<Input>)
    requires AllValid(cfg, xs) && xs != []
    requires var x := xs[|xs| - 1];
             Looks(cfg, x) && (!CanBeFull(x) || (x.gaugeOk && !LooksFull(cfg, x)))
    ensures StateAfter(cfg, xs).countSw == 0
  {
    VerdictsFront(cfg, xs);
  }

  /** One call in place: a reading below the hardware limit leaves the hardware count at zero. */
  lemma BelowHardwareLimit(cfg: Config, s: BatteryFull.State, x: Input)
    requires ValidConfig(cfg) && ValidInput(x) && Evaluates(cfg, x)
    requires x.vbat + x.decCv < cfg.vbatMax[x.region] + 18
    ensures Step(s, cfg.fullCountSwNum, Judge(cfg, x)).0.countHw == 0
  {
  }
}
