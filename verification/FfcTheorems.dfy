/** What an FFC session guarantees: it ends, it reads only its tables, and its flags agree. */
module FfcTheorems {
  import opened FfcSpec

  // ---------- the session invariant ----------

  /** The counters of a session under way. */
  predicate Counting(s: State, cfg: Config) {
    match s.status
    case FfcDefault => true
    case FfcFast => 0 <= s.step < cfg.stepMax && 0 <= s.fvCount <= 5 && 0 <= s.fccCount <= s.step + 3
    case FfcIdle => 0 <= s.fccCount <= 6
  }

  lemma CountingStep(s: State, cfg: Config, x: Input)
    requires Counting(s, cfg)
    ensures Counting(Check(s, cfg, x).state, cfg)
  {
  }

  lemma SwitchCounting(s: State, cfg: Config, x: Input)
    requires cfg.stepMax >= 1
    ensures Counting(Switch(s, cfg, x).state, cfg)
  {
  }

  /** Does this check get as far as the two counters? */
  predicate Counts(s: State, x: Input) {
    s.status == FfcFast && x.gaugeRc >= 0 && RegionError(s, x).None? && !x.usb && x.wls
  }

  // ---------- a session ends ----------

  function Progress(s: State): int {
    6 * s.step + s.fvCount
  }

  /** While the session stays in FFC_FAST its progress never falls, and every high voltage raises it. */
  lemma ProgressRises(s: State, cfg: Config, x: Input)
    requires Counting(s, cfg) && s.status == FfcFast
    ensures var s1 := Check(s, cfg, x).state;
            s1.status == FfcFast ==>
              && Progress(s1) >= Progress(s)
              && (x.gaugeRc >= 0 && IsHigh(s, cfg, x) ==> Progress(s1) > Progress(s))
  {
  }

  /** The checks of a run that count a high voltage. */
  function HighChecks(s: State, cfg: Config, xs: seq<Input>): nat
    decreases |xs|
  {
    if xs == [] then 0
    else
      (if Counts(s, xs[0]) && IsHigh(s, cfg, xs[0]) then 1 else 0)
      + HighChecks(Check(s, cfg, xs[0]).state, cfg, xs[1..])
  }

  /** A session over, or in FFC_IDLE, never returns to FFC_FAST by itself. */
  lemma {:induction false} NoWayBack(s: State, cfg: Config, xs: seq<Input>)
    requires s.status != FfcFast
    ensures Run(s, cfg, xs).status != FfcFast && HighChecks(s, cfg, xs) == 0
    decreases |xs|
  {
    if xs == [] {
    } else {
      NoWayBack(Check(s, cfg, xs[0]).state, cfg, xs[1..]);
    }
  }

  /** Main result: a session counts at most 6 * stepMax checks with the voltage at or above cutoff. */
  lemma {:induction false} HighChecksBounded(s: State, cfg: Config, xs: seq<Input>)
    requires Counting(s, cfg)
    ensures s.status == FfcFast ==> HighChecks(s, cfg, xs) <= 6 * cfg.stepMax - Progress(s)
    decreases |xs|
  {
    if xs == [] || s.status != FfcFast {
    } else {
      var s1 := Check(s, cfg, xs[0]).state;
      CountingStep(s, cfg, xs[0]);
      if s1.status == FfcFast {
        ProgressRises(s, cfg, xs[0]);
        HighChecksBounded(s1, cfg, xs[1..]);
      } else {
        NoWayBack(s1, cfg, xs[1..]);
      }
    }
  }

  /** All checks of the run start in FFC_FAST, read the gauge and find the current low. */
  predicate AllLow(s: State, cfg: Config, xs: seq<Input>)
    decreases |xs|
  {
    xs == [] ||
    (s.status == FfcFast && xs[0].gaugeRc >= 0 && IsLow(s, cfg, xs[0]) && AllLow(Check(s, cfg, xs[0]).state, cfg, xs[1..]))
  }

  /** Main result: at most stepMax + 3 checks of a session in a row can find the current low. */
  lemma {:induction false} LowStreakBounded(s: State, cfg: Config, xs: seq<Input>)
    requires Counting(s, cfg) && AllLow(s, cfg, xs)
    ensures s.status == FfcFast ==> |xs| <= cfg.stepMax + 3 - s.fccCount
    decreases |xs|
  {
    if xs == [] {
    } else {
      CountingStep(s, cfg, xs[0]);
      LowStreakBounded(Check(s, cfg, xs[0]).state, cfg, xs[1..]);
    }
  }

  predicate AllIdle(s: State, cfg: Config, xs: seq<Input>)
    decreases |xs|
  {
    xs == [] || (s.status == FfcIdle && xs[0].gaugeRc >= 0 && AllIdle(Check(s, cfg, xs[0]).state, cfg, xs[1..]))
  }

  /** At most seven checks that can read the gauge start in FFC_IDLE. */
  lemma {:induction false} IdleBounded(s: State, cfg: Config, xs: seq<Input>)
    requires Counting(s, cfg) && AllIdle(s, cfg, xs)
    ensures s.status == FfcIdle ==> |xs| <= 7 - s.fccCount
    decreases |xs|
  {
    if xs == [] {
    } else {
      CountingStep(s, cfg, xs[0]);
      IdleBounded(Check(s, cfg, xs[0]).state, cfg, xs[1..]);
    }
  }

  /** Every check starts inside the session and reads the gauge, and in FFC_FAST finds a high voltage or a low current. */
  predicate AllProductive(s: State, cfg: Config, xs: seq<Input>)
    decreases |xs|
  {
    xs == [] ||
    (&& s.status != FfcDefault
     && xs[0].gaugeRc >= 0
     && (s.status == FfcFast ==> IsHigh(s, cfg, xs[0]) || IsLow(s, cfg, xs[0]))
     && AllProductive(Check(s, cfg, xs[0]).state, cfg, xs[1..]))
  }

  /** What is left of a session: for each count of progress the longest low streak, then the idle checks. */
  function Budget(s: State, cfg: Config): int {
    match s.status
    case FfcFast => FastBudget(6 * cfg.stepMax - Progress(s), cfg.stepMax + 4, s.fccCount)
    case FfcIdle => 7 - s.fccCount
    case FfcDefault => 0
  }

  function FastBudget(left: int, streak: int, low: int): int {
    left * streak - low + 7
  }

  lemma MulAtLeast(a: int, c: int)
    requires 1 <= a && 0 <= c
    ensures a * c >= c
  {
  }

  lemma MulSplit(a: int, b: int, c: int)
    ensures a * c == b * c + (a - b) * c
  {
  }

  lemma FastBudgetPositive(left: int, streak: int, low: int)
    requires 1 <= left && 0 <= low < streak
    ensures 7 < FastBudget(left, streak, low)
  {
    MulAtLeast(left, streak);
  }

  lemma FastBudgetFalls(left: int, left1: int, streak: int, low: int, low1: int)
    requires 1 <= left1 <= left && 0 <= low < streak && 0 <= low1 < streak
    requires left1 == left ==> low1 == low + 1
    ensures 7 < FastBudget(left1, streak, low1) < FastBudget(left, streak, low)
  {
    FastBudgetPositive(left1, streak, low1);
    if left1 < left {
      MulAtLeast(left - left1, streak);
      MulSplit(left, left1, streak);
    }
  }

  lemma BudgetFalls(s: State, cfg: Config, x: Input)
    requires Counting(s, cfg) && s.status != FfcDefault && x.gaugeRc >= 0
    requires s.status == FfcFast ==> IsHigh(s, cfg, x) || IsLow(s, cfg, x)
    ensures 0 <= Budget(Check(s, cfg, x).state, cfg) < Budget(s, cfg)
  {
    var s1 := Check(s, cfg, x).state;
    CountingStep(s, cfg, x);
    if s.status == FfcFast {
      var left, left1, streak := 6 * cfg.stepMax - Progress(s), 6 * cfg.stepMax - Progress(s1), cfg.stepMax + 4;
      FastBudgetPositive(left, streak, s.fccCount);
      if s1.status == FfcFast {
        ProgressRises(s, cfg, x);
        if left1 == left {
          SameProgressMeansLow(s, cfg, x);
        }
        FastBudgetFalls(left, left1, streak, s.fccCount, s1.fccCount);
      }
    }
  }

  lemma SameProgressMeansLow(s: State, cfg: Config, x: Input)
    requires Counting(s, cfg) && s.status == FfcFast && Check(s, cfg, x).state.status == FfcFast && x.gaugeRc >= 0
    requires Progress(Check(s, cfg, x).state) == Progress(s)
    requires IsHigh(s, cfg, x) || IsLow(s, cfg, x)
    ensures Check(s, cfg, x).state.fccCount == s.fccCount + 1
  {
  }

  /** Main result: a session in which every check is productive is over after 6 * stepMax * (stepMax + 4) + 7 checks. */
  lemma {:induction false} ProductiveSessionEnds(s: State, cfg: Config, xs: seq<Input>)
    requires Counting(s, cfg) && AllProductive(s, cfg, xs)
    ensures |xs| <= Budget(s, cfg) || xs == []
    decreases |xs|
  {
    if xs == [] {
    } else {
      BudgetFalls(s, cfg, xs[0]);
      CountingStep(s, cfg, xs[0]);
      ProductiveSessionEnds(Check(s, cfg, xs[0]).state, cfg, xs[1..]);
    }
  }

  // ---------- table accesses ----------

  ghost predicate InTables(cells: seq<Cell>, cfg: Config) {
    forall i :: 0 <= i < |cells| ==> 0 <= cells[i].row < cfg.stepMax && 0 <= cells[i].col <= 1
  }

  /** Every access of every check of the run is inside the tables. */
  ghost predicate AllInTables(s: State, cfg: Config, xs: seq<Input>)
    decreases |xs|
  {
    xs == [] || (InTables(Check(s, cfg, xs[0]).cells, cfg) && AllInTables(Check(s, cfg, xs[0]).state, cfg, xs[1..]))
  }

  /** In FFC_FAST the remembered region is one that charges. */
  predicate Remembers(s: State) {
    s.status == FfcFast ==> Chargeable(s.preRegion)
  }

  lemma CellsInTables(s: State, cfg: Config, x: Input)
    requires Counting(s, cfg) && Remembers(s)
    ensures InTables(Check(s, cfg, x).cells, cfg) && Remembers(Check(s, cfg, x).state)
  {
    if s.status == FfcFast && x.gaugeRc >= 0 && RegionError(s, x).None? {
      assert Chargeable(x.region);
      var cells, cutoffs := RegionCells(s, x), [Cell(s.step, 0), Cell(s.step, Col(x))];
      assert InTables(cells, cfg) && InTables(cutoffs, cfg);
      if !x.usb && x.wls {
        var s1 := Advance(s.(preRegion := x.region), IsHigh(s, cfg, x), IsLow(s, cfg, x));
        ConcludeInTables(s1, cfg, x);
        AppendInTables(cells, cutoffs, cfg);
        AppendInTables(cells + cutoffs, Conclude(s1, cfg, x).cells, cfg);
      }
    }
  }

  lemma AppendInTables(a: seq<Cell>, b: seq<Cell>, cfg: Config)
    requires InTables(a, cfg) && InTables(b, cfg)
    ensures InTables(a + b, cfg)
  {
  }

  lemma ConcludeInTables(s: State, cfg: Config, x: Input)
    requires 0 <= s.step && Chargeable(x.region)
    ensures InTables(Conclude(s, cfg, x).cells, cfg)
  {
  }

  lemma {:induction false} RunInTables(s: State, cfg: Config, xs: seq<Input>)
    requires Counting(s, cfg) && Remembers(s)
    ensures AllInTables(s, cfg, xs)
    decreases |xs|
  {
    if xs == [] {
    } else {
      CellsInTables(s, cfg, xs[0]);
      CountingStep(s, cfg, xs[0]);
      RunInTables(Check(s, cfg, xs[0]).state, cfg, xs[1..]);
    }
  }

  /**
   Main result: a session reads only rows below stepMax and columns 0 and 1, whatever its checks see,
   if and only if the region remembered from earlier sessions is PRE_NORMAL or NORMAL when it starts.
   An earlier session that ended on COOL or WARM leaves that region behind, and a first check in the
   same region then passes for unchanged and indexes column -1 or 2.
   */
  lemma TableSafetyIff(s: State, cfg: Config, x: Input)
    requires 1 <= cfg.stepMax <= FFC_CHG_STEP_MAX
    requires SwitchError(x) == 0
    ensures InTables(Switch(s, cfg, x).cells, cfg)
    ensures (forall xs :: AllInTables(Switch(s, cfg, x).state, cfg, xs)) <==> Chargeable(s.preRegion)
  {
    var s0 := Switch(s, cfg, x).state;
    SwitchCounting(s, cfg, x);
    if Chargeable(s.preRegion) {
      forall xs ensures AllInTables(s0, cfg, xs) {
        RunInTables(s0, cfg, xs);
      }
    } else {
      StaleRegionEscapes(s, cfg, x);
    }
  }

  lemma StaleRegionEscapes(s: State, cfg: Config, x: Input)
    requires 1 <= cfg.stepMax && SwitchError(x) == 0 && !Chargeable(s.preRegion)
    ensures !AllInTables(Switch(s, cfg, x).state, cfg, [x.(region := s.preRegion, gaugeRc := 0)])
  {
    var s0, bad := Switch(s, cfg, x).state, x.(region := s.preRegion, gaugeRc := 0);
    assert Check(s0, cfg, bad).cells[1] == Cell(0, s.preRegion - 1);
    assert !InTables(Check(s0, cfg, bad).cells, cfg);
  }

  /** A session that ends on COOL or WARM is what spoils the next one. */
  lemma ErrorExitRemembers(s: State, cfg: Config, x: Input)
    requires s.status == FfcFast && Remembers(s)
    ensures Chargeable(Check(s, cfg, x).state.preRegion) <==> x.gaugeRc < 0 || Chargeable(x.region)
  {
  }

  // ---------- flags ----------

  predicate FlagsAgree(s: State) {
    s.charging <==> s.status != FfcDefault
  }

  lemma FlagsAgreeStep(s: State, cfg: Config, c: Call)
    requires FlagsAgree(s)
    ensures FlagsAgree(Do(s, cfg, c).state)
  {
  }

  /**
   Main result: over any run of switches and checks the charging flag says at every call boundary whether a
   session is on, and the counters of a session are in their ranges.
   */
  lemma {:induction false} CallsKeepFlagsAndCounters(s: State, cfg: Config, calls: seq<Call>)
    requires cfg.stepMax >= 1 && FlagsAgree(s) && Counting(s, cfg)
    ensures FlagsAgree(RunCalls(s, cfg, calls)) && Counting(RunCalls(s, cfg, calls), cfg)
    decreases |calls|
  {
    if calls == [] {
    } else {
      FlagsAgreeStep(s, cfg, calls[0]);
      match calls[0] {
        case DoSwitch(x) => SwitchCounting(s, cfg, x);
        case DoCheck(x) => CountingStep(s, cfg, x);
      }
      CallsKeepFlagsAndCounters(Do(s, cfg, calls[0]).state, cfg, calls[1..]);
    }
  }

  // ---------- the limits in force ----------

  /** USER_VOTER's votes on the current limits and the float voltage. */
  datatype Limits = Limits(icl: int, fcc: int, fv: int)

  /** The limits after some casts: the last one of each kind. */
  function LimitsAfter(l: Limits, casts: seq<Cast>): Limits
    decreases |casts|
  {
    if casts == [] then l else LimitsAfter(Limit(l, casts[0]), casts[1..])
  }

  function Limit(l: Limits, c: Cast): Limits {
    match c
    case CastIcl(ma) => l.(icl := ma)
    case CastFcc(ma) => l.(fcc := ma)
    case CastFv(mv) => l.(fv := mv)
    case CastOutDis(_) => l
  }

  lemma {:induction false} LimitsAppend(l: Limits, a: seq<Cast>, b: seq<Cast>)
    ensures LimitsAfter(l, a + b) == LimitsAfter(LimitsAfter(l, a), b)
    decreases |a|
  {
    if a == [] {
      assert a + b == b;
    } else {
      assert (a + b)[1..] == a[1..] + b;
      LimitsAppend(Limit(l, a[0]), a[1..], b);
    }
  }

  lemma LimitsOfStep(l: Limits, icl: int, fv: int, fcc: int)
    ensures LimitsAfter(l, [CastIcl(icl), CastFv(fv), CastFcc(fcc)]) == Limits(icl, fcc, fv)
  {
    var casts := [CastIcl(icl), CastFv(fv), CastFcc(fcc)];
    assert casts[1..] == [CastFv(fv), CastFcc(fcc)] && casts[1..][1..] == [CastFcc(fcc)];
    assert LimitsAfter(l.(icl := icl, fv := fv), [CastFcc(fcc)]) == Limits(icl, fcc, fv);
  }

  /** The votes for one step, with the float voltage reduced by `reduction`. */
  function StepLimits(cfg: Config, step: int, x: Input, reduction: int): Limits {
    Limits(At(cfg.icl, step, Col(x), x.junk), At(cfg.fcc, step, Col(x), x.junk), Row(cfg.fv, step, x.junk) - reduction)
  }

  function StepCasts(step: int, cfg: Config, x: Input): seq<Cast> {
    [CastIcl(At(cfg.icl, step, Col(x), x.junk)), CastFv(Row(cfg.fv, step, x.junk) - x.decCv),
     CastFcc(At(cfg.fcc, step, Col(x), x.junk))]
  }

  lemma StayingVotesLimits(s: State, cfg: Config, x: Input)
    requires x.gaugeRc >= 0 && Check(s, cfg, x).state.status == FfcFast
    ensures Check(s, cfg, x).casts == RegionCasts(s, cfg, x) + StepCasts(Check(s, cfg, x).state.step, cfg, x)
  {
    var s1 := Advance(s.(preRegion := x.region), IsHigh(s, cfg, x), IsLow(s, cfg, x));
    assert Conclude(s1, cfg, x).state.status == FfcFast ==> Conclude(s1, cfg, x).casts == StepCasts(s1.step, cfg, x);
  }

  /** One check that stays in FFC_FAST, whatever was in force before it. */
  lemma LimitsFollowStep(s: State, cfg: Config, x: Input, l: Limits)
    requires x.gaugeRc >= 0 && Check(s, cfg, x).state.status == FfcFast
    ensures var o := Check(s, cfg, x); LimitsAfter(l, o.casts) == StepLimits(cfg, o.state.step, x, x.decCv)
  {
    var step, region := Check(s, cfg, x).state.step, RegionCasts(s, cfg, x);
    StayingVotesLimits(s, cfg, x);
    LimitsAppend(l, region, StepCasts(step, cfg, x));
    LimitsOfStep(LimitsAfter(l, region), At(cfg.icl, step, Col(x), x.junk), Row(cfg.fv, step, x.junk) - x.decCv,
                 At(cfg.fcc, step, Col(x), x.junk));
  }

  lemma LimitsAtStart(s: State, cfg: Config, x: Input, l: Limits)
    requires SwitchError(x) == 0
    ensures LimitsAfter(l, Switch(s, cfg, x).casts) == StepLimits(cfg, 0, x, 0)
  {
    LimitsOfStep(l, At(cfg.icl, 0, Col(x), x.junk), Row(cfg.fv, 0, x.junk), At(cfg.fcc, 0, Col(x), x.junk));
  }

  /** The limits in force after a run of checks. */
  function RunLimits(l: Limits, s: State, cfg: Config, xs: seq<Input>): Limits
    decreases |xs|
  {
    if xs == [] then l
    else
      var o := Check(s, cfg, xs[0]);
      RunLimits(LimitsAfter(l, o.casts), o.state, cfg, xs[1..])
  }

  /** The last input with a working gauge; before any, the one the session started with. */
  function LastSeen(x: Input, xs: seq<Input>): Input
    decreases |xs|
  {
    if xs == [] then x else LastSeen(if xs[0].gaugeRc >= 0 then xs[0] else x, xs[1..])
  }

  /** The CV reduction of that input; the start of a session applies none. */
  function LastReduction(reduction: int, xs: seq<Input>): int
    decreases |xs|
  {
    if xs == [] then reduction else LastReduction(if xs[0].gaugeRc >= 0 then xs[0].decCv else reduction, xs[1..])
  }

  /** A run that is still in FFC_FAST has been there all along. */
  lemma StillFast(s: State, cfg: Config, x: Input, xs: seq<Input>)
    requires Run(Check(s, cfg, x).state, cfg, xs).status == FfcFast
    ensures s.status == FfcFast && Check(s, cfg, x).state.status == FfcFast
  {
    if Check(s, cfg, x).state.status != FfcFast {
      NoWayBack(Check(s, cfg, x).state, cfg, xs);
    }
  }

  lemma {:induction false} LimitsKept(s: State, cfg: Config, x: Input, reduction: int, xs: seq<Input>)
    requires Run(s, cfg, xs).status == FfcFast
    ensures RunLimits(StepLimits(cfg, s.step, x, reduction), s, cfg, xs) ==
              StepLimits(cfg, Run(s, cfg, xs).step, LastSeen(x, xs), LastReduction(reduction, xs))
    decreases |xs|
  {
    if xs == [] {
    } else {
      var y, l := xs[0], StepLimits(cfg, s.step, x, reduction);
      StillFast(s, cfg, y, xs[1..]);
      if y.gaugeRc >= 0 {
        LimitsFollowStep(s, cfg, y, l);
        LimitsKept(Check(s, cfg, y).state, cfg, y, y.decCv, xs[1..]);
      } else {
        LimitsKept(s, cfg, x, reduction, xs[1..]);
      }
    }
  }

  /**
   Main result: from the start of a session through any run of checks, while it is in FFC_FAST the limits in force are
   the table entries of the step reached and of the region last seen with a working gauge, the float voltage less
   that check's CV reduction. Until such a check the float voltage is not reduced.
   */
  lemma SessionLimits(s: State, cfg: Config, x: Input, l: Limits, xs: seq<Input>)
    requires SwitchError(x) == 0
    ensures var o := Switch(s, cfg, x);
            var s1 := Run(o.state, cfg, xs);
            s1.status == FfcFast ==>
              RunLimits(LimitsAfter(l, o.casts), o.state, cfg, xs) ==
                StepLimits(cfg, s1.step, LastSeen(x, xs), LastReduction(0, xs))
  {
    var o := Switch(s, cfg, x);
    LimitsAtStart(s, cfg, x, l);
    if Run(o.state, cfg, xs).status == FfcFast {
      LimitsKept(o.state, cfg, x, 0, xs);
    }
  }

  // ---------- the output-disable vote ----------

  /** The USER_VOTER output-disable vote after some casts. */
  function Held(before: bool, casts: seq<Cast>): bool
    decreases |casts|
  {
    if casts == [] then before
    else Held(if casts[0].CastOutDis? then casts[0].on else before, casts[1..])
  }

  lemma {:induction false} HeldAppend(before: bool, a: seq<Cast>, b: seq<Cast>)
    ensures Held(before, a + b) == Held(Held(before, a), b)
    decreases |a|
  {
    if a == [] {
      assert a + b == b;
    } else {
      assert (a + b)[1..] == a[1..] + b;
      HeldAppend(if a[0].CastOutDis? then a[0].on else before, a[1..], b);
    }
  }

  lemma {:induction false} HeldByOthers(before: bool, a: seq<Cast>)
    requires forall i :: 0 <= i < |a| ==> !a[i].CastOutDis?
    ensures Held(before, a) == before
    decreases |a|
  {
    if a == [] {
    } else {
      HeldByOthers(before, a[1..]);
    }
  }

  /** The calls after which the disable vote no longer says whether the session is in FFC_IDLE. */
  predicate StrandsVote(s: State, c: Call) {
    s.status == FfcIdle &&
    (c.DoSwitch? || (c.x.gaugeRc >= 0 && s.fccCount >= 6 && (c.x.usb || !c.x.wls || !c.x.hasOutDis)))
  }

  /**
   If the output is disabled exactly during FFC_IDLE before a call of either entry point, it is so after the call if and
   only if the call is no switch in FFC_IDLE, nor a check that ends FFC_IDLE with a wired charger, without wireless,
   or without the votable: all of these leave the disable vote behind.
   */
  lemma IdleHoldsOutputIff(s: State, cfg: Config, c: Call)
    ensures var o := Do(s, cfg, c);
            Held(s.status == FfcIdle, o.casts) == (o.state.status == FfcIdle) <==> !StrandsVote(s, c)
  {
    match c
    case DoSwitch(x) => HeldByOthers(s.status == FfcIdle, Switch(s, cfg, x).casts);
    case DoCheck(x) =>
      if s.status == FfcFast && x.gaugeRc >= 0 {
        FastHoldsOutput(s, cfg, x);
      }
  }

  /** The disable vote after a run of calls. */
  function HeldAfter(held: bool, s: State, cfg: Config, calls: seq<Call>): bool
    decreases |calls|
  {
    if calls == [] then held
    else HeldAfter(Held(held, Do(s, cfg, calls[0]).casts), Do(s, cfg, calls[0]).state, cfg, calls[1..])
  }

  /** The vote agrees at every call boundary. */
  predicate AgreesThroughout(held: bool, s: State, cfg: Config, calls: seq<Call>)
    decreases |calls|
  {
    && (held <==> s.status == FfcIdle)
    && (calls != [] ==>
          AgreesThroughout(Held(held, Do(s, cfg, calls[0]).casts), Do(s, cfg, calls[0]).state, cfg, calls[1..]))
  }

  predicate NoneStrands(s: State, cfg: Config, calls: seq<Call>)
    decreases |calls|
  {
    calls == [] || (!StrandsVote(s, calls[0]) && NoneStrands(Do(s, cfg, calls[0]).state, cfg, calls[1..]))
  }

  /** Main result: over any run of both entry points the vote agrees throughout if and only if no call strands it. */
  lemma {:induction false} OutputAgreesIff(s: State, cfg: Config, calls: seq<Call>)
    ensures AgreesThroughout(s.status == FfcIdle, s, cfg, calls) <==> NoneStrands(s, cfg, calls)
    decreases |calls|
  {
    if calls == [] {
    } else {
      var o := Do(s, cfg, calls[0]);
      IdleHoldsOutputIff(s, cfg, calls[0]);
      if !StrandsVote(s, calls[0]) {
        OutputAgreesIff(o.state, cfg, calls[1..]);
      } else {
        assert !AgreesThroughout(Held(s.status == FfcIdle, o.casts), o.state, cfg, calls[1..]);
      }
    }
  }

  lemma FastHoldsOutput(s: State, cfg: Config, x: Input)
    requires s.status == FfcFast
    ensures var o := CheckFast(s, cfg, x);
            Held(false, o.casts) <==> o.state.status == FfcIdle
  {
    var casts := RegionCasts(s, cfg, x);
    HeldByOthers(false, casts);
    if RegionError(s, x).None? && !x.usb && x.wls {
      var s1 := Advance(s.(preRegion := x.region), IsHigh(s, cfg, x), IsLow(s, cfg, x));
      ConcludeHoldsOutput(s1, cfg, x);
      HeldAppend(false, casts, Conclude(s1, cfg, x).casts);
    }
  }

  lemma ConcludeHoldsOutput(s: State, cfg: Config, x: Input)
    requires s.status == FfcFast
    ensures var o := Conclude(s, cfg, x);
            Held(false, o.casts) <==> o.state.status == FfcIdle
  {
    var o := Conclude(s, cfg, x);
    if o.state.status == FfcIdle {
      var rest := if x.hasFv then [CastFv(x.vbatMax - x.decCv)] else [];
      HeldAppend(false, [CastOutDis(true)], rest);
      HeldByOthers(true, rest);
    } else {
      HeldByOthers(false, o.casts);
    }
  }
}
