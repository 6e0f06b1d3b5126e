/** When the heartbeat reports a full battery and when it asks for a recharge, in terms of what it reads. */
module ChargeEvents {
  import opened BatteryReadings
  import opened ChargeCycle
  import BatteryFull
  import VoterSpec

  /** The heartbeat does not return early. */
  predicate Beats(b: Beat) {
    b.present && !b.fastCharging
  }

  /** No over-voltage, a region that charges, and a voltage, with the reduction added back, down at the recharge level. */
  predicate LowEnough(cfg: Config, b: Beat)
    requires ValidConfig(cfg) && ValidBeat(b)
  {
    !b.chgOvp && 1 <= b.region <= 7 && b.vbat + b.full.decCv <= cfg.vbatDet[b.region]
  }

  /** The battery counts as full and no recharge is pending, so that the detector is not asked. */
  predicate Resting(c: Cycle) {
    c.chgDone && !c.rechargePending
  }

  ghost predicate ReadSoFar(c: Cycle, cfg: Config, xs: seq<BatteryFull.Input>) {
    ValidConfig(cfg) && VoterSpec.WellFormed(c.out) && AllValid(cfg.full, xs) && c.full == StateAfter(cfg.full, xs)
  }

  lemma AskDetector(cfg: BatteryFull.Config, xs: seq<BatteryFull.Input>, x: BatteryFull.Input)
    requires AllValid(cfg, xs) && BatteryFull.ValidInput(x)
    ensures AllValid(cfg, xs + [x])
    ensures var (s, full) := BatteryFull.Step(StateAfter(cfg, xs), cfg.fullCountSwNum, BatteryFull.Judge(cfg, x));
            s == StateAfter(cfg, xs + [x]) && full == ReportsFull(cfg, xs + [x])
  {
    var all := xs + [x];
    assert all[..|all| - 1] == xs;
    VerdictsFront(cfg, all);
  }

  /**
   Main result for one heartbeat: it marks the charge done exactly if it asks the detector and the readings so far report a
   full battery, and requests a recharge exactly if then the charge is done, none is pending, and the voltage is low enough.
   */
  lemma HeartbeatEvents(c: Cycle, cfg: Config, xs: seq<BatteryFull.Input>, b: Beat)
    requires ReadSoFar(c, cfg, xs) && ValidBeat(b)
    ensures var c1 := Heartbeat(c, cfg, b);
            var asks := Beats(b) && !Resting(c);
            var read := if asks then xs + [b.full] else xs;
            && ReadSoFar(c1, cfg, read)
            && var done := asks && ReportsFull(cfg.full, read);
               var recharge := Beats(b) && (done || Resting(c)) && LowEnough(cfg, b);
               && c1.events == c.events + (if done then [ChargeDone] else []) + (if recharge then [Recharge] else [])
               && c1.chgDone == (c.chgDone || done)
               && c1.rechargePending == (recharge || (c.rechargePending && !done))
               && c1.rechargeStatus == (c.rechargeStatus || recharge)
  {
    AskDetector(cfg.full, xs, b.full);
  }

  /** From rest, a heartbeat ends with a recharge pending exactly if it beats and reads a voltage low enough. */
  lemma RechargeRequestedIff(c: Cycle, cfg: Config, b: Beat)
    requires ValidConfig(cfg) && ValidBeat(b) && VoterSpec.WellFormed(c.out) && Resting(c)
    ensures Heartbeat(c, cfg, b).rechargePending <==>
              b.present && !b.fastCharging && !b.chgOvp && 1 <= b.region <= 7
              && b.vbat + b.full.decCv <= cfg.vbatDet[b.region]
  {
  }

  // ---------- runs with any chargers ----------

  predicate ValidAction(a: Action) {
    a.DoBeat? ==> ValidBeat(a.b)
  }

  function RunAny(c: Cycle, cfg: Config, actions: seq<Action>): (c1: Cycle)
    requires ValidConfig(cfg) && VoterSpec.WellFormed(c.out) && forall i :: 0 <= i < |actions| ==> ValidAction(actions[i])
    ensures VoterSpec.WellFormed(c1.out)
    decreases |actions|
  {
    if actions == [] then c
    else
      assert ValidAction(actions[0]);
      RunAny(Do(c, cfg, actions[0]), cfg, actions[1..])
  }

  function CountOf(events: seq<Event>, e: Event): nat {
    if events == [] then 0 else CountOf(events[..|events| - 1], e) + if events[|events| - 1] == e then 1 else 0
  }

  lemma {:induction false} CountAppend(a: seq<Event>, b: seq<Event>, e: Event)
    ensures CountOf(a + b, e) == CountOf(a, e) + CountOf(b, e)
  {
    if b == [] {
      assert a + b == a;
    } else {
      assert (a + b)[..|a + b| - 1] == a + b[..|b| - 1];
      CountAppend(a, b[..|b| - 1], e);
    }
  }

  /** The heartbeats of the run that read a voltage low enough for a recharge. */
  function LowBeats(cfg: Config, actions: seq<Action>): nat
    requires ValidConfig(cfg) && forall i :: 0 <= i < |actions| ==> ValidAction(actions[i])
  {
    if actions == [] then 0
    else
      assert ValidAction(actions[0]);
      (if actions[0].DoBeat? && Beats(actions[0].b) && LowEnough(cfg, actions[0].b) then 1 else 0)
      + LowBeats(cfg, actions[1..])
  }

  lemma RechargeCountStep(c: Cycle, cfg: Config, xs: seq<BatteryFull.Input>, b: Beat)
    requires ReadSoFar(c, cfg, xs) && ValidBeat(b)
    ensures CountOf(Heartbeat(c, cfg, b).events, Recharge) <=
              CountOf(c.events, Recharge) + if Beats(b) && LowEnough(cfg, b) then 1 else 0
  {
    HeartbeatEvents(c, cfg, xs, b);
    var asks := Beats(b) && !Resting(c);
    var read := if asks then xs + [b.full] else xs;
    var done := asks && ReportsFull(cfg.full, read);
    var recharge := Beats(b) && (done || Resting(c)) && LowEnough(cfg, b);
    var first := if done then [ChargeDone] else [];
    var second := if recharge then [Recharge] else [];
    CountAppend(c.events + first, second, Recharge);
    CountAppend(c.events, first, Recharge);
    assert [ChargeDone][..0] == [] && [Recharge][..0] == [];
    assert CountOf([ChargeDone], Recharge) == 0 && CountOf([Recharge], Recharge) == 1;
  }

  /** Main result: over any run with any chargers, each recharge comes from a heartbeat of its own with a low voltage. */
  lemma {:induction false} RechargesNeedLowBeats(c: Cycle, cfg: Config, xs: seq<BatteryFull.Input>, actions: seq<Action>)
    requires ReadSoFar(c, cfg, xs) && forall i :: 0 <= i < |actions| ==> ValidAction(actions[i])
    ensures CountOf(RunAny(c, cfg, actions).events, Recharge) <= CountOf(c.events, Recharge) + LowBeats(cfg, actions)
    decreases |actions|
  {
    if actions == [] {
    } else {
      var c1 := Do(c, cfg, actions[0]);
      assert ValidAction(actions[0]);
      match actions[0] {
        case DoBeat(b) =>
          HeartbeatEvents(c, cfg, xs, b);
          RechargeCountStep(c, cfg, xs, b);
          RechargesNeedLowBeats(c1, cfg, if Beats(b) && !Resting(c) then xs + [b.full] else xs, actions[1..]);
        case DoOther(call) =>
          RechargesNeedLowBeats(c1, cfg, xs, actions[1..]);
      }
    }
  }
}
