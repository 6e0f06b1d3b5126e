/**
 The done/recharge cycle of wireless charging: the heartbeat of oplus_chg_comm.c drives the battery-full
 detector and casts USER_VOTER's vote on the output-disable votable.
 */
module ChargeCycle {
  import opened Kernel
  import BatteryFull
  import VoterSpec
  import Voter
  import opened VoterTheorems

  const USER_VOTER := "USER_VOTER"

  /** OPLUS_CHG_EVENT_CHARGE_DONE, and the moment a recharge is requested. */
  datatype Event = ChargeDone | Recharge

  datatype Cycle = Cycle(
    chgDone: bool,
    rechargePending: bool,
    rechargeStatus: bool,
    full: BatteryFull.State,
    out: VoterSpec.State,
    events: seq<Event>)

  /**
   What one heartbeat reads. The charger's presence and fast charging decide whether it does anything;
   region and voltage are read again after the termination check, the voltage being 0 if that fails.
   */
  datatype Beat = Beat(
    present: bool,
    fastCharging: bool,
    full: BatteryFull.Input,
    region: nat,
    vbat: int,
    chgOvp: bool,
    hasOutDis: bool,
    cbRc: Int32)

  datatype Config = Config(full: BatteryFull.Config, vbatDet: seq<int>)

  predicate ValidConfig(cfg: Config) {
    BatteryFull.ValidConfig(cfg.full) && |cfg.vbatDet| == BatteryFull.BATT_TEMP_HOT + 1
  }

  predicate ValidBeat(b: Beat) {
    BatteryFull.ValidInput(b.full) && b.region <= BatteryFull.BATT_TEMP_HOT
  }

  function UserVote(c: Cycle, on: bool, cbRc: Int32): Cycle
    requires VoterSpec.WellFormed(c.out)
  {
    c.(out := VoterSpec.Vote(c.out, USER_VOTER, on, if on then 1 else 0, true, cbRc).0)
  }

  /** Is the battery-full check made, and does it report? */
  predicate Reports(c: Cycle, cfg: Config, b: Beat)
    requires ValidConfig(cfg) && ValidBeat(b)
  {
    && !(c.chgDone && !c.rechargePending)
    && BatteryFull.Step(c.full, cfg.full.fullCountSwNum, BatteryFull.Judge(cfg.full, b.full)).1
  }

  function MarkDone(c: Cycle): Cycle {
    c.(chgDone := true, rechargePending := false, events := c.events + [ChargeDone])
  }

  function MarkRecharge(c: Cycle): Cycle {
    c.(rechargePending := true, rechargeStatus := true, events := c.events + [Recharge])
  }

  /** oplus_chg_comm_check_term_current */
  function CheckTermCurrent(c: Cycle, cfg: Config, b: Beat): (c1: Cycle)
    requires ValidConfig(cfg) && ValidBeat(b) && VoterSpec.WellFormed(c.out)
    ensures VoterSpec.WellFormed(c1.out)
  {
    if c.chgDone && !c.rechargePending then c
    else
      var c1 := c.(full := BatteryFull.Step(c.full, cfg.full.fullCountSwNum, BatteryFull.Judge(cfg.full, b.full)).0);
      if !Reports(c, cfg, b) then c1
      else
        var c2 := MarkDone(c1);
        if !b.full.usb && b.full.wls && b.hasOutDis then UserVote(c2, true, b.cbRc) else c2
  }

  predicate Recharges(c: Cycle, cfg: Config, b: Beat)
    requires ValidConfig(cfg) && ValidBeat(b)
  {
    && !b.chgOvp && c.chgDone && !c.rechargePending
    && BatteryFull.BATT_TEMP_UNKNOWN < b.region < BatteryFull.BATT_TEMP_HOT
    && cfg.vbatDet[b.region] - b.full.decCv >= b.vbat
  }

  function CheckRecharge(c: Cycle, cfg: Config, b: Beat): Cycle
    requires ValidConfig(cfg) && ValidBeat(b) && VoterSpec.WellFormed(c.out)
  {
    if !Recharges(c, cfg, b) then c
    else
      var c1 := MarkRecharge(c);
      if b.hasOutDis then UserVote(c1, false, b.cbRc) else c1
  }

  /** oplus_chg_heartbeat_work, without the checks that vote under other names. */
  function Heartbeat(c: Cycle, cfg: Config, b: Beat): (c1: Cycle)
    requires ValidConfig(cfg) && ValidBeat(b) && VoterSpec.WellFormed(c.out)
    ensures VoterSpec.WellFormed(c1.out)
  {
    if !b.present || b.fastCharging then c else CheckRecharge(CheckTermCurrent(c, cfg, b), cfg, b)
  }

  class ChargeControl {
    const cfg: Config
    const detector: BatteryFull.Detector
    const out: Voter.Votable
    var chgDone: bool
    var rechargePending: bool
    var rechargeStatus: bool
    var events: seq<Event>

    ghost predicate Valid()
      reads this, out, out.clientStrs, out.votes
    {
      ValidConfig(cfg) && detector.cfg == cfg.full && out.Valid() && VoterSpec.ArmOf(out.votableType).Some?
    }

    ghost function Value(): (c: Cycle)
      reads this, detector, out, out.clientStrs, out.votes
      requires Valid()
      ensures VoterSpec.WellFormed(c.out)
    {
      Cycle(chgDone, rechargePending, rechargeStatus, detector.Value(), out.Value(), events)
    }

    /** The probed device; the votable belongs to the wireless charger driver. */
    constructor (cfg: Config, out: Voter.Votable)
      requires ValidConfig(cfg) && out.Valid() && VoterSpec.ArmOf(out.votableType).Some?
      ensures Valid() && fresh(detector) && this.cfg == cfg && this.out == out
      ensures Value() == Cycle(false, false, false, BatteryFull.INITIAL, out.Value(), [])
    {
      this.cfg := cfg;
      this.out := out;
      detector := new BatteryFull.Detector(cfg.full);
      chgDone, rechargePending, rechargeStatus, events := false, false, false, [];
    }

    method CheckTerm(b: Beat)
      requires Valid() && ValidBeat(b)
      modifies this, detector, out, out.clientStrs, out.votes
      ensures Valid() && Value() == CheckTermCurrent(old(Value()), cfg, b)
    {
      if chgDone && !rechargePending {
        return;
      }
      var full := detector.CheckBattFull(b.full);
      if full {
        chgDone := true;
        events := events + [ChargeDone];
        rechargePending := false;
        if b.full.usb {
          return;
        } else if b.full.wls {
          if !b.hasOutDis {
            return;
          }
          var _, _ := out.Vote(USER_VOTER, true, 1, true, b.cbRc);
        }
      }
    }

    method HeartbeatWork(b: Beat)
      requires Valid() && ValidBeat(b)
      modifies this, detector, out, out.clientStrs, out.votes
      ensures Valid() && Value() == Heartbeat(old(Value()), cfg, b)
    {
      if !b.present {
        return;
      }
      if b.fastCharging {
        return;
      }
      CheckTerm(b);
      var vbatDet := cfg.vbatDet[b.region] - b.full.decCv;
      if b.region <= BatteryFull.BATT_TEMP_UNKNOWN || b.region >= BatteryFull.BATT_TEMP_HOT {
        vbatDet := 0;
      }
      if !b.chgOvp && chgDone && !rechargePending && BatteryFull.BATT_TEMP_UNKNOWN < b.region < BatteryFull.BATT_TEMP_HOT
         && vbatDet >= b.vbat {
        rechargePending := true;
        rechargeStatus := true;
        events := events + [Recharge];
        if b.hasOutDis {
          var _, _ := out.Vote(USER_VOTER, false, 0, true, b.cbRc);
        }
      }
    }
  }

  // ---------- the cycle and the vote ----------

  /** USER_VOTER's vote; it has one from the start of the cycle on. */
  ghost predicate UserEnabled(s: VoterSpec.State) {
    VoterSpec.WellFormed(s) && USER_VOTER in TableOf(s) && TableOf(s)[USER_VOTER].enabled
  }

  ghost predicate UserKnown(s: VoterSpec.State) {
    VoterSpec.WellFormed(s) && USER_VOTER in TableOf(s)
  }

  /** The disable vote is on exactly while the battery counts as full and no recharge is pending. */
  ghost predicate VoteAgrees(c: Cycle) {
    UserEnabled(c.out) <==> c.chgDone && !c.rechargePending
  }

  /** Done and recharge strictly alternate, starting with done. */
  predicate Alternates(events: seq<Event>) {
    forall i :: 0 <= i < |events| ==> events[i] == if i % 2 == 0 then ChargeDone else Recharge
  }

  /** The flags tell which event came last. */
  predicate Booked(c: Cycle) {
    && (c.rechargePending ==> c.chgDone)
    && Alternates(c.events)
    && (c.chgDone <==> c.events != [])
    && (c.chgDone && !c.rechargePending <==> |c.events| % 2 == 1)
    && (c.rechargeStatus <==> |c.events| >= 2)
  }

  ghost predicate CycleInv(c: Cycle) {
    UserKnown(c.out) && Booked(c)
  }

  lemma UserVoteSets(c: Cycle, on: bool, cbRc: Int32)
    requires UserKnown(c.out)
    ensures var c1 := UserVote(c, on, cbRc);
            UserKnown(c1.out) && UserEnabled(c1.out) == on && c1 == c.(out := c1.out)
  {
    VoteOnMap(c.out, USER_VOTER, on, if on then 1 else 0, true, cbRc);
  }

  lemma MarkDoneBooked(c: Cycle)
    requires Booked(c) && !(c.chgDone && !c.rechargePending)
    ensures Booked(MarkDone(c))
  {
  }

  lemma MarkRechargeBooked(c: Cycle)
    requires Booked(c) && c.chgDone && !c.rechargePending
    ensures Booked(MarkRecharge(c))
  {
  }

  lemma ReportNeedsCharger(c: Cycle, cfg: Config, b: Beat)
    requires ValidConfig(cfg) && ValidBeat(b) && Reports(c, cfg, b)
    ensures b.full.usb || b.full.wls
  {
  }

  lemma TermCurrentStep(c: Cycle, cfg: Config, b: Beat)
    requires ValidConfig(cfg) && ValidBeat(b) && CycleInv(c)
    ensures var c1, reports := CheckTermCurrent(c, cfg, b), Reports(c, cfg, b);
            && CycleInv(c1)
            && c1.chgDone == (c.chgDone || reports)
            && c1.rechargePending == (c.rechargePending && !reports)
            && UserEnabled(c1.out) == (UserEnabled(c.out) || (reports && !b.full.usb && b.hasOutDis))
  {
    if Reports(c, cfg, b) {
      ReportNeedsCharger(c, cfg, b);
      MarkDoneBooked(c);
      UserVoteSets(MarkDone(CheckTermCurrent(c, cfg, b).(out := c.out, events := c.events)), true, b.cbRc);
    }
  }

  lemma RechargeStep(c: Cycle, cfg: Config, b: Beat)
    requires ValidConfig(cfg) && ValidBeat(b) && CycleInv(c)
    ensures var c1, recharges := CheckRecharge(c, cfg, b), Recharges(c, cfg, b);
            && CycleInv(c1)
            && c1.chgDone == c.chgDone
            && c1.rechargePending == (c.rechargePending || recharges)
            && UserEnabled(c1.out) == (UserEnabled(c.out) && !(recharges && b.hasOutDis))
  {
    if Recharges(c, cfg, b) {
      MarkRechargeBooked(c);
      UserVoteSets(MarkRecharge(c), false, b.cbRc);
    }
  }

  /**
   Main result for one heartbeat: the vote still agrees afterwards, except exactly when the battery was
   reported full (and not recharged at once) with a wired charger or without the votable, or a
   recharge was requested without the votable.
   */
  lemma HeartbeatAgreesIff(c: Cycle, cfg: Config, b: Beat)
    requires ValidConfig(cfg) && ValidBeat(b) && CycleInv(c) && VoteAgrees(c) && b.present && !b.fastCharging
    ensures var reports, recharges := Reports(c, cfg, b), Recharges(CheckTermCurrent(c, cfg, b), cfg, b);
            && CycleInv(Heartbeat(c, cfg, b))
            && (VoteAgrees(Heartbeat(c, cfg, b)) <==>
                  if reports then recharges || (!b.full.usb && b.hasOutDis)
                  else recharges ==> b.hasOutDis)
  {
    TermCurrentStep(c, cfg, b);
    RechargeStep(CheckTermCurrent(c, cfg, b), cfg, b);
  }

  // ---------- runs ----------

  /** A heartbeat, or any other use of the votable. */
  datatype Action = DoBeat(b: Beat) | DoOther(call: VoterSpec.Call)

  /** Wireless is the only charger, its votable exists, and nobody else votes as USER_VOTER. */
  predicate WirelessOnly(a: Action) {
    match a
    case DoBeat(b) => ValidBeat(b) && !b.full.usb && b.hasOutDis
    case DoOther(call) => call.op.OpVote? ==> call.op.client != USER_VOTER
  }

  function Do(c: Cycle, cfg: Config, a: Action): (c1: Cycle)
    requires ValidConfig(cfg) && (a.DoBeat? ==> ValidBeat(a.b)) && VoterSpec.WellFormed(c.out)
    ensures VoterSpec.WellFormed(c1.out)
  {
    match a
    case DoBeat(b) => Heartbeat(c, cfg, b)
    case DoOther(call) => c.(out := VoterSpec.Apply(c.out, call))
  }

  function RunCycle(c: Cycle, cfg: Config, actions: seq<Action>): (c1: Cycle)
    requires ValidConfig(cfg) && VoterSpec.WellFormed(c.out)
    requires forall i :: 0 <= i < |actions| ==> WirelessOnly(actions[i])
    ensures VoterSpec.WellFormed(c1.out)
    decreases |actions|
  {
    if actions == [] then c
    else
      assert WirelessOnly(actions[0]);
      RunCycle(Do(c, cfg, actions[0]), cfg, actions[1..])
  }

  lemma OthersLeaveUserVote(s: VoterSpec.State, call: VoterSpec.Call)
    requires UserKnown(s)
    requires call.op.OpVote? ==> call.op.client != USER_VOTER
    ensures UserKnown(VoterSpec.Apply(s, call))
    ensures UserEnabled(VoterSpec.Apply(s, call)) == UserEnabled(s)
  {
    TableRefinesMap(s, call);
  }

  /**
   Main result: over any run of heartbeats mixed with other clients' votes, overrides, forces and
   queries, a recharge is pending only after done, done and recharge alternate, and USER_VOTER's disable
   vote is on exactly while done and no recharge is pending.
   */
  lemma {:induction false} CycleHolds(c: Cycle, cfg: Config, actions: seq<Action>)
    requires ValidConfig(cfg) && CycleInv(c) && VoteAgrees(c)
    requires forall i :: 0 <= i < |actions| ==> WirelessOnly(actions[i])
    ensures CycleInv(RunCycle(c, cfg, actions)) && VoteAgrees(RunCycle(c, cfg, actions))
    decreases |actions|
  {
    if actions == [] {
    } else {
      match actions[0] {
        case DoBeat(b) =>
          if b.present && !b.fastCharging {
            HeartbeatAgreesIff(c, cfg, b);
          }
        case DoOther(call) => OthersLeaveUserVote(c.out, call);
      }
      CycleHolds(Do(c, cfg, actions[0]), cfg, actions[1..]);
    }
  }

  /** The wireless driver withdraws USER_VOTER's vote before a session, and that is where the cycle starts. */
  lemma CycleStarts(s: VoterSpec.State, cbRc: Int32)
    requires VoterSpec.WellFormed(s)
    requires USER_VOTER in TableOf(s) || |TableOf(s)| < VoterSpec.NUM_MAX_CLIENTS
    ensures var c := UserVote(Cycle(false, false, false, BatteryFull.INITIAL, s, []), false, cbRc);
            CycleInv(c) && VoteAgrees(c)
  {
    VoteOnMap(s, USER_VOTER, false, 0, true, cbRc);
  }

  // ---------- a run in which the vote is missing ----------

  const WIRED_CONFIG :=
    Config(BatteryFull.Config(true, [4400, 4400, 4400, 4400, 4400, 4400, 4400, 4400, 4400], 50, 0, 100, 2),
           [4200, 4200, 4200, 4200, 4200, 4200, 4200, 4200, 4200])

  /** A full battery on a wired charger, with the wireless charger present. */
  const WIRED_BEAT := Beat(true, false, BatteryFull.Input(false, true, true, 5, true, 4500, 0, 0), 5, 4500, false, true, 0)

  /** The cycle of CycleStarts with the counters of the detector. */
  function Start(s: VoterSpec.State, countSw: int, countHw: int): Cycle {
    Cycle(false, false, false, BatteryFull.State(false, false, countSw, countHw), s, [])
  }

  /** The third heartbeat reports the battery full, but with a wired charger nobody disables the output. */
  lemma WiredFullLeavesVoteOff(s: VoterSpec.State)
    requires UserKnown(s) && !UserEnabled(s)
    ensures var c1 := Heartbeat(Start(s, 0, 0), WIRED_CONFIG, WIRED_BEAT);
            var c3 := Heartbeat(Heartbeat(c1, WIRED_CONFIG, WIRED_BEAT), WIRED_CONFIG, WIRED_BEAT);
            c3.chgDone && !c3.rechargePending && !UserEnabled(c3.out) && !VoteAgrees(c3)
  {
    var verdict := BatteryFull.Counted(BatteryFull.NotDraining, true);
    assert WIRED_CONFIG.full.vbatMax[5] == 4400 && WIRED_CONFIG.vbatDet[5] == 4200;
    assert BatteryFull.Judge(WIRED_CONFIG.full, WIRED_BEAT.full) == verdict;
    assert Heartbeat(Start(s, 0, 0), WIRED_CONFIG, WIRED_BEAT) == Start(s, 1, 1);
    assert Heartbeat(Start(s, 1, 1), WIRED_CONFIG, WIRED_BEAT) == Start(s, 2, 2);
    assert BatteryFull.Step(Start(s, 2, 2).full, 2, verdict).1;
  }
}
