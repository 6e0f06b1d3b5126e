/**
 A votable as a value: the election, and one function per entry point of oplus_chg_voter.c.
 Class Votable implements these functions over arrays; VoterTheorems proves what they guarantee.
 */
module VoterSpec {
  import opened Kernel

  const NUM_MAX_CLIENTS := 32
  const DEBUG_FORCE_CLIENT := "DEBUG_FORCE_CLIENT"

  datatype Kind = VoteMin | VoteMax | VoteSetAny

  const VOTE_MIN := 0
  const VOTE_MAX := 1
  const VOTE_SET_ANY := 2
  const NUM_VOTABLE_TYPES := 3

  /** The one check oplus_create_votable makes of its integer type. */
  predicate Creatable(votableType: int) {
    votableType < NUM_VOTABLE_TYPES
  }

  /** The arm of the switch in oplus_vote; None is the default arm, which returns without unlocking. */
  function ArmOf(votableType: int): Option<Kind> {
    if votableType == VOTE_MIN then Some(VoteMin)
    else if votableType == VOTE_MAX then Some(VoteMax)
    else if votableType == VOTE_SET_ANY then Some(VoteSetAny)
    else None
  }

  /** How a votable behaves apart from its votes: only SET_ANY differs there, so an unlisted type is like MIN. */
  function KindOf(votableType: int): Kind {
    if ArmOf(votableType).Some? then ArmOf(votableType).value else VoteMin
  }

  datatype Ballot = Ballot(enabled: bool, value: Int32)

  /** One call of the votable's callback: the two arguments that carry the outcome. */
  datatype Delivery = Delivery(result: Int32, client: Option<string>)

  /** `names[i]` is the client in slot i and `ballots[i]` its vote; free slots are not listed. */
  datatype State = State(
    kind: Kind,
    hasCallback: bool,
    names: seq<string>,
    ballots: seq<Ballot>,
    effectiveId: int,
    effectiveResult: Int32,
    votedOn: bool,
    overrideResult: Int32,
    overrideClient: Option<string>,
    forceActive: bool,
    forceVal: UInt32,
    delivered: seq<Delivery>)

  ghost predicate Distinct(names: seq<string>) {
    forall i, j :: 0 <= i < j < |names| ==> names[i] != names[j]
  }

  /** Slots are a prefix of distinct names, and the remembered winner is a slot or -EINVAL. */
  ghost predicate WellFormed(s: State) {
    && |s.names| == |s.ballots| <= NUM_MAX_CLIENTS
    && Distinct(s.names)
    && (s.effectiveId == -EINVAL || 0 <= s.effectiveId < |s.names|)
  }

  function Init(kind: Kind, hasCallback: bool): State {
    State(kind, hasCallback, [], [], -EINVAL, if kind == VoteSetAny then 0 else -EINVAL,
          false, -EINVAL, None, false, 0, [])
  }

  // ---------- the election ----------

  /** Does value x strictly beat the running best y? */
  predicate Beats(kind: Kind, x: Int32, y: Int32) {
    if kind == VoteMin then x < y else x > y
  }

  function Worst(kind: Kind): Int32 {
    if kind == VoteMin then INT_MAX else INT_MIN
  }

  /** Slot of the first ballot no enabled ballot beats, or -EINVAL; the scan of vote_min and vote_max. */
  function Winner(kind: Kind, bs: seq<Ballot>): (id: int)
    ensures id == -EINVAL || 0 <= id < |bs|
  {
    if bs == [] then -EINVAL
    else
      var id := Winner(kind, bs[..|bs| - 1]);
      var best := if id == -EINVAL then Worst(kind) else bs[id].value;
      var last := bs[|bs| - 1];
      if last.enabled && Beats(kind, last.value, best) then |bs| - 1 else id
  }

  function Result(kind: Kind, bs: seq<Ballot>): Int32 {
    if kind == VoteSetAny then
      if exists i :: 0 <= i < |bs| && bs[i].enabled then 1 else 0
    else
      var id := Winner(kind, bs);
      if id == -EINVAL then -EINVAL else bs[id].value
  }

  /** For SET_ANY the winner is whoever voted last. */
  function WinnerId(kind: Kind, bs: seq<Ballot>, voter: nat): int {
    if kind == VoteSetAny then voter else Winner(kind, bs)
  }

  // ---------- clients ----------

  function IndexOf(names: seq<string>, client: string): (i: nat)
    ensures i <= |names|
    ensures i < |names| <==> client in names
    ensures i < |names| ==> names[i] == client
  {
    if names == [] then 0
    else if names[0] == client then 0
    else 1 + IndexOf(names[1..], client)
  }

  /** get_client_id: the client's slot; an unknown client takes the first free one, if there is one. */
  function GetClientId(s: State, client: string, allocOk: bool): (r: (State, int))
    ensures r.1 < 0 ==> r.0 == s
    ensures WellFormed(s) ==>
      WellFormed(r.0) && (0 <= r.1 ==> r.1 < |r.0.names| && r.0.names[r.1] == client)
  {
    var i := IndexOf(s.names, client);
    if i < |s.names| then (s, i)
    else if |s.names| >= NUM_MAX_CLIENTS then (s, -EINVAL)
    else if !allocOk then (s, -ENOMEM)
    else (s.(names := s.names + [client], ballots := s.ballots + [Ballot(false, 0)]), i)
  }

  function ClientStr(s: State, id: int): Option<string> {
    if 0 <= id < |s.names| then Some(s.names[id]) else None
  }

  // ---------- getters ----------

  /** What a client's vote is said to be; asking registers an unknown client. */
  function ClientVote(s: State, client: string, allocOk: bool): Int32
    requires WellFormed(s)
  {
    var (s1, id) := GetClientId(s, client, allocOk);
    if id < 0 then -EINVAL
    else if s1.kind != VoteSetAny && !s1.ballots[id].enabled then -EINVAL
    else s1.ballots[id].value
  }

  function EffectiveResult(s: State): Int32 {
    if s.forceActive then ToInt32(s.forceVal)
    else if s.overrideResult != -EINVAL then s.overrideResult
    else s.effectiveResult
  }

  function EffectiveClient(s: State): Option<string> {
    if s.forceActive then Some(DEBUG_FORCE_CLIENT)
    else if s.overrideResult != -EINVAL then s.overrideClient
    else ClientStr(s, s.effectiveId)
  }

  // ---------- operations; cbRc is what the callback returns if it is called ----------

  function Deliver(s: State, result: Int32, client: Option<string>): State {
    s.(delivered := s.delivered + [Delivery(result, client)])
  }

  /** Record an outcome and report it, unless a force or an override hides it. */
  function Adopt(s: State, result: Int32, id: int, cbRc: Int32): (r: (State, Int32)) {
    var s1 := s.(effectiveId := id, effectiveResult := result);
    if s.hasCallback && !s.forceActive && s.overrideResult == -EINVAL
    then (Deliver(s1, result, ClientStr(s, id)), cbRc)
    else (s1, 0)
  }

  /** Hold the election; a changed outcome, or the very first one, is adopted. */
  function Settle(s: State, voter: nat, cbRc: Int32): (r: (State, Int32)) {
    var result := Result(s.kind, s.ballots);
    var (s1, rc) :=
      if !s.votedOn || result != s.effectiveResult
      then Adopt(s, result, WinnerId(s.kind, s.ballots, voter), cbRc)
      else (s, 0);
    (s1.(votedOn := true), rc)
  }

  /** oplus_vote after the client has been found in slot id. */
  function CastInSlot(s: State, id: nat, enabled: bool, val: Int32, cbRc: Int32): (r: (State, Int32))
    requires WellFormed(s) && id < |s.names|
    ensures WellFormed(r.0) && r.0.names == s.names
  {
    var ballot := Ballot(enabled, if s.kind == VoteSetAny then (if enabled then 1 else 0) else val);
    if s.ballots[id] == ballot && s.votedOn then (s, 0)
    else Settle(s.(ballots := s.ballots[id := ballot]), id, cbRc)
  }

  function Vote(s: State, client: string, enabled: bool, val: Int32, allocOk: bool, cbRc: Int32): (r: (State, Int32))
    requires WellFormed(s)
    ensures WellFormed(r.0)
  {
    var (s1, id) := GetClientId(s, client, allocOk);
    if id < 0 then (s, id) else CastInSlot(s1, id, enabled, val, cbRc)
  }

  /** oplus_vote on a votable of an unlisted type: a ballot that is not ignored is stored, and the lock is kept. */
  function VoteInDefaultArm(s: State, client: string, enabled: bool, val: Int32, allocOk: bool): (r: (State, Int32, bool))
    requires WellFormed(s)
    ensures WellFormed(r.0) && r.0.votedOn == s.votedOn
  {
    var (s1, id) := GetClientId(s, client, allocOk);
    if id < 0 then (s, id, false)
    else if s1.ballots[id] == Ballot(enabled, val) && s1.votedOn then (s1, 0, false)
    else (s1.(ballots := s1.ballots[id := Ballot(enabled, val)]), -EINVAL, true)
  }

  /** oplus_vote on a votable of any integer type; the third result says whether the lock is still held. */
  function TypedVote(votableType: int, s: State, client: string, enabled: bool, val: Int32, allocOk: bool, cbRc: Int32)
    : (r: (State, Int32, bool))
    requires WellFormed(s)
    ensures WellFormed(r.0)
  {
    if ArmOf(votableType).None? then VoteInDefaultArm(s, client, enabled, val, allocOk)
    else
      var (s1, rc) := Vote(s, client, enabled, val, allocOk, cbRc);
      (s1, rc, false)
  }

  /** The source calls the callback here without a null test, so its callers must have set one. */
  function VoteOverride(s: State, client: string, enabled: bool, val: Int32, cbRc: Int32): (State, Int32)
    requires s.hasCallback || s.forceActive
  {
    if s.forceActive then
      (s.(overrideResult := if enabled then val else -EINVAL), 0)
    else if enabled then
      var s1 := Deliver(s, val, Some(client));
      (if cbRc == 0 then s1.(overrideClient := Some(client), overrideResult := val) else s1, cbRc)
    else
      (Deliver(s, s.effectiveResult, ClientStr(s, s.effectiveId)).(overrideResult := -EINVAL), cbRc)
  }

  function RerunElection(s: State, cbRc: Int32): (State, Int32) {
    if s.hasCallback
    then (Deliver(s, EffectiveResult(s), ClientStr(s, s.effectiveId)), cbRc)
    else (s, 0)
  }

  function ForceActiveSet(s: State, active: bool, cbRc: Int32): (State, Int32) {
    var s1 := s.(forceActive := active);
    if s.hasCallback then (Deliver(s1, EffectiveResult(s1), EffectiveClient(s1)), cbRc) else (s1, 0)
  }

  // ---------- runs ----------

  datatype Op =
    | OpVote(client: string, enabled: bool, val: Int32, allocOk: bool)
    | OpOverride(client: string, enabled: bool, val: Int32)
    | OpRerun
    | OpForce(active: bool)
    | OpForceVal(u: UInt32)
    | OpQuery(client: string, allocOk: bool)

  /** A call of one entry point together with what the callback would return. */
  datatype Call = Call(op: Op, cbRc: Int32)

  predicate Callable(s: State, op: Op) {
    op.OpOverride? ==> s.hasCallback || s.forceActive
  }

  function Apply(s: State, c: Call): (r: State)
    requires WellFormed(s)
    ensures WellFormed(r)
  {
    match c.op
    case OpVote(client, enabled, val, allocOk) => Vote(s, client, enabled, val, allocOk, c.cbRc).0
    case OpOverride(client, enabled, val) =>
      if Callable(s, c.op) then VoteOverride(s, client, enabled, val, c.cbRc).0 else s
    case OpRerun => RerunElection(s, c.cbRc).0
    case OpForce(active) => ForceActiveSet(s, active, c.cbRc).0
    case OpForceVal(u) => s.(forceVal := u)
    case OpQuery(client, allocOk) => GetClientId(s, client, allocOk).0
  }

  function Run(s: State, calls: seq<Call>): (r: State)
    requires WellFormed(s)
    ensures WellFormed(r)
    decreases |calls|
  {
    if calls == [] then s else Run(Apply(s, calls[0]), calls[1..])
  }
}
