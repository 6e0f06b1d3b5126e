/**
 The votable object of oplus_chg_voter.c: two parallel arrays of 32 slots, filled from the front,
 searched and re-elected in place. Every method is proved against the functions of VoterSpec.
 */
module Voter {
  import opened Kernel
  import opened VoterSpec

  class Votable {
    const votableType: int
    const kind: Kind
    const hasCallback: bool
    const clientStrs: array<Option<string>>
    const votes: array<Ballot>
    var effectiveId: int
    var effectiveResult: Int32
    var votedOn: bool
    var overrideResult: Int32
    var overrideClient: Option<string>
    var forceActive: bool
    var forceVal: UInt32
    /** The arguments of every callback made so far, oldest first. */
    var delivered: seq<Delivery>
    /** The clients in the slots taken so far, in slot order. */
    ghost var names: seq<string>

    ghost predicate Valid()
      reads this, clientStrs, votes
    {
      && kind == KindOf(votableType)
      && clientStrs.Length == votes.Length == NUM_MAX_CLIENTS
      && |names| <= NUM_MAX_CLIENTS
      && (forall i :: 0 <= i < |names| ==> clientStrs[i] == Some(names[i]))
      && (forall i :: |names| <= i < NUM_MAX_CLIENTS ==> clientStrs[i].None? && votes[i] == Ballot(false, 0))
      && WellFormed(Value())
    }

    ghost function Value(): State
      reads this, votes
      requires |names| <= votes.Length
    {
      State(kind, hasCallback, names, votes[..|names|], effectiveId, effectiveResult, votedOn,
            overrideResult, overrideClient, forceActive, forceVal, delivered)
    }

    /** oplus_create_votable, once the name is known to be free and memory has been found; it accepts negative types. */
    constructor (votableType: int, hasCallback: bool)
      requires Creatable(votableType)
      ensures Valid() && fresh(clientStrs) && fresh(votes) && this.votableType == votableType
      ensures Value() == Init(KindOf(votableType), hasCallback)
    {
      this.votableType := votableType;
      kind := KindOf(votableType);
      this.hasCallback := hasCallback;
      clientStrs := new Option<string>[NUM_MAX_CLIENTS](_ => None);
      votes := new Ballot[NUM_MAX_CLIENTS](_ => Ballot(false, 0));
      effectiveId := -EINVAL;
      effectiveResult := if votableType == VOTE_SET_ANY then 0 else -EINVAL;
      votedOn := false;
      overrideResult := -EINVAL;
      overrideClient := None;
      forceActive := false;
      forceVal := 0;
      delivered := [];
      names := [];
    }

    /** get_client_id */
    method GetClientId(client: string, allocOk: bool) returns (id: int)
      requires Valid()
      modifies this`names, clientStrs
      ensures Valid()
      ensures (Value(), id) == VoterSpec.GetClientId(old(Value()), client, allocOk)
    {
      var i := 0;
      while i < NUM_MAX_CLIENTS
        invariant 0 <= i <= NUM_MAX_CLIENTS
        invariant forall j :: 0 <= j < i ==> clientStrs[j] != Some(client)
      {
        if clientStrs[i] == Some(client) {
          return i;
        }
        i := i + 1;
      }
      assert client !in names;
      i := 0;
      while i < NUM_MAX_CLIENTS
        invariant 0 <= i <= |names|
        invariant Value() == old(Value())
      {
        if clientStrs[i] == None {
          if !allocOk {
            return -ENOMEM;
          }
          clientStrs[i] := Some(client);
          names := names + [client];
          assert votes[..i + 1] == old(votes[..i]) + [Ballot(false, 0)];
          return i;
        }
        i := i + 1;
      }
      return -EINVAL;
    }

    /** vote_min and vote_max */
    method VoteExtreme() returns (effRes: Int32, effId: int)
      requires Valid() && kind != VoteSetAny
      ensures effId == Winner(kind, Value().ballots)
      ensures effRes == Result(kind, Value().ballots)
    {
      effRes := Worst(kind);
      effId := -EINVAL;
      var i := 0;
      while i < NUM_MAX_CLIENTS && clientStrs[i].Some?
        invariant 0 <= i <= |names|
        invariant effId == Winner(kind, votes[..i])
        invariant effRes == if effId == -EINVAL then Worst(kind) else votes[effId].value
      {
        assert votes[..i + 1][..i] == votes[..i];
        if votes[i].enabled && Beats(kind, votes[i].value, effRes) {
          effRes := votes[i].value;
          effId := i;
        }
        i := i + 1;
      }
      assert i == |names|;
      if effId == -EINVAL {
        effRes := -EINVAL;
      }
    }

    /** vote_set_any */
    method VoteAny(clientId: nat) returns (effRes: Int32, effId: int)
      requires Valid() && kind == VoteSetAny
      ensures effId == clientId
      ensures effRes == Result(kind, Value().ballots)
    {
      effRes := 0;
      var i := 0;
      while i < NUM_MAX_CLIENTS && clientStrs[i].Some?
        invariant 0 <= i <= |names|
        invariant effRes == if exists k :: 0 <= k < i && votes[k].enabled then 1 else 0
      {
        effRes := if effRes == 1 || votes[i].enabled then 1 else 0;
        i := i + 1;
      }
      assert i == |names|;
      effId := clientId;
    }

    method GetClientStr(id: int) returns (client: Option<string>)
      requires Valid()
      requires id == -EINVAL || 0 <= id < |names|
      ensures client == ClientStr(Value(), id)
    {
      if id == -EINVAL {
        return None;
      }
      return clientStrs[id];
    }

    method Callback(result: Int32, client: Option<string>)
      requires Valid()
      modifies this`delivered
      ensures Valid() && Value() == Deliver(old(Value()), result, client)
    {
      delivered := delivered + [Delivery(result, client)];
    }

    /** oplus_is_client_vote_enabled: a query that registers a client it has not seen. */
    method IsClientVoteEnabled(client: string, allocOk: bool) returns (enabled: bool)
      requires Valid()
      modifies this`names, clientStrs
      ensures Valid()
      ensures Value() == VoterSpec.GetClientId(old(Value()), client, allocOk).0
      ensures enabled <==>
                exists i :: 0 <= i < |old(names)| && old(Value()).names[i] == client && old(Value()).ballots[i].enabled
    {
      var id := GetClientId(client, allocOk);
      if id < 0 {
        return false;
      }
      enabled := votes[id].enabled;
    }

    /** oplus_get_client_vote */
    method GetClientVote(client: string, allocOk: bool) returns (value: Int32)
      requires Valid()
      modifies this`names, clientStrs
      ensures Valid()
      ensures Value() == VoterSpec.GetClientId(old(Value()), client, allocOk).0
      ensures value == ClientVote(old(Value()), client, allocOk)
    {
      var id := GetClientId(client, allocOk);
      if id < 0 {
        return -EINVAL;
      }
      if kind != VoteSetAny && !votes[id].enabled {
        return -EINVAL;
      }
      value := votes[id].value;
    }

    /** oplus_get_effective_result */
    method GetEffectiveResult() returns (value: Int32)
      requires Valid()
      ensures value == EffectiveResult(Value())
    {
      if forceActive {
        return ToInt32(forceVal);
      }
      if overrideResult != -EINVAL {
        return overrideResult;
      }
      return effectiveResult;
    }

    /** oplus_get_effective_client */
    method GetEffectiveClient() returns (client: Option<string>)
      requires Valid()
      ensures client == EffectiveClient(Value())
    {
      if forceActive {
        return Some(DEBUG_FORCE_CLIENT);
      }
      if overrideResult != -EINVAL {
        return overrideClient;
      }
      client := GetClientStr(effectiveId);
    }

    method StoreBallot(id: nat, ballot: Ballot)
      requires Valid() && id < |names|
      modifies votes
      ensures Valid()
      ensures Value() == old(Value()).(ballots := old(Value()).ballots[id := ballot])
    {
      votes[id] := ballot;
      assert votes[..|names|] == old(votes[..|names|])[id := ballot];
    }

    /** The switch over the votable's type, for the types that have an arm. */
    method Elect(clientId: nat) returns (effRes: Int32, effId: int)
      requires Valid() && clientId < |names| && ArmOf(votableType).Some?
      ensures effRes == Result(kind, Value().ballots)
      ensures effId == WinnerId(kind, Value().ballots, clientId)
    {
      if votableType == VOTE_SET_ANY {
        effRes, effId := VoteAny(clientId);
      } else {
        effRes, effId := VoteExtreme();
      }
    }

    /** oplus_vote; cbRc is what the callback returns if it is called, and `held` says that the lock is not released. */
    method Vote(client: string, enabled: bool, val: Int32, allocOk: bool, cbRc: Int32) returns (rc: Int32, held: bool)
      requires Valid()
      modifies this, clientStrs, votes
      ensures Valid()
      ensures (Value(), rc, held) == TypedVote(votableType, old(Value()), client, enabled, val, allocOk, cbRc)
    {
      var clientId := GetClientId(client, allocOk);
      if clientId < 0 {
        return clientId, false;
      }
      if ArmOf(votableType).None? {
        rc, held := CastInDefaultArm(clientId, enabled, val);
      } else {
        rc := CastInSlot(clientId, enabled, val, cbRc);
        held := false;
      }
    }

    /** The rest of oplus_vote where the switch has no arm: it returns from the middle of the locked section. */
    method CastInDefaultArm(clientId: nat, enabled: bool, val: Int32) returns (rc: Int32, held: bool)
      requires Valid() && clientId < |names| && ArmOf(votableType).None?
      modifies votes
      ensures Valid()
      ensures var s := old(Value());
              (Value(), rc, held) ==
                if s.ballots[clientId] == Ballot(enabled, val) && s.votedOn then (s, 0, false)
                else (s.(ballots := s.ballots[clientId := Ballot(enabled, val)]), -EINVAL, true)
    {
      var ballot := Ballot(enabled, val);
      var similarVote := votes[clientId] == ballot;
      StoreBallot(clientId, ballot);
      if similarVote && votedOn {
        assert Value() == old(Value());
        return 0, false;
      }
      return -EINVAL, true;
    }

    method CastInSlot(clientId: nat, enabled: bool, val: Int32, cbRc: Int32) returns (rc: Int32)
      requires Valid() && clientId < |names| && ArmOf(votableType).Some?
      modifies this, votes
      ensures Valid() && names == old(names)
      ensures (Value(), rc) == VoterSpec.CastInSlot(old(Value()), clientId, enabled, val, cbRc)
    {
      var ballot := Ballot(enabled, if votableType == VOTE_SET_ANY then (if enabled then 1 else 0) else val);
      var similarVote := votes[clientId] == ballot;
      StoreBallot(clientId, ballot);
      if similarVote && votedOn {
        assert Value() == old(Value());
        return 0;
      }
      rc := Settle(clientId, cbRc);
    }

    method Settle(clientId: nat, cbRc: Int32) returns (rc: Int32)
      requires Valid() && clientId < |names| && ArmOf(votableType).Some?
      modifies this
      ensures Valid() && names == old(names)
      ensures (Value(), rc) == VoterSpec.Settle(old(Value()), clientId, cbRc)
    {
      var effRes, effId := Elect(clientId);
      rc := 0;
      if !votedOn || effRes != effectiveResult {
        rc := Adopt(effRes, effId, cbRc);
      }
      votedOn := true;
    }

    /** Record a changed outcome and report it, unless a force or an override hides it. */
    method Adopt(effRes: Int32, effId: int, cbRc: Int32) returns (rc: Int32)
      requires Valid() && (effId == -EINVAL || 0 <= effId < |names|)
      modifies this`effectiveId, this`effectiveResult, this`delivered
      ensures Valid()
      ensures (Value(), rc) == VoterSpec.Adopt(old(Value()), effRes, effId, cbRc)
    {
      effectiveId := effId;
      effectiveResult := effRes;
      rc := 0;
      if hasCallback && !forceActive && overrideResult == -EINVAL {
        var who := GetClientStr(effId);
        Callback(effRes, who);
        rc := cbRc;
      }
    }

    /** oplus_vote_override */
    method VoteOverride(client: string, enabled: bool, val: Int32, cbRc: Int32) returns (rc: Int32)
      requires Valid() && (hasCallback || forceActive)
      modifies this
      ensures Valid()
      ensures (Value(), rc) == VoterSpec.VoteOverride(old(Value()), client, enabled, val, cbRc)
    {
      if forceActive {
        overrideResult := if enabled then val else -EINVAL;
        return 0;
      }
      if enabled {
        Callback(val, Some(client));
        rc := cbRc;
        if rc == 0 {
          overrideClient := Some(client);
          overrideResult := val;
        }
      } else {
        var who := GetClientStr(effectiveId);
        Callback(effectiveResult, who);
        rc := cbRc;
        overrideResult := -EINVAL;
      }
    }

    /** oplus_rerun_election */
    method RerunElection(cbRc: Int32) returns (rc: Int32)
      requires Valid()
      modifies this`delivered
      ensures Valid()
      ensures (Value(), rc) == VoterSpec.RerunElection(old(Value()), cbRc)
    {
      rc := 0;
      var result := GetEffectiveResult();
      if hasCallback {
        var who := GetClientStr(effectiveId);
        Callback(result, who);
        rc := cbRc;
      }
    }

    /** force_active_set, the debugfs switch */
    method ForceActiveSet(val: nat, cbRc: Int32) returns (rc: Int32)
      requires Valid()
      modifies this`forceActive, this`delivered
      ensures Valid()
      ensures (Value(), rc) == VoterSpec.ForceActiveSet(old(Value()), val != 0, cbRc)
    {
      rc := 0;
      forceActive := val != 0;
      if !hasCallback {
        return;
      }
      if forceActive {
        Callback(ToInt32(forceVal), Some(DEBUG_FORCE_CLIENT));
      } else if overrideResult != -EINVAL {
        Callback(overrideResult, overrideClient);
      } else {
        var who := GetClientStr(effectiveId);
        Callback(effectiveResult, who);
      }
      rc := cbRc;
    }
  }
}
