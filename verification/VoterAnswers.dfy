/** What the entry points of a votable return to their callers and report to the callback. */
module VoterAnswers {
  import opened Kernel
  import opened VoterSpec
  import opened VoterTheorems

  /** Is the callback told of a vote that leads from one state to another? */
  predicate Told(s: State, s1: State) {
    s.hasCallback && !s.forceActive && s.overrideResult == -EINVAL
    && (!s.votedOn || s1.effectiveResult != s.effectiveResult)
  }

  lemma CastAnswers(s: State, id: nat, enabled: bool, val: Int32, cbRc: Int32)
    requires Consistent(s) && id < |s.names|
    ensures var (s1, rc) := CastInSlot(s, id, enabled, val, cbRc);
            && rc == (if Told(s, s1) then cbRc else 0)
            && s1.delivered ==
                 s.delivered + if Told(s, s1) then [Delivery(s1.effectiveResult, ClientStr(s1, s1.effectiveId))] else []
  {
  }

  /**
   Main result: a vote that is accepted tells the callback exactly when it is the first one or changes the result, and no
   override or force hides it; it then returns what the callback returned, and 0 otherwise.
   */
  lemma VoteAnswers(s: State, client: string, enabled: bool, val: Int32, allocOk: bool, cbRc: Int32)
    requires Consistent(s)
    ensures var (s1, rc) := Vote(s, client, enabled, val, allocOk, cbRc);
            client in s1.names ==>
              && rc == (if Told(s, s1) then cbRc else 0)
              && s1.delivered ==
                   s.delivered + if Told(s, s1) then [Delivery(s1.effectiveResult, ClientStr(s1, s1.effectiveId))] else []
  {
    RegisteringConsistent(s, client, allocOk);
    var (s1, id) := GetClientId(s, client, allocOk);
    if 0 <= id {
      CastAnswers(s1, id, enabled, val, cbRc);
    }
  }

  /** An override reports itself, a withdrawn one the elected pair, and returns the callback's code; a forced one neither. */
  lemma OverrideAnswers(s: State, client: string, enabled: bool, val: Int32, cbRc: Int32)
    requires s.hasCallback || s.forceActive
    ensures var (s1, rc) := VoteOverride(s, client, enabled, val, cbRc);
            var told := if enabled then Delivery(val, Some(client))
                        else Delivery(s.effectiveResult, ClientStr(s, s.effectiveId));
            && rc == (if s.forceActive then 0 else cbRc)
            && s1.delivered == s.delivered + if s.forceActive then [] else [told]
  {
  }

  /** A rerun reports the effective result once and returns the callback's code. */
  lemma RerunAnswers(s: State, cbRc: Int32)
    ensures var (s1, rc) := RerunElection(s, cbRc);
            && rc == (if s.hasCallback then cbRc else 0)
            && EffectiveResult(s1) == EffectiveResult(s)
            && s1.delivered ==
                 s.delivered + if s.hasCallback then [Delivery(EffectiveResult(s), ClientStr(s, s.effectiveId))] else []
  {
  }

  /** The force switch reports what has become effective and returns the callback's code. */
  lemma ForceAnswers(s: State, active: bool, cbRc: Int32)
    ensures var (s1, rc) := ForceActiveSet(s, active, cbRc);
            && rc == (if s.hasCallback then cbRc else 0)
            && s1.delivered ==
                 s.delivered + (if s.hasCallback then [Delivery(EffectiveResult(s1), EffectiveClient(s1))] else [])
            && (active ==> EffectiveResult(s1) == ToInt32(s.forceVal) && EffectiveClient(s1) == Some(DEBUG_FORCE_CLIENT))
  {
  }

  /**
   An override cast while a force is active comes out when the force is lifted, with its value but under the name of
   the last override that was not forced; a withdrawal brings the elected pair out.
   */
  lemma ForcedOverrideComesOut(s: State, client: string, enabled: bool, val: Int32, cbRc: Int32, cbRc1: Int32)
    requires s.forceActive
    ensures var s1 := VoteOverride(s, client, enabled, val, cbRc).0;
            var s2 := ForceActiveSet(s1, false, cbRc1).0;
            && EffectiveResult(s1) == EffectiveResult(s)
            && EffectiveResult(s2) == (if enabled && val != -EINVAL then val else s.effectiveResult)
            && EffectiveClient(s2) ==
                 (if enabled && val != -EINVAL then s.overrideClient else ClientStr(s, s.effectiveId))
  {
  }

  // ---------- integer types ----------

  /** A fresh votable has no result, apart from type 2, whose result is then 0; only that one ignores the value of a vote. */
  lemma FreshTyped(votableType: int, hasCallback: bool)
    ensures Init(KindOf(votableType), hasCallback).effectiveResult == if votableType == 2 then 0 else -EINVAL
    ensures KindOf(votableType) == VoteSetAny <==> votableType == 2
  {
  }

  /** An enabled vote that is not at the far limit. */
  predicate Contends(b: Ballot, limit: Int32) {
    b.enabled && b.value != limit
  }

  /** The least of the enabled values below INT_MAX, or -EINVAL. */
  ghost predicate IsLeast(m: Table, r: Int32) {
    if exists c :: c in m && Contends(m[c], INT_MAX)
    then (exists c :: c in m && Contends(m[c], INT_MAX) && m[c].value == r)
         && forall c :: c in m && Contends(m[c], INT_MAX) ==> r <= m[c].value
    else r == -EINVAL
  }

  /** The greatest of the enabled values above INT_MIN, or -EINVAL. */
  ghost predicate IsGreatest(m: Table, r: Int32) {
    if exists c :: c in m && Contends(m[c], INT_MIN)
    then (exists c :: c in m && Contends(m[c], INT_MIN) && m[c].value == r)
         && forall c :: c in m && Contends(m[c], INT_MIN) ==> r >= m[c].value
    else r == -EINVAL
  }

  /**
   Main result: a vote on a votable of any type that creation accepts stores the client's ballot unless the client can have
   no slot. Type 0 has the least and type 1 the greatest of the enabled values off the far limit, and type 2 whether any
   is enabled; types without an election keep their result.
   */
  lemma TypedVoteElects(votableType: int, s: State, client: string, enabled: bool, val: Int32, allocOk: bool, cbRc: Int32)
    requires Creatable(votableType) && Consistent(s) && s.kind == KindOf(votableType)
    ensures var (s1, rc, held) := TypedVote(votableType, s, client, enabled, val, allocOk, cbRc);
            var m, m1, r := TableOf(s), TableOf(s1), s1.effectiveResult;
            var refused := client !in m && (|m| == NUM_MAX_CLIENTS || !allocOk);
            && (refused ==> s1 == s && !held && rc == if |m| == NUM_MAX_CLIENTS then -EINVAL else -ENOMEM)
            && (!refused ==>
                  m1 == m[client := Ballot(enabled, if votableType != 2 then val else if enabled then 1 else 0)])
            && (held ==> votableType < 0 && r == s.effectiveResult)
            && (votableType == 0 ==> IsLeast(m1, r))
            && (votableType == 1 ==> IsGreatest(m1, r))
            && (votableType == 2 ==> r == if exists c :: c in m1 && m1[c].enabled then 1 else 0)
  {
    TableSize(s);
    if votableType < 0 {
      DefaultArmStores(s, client, enabled, val, allocOk);
    } else {
      RefusedVote(s, client, enabled, val, allocOk, cbRc);
      VoteOnMap(s, client, enabled, val, allocOk, cbRc);
      VoteElects(s, client, enabled, val, allocOk, cbRc);
    }
  }

  lemma VoteElects(s: State, client: string, enabled: bool, val: Int32, allocOk: bool, cbRc: Int32)
    requires Consistent(s)
    ensures var s1 := Vote(s, client, enabled, val, allocOk, cbRc).0;
            var m1, r := TableOf(s1), s1.effectiveResult;
            && s1.kind == s.kind
            && (s.kind == VoteMin ==> IsLeast(m1, r))
            && (s.kind == VoteMax ==> IsGreatest(m1, r))
            && (s.kind == VoteSetAny ==> r == if exists c :: c in m1 && m1[c].enabled then 1 else 0)
  {
    var call := Call(OpVote(client, enabled, val, allocOk), cbRc);
    TableRefinesMap(s, call);
    ConsistentStep(s, call);
    var s1 := Apply(s, call);
    ResultIsElected(s1);
    ElectedInNumbers(s1.kind, TableOf(s1), s1.effectiveResult);
  }

  lemma DefaultArmStores(s: State, client: string, enabled: bool, val: Int32, allocOk: bool)
    requires WellFormed(s)
    ensures var (s1, rc, held) := VoteInDefaultArm(s, client, enabled, val, allocOk);
            var m := TableOf(s);
            var refused := client !in m && (|m| == NUM_MAX_CLIENTS || !allocOk);
            && (refused ==> s1 == s && !held && rc == if |m| == NUM_MAX_CLIENTS then -EINVAL else -ENOMEM)
            && (!refused ==> TableOf(s1) == m[client := Ballot(enabled, val)])
            && s1.effectiveResult == s.effectiveResult
  {
    TableSize(s);
    SlotOrNot(s, client, allocOk);
    var (s0, id) := GetClientId(s, client, allocOk);
    if 0 <= id {
      DefaultArmInSlot(s, client, enabled, val, allocOk);
      RegisteredThenStored(s, client, allocOk, Ballot(enabled, val));
    }
  }

  lemma SlotOrNot(s: State, client: string, allocOk: bool)
    requires WellFormed(s)
    ensures GetClientId(s, client, allocOk).1 < 0 <==>
              client !in TableOf(s) && (|TableOf(s)| == NUM_MAX_CLIENTS || !allocOk)
  {
    TableSize(s);
    TableAfterRegistering(s, client, allocOk);
  }

  lemma RegisteredThenStored(s: State, client: string, allocOk: bool, ballot: Ballot)
    requires WellFormed(s) && GetClientId(s, client, allocOk).1 >= 0
    ensures var (s0, id) := GetClientId(s, client, allocOk);
            TableOf(s0.(ballots := s0.ballots[id := ballot])) == TableOf(s)[client := ballot]
  {
    var (s0, id) := GetClientId(s, client, allocOk);
    TableAfterRegistering(s, client, allocOk);
    TableAfterStoring(s0, id, ballot);
    StoredTwice(TableOf(s), client, Ballot(false, 0), ballot);
  }

  lemma StoredTwice(m: Table, client: string, first: Ballot, second: Ballot)
    ensures m[client := first][client := second] == m[client := second]
  {
  }

  lemma DefaultArmInSlot(s: State, client: string, enabled: bool, val: Int32, allocOk: bool)
    requires WellFormed(s) && GetClientId(s, client, allocOk).1 >= 0
    ensures var (s0, id) := GetClientId(s, client, allocOk);
            VoteInDefaultArm(s, client, enabled, val, allocOk).0 == s0.(ballots := s0.ballots[id := Ballot(enabled, val)])
  {
    var (s0, id) := GetClientId(s, client, allocOk);
    assert s0.ballots[id] == Ballot(enabled, val) ==> s0.ballots[id := Ballot(enabled, val)] == s0.ballots;
  }

  lemma TableAfterStoring(s: State, id: nat, ballot: Ballot)
    requires WellFormed(s) && id < |s.names|
    ensures TableOf(s.(ballots := s.ballots[id := ballot])) == TableOf(s)[s.names[id] := ballot]
  {
    ZipAfterStoring(s.names, s.ballots, id, ballot);
  }

  lemma ElectedInNumbers(kind: Kind, m: Table, r: Int32)
    requires Elected(kind, m, r)
    ensures kind == VoteMin ==> IsLeast(m, r)
    ensures kind == VoteMax ==> IsGreatest(m, r)
  {
    if kind != VoteSetAny && exists c :: c in m && CanWin(kind, m[c]) {
      var c :| c in m && CanWin(kind, m[c]);
      assert m[c].enabled && !Beats(kind, m[c].value, r);
    }
    assert forall c :: c in m && kind == VoteMin ==> (CanWin(kind, m[c]) <==> Contends(m[c], INT_MAX));
    assert forall c :: c in m && kind == VoteMax ==> (CanWin(kind, m[c]) <==> Contends(m[c], INT_MIN));
  }
}
