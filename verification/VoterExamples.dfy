/** Runs from a fresh votable that reach the states in which its documentation and its code part ways. */
module VoterExamples {
  import opened Kernel
  import opened VoterSpec
  import opened VoterTheorems

  const A := "A"
  const B := "B"

  function VoteOf(client: string, enabled: bool, val: Int32): Call {
    Call(OpVote(client, enabled, val, true), 0)
  }

  lemma ElectOne(kind: Kind, b: Ballot)
    ensures Winner(kind, [b]) == if b.enabled && Beats(kind, b.value, Worst(kind)) then 0 else -EINVAL
  {
    assert [b][..0] == [];
  }

  lemma ElectTwo(kind: Kind, a: Ballot, b: Ballot)
    ensures var best := if CanWin(kind, a) then a.value else Worst(kind);
            Winner(kind, [a, b]) ==
              if b.enabled && Beats(kind, b.value, best) then 1 else if CanWin(kind, a) then 0 else -EINVAL
  {
    ElectOne(kind, a);
    assert [a, b][..1] == [a];
  }

  /** The state after a run, with the deliveries made. */
  function Minimum(names: seq<string>, ballots: seq<Ballot>, id: int, result: Int32, delivered: seq<Delivery>): State {
    State(VoteMin, true, names, ballots, id, result, true, -EINVAL, None, false, 0, delivered)
  }

  /** The first client's first vote. */
  lemma FirstVote(enabled: bool, val: Int32)
    ensures var b := Ballot(enabled, val);
            var id := if CanWin(VoteMin, b) then 0 else -EINVAL;
            var r := if CanWin(VoteMin, b) then val else -EINVAL;
            Apply(Init(VoteMin, true), VoteOf(A, enabled, val)) ==
              Minimum([A], [b], id, r, [Delivery(r, if id == 0 then Some(A) else None)])
  {
    var b := Ballot(enabled, val);
    ElectOne(VoteMin, b);
    assert [Ballot(false, 0)][0 := b] == [b];
    assert [] + [A] == [A];
  }

  lemma RunOne(s: State, c: Call)
    requires WellFormed(s)
    ensures Run(s, [c]) == Apply(s, c)
  {
    assert [c][1..] == [];
  }

  lemma RunFirst(s: State, c: Call, rest: seq<Call>)
    requires WellFormed(s)
    ensures Run(s, [c] + rest) == Run(Apply(s, c), rest)
  {
    assert ([c] + rest)[1..] == rest;
  }

  /** A single MIN vote of INT_MAX: the result is -EINVAL although a vote is enabled. */
  lemma LimitVoteLoses()
    ensures var s := Run(Init(VoteMin, true), [VoteOf(A, true, INT_MAX)]);
            s.effectiveResult == -EINVAL && !Documented(s.kind, TableOf(s), s.effectiveResult)
  {
    FirstVote(true, INT_MAX);
    RunOne(Init(VoteMin, true), VoteOf(A, true, INT_MAX));
    var s := Run(Init(VoteMin, true), [VoteOf(A, true, INT_MAX)]);
    assert s.names[0] == A && TableOf(s)[A] == Ballot(true, INT_MAX);
  }

  /** A query of a fresh SET_ANY votable answers 0, not -EINVAL. */
  lemma UnknownClientHasZero()
    ensures ClientVote(Init(VoteSetAny, true), A, true) == 0
  {
  }

  /** An override the callback rejects has been delivered all the same. */
  lemma RejectedOverrideIsStale()
    ensures var s := Run(Init(VoteMin, true), [VoteOf(A, true, 5), Call(OpOverride(B, true, 7), -1)]);
            !InSync(s) && EffectiveResult(s) == 5
  {
    FirstVote(true, 5);
    RunFirst(Init(VoteMin, true), VoteOf(A, true, 5), [Call(OpOverride(B, true, 7), -1)]);
    RunOne(Apply(Init(VoteMin, true), VoteOf(A, true, 5)), Call(OpOverride(B, true, 7), -1));
  }

  /** An override of -EINVAL is delivered but does not take effect. */
  lemma EinvalOverrideIsStale()
    ensures var s := Run(Init(VoteMin, true), [VoteOf(A, true, 5), Call(OpOverride(B, true, -EINVAL), 0)]);
            !InSync(s) && EffectiveResult(s) == 5
  {
    FirstVote(true, 5);
    RunFirst(Init(VoteMin, true), VoteOf(A, true, 5), [Call(OpOverride(B, true, -EINVAL), 0)]);
    RunOne(Apply(Init(VoteMin, true), VoteOf(A, true, 5)), Call(OpOverride(B, true, -EINVAL), 0));
  }

  /** A force value edited while it is in use is not delivered. */
  lemma EditedForceIsStale()
    ensures var s := Run(Init(VoteMin, true), [Call(OpForce(true), 0), Call(OpForceVal(1), 0)]);
            !InSync(s) && EffectiveResult(s) == 1
  {
    RunFirst(Init(VoteMin, true), Call(OpForce(true), 0), [Call(OpForceVal(1), 0)]);
    RunOne(Apply(Init(VoteMin, true), Call(OpForce(true), 0)), Call(OpForceVal(1), 0));
  }

  /** A rerun under an override delivers the override's value with the elected client's name. */
  lemma RerunNamesElected()
    ensures var calls := [VoteOf(A, true, 5)] + ([Call(OpOverride(B, true, 7), 0)] + [Call(OpRerun, 0)]);
            var s := Run(Init(VoteMin, true), calls);
            && s.delivered != [] && s.delivered[|s.delivered| - 1] == Delivery(7, Some(A))
            && EffectiveClient(s) == Some(B)
  {
    var vote, override := VoteOf(A, true, 5), Call(OpOverride(B, true, 7), 0);
    FirstVote(true, 5);
    var s1 := Apply(Init(VoteMin, true), vote);
    RunFirst(Init(VoteMin, true), vote, [override] + [Call(OpRerun, 0)]);
    RunFirst(s1, override, [Call(OpRerun, 0)]);
    RunOne(Apply(s1, override), Call(OpRerun, 0));
  }

  /** A second client's first vote, other than the one a new slot stands for, leads to an election. */
  lemma SecondVote(s: State, a: Ballot, enabled: bool, val: Int32)
    requires s.names == [A] && s.ballots == [a] && WellFormed(s) && s.kind == VoteMin && s.votedOn
    requires enabled || val != 0
    ensures Apply(s, VoteOf(B, enabled, val)) ==
              Settle(s.(names := [A, B], ballots := [a, Ballot(enabled, val)]), 1, 0).0
  {
    assert [A] + [B] == [A, B] && [a] + [Ballot(false, 0)] == [a, Ballot(false, 0)];
    assert [a, Ballot(false, 0)][1 := Ballot(enabled, val)] == [a, Ballot(enabled, val)];
    assert IndexOf([A], B) == 1;
  }

  /** A later vote of a client in its slot. */
  lemma LaterVote(s: State, id: nat, a: Ballot, b: Ballot, enabled: bool, val: Int32)
    requires s.names == [A, B] && s.ballots == [a, b] && WellFormed(s) && s.kind == VoteMin && s.votedOn
    requires id < 2 && s.ballots[id] != Ballot(enabled, val)
    ensures Apply(s, VoteOf([A, B][id], enabled, val)) ==
              Settle(s.(ballots := if id == 0 then [Ballot(enabled, val), b] else [a, Ballot(enabled, val)]), id, 0).0
  {
    assert [a, b][0 := Ballot(enabled, val)] == [Ballot(enabled, val), b];
    assert [a, b][1 := Ballot(enabled, val)] == [a, Ballot(enabled, val)];
    IndexOfTwo();
  }

  lemma IndexOfTwo()
    ensures IndexOf([A, B], A) == 0 && IndexOf([A, B], B) == 1
  {
    assert [A, B][1..] == [B];
  }

  const OFF := Ballot(false, 5)
  const FIVE := Ballot(true, 5)
  const NO_WINNER := Delivery(-EINVAL, None)
  const B_WINS := Delivery(5, Some(B))

  lemma BTakesOver()
    ensures Apply(Minimum([A], [OFF], -EINVAL, -EINVAL, [NO_WINNER]), VoteOf(B, true, 5)) ==
              Minimum([A, B], [OFF, FIVE], 1, 5, [NO_WINNER, B_WINS])
  {
    SecondVote(Minimum([A], [OFF], -EINVAL, -EINVAL, [NO_WINNER]), OFF, true, 5);
    ElectTwo(VoteMin, OFF, FIVE);
    assert [NO_WINNER] + [B_WINS] == [NO_WINNER, B_WINS];
  }

  lemma AJoins()
    ensures Apply(Minimum([A, B], [OFF, FIVE], 1, 5, [NO_WINNER, B_WINS]), VoteOf(A, true, 5)) ==
              Minimum([A, B], [FIVE, FIVE], 1, 5, [NO_WINNER, B_WINS])
  {
    LaterVote(Minimum([A, B], [OFF, FIVE], 1, 5, [NO_WINNER, B_WINS]), 0, OFF, FIVE, true, 5);
    ElectTwo(VoteMin, FIVE, FIVE);
  }

  lemma BLeaves(enabled: bool, val: Int32)
    requires !enabled || val > 5
    ensures Apply(Minimum([A, B], [FIVE, FIVE], 1, 5, [NO_WINNER, B_WINS]), VoteOf(B, enabled, val)) ==
              Minimum([A, B], [FIVE, Ballot(enabled, val)], 1, 5, [NO_WINNER, B_WINS])
  {
    LaterVote(Minimum([A, B], [FIVE, FIVE], 1, 5, [NO_WINNER, B_WINS]), 1, FIVE, FIVE, enabled, val);
    ElectTwo(VoteMin, FIVE, Ballot(enabled, val));
  }

  /**
   A off, B on 5, A on 5, and B withdraws or votes more instead: B stays the effective client of a result of 5
   that it does not vote for.
   */
  lemma WithdrawnClientStays(enabled: bool, val: Int32)
    requires !enabled || val > 5
    ensures var calls := [VoteOf(A, false, 5)]
                         + ([VoteOf(B, true, 5)] + ([VoteOf(A, true, 5)] + [VoteOf(B, enabled, val)]));
            var s := Run(Init(VoteMin, true), calls);
            && EffectiveClient(s) == Some(B) && EffectiveResult(s) == 5
            && B in TableOf(s) && TableOf(s)[B] == Ballot(enabled, val) && !Backed(s)
  {
    var last := VoteOf(B, enabled, val);
    FirstVote(false, 5);
    BTakesOver();
    AJoins();
    BLeaves(enabled, val);
    RunFirst(Init(VoteMin, true), VoteOf(A, false, 5), [VoteOf(B, true, 5)] + ([VoteOf(A, true, 5)] + [last]));
    RunFirst(Minimum([A], [OFF], -EINVAL, -EINVAL, [NO_WINNER]), VoteOf(B, true, 5), [VoteOf(A, true, 5)] + [last]);
    RunFirst(Minimum([A, B], [OFF, FIVE], 1, 5, [NO_WINNER, B_WINS]), VoteOf(A, true, 5), [last]);
    RunOne(Minimum([A, B], [FIVE, FIVE], 1, 5, [NO_WINNER, B_WINS]), last);
    LeftBehind(Ballot(enabled, val));
  }

  lemma LeftBehind(b: Ballot)
    requires !b.enabled || b.value > 5
    ensures var s := Minimum([A, B], [FIVE, b], 1, 5, [NO_WINNER, B_WINS]);
            WellFormed(s) && B in TableOf(s) && TableOf(s)[B] == b && !Backed(s)
  {
    ElectTwo(VoteMin, FIVE, b);
    IndexOfTwo();
  }
}
