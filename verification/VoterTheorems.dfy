/**
 What a votable guarantees over any run of its entry points: the stored outcome is the election over
 every client's last vote, the table is a map of bounded size, and the callback's owner is up to date.
 */
module VoterTheorems {
  import opened Kernel
  import opened VoterSpec

  type Table = map<string, Ballot>

  /** The vote table as a map from client to its last vote. */
  ghost function TableOf(s: State): Table
    requires WellFormed(s)
  {
    Zip(s.names, s.ballots)
  }

  ghost function Zip(names: seq<string>, ballots: seq<Ballot>): Table
    requires |names| == |ballots|
  {
    map n | n in names :: ballots[IndexOf(names, n)]
  }

  lemma ZipAt(names: seq<string>, ballots: seq<Ballot>, i: nat)
    requires |names| == |ballots| && Distinct(names) && i < |names|
    ensures names[i] in Zip(names, ballots) && Zip(names, ballots)[names[i]] == ballots[i]
  {
  }

  // ---------- the election, on the map ----------

  /** What vote_min, vote_max and vote_set_any really elect: a ballot at the far limit cannot win. */
  ghost predicate Elected(kind: Kind, m: Table, r: Int32) {
    if kind == VoteSetAny then r == if exists c :: c in m && m[c].enabled then 1 else 0
    else if exists c :: c in m && CanWin(kind, m[c]) then
      && (exists c :: c in m && m[c].enabled && m[c].value == r)
      && (forall c :: c in m && m[c].enabled ==> !Beats(kind, m[c].value, r))
    else r == -EINVAL
  }

  /** What the comments promise: -EINVAL only without an enabled vote, as the getter has it (vote_min says INT_MAX). */
  ghost predicate Documented(kind: Kind, m: Table, r: Int32) {
    if kind == VoteSetAny then r == if exists c :: c in m && m[c].enabled then 1 else 0
    else if exists c :: c in m && m[c].enabled then
      && (exists c :: c in m && m[c].enabled && m[c].value == r)
      && (forall c :: c in m && m[c].enabled ==> !Beats(kind, m[c].value, r))
    else r == -EINVAL
  }

  predicate CanWin(kind: Kind, b: Ballot) {
    b.enabled && Beats(kind, b.value, Worst(kind))
  }

  lemma ElectedIsUnique(kind: Kind, m: Table, r1: Int32, r2: Int32)
    requires Elected(kind, m, r1) && Elected(kind, m, r2)
    ensures r1 == r2
  {
  }

  /** The scan finds the earliest enabled ballot that no enabled ballot beats, if any can win at all. */
  lemma {:induction false} WinnerIsBest(kind: Kind, bs: seq<Ballot>)
    requires kind != VoteSetAny
    ensures var id := Winner(kind, bs);
            if id == -EINVAL then forall i :: 0 <= i < |bs| ==> !CanWin(kind, bs[i])
            else
              && CanWin(kind, bs[id])
              && (forall i :: 0 <= i < |bs| && bs[i].enabled ==> !Beats(kind, bs[i].value, bs[id].value))
              && (forall i :: 0 <= i < id && bs[i].enabled ==> bs[i].value != bs[id].value)
  {
    if bs == [] {
    } else {
      WinnerIsBest(kind, bs[..|bs| - 1]);
    }
  }

  lemma ResultIsElected(s: State)
    requires WellFormed(s)
    ensures Elected(s.kind, TableOf(s), Result(s.kind, s.ballots))
  {
    var m := TableOf(s);
    forall i | 0 <= i < |s.names| ensures s.names[i] in m && m[s.names[i]] == s.ballots[i] {
      ZipAt(s.names, s.ballots, i);
    }
    ElectedFromSlots(s.kind, s.names, s.ballots, m);
  }

  lemma ElectedFromSlots(kind: Kind, names: seq<string>, bs: seq<Ballot>, m: Table)
    requires |names| == |bs|
    requires forall i :: 0 <= i < |names| ==> names[i] in m && m[names[i]] == bs[i]
    requires forall c :: c in m ==> c in names
    ensures Elected(kind, m, Result(kind, bs))
  {
    if kind == VoteSetAny {
      assert forall c :: c in m ==> exists i :: 0 <= i < |bs| && names[i] == c && m[c] == bs[i];
    } else {
      WinnerIsBest(kind, bs);
      var id := Winner(kind, bs);
      if id == -EINVAL {
        forall c | c in m ensures !CanWin(kind, m[c]) {
          var i :| 0 <= i < |names| && names[i] == c;
        }
      } else {
        assert names[id] in m && CanWin(kind, m[names[id]]);
        forall c | c in m && m[c].enabled ensures !Beats(kind, m[c].value, bs[id].value) {
          var i :| 0 <= i < |names| && names[i] == c;
        }
      }
    }
  }

  /** The code meets its comments exactly when some enabled vote, if there is one, is off the far limit. */
  lemma DocumentedIff(kind: Kind, m: Table, r: Int32)
    requires Elected(kind, m, r)
    ensures Documented(kind, m, r) <==>
              (kind == VoteSetAny
               || (exists c :: c in m && CanWin(kind, m[c]))
               || forall c :: c in m ==> !m[c].enabled)
  {
    if kind != VoteSetAny && !(exists c :: c in m && CanWin(kind, m[c])) && exists c :: c in m && m[c].enabled {
      var c :| c in m && m[c].enabled;
      assert !Beats(kind, m[c].value, Worst(kind)) && m[c].value == Worst(kind);
    }
  }

  // ---------- the stored outcome ----------

  /** Holds between any two calls. */
  ghost predicate Consistent(s: State) {
    && WellFormed(s)
    && s.effectiveResult == Result(s.kind, s.ballots)
    && (s.kind == VoteSetAny ==>
          forall i :: 0 <= i < |s.ballots| ==> s.ballots[i].value == if s.ballots[i].enabled then 1 else 0)
    && (!s.hasCallback ==> s.delivered == [])
  }

  lemma NewClientChangesNothing(s: State, client: string, allocOk: bool)
    requires WellFormed(s)
    ensures Result(s.kind, GetClientId(s, client, allocOk).0.ballots) == Result(s.kind, s.ballots)
  {
    var bs := s.ballots + [Ballot(false, 0)];
    assert bs[..|bs| - 1] == s.ballots;
    assert forall i :: 0 <= i < |s.ballots| ==> bs[i] == s.ballots[i];
  }

  lemma CastConsistent(s: State, id: nat, enabled: bool, val: Int32, cbRc: Int32)
    requires Consistent(s) && id < |s.names|
    ensures Consistent(CastInSlot(s, id, enabled, val, cbRc).0)
  {
  }

  lemma RegisteringConsistent(s: State, client: string, allocOk: bool)
    requires Consistent(s)
    ensures Consistent(GetClientId(s, client, allocOk).0)
  {
    NewClientChangesNothing(s, client, allocOk);
  }

  lemma OverrideConsistent(s: State, client: string, enabled: bool, val: Int32, cbRc: Int32)
    requires Consistent(s) && (s.hasCallback || s.forceActive)
    ensures Consistent(VoteOverride(s, client, enabled, val, cbRc).0)
  {
  }

  lemma ConsistentStep(s: State, c: Call)
    requires Consistent(s)
    ensures Consistent(Apply(s, c))
  {
    match c.op
    case OpVote(client, enabled, val, allocOk) =>
      RegisteringConsistent(s, client, allocOk);
      var (s1, id) := GetClientId(s, client, allocOk);
      if 0 <= id {
        CastConsistent(s1, id, enabled, val, c.cbRc);
      }
    case OpQuery(client, allocOk) => RegisteringConsistent(s, client, allocOk);
    case OpOverride(client, enabled, val) =>
      if Callable(s, c.op) {
        OverrideConsistent(s, client, enabled, val, c.cbRc);
      }
    case _ =>
  }

  lemma {:induction false} ConsistentRun(s: State, calls: seq<Call>)
    requires Consistent(s)
    ensures Consistent(Run(s, calls))
    decreases |calls|
  {
    if calls == [] {
    } else {
      ConsistentStep(s, calls[0]);
      ConsistentRun(Apply(s, calls[0]), calls[1..]);
    }
  }

  /** Main result: in every reachable state the stored outcome is the one elected by the table. */
  lemma StoredOutcomeIsElected(kind: Kind, hasCallback: bool, calls: seq<Call>)
    ensures var s := Run(Init(kind, hasCallback), calls);
            Elected(s.kind, TableOf(s), s.effectiveResult)
  {
    ConsistentRun(Init(kind, hasCallback), calls);
    ResultIsElected(Run(Init(kind, hasCallback), calls));
  }

  // ---------- the table is a map of at most 32 clients ----------

  lemma {:induction false} TableSize(s: State)
    requires WellFormed(s)
    ensures |TableOf(s)| == |s.names|
  {
    NamesSize(s.names);
    assert TableOf(s).Keys == set n | n in s.names;
  }

  lemma {:induction false} NamesSize(names: seq<string>)
    requires Distinct(names)
    ensures |set n | n in names| == |names|
  {
    if names == [] {
    } else {
      NamesSize(names[1..]);
      assert (set n | n in names) == {names[0]} + (set n | n in names[1..]);
    }
  }

  function Normal(kind: Kind, enabled: bool, val: Int32): Ballot {
    Ballot(enabled, if kind == VoteSetAny then (if enabled then 1 else 0) else val)
  }

  /** The same call on the map: known clients and, while there is room, new ones get their entry. */
  ghost function ApplyToMap(kind: Kind, m: Table, op: Op): Table {
    match op
    case OpVote(client, enabled, val, allocOk) =>
      if client in m || (|m| < NUM_MAX_CLIENTS && allocOk) then m[client := Normal(kind, enabled, val)] else m
    case OpQuery(client, allocOk) =>
      if client !in m && |m| < NUM_MAX_CLIENTS && allocOk then m[client := Ballot(false, 0)] else m
    case _ => m
  }

  lemma ZipAfterAppending(names: seq<string>, ballots: seq<Ballot>, client: string, ballot: Ballot)
    requires |names| == |ballots| && Distinct(names) && client !in names
    ensures Zip(names + [client], ballots + [ballot]) == Zip(names, ballots)[client := ballot]
  {
    var ns, bs := names + [client], ballots + [ballot];
    assert ns[|names|] == client;
    ZipAt(ns, bs, |names|);
    forall n | n in names ensures Zip(ns, bs)[n] == Zip(names, ballots)[n] {
      var i := IndexOf(names, n);
      assert ns[i] == n;
      ZipAt(ns, bs, i);
    }
    assert forall n :: n in ns <==> n in names || n == client;
  }

  lemma ZipAfterStoring(names: seq<string>, ballots: seq<Ballot>, id: nat, ballot: Ballot)
    requires |names| == |ballots| && Distinct(names) && id < |names|
    ensures Zip(names, ballots[id := ballot]) == Zip(names, ballots)[names[id] := ballot]
  {
    ZipAt(names, ballots[id := ballot], id);
  }

  lemma TableAfterRegistering(s: State, client: string, allocOk: bool)
    requires WellFormed(s)
    ensures var (s1, id) := GetClientId(s, client, allocOk);
            && TableOf(s1) == ApplyToMap(s.kind, TableOf(s), OpQuery(client, allocOk))
            && (0 <= id <==> client in TableOf(s) || (|TableOf(s)| < NUM_MAX_CLIENTS && allocOk))
  {
    TableSize(s);
    if client !in s.names {
      ZipAfterAppending(s.names, s.ballots, client, Ballot(false, 0));
    }
  }

  lemma TableAfterCasting(s: State, id: nat, enabled: bool, val: Int32, cbRc: Int32)
    requires WellFormed(s) && id < |s.names|
    ensures var s1 := CastInSlot(s, id, enabled, val, cbRc).0;
            TableOf(s1) == TableOf(s)[s.names[id] := Normal(s.kind, enabled, val)] && s1.kind == s.kind
  {
    ZipAfterStoring(s.names, s.ballots, id, Normal(s.kind, enabled, val));
    SlotsAfterCasting(s, id, enabled, val, cbRc);
  }

  lemma SlotsAfterCasting(s: State, id: nat, enabled: bool, val: Int32, cbRc: Int32)
    requires WellFormed(s) && id < |s.names|
    ensures var s1 := CastInSlot(s, id, enabled, val, cbRc).0;
            s1.ballots == s.ballots[id := Normal(s.kind, enabled, val)] && s1.kind == s.kind
  {
  }

  lemma VoteOnMap(s: State, client: string, enabled: bool, val: Int32, allocOk: bool, cbRc: Int32)
    requires WellFormed(s)
    ensures var s1 := Vote(s, client, enabled, val, allocOk, cbRc).0;
            && TableOf(s1) == ApplyToMap(s.kind, TableOf(s), OpVote(client, enabled, val, allocOk))
            && s1.kind == s.kind
  {
    TableAfterRegistering(s, client, allocOk);
    RegisterThenVote(s.kind, TableOf(s), client, enabled, val, allocOk);
    var (s1, id) := GetClientId(s, client, allocOk);
    if 0 <= id {
      TableAfterCasting(s1, id, enabled, val, cbRc);
      assert s1.names[id] == client && s1.kind == s.kind;
      assert Vote(s, client, enabled, val, allocOk, cbRc) == CastInSlot(s1, id, enabled, val, cbRc);
    } else {
      assert Vote(s, client, enabled, val, allocOk, cbRc).0 == s;
    }
  }

  /** On the map too, a vote registers its client and then stores the ballot. */
  lemma RegisterThenVote(kind: Kind, m: Table, client: string, enabled: bool, val: Int32, allocOk: bool)
    ensures ApplyToMap(kind, m, OpVote(client, enabled, val, allocOk)) ==
            if client in m || (|m| < NUM_MAX_CLIENTS && allocOk)
            then ApplyToMap(kind, m, OpQuery(client, allocOk))[client := Normal(kind, enabled, val)]
            else m
  {
  }

  lemma OtherCallsKeepSlots(s: State, c: Call)
    requires WellFormed(s) && !c.op.OpVote? && !c.op.OpQuery?
    ensures var s1 := Apply(s, c);
            s1.names == s.names && s1.ballots == s.ballots && s1.kind == s.kind
  {
  }

  /** Refinement: on the map, a call has exactly the effect of ApplyToMap. */
  lemma TableRefinesMap(s: State, c: Call)
    requires WellFormed(s)
    ensures TableOf(Apply(s, c)) == ApplyToMap(s.kind, TableOf(s), c.op)
    ensures Apply(s, c).kind == s.kind
  {
    match c.op
    case OpVote(client, enabled, val, allocOk) => VoteOnMap(s, client, enabled, val, allocOk, c.cbRc);
    case OpQuery(client, allocOk) => TableAfterRegistering(s, client, allocOk);
    case _ => OtherCallsKeepSlots(s, c);
  }

  /** A vote is refused exactly when its client is unknown and no slot can be had; then nothing changes. */
  lemma RefusedVote(s: State, client: string, enabled: bool, val: Int32, allocOk: bool, cbRc: Int32)
    requires WellFormed(s)
    ensures var (s1, rc) := Vote(s, client, enabled, val, allocOk, cbRc);
            var refused := client !in TableOf(s) && (|TableOf(s)| == NUM_MAX_CLIENTS || !allocOk);
            && (client !in TableOf(s1) <==> refused)
            && (refused ==> s1 == s && rc == if |TableOf(s)| == NUM_MAX_CLIENTS then -EINVAL else -ENOMEM)
            && (!refused ==> TableOf(s1)[client] == Normal(s.kind, enabled, val))
  {
    TableSize(s);
    TableAfterRegistering(s, client, allocOk);
    VoteOnMap(s, client, enabled, val, allocOk, cbRc);
  }

  /**
   A query answers as its comment says, with -EINVAL for a client that is unknown or not enabled, unless the
   votable is of type SET_ANY: there such a client gets the value 0, once it has its slot.
   */
  lemma ClientVoteDocumentedIff(s: State, client: string, allocOk: bool)
    requires Consistent(s)
    ensures var m := TableOf(s);
            var documented := if client in m && m[client].enabled then m[client].value else -EINVAL;
            ClientVote(s, client, allocOk) == documented <==>
              || s.kind != VoteSetAny
              || (client in m && m[client].enabled)
              || (client !in m && (|m| == NUM_MAX_CLIENTS || !allocOk))
  {
    TableSize(s);
    if client in s.names {
      ZipAt(s.names, s.ballots, IndexOf(s.names, client));
    }
  }

  // ---------- the default arm ----------

  /**
   On a votable of any type that creation accepts a vote returns with the lock held if and only if the type is
   negative and the client has or gets a slot. No election has been held there, so no vote is ignored.
   */
  lemma DefaultArmIff(votableType: int, s: State, client: string, enabled: bool, val: Int32, allocOk: bool, cbRc: Int32)
    requires Creatable(votableType) && WellFormed(s)
    requires votableType < 0 ==> !s.votedOn
    ensures TypedVote(votableType, s, client, enabled, val, allocOk, cbRc).2 <==>
              votableType < 0 && (client in TableOf(s) || (|TableOf(s)| < NUM_MAX_CLIENTS && allocOk))
  {
    TableAfterRegistering(s, client, allocOk);
  }

  /**
   Such a vote is held and answers -EINVAL, although its ballot is then in the table, unless an election has been held and
   the client, once it has its slot, has this ballot already. It neither elects nor reports anything.
   */
  lemma DefaultArmAnswers(s: State, client: string, enabled: bool, val: Int32, allocOk: bool)
    requires WellFormed(s)
    ensures var (s1, rc, held) := VoteInDefaultArm(s, client, enabled, val, allocOk);
            var (s0, id) := GetClientId(s, client, allocOk);
            && s1.names == s0.names
            && s1.effectiveResult == s.effectiveResult && s1.delivered == s.delivered
            && (held ==> rc == -EINVAL && client in s1.names
                         && s1.ballots[IndexOf(s1.names, client)] == Ballot(enabled, val))
            && (client in s0.names ==>
                  (held <==> !s.votedOn || s0.ballots[IndexOf(s0.names, client)] != Ballot(enabled, val)))
            && (!held ==> s1 == s0 && rc == if client in s0.names then 0 else id)
  {
    var (s1, id) := GetClientId(s, client, allocOk);
    if 0 <= id {
      assert s1.names[id] == client && IndexOf(s1.names, client) == id;
    }
  }

  /** What DefaultArmIff asks of a negative type holds from creation on: only a vote that gets to its end sets votedOn. */
  lemma NoElectionWithoutVotes(votableType: int, hasCallback: bool, calls: seq<Call>)
    requires forall i :: 0 <= i < |calls| ==> !calls[i].op.OpVote?
    ensures !Run(Init(KindOf(votableType), hasCallback), calls).votedOn
  {
    VotedOnKept(Init(KindOf(votableType), hasCallback), calls);
  }

  lemma OthersKeepVotedOn(s: State, c: Call)
    requires WellFormed(s) && !c.op.OpVote?
    ensures Apply(s, c).votedOn == s.votedOn
  {
  }

  lemma {:induction false} VotedOnKept(s: State, calls: seq<Call>)
    requires WellFormed(s) && forall i :: 0 <= i < |calls| ==> !calls[i].op.OpVote?
    ensures Run(s, calls).votedOn == s.votedOn
    decreases |calls|
  {
    if calls == [] {
    } else {
      assert !calls[0].op.OpVote?;
      OthersKeepVotedOn(s, calls[0]);
      VotedOnKept(Apply(s, calls[0]), calls[1..]);
    }
  }

  // ---------- the order of different clients' votes does not matter ----------

  predicate OnlyVotes(calls: seq<Call>) {
    forall i :: 0 <= i < |calls| ==> calls[i].op.OpVote? && calls[i].op.allocOk
  }

  function Voters(calls: seq<Call>): set<string>
    requires OnlyVotes(calls)
  {
    set i | 0 <= i < |calls| :: calls[i].op.client
  }

  /** One client's votes, in order. */
  function VotesOf(calls: seq<Call>, client: string): seq<(bool, Int32)>
    requires OnlyVotes(calls)
  {
    if calls == [] then []
    else
      (if calls[0].op.client == client then [(calls[0].op.enabled, calls[0].op.val)] else [])
      + VotesOf(calls[1..], client)
  }

  /** The entry the client ends up with: its last vote, or the entry it had. */
  ghost predicate HasLastVote(kind: Kind, before: Table, after: Table, calls: seq<Call>, client: string)
    requires OnlyVotes(calls)
  {
    var vs := VotesOf(calls, client);
    if vs == [] then (client in after <==> client in before) && (client in before ==> after[client] == before[client])
    else client in after && after[client] == Normal(kind, vs[|vs| - 1].0, vs[|vs| - 1].1)
  }

  /** There is room for the first voter, and then for the others. */
  lemma RoomForVoters(keys: set<string>, calls: seq<Call>)
    requires OnlyVotes(calls) && calls != []
    requires |keys + Voters(calls)| <= NUM_MAX_CLIENTS
    ensures calls[0].op.client in keys || |keys| < NUM_MAX_CLIENTS
    ensures |keys + {calls[0].op.client} + Voters(calls[1..])| <= NUM_MAX_CLIENTS
  {
    var voter, all := calls[0].op.client, keys + Voters(calls);
    assert voter in all;
    SubsetSize(keys + {voter}, all);
    forall c | c in Voters(calls[1..]) ensures c in all {
      var i :| 0 <= i < |calls| - 1 && calls[1..][i].op.client == c;
      assert calls[i + 1].op.client == c;
    }
    SubsetSize(keys + {voter} + Voters(calls[1..]), all);
  }

  /** The same run on the map alone. */
  ghost function RunOnMap(kind: Kind, m: Table, calls: seq<Call>): Table
    decreases |calls|
  {
    if calls == [] then m else RunOnMap(kind, ApplyToMap(kind, m, calls[0].op), calls[1..])
  }

  /** Main result: over any run of any entry points the table is the map that the same calls build. */
  lemma {:induction false} RunRefinesMap(s: State, calls: seq<Call>)
    requires WellFormed(s)
    ensures TableOf(Run(s, calls)) == RunOnMap(s.kind, TableOf(s), calls)
    ensures Run(s, calls).kind == s.kind
    decreases |calls|
  {
    if calls == [] {
    } else {
      TableRefinesMap(s, calls[0]);
      RunRefinesMap(Apply(s, calls[0]), calls[1..]);
    }
  }

  lemma VoteWithRoom(kind: Kind, m: Table, op: Op)
    requires op.OpVote? && op.allocOk && (op.client in m.Keys || |m.Keys| < NUM_MAX_CLIENTS)
    ensures var m1 := m[op.client := Normal(kind, op.enabled, op.val)];
            ApplyToMap(kind, m, op) == m1 && m1.Keys == m.Keys + {op.client}
  {
    assert |m| == |m.Keys|;
  }

  /** While there is room for all voters, the map ends with every client's last vote. */
  lemma {:induction false} MapHoldsLastVotes(kind: Kind, m: Table, calls: seq<Call>, client: string)
    requires OnlyVotes(calls) && |m.Keys + Voters(calls)| <= NUM_MAX_CLIENTS
    ensures HasLastVote(kind, m, RunOnMap(kind, m, calls), calls, client)
    decreases |calls|
  {
    if calls == [] {
    } else {
      var op := calls[0].op;
      var m1 := m[op.client := Normal(kind, op.enabled, op.val)];
      RoomForVoters(m.Keys, calls);
      VoteWithRoom(kind, m, op);
      MapHoldsLastVotes(kind, m1, calls[1..], client);
      PrependVote(kind, m, m1, RunOnMap(kind, m, calls), calls, client);
    }
  }

  lemma PrependVote(kind: Kind, m: Table, m1: Table, after: Table, calls: seq<Call>, client: string)
    requires OnlyVotes(calls) && calls != []
    requires m1 == m[calls[0].op.client := Normal(kind, calls[0].op.enabled, calls[0].op.val)]
    requires HasLastVote(kind, m1, after, calls[1..], client)
    ensures HasLastVote(kind, m, after, calls, client)
  {
  }

  lemma {:induction false} SubsetSize<T>(a: set<T>, b: set<T>)
    requires a <= b
    ensures |a| <= |b|
  {
    if a == {} {
    } else {
      var x :| x in a;
      SubsetSize(a - {x}, b - {x});
    }
  }

  /**
   Main result: two runs in which every client casts the same votes in the same order, however the
   clients interleave, end with the same table and the same elected outcome.
   */
  lemma InterleavingIsIrrelevant(s: State, a: seq<Call>, b: seq<Call>)
    requires Consistent(s) && OnlyVotes(a) && OnlyVotes(b)
    requires forall client :: VotesOf(a, client) == VotesOf(b, client)
    requires |TableOf(s).Keys + Voters(a)| <= NUM_MAX_CLIENTS
    ensures TableOf(Run(s, a)) == TableOf(Run(s, b))
    ensures Run(s, a).effectiveResult == Run(s, b).effectiveResult
  {
    SameMap(s.kind, TableOf(s), a, b);
    RunRefinesMap(s, a);
    RunRefinesMap(s, b);
    SameTableSameOutcome(s, a, b);
  }

  lemma SameMap(kind: Kind, m: Table, a: seq<Call>, b: seq<Call>)
    requires OnlyVotes(a) && OnlyVotes(b)
    requires forall client :: VotesOf(a, client) == VotesOf(b, client)
    requires |m.Keys + Voters(a)| <= NUM_MAX_CLIENTS
    ensures RunOnMap(kind, m, a) == RunOnMap(kind, m, b)
  {
    SameVoters(a, b);
    var ma, mb := RunOnMap(kind, m, a), RunOnMap(kind, m, b);
    forall client
      ensures (client in ma <==> client in mb) && (client in ma ==> ma[client] == mb[client])
    {
      MapHoldsLastVotes(kind, m, a, client);
      MapHoldsLastVotes(kind, m, b, client);
      SameEntry(kind, m, ma, mb, a, b, client);
    }
  }

  lemma SameEntry(kind: Kind, m: Table, ma: Table, mb: Table, a: seq<Call>, b: seq<Call>, client: string)
    requires OnlyVotes(a) && OnlyVotes(b) && VotesOf(a, client) == VotesOf(b, client)
    requires HasLastVote(kind, m, ma, a, client) && HasLastVote(kind, m, mb, b, client)
    ensures (client in ma <==> client in mb) && (client in ma ==> ma[client] == mb[client])
  {
  }

  lemma SameTableSameOutcome(s: State, a: seq<Call>, b: seq<Call>)
    requires Consistent(s) && TableOf(Run(s, a)) == TableOf(Run(s, b))
    ensures Run(s, a).effectiveResult == Run(s, b).effectiveResult
  {
    ConsistentRun(s, a);
    ConsistentRun(s, b);
    RunRefinesMap(s, a);
    RunRefinesMap(s, b);
    ResultIsElected(Run(s, a));
    ResultIsElected(Run(s, b));
    ElectedIsUnique(s.kind, TableOf(Run(s, a)), Run(s, a).effectiveResult, Run(s, b).effectiveResult);
  }

  lemma {:induction false} VotersCast(calls: seq<Call>, client: string)
    requires OnlyVotes(calls)
    ensures client in Voters(calls) <==> VotesOf(calls, client) != []
  {
    if calls == [] {
    } else {
      VotersCast(calls[1..], client);
      assert Voters(calls) == {calls[0].op.client} + Voters(calls[1..]);
    }
  }

  lemma SameVoters(a: seq<Call>, b: seq<Call>)
    requires OnlyVotes(a) && OnlyVotes(b)
    requires forall client :: VotesOf(a, client) == VotesOf(b, client)
    ensures Voters(a) == Voters(b)
  {
    forall client ensures client in Voters(a) <==> client in Voters(b) {
      VotersCast(a, client);
      VotersCast(b, client);
    }
  }

  // ---------- the last value delivered is the effective value ----------

  ghost predicate InSync(s: State) {
    s.delivered != [] ==> s.delivered[|s.delivered| - 1].result == EffectiveResult(s)
  }

  /** What a caller can check beforehand: the calls that leave the callback's owner with a stale value. */
  predicate KeepsSync(s: State, c: Call) {
    match c.op
    case OpForceVal(u) => s.forceActive && s.delivered != [] ==> ToInt32(u) == ToInt32(s.forceVal)
    case OpOverride(_, enabled, val) =>
      enabled && !s.forceActive ==>
        if c.cbRc != 0 then val == EffectiveResult(s)
        else val == -EINVAL ==> s.effectiveResult == -EINVAL
    case _ => true
  }

  /** From a state in sync, a call leaves the votable in sync if and only if KeepsSync says so. */
  lemma SyncStepIff(s: State, c: Call)
    requires Consistent(s) && InSync(s) && Callable(s, c.op)
    ensures InSync(Apply(s, c)) <==> KeepsSync(s, c)
  {
    match c.op
    case OpVote(client, enabled, val, allocOk) =>
      RegisteringConsistent(s, client, allocOk);
      var (s1, id) := GetClientId(s, client, allocOk);
      if 0 <= id {
        CastKeepsSync(s1, id, enabled, val, c.cbRc);
      }
    case OpOverride(client, enabled, val) => OverrideKeepsSyncIff(s, client, enabled, val, c.cbRc);
    case _ =>
  }

  lemma CastKeepsSync(s: State, id: nat, enabled: bool, val: Int32, cbRc: Int32)
    requires Consistent(s) && InSync(s) && id < |s.names|
    ensures InSync(CastInSlot(s, id, enabled, val, cbRc).0)
  {
  }

  lemma OverrideKeepsSyncIff(s: State, client: string, enabled: bool, val: Int32, cbRc: Int32)
    requires Consistent(s) && InSync(s) && (s.hasCallback || s.forceActive)
    ensures InSync(VoteOverride(s, client, enabled, val, cbRc).0) <==>
              KeepsSync(s, Call(OpOverride(client, enabled, val), cbRc))
  {
  }

  /** The callback always accepts, overrides are never -EINVAL and a force value is not edited while forced. */
  predicate Tame(s: State, calls: seq<Call>)
    requires WellFormed(s)
    decreases |calls|
  {
    calls == [] ||
    (var c := calls[0];
     && c.cbRc == 0
     && Callable(s, c.op)
     && (c.op.OpOverride? && c.op.enabled ==> c.op.val != -EINVAL)
     && (c.op.OpForceVal? ==> !s.forceActive)
     && Tame(Apply(s, c), calls[1..]))
  }

  /** Main result: over any tame run the last value delivered, once there is one, is the effective result. */
  lemma {:induction false} DeliveredIsEffective(s: State, calls: seq<Call>)
    requires Consistent(s) && InSync(s) && Tame(s, calls)
    ensures InSync(Run(s, calls))
    decreases |calls|
  {
    if calls == [] {
    } else {
      SyncStepIff(s, calls[0]);
      ConsistentStep(s, calls[0]);
      DeliveredIsEffective(Apply(s, calls[0]), calls[1..]);
    }
  }

  // ---------- the last client delivered is the effective client ----------

  ghost predicate ClientInSync(s: State) {
    s.delivered != [] ==> s.delivered[|s.delivered| - 1].client == EffectiveClient(s)
  }

  /** The calls that leave the callback's owner with a client that is not the effective one. */
  predicate KeepsClientSync(s: State, c: Call) {
    match c.op
    case OpRerun => s.hasCallback ==> ClientStr(s, s.effectiveId) == EffectiveClient(s)
    case OpOverride(client, enabled, val) =>
      enabled && !s.forceActive ==>
        if c.cbRc != 0 then EffectiveClient(s) == Some(client)
        else val == -EINVAL ==> ClientStr(s, s.effectiveId) == Some(client)
    case _ => true
  }

  /**
   The client delivered last stays the effective client exactly under KeepsClientSync. In particular a rerun
   reports the elected client even while an override or a force decides the value beside it.
   */
  lemma ClientSyncStepIff(s: State, c: Call)
    requires Consistent(s) && ClientInSync(s) && Callable(s, c.op)
    ensures ClientInSync(Apply(s, c)) <==> KeepsClientSync(s, c)
  {
    match c.op
    case OpVote(client, enabled, val, allocOk) =>
      RegisteringKeepsClientSync(s, client, allocOk);
      var (s1, id) := GetClientId(s, client, allocOk);
      if 0 <= id {
        CastKeepsClientSync(s1, id, enabled, val, c.cbRc);
      }
    case OpQuery(client, allocOk) => RegisteringKeepsClientSync(s, client, allocOk);
    case OpOverride(client, enabled, val) => OverrideKeepsClientSyncIff(s, client, enabled, val, c.cbRc);
    case _ =>
  }

  lemma RegisteringKeepsClientSync(s: State, client: string, allocOk: bool)
    requires Consistent(s) && ClientInSync(s)
    ensures Consistent(GetClientId(s, client, allocOk).0) && ClientInSync(GetClientId(s, client, allocOk).0)
  {
    RegisteringConsistent(s, client, allocOk);
  }

  lemma CastKeepsClientSync(s: State, id: nat, enabled: bool, val: Int32, cbRc: Int32)
    requires Consistent(s) && ClientInSync(s) && id < |s.names|
    ensures ClientInSync(CastInSlot(s, id, enabled, val, cbRc).0)
  {
  }

  lemma OverrideKeepsClientSyncIff(s: State, client: string, enabled: bool, val: Int32, cbRc: Int32)
    requires Consistent(s) && ClientInSync(s) && (s.hasCallback || s.forceActive)
    ensures ClientInSync(VoteOverride(s, client, enabled, val, cbRc).0) <==>
              KeepsClientSync(s, Call(OpOverride(client, enabled, val), cbRc))
  {
  }

  /** No rerun falls into an override or a force. */
  predicate RerunsInTheOpen(s: State, calls: seq<Call>)
    requires WellFormed(s)
    decreases |calls|
  {
    calls == [] ||
    (&& (calls[0].op.OpRerun? ==> !s.forceActive && s.overrideResult == -EINVAL)
     && RerunsInTheOpen(Apply(s, calls[0]), calls[1..]))
  }

  /** Over a tame run without such reruns the callback's owner always knows the effective client, too. */
  lemma {:induction false} DeliveredClientIsEffective(s: State, calls: seq<Call>)
    requires Consistent(s) && ClientInSync(s) && Tame(s, calls) && RerunsInTheOpen(s, calls)
    ensures ClientInSync(Run(s, calls))
    decreases |calls|
  {
    if calls == [] {
    } else {
      ClientSyncStepIff(s, calls[0]);
      ConsistentStep(s, calls[0]);
      DeliveredClientIsEffective(Apply(s, calls[0]), calls[1..]);
    }
  }

  // ---------- the effective client of a SET_ANY votable ----------

  /** A vote is accepted exactly if its client has a slot afterwards. */
  predicate Accepted(s: State, c: Call)
    requires WellFormed(s)
  {
    c.op.OpVote? && c.op.client in Apply(s, c).names
  }

  /** The client of the first accepted vote or, after it, of the last vote that changed the election's result. */
  ghost function LastTurner(s: State, who: Option<string>, voted: bool, calls: seq<Call>): Option<string>
    requires WellFormed(s)
    decreases |calls|
  {
    if calls == [] then who
    else
      var c := calls[0];
      var s1 := Apply(s, c);
      var turns := Accepted(s, c) && (!voted || Result(s.kind, s1.ballots) != Result(s.kind, s.ballots));
      LastTurner(s1, if turns then Some(c.op.client) else who, voted || Accepted(s, c), calls[1..])
  }

  lemma TurnerCast(s: State, id: nat, enabled: bool, val: Int32, cbRc: Int32)
    requires Consistent(s) && s.kind == VoteSetAny && id < |s.names|
    ensures var s1 := CastInSlot(s, id, enabled, val, cbRc).0;
            var turns := !s.votedOn || Result(s.kind, s1.ballots) != Result(s.kind, s.ballots);
            s1.votedOn && s1.effectiveId == if turns then id else s.effectiveId
  {
  }

  /** Whether a call makes its client the one to be remembered. */
  ghost predicate Turns(s: State, c: Call)
    requires WellFormed(s)
  {
    Accepted(s, c) && (!s.votedOn || Result(s.kind, Apply(s, c).ballots) != Result(s.kind, s.ballots))
  }

  lemma TurnerRegistering(s: State, client: string, allocOk: bool)
    requires Consistent(s)
    ensures var (s1, id) := GetClientId(s, client, allocOk);
            && (0 <= id <==> client in s1.names)
            && s1.votedOn == s.votedOn && s1.effectiveId == s.effectiveId && s1.kind == s.kind
            && Result(s1.kind, s1.ballots) == Result(s.kind, s.ballots)
            && ClientStr(s1, s1.effectiveId) == ClientStr(s, s.effectiveId)
  {
    NewClientChangesNothing(s, client, allocOk);
  }

  lemma TurnerVote(s: State, client: string, enabled: bool, val: Int32, allocOk: bool, cbRc: Int32)
    requires Consistent(s) && s.kind == VoteSetAny
    ensures var c := Call(OpVote(client, enabled, val, allocOk), cbRc);
            var s1 := Apply(s, c);
            && s1.votedOn == (s.votedOn || Accepted(s, c))
            && ClientStr(s1, s1.effectiveId) == (if Turns(s, c) then Some(client) else ClientStr(s, s.effectiveId))
            && s1.kind == s.kind
  {
    RegisteringConsistent(s, client, allocOk);
    TurnerRegistering(s, client, allocOk);
    var (s1, id) := GetClientId(s, client, allocOk);
    if 0 <= id {
      TurnerCast(s1, id, enabled, val, cbRc);
      assert Vote(s, client, enabled, val, allocOk, cbRc).0 == CastInSlot(s1, id, enabled, val, cbRc).0;
    }
  }

  lemma TurnerOther(s: State, c: Call)
    requires Consistent(s) && !c.op.OpVote? && !c.op.OpQuery?
    ensures var s1 := Apply(s, c);
            s1.votedOn == s.votedOn && s1.names == s.names && s1.effectiveId == s.effectiveId && s1.kind == s.kind
  {
  }

  lemma TurnerStep(s: State, c: Call)
    requires Consistent(s) && s.kind == VoteSetAny
    ensures var s1 := Apply(s, c);
            && s1.votedOn == (s.votedOn || Accepted(s, c))
            && ClientStr(s1, s1.effectiveId) == (if Turns(s, c) then Some(c.op.client) else ClientStr(s, s.effectiveId))
            && s1.kind == s.kind
  {
    match c.op
    case OpVote(client, enabled, val, allocOk) => TurnerVote(s, client, enabled, val, allocOk, c.cbRc);
    case OpQuery(client, allocOk) => TurnerRegistering(s, client, allocOk);
    case _ => TurnerOther(s, c);
  }

  lemma {:induction false} TurnerRun(s: State, calls: seq<Call>)
    requires Consistent(s) && s.kind == VoteSetAny
    ensures var s1 := Run(s, calls);
            ClientStr(s1, s1.effectiveId) == LastTurner(s, ClientStr(s, s.effectiveId), s.votedOn, calls)
    decreases |calls|
  {
    if calls == [] {
    } else {
      TurnerStep(s, calls[0]);
      ConsistentStep(s, calls[0]);
      TurnerRun(Apply(s, calls[0]), calls[1..]);
    }
  }

  /**
   Main result: over any run of a SET_ANY votable the elected client, which is the effective one unless an override
   or a force is in place, is the first voter or the voter that last changed the result; nobody before any vote.
   */
  lemma AnyClientIsLastTurner(hasCallback: bool, calls: seq<Call>)
    ensures var s := Run(Init(VoteSetAny, hasCallback), calls);
            && ClientStr(s, s.effectiveId) == LastTurner(Init(VoteSetAny, hasCallback), None, false, calls)
            && (!s.forceActive && s.overrideResult == -EINVAL ==> EffectiveClient(s) == ClientStr(s, s.effectiveId))
  {
    TurnerRun(Init(VoteSetAny, hasCallback), calls);
  }

  // ---------- the remembered winner ----------

  /** The remembered winner holds an enabled vote for the stored result; without a winner none is remembered. */
  ghost predicate Backed(s: State) {
    && WellFormed(s)
    && if Winner(s.kind, s.ballots) == -EINVAL then s.effectiveId == -EINVAL
       else
         && s.effectiveId != -EINVAL
         && s.ballots[s.effectiveId].enabled
         && s.ballots[s.effectiveId].value == s.effectiveResult
  }

  /**
   What hides that slot id no longer votes for the result: another enabled vote has the same value and the new
   ballot does not beat it, or the value is -EINVAL and neither the others nor the new ballot can win.
   */
  ghost predicate Hidden(kind: Kind, bs: seq<Ballot>, id: nat, b: Ballot)
    requires id < |bs|
  {
    || (&& (exists j :: 0 <= j < |bs| && j != id && bs[j].enabled && bs[j].value == bs[id].value)
        && !(b.enabled && Beats(kind, b.value, bs[id].value)))
    || (&& bs[id].value == -EINVAL
        && (forall j :: 0 <= j < |bs| && j != id ==> !CanWin(kind, bs[j]))
        && !CanWin(kind, b))
  }

  lemma ResultAfterReplacing(kind: Kind, bs: seq<Ballot>, id: nat, b: Ballot)
    requires kind != VoteSetAny && Winner(kind, bs) != -EINVAL
    requires id < |bs| && bs[id].enabled && bs[id].value == Result(kind, bs)
    requires !(b.enabled && b.value == bs[id].value)
    ensures Result(kind, bs[id := b]) == bs[id].value <==> Hidden(kind, bs, id, b)
  {
    var bs1 := bs[id := b];
    WinnerIsBest(kind, bs);
    WinnerIsBest(kind, bs1);
    assert bs1[id] == b && forall j :: 0 <= j < |bs| && j != id ==> bs1[j] == bs[j];
    var w1 := Winner(kind, bs1);
    if w1 == -EINVAL {
      assert forall j :: 0 <= j < |bs| && j != id ==> !CanWin(kind, bs1[j]);
    } else if exists j :: 0 <= j < |bs| && j != id && bs[j].enabled && bs[j].value == bs[id].value {
      var j :| 0 <= j < |bs| && j != id && bs[j].enabled && bs[j].value == bs[id].value;
      assert !Beats(kind, bs1[j].value, bs1[w1].value);
      assert w1 != id ==> !Beats(kind, bs[w1].value, bs[id].value);
      assert CanWin(kind, bs[j]);
    } else {
      assert w1 != id ==> CanWin(kind, bs[w1]);
    }
  }

  /** A remembered winner that withdraws its vote stays the effective client exactly if that is hidden. */
  lemma WithdrawnWinnerStaysIff(s: State, id: nat, val: Int32, cbRc: Int32)
    requires Consistent(s) && s.kind != VoteSetAny && s.votedOn && Winner(s.kind, s.ballots) != -EINVAL
    requires s.effectiveId == id && s.ballots[id].enabled && s.ballots[id].value == s.effectiveResult
    ensures CastInSlot(s, id, false, val, cbRc).0.effectiveId == id <==>
              Hidden(s.kind, s.ballots, id, Ballot(false, val))
  {
    var b := Ballot(false, val);
    ResultAfterReplacing(s.kind, s.ballots, id, b);
    WinnerIsBest(s.kind, s.ballots[id := b]);
  }

  /** Whether a cast into slot id leaves a winner that votes for the result. */
  ghost predicate CastKeepsBacked(s: State, id: nat, b: Ballot)
    requires WellFormed(s) && id < |s.ballots|
  {
    || !s.votedOn
    || if s.effectiveId == -EINVAL then !(CanWin(s.kind, b) && b.value == -EINVAL)
       else
         || id != s.effectiveId
         || (b.enabled && b.value == s.effectiveResult)
         || !Hidden(s.kind, s.ballots, id, b)
  }

  lemma CastBackedIff(s: State, id: nat, enabled: bool, val: Int32, cbRc: Int32)
    requires Consistent(s) && Backed(s) && s.kind != VoteSetAny && id < |s.names|
    ensures Backed(CastInSlot(s, id, enabled, val, cbRc).0) <==> CastKeepsBacked(s, id, Ballot(enabled, val))
  {
    if s.effectiveId == -EINVAL {
      FirstWinnerBackedIff(s, id, enabled, val, cbRc);
    } else if id != s.effectiveId {
      OtherBallotKeepsBacked(s, id, enabled, val, cbRc);
    } else {
      OwnBallotBackedIff(s, id, enabled, val, cbRc);
    }
  }

  lemma FirstWinnerBackedIff(s: State, id: nat, enabled: bool, val: Int32, cbRc: Int32)
    requires Consistent(s) && Backed(s) && s.kind != VoteSetAny && id < |s.names| && s.effectiveId == -EINVAL
    ensures Backed(CastInSlot(s, id, enabled, val, cbRc).0) <==> CastKeepsBacked(s, id, Ballot(enabled, val))
  {
    WinnerIsBest(s.kind, s.ballots);
    LoneBallot(s.kind, s.ballots, id, Ballot(enabled, val));
  }

  lemma OtherBallotKeepsBacked(s: State, id: nat, enabled: bool, val: Int32, cbRc: Int32)
    requires Consistent(s) && Backed(s) && s.kind != VoteSetAny && id < |s.names|
    requires s.effectiveId != -EINVAL && id != s.effectiveId
    ensures Backed(CastInSlot(s, id, enabled, val, cbRc).0)
  {
    OtherBallot(s.kind, s.ballots, s.effectiveId, id, Ballot(enabled, val));
  }

  lemma OwnBallotBackedIff(s: State, id: nat, enabled: bool, val: Int32, cbRc: Int32)
    requires Consistent(s) && Backed(s) && s.kind != VoteSetAny && id == s.effectiveId
    ensures Backed(CastInSlot(s, id, enabled, val, cbRc).0) <==> CastKeepsBacked(s, id, Ballot(enabled, val))
  {
    var b := Ballot(enabled, val);
    WinnerIsBest(s.kind, s.ballots[id := b]);
    if b.enabled && b.value == s.effectiveResult {
      SameResult(s.kind, s.ballots, id, b);
    } else {
      ResultAfterReplacing(s.kind, s.ballots, id, b);
    }
  }

  /** Voting for the result again, in place of an enabled vote for it, changes nothing. */
  lemma SameResult(kind: Kind, bs: seq<Ballot>, id: nat, b: Ballot)
    requires kind != VoteSetAny && Winner(kind, bs) != -EINVAL
    requires id < |bs| && bs[id].enabled && bs[id].value == Result(kind, bs) && b == Ballot(true, Result(kind, bs))
    ensures Result(kind, bs[id := b]) == Result(kind, bs) && Winner(kind, bs[id := b]) != -EINVAL
  {
    assert bs[id := b] == bs;
  }

  /** While somebody else holds the result, somebody can still win after a cast. */
  lemma OtherBallot(kind: Kind, bs: seq<Ballot>, holder: nat, id: nat, b: Ballot)
    requires kind != VoteSetAny && Winner(kind, bs) != -EINVAL
    requires holder < |bs| && id < |bs| && holder != id
    requires bs[holder].enabled && bs[holder].value == Result(kind, bs)
    ensures var bs1 := bs[id := b];
            var w := Winner(kind, bs1);
            w != -EINVAL && bs1[w].enabled && bs1[w].value == Result(kind, bs1) && bs1[holder] == bs[holder]
  {
    var bs1 := bs[id := b];
    WinnerIsBest(kind, bs);
    WinnerIsBest(kind, bs1);
    assert bs1[holder] == bs[holder] && CanWin(kind, bs1[holder]);
  }

  /** Where nobody could win before, only the new ballot can. */
  lemma LoneBallot(kind: Kind, bs: seq<Ballot>, id: nat, b: Ballot)
    requires kind != VoteSetAny && id < |bs| && Winner(kind, bs) == -EINVAL
    ensures Winner(kind, bs[id := b]) == if CanWin(kind, b) then id else -EINVAL
  {
    var bs1 := bs[id := b];
    WinnerIsBest(kind, bs);
    WinnerIsBest(kind, bs1);
    assert bs1[id] == b && forall j :: 0 <= j < |bs| && j != id ==> bs1[j] == bs[j];
  }

  ghost predicate KeepsBacked(s: State, c: Call)
    requires WellFormed(s)
  {
    match c.op
    case OpVote(client, enabled, val, allocOk) =>
      var (s1, id) := GetClientId(s, client, allocOk);
      id < 0 || CastKeepsBacked(s1, id, Ballot(enabled, val))
    case _ => true
  }

  lemma RegisteringKeepsBacked(s: State, client: string, allocOk: bool)
    requires Consistent(s) && Backed(s)
    ensures Backed(GetClientId(s, client, allocOk).0)
  {
    var bs := s.ballots + [Ballot(false, 0)];
    assert bs[..|bs| - 1] == s.ballots;
  }

  /**
   Main result: for MIN and MAX, a call leaves the remembered winner with an enabled vote for the result if and
   only if KeepsBacked says so: the winner's own withdrawal or change of vote must not be hidden, and a first
   winning vote must not be -EINVAL.
   */
  lemma BackedStepIff(s: State, c: Call)
    requires Consistent(s) && Backed(s) && s.kind != VoteSetAny
    ensures Backed(Apply(s, c)) <==> KeepsBacked(s, c)
  {
    match c.op
    case OpVote(client, enabled, val, allocOk) =>
      RegisteringKeepsBacked(s, client, allocOk);
      RegisteringConsistent(s, client, allocOk);
      var (s1, id) := GetClientId(s, client, allocOk);
      if 0 <= id {
        CastBackedIff(s1, id, enabled, val, c.cbRc);
      }
    case OpQuery(client, allocOk) => RegisteringKeepsBacked(s, client, allocOk);
    case _ => OtherCallsKeepWinner(s, c);
  }

  lemma OtherCallsKeepWinner(s: State, c: Call)
    requires WellFormed(s) && !c.op.OpVote? && !c.op.OpQuery?
    ensures var s1 := Apply(s, c);
            && s1.ballots == s.ballots && s1.kind == s.kind
            && s1.effectiveId == s.effectiveId && s1.effectiveResult == s.effectiveResult
  {
  }
}
