/**
 What an acknowledged command is worth. The acknowledgement is a bare completion: which command a response
 is meant for, and whether the command was read before, is up to the responders.
 */
module MutualAnswers {
  import opened MutualCommand

  /** The response is meant for this record and came after the record had been copied. */
  predicate AnswersRead(a: Answer, number: nat) {
    a.number == number && a.copied == number
  }

  /** Some response between two points of the history answers the record. */
  ghost predicate AnsweredBetween(answers: seq<Answer>, number: nat, from: nat, to: nat) {
    exists j :: from <= j < to <= |answers| && AnswersRead(answers[j], number)
  }

  /** A success stands for a response to the request's own record, made after that record was read. */
  ghost predicate Genuine(s: State, r: MutualCommand.Result) {
    r.ok ==> AnsweredBetween(s.answers, r.number, r.resetAt, r.returnedAt)
  }

  /** The outcome if the waiting request i takes its acknowledgement now and returns. */
  function Finished(s: State, i: nat): (r: MutualCommand.Result)
    requires Enabled(s, Ack(i))
    ensures var s1 := Next(s, Ack(i));
            Enabled(s1, Return(i)) && Next(s1, Return(i)).results == s.results + [r]
  {
    MutualCommand.Result(true, PcOf(s, i).number, PcOf(s, i).resetAt, |s.answers|)
  }

  /** Whatever request can return successfully now would do so genuinely. */
  ghost predicate AcksAreGenuine(s: State) {
    forall i: nat :: Enabled(s, Ack(i)) ==> Genuine(s, Finished(s, i))
  }

  ghost predicate GenuineThroughout(s: State, steps: seq<Step>)
    requires IsRun(s, steps)
    decreases |steps|
  {
    AcksAreGenuine(s) && (steps != [] ==> GenuineThroughout(Next(s, steps[0]), steps[1..]))
  }

  // ---------- what responders have to do ----------

  /** A response while a request waits that none has reached yet answers the newest record, once it has been read. */
  ghost predicate Prompt(s: State, a: Step) {
    a.Respond? && s.completions == 0 && (exists i: nat :: PcOf(s, i).Waiting?) ==>
      a.number == LastCopied(s) == |s.stores|
  }

  ghost predicate AllPrompt(s: State, steps: seq<Step>)
    requires IsRun(s, steps)
    decreases |steps|
  {
    steps == [] || (Prompt(s, steps[0]) && AllPrompt(Next(s, steps[0]), steps[1..]))
  }

  // ---------- the record of a request ----------

  predicate HasNumber(pc: RequesterPc) {
    pc.Published? || pc.Waiting? || pc.Returning?
  }

  /** Until a request returns, its record is the newest one. */
  ghost predicate NumberInv(s: State) {
    forall i: nat :: HasNumber(PcOf(s, i)) ==> PcOf(s, i).number == |s.stores|
  }

  lemma NumberStep(s: State, a: Step)
    requires LocksInv(s) && NumberInv(s) && Enabled(s, a)
    ensures NumberInv(Next(s, a))
  {
    var s1 := Next(s, a);
    if ReaderStep(a) {
      ReadersKeepRest(s, a);
      assert forall i: nat :: PcOf(s1, i) == PcOf(s, i);
    } else {
      forall i: nat | HasNumber(PcOf(s1, i)) ensures PcOf(s1, i).number == |s1.stores| {
        assert HasNumber(PcOf(s, i)) ==> PcOf(s, i).number == |s.stores|;
        OnlyWriterStores(s, a, i);
      }
    }
  }

  /** While a request has a record of its own, nobody else stores one. */
  lemma OnlyWriterStores(s: State, a: Step, i: nat)
    requires LocksInv(s) && Enabled(s, a)
    ensures HasNumber(PcOf(s, i)) ==> Next(s, a).stores == s.stores
  {
    OneHoldsAck(s);
    if a.Write? {
      assert HoldsAck(PcOf(s, a.i));
    } else if !ReaderStep(a) {
      OthersKeepReaders(s, a);
    } else {
      ReadersKeepRest(s, a);
    }
  }

  // ---------- success is genuine exactly if the responders are prompt ----------

  /** The first response since the reset, if any, answers the waiting request. */
  ghost predicate FirstIsOwn(s: State) {
    forall i: nat :: PcOf(s, i).Waiting? && s.completions > 0 ==>
      PcOf(s, i).resetAt < |s.answers| && AnswersRead(s.answers[PcOf(s, i).resetAt], PcOf(s, i).number)
  }

  ghost predicate Ready(s: State) {
    Inv(s) && NumberInv(s) && FirstIsOwn(s)
  }

  lemma FirstIsEnough(s: State)
    requires AckInv(s) && FirstIsOwn(s)
    ensures AcksAreGenuine(s)
  {
    forall i: nat | Enabled(s, Ack(i)) ensures Genuine(s, Finished(s, i)) {
      assert AnswersRead(s.answers[PcOf(s, i).resetAt], PcOf(s, i).number);
    }
  }

  lemma FirstStep(s: State, a: Step)
    requires LocksInv(s) && AckInv(s) && NumberInv(s) && FirstIsOwn(s) && Enabled(s, a) && Prompt(s, a)
    ensures FirstIsOwn(Next(s, a))
  {
    var s1 := Next(s, a);
    if ReaderStep(a) {
      ReadersKeepRest(s, a);
      assert forall i: nat :: PcOf(s1, i) == PcOf(s, i);
    } else {
      forall i: nat | PcOf(s1, i).Waiting? && s1.completions > 0
        ensures PcOf(s1, i).resetAt < |s1.answers|
                && AnswersRead(s1.answers[PcOf(s1, i).resetAt], PcOf(s1, i).number)
      {
        FirstStepFor(s, a, i);
      }
    }
  }

  lemma OneHoldsAck(s: State)
    requires LocksInv(s)
    ensures forall i: nat, j: nat :: HoldsAck(PcOf(s, i)) && HoldsAck(PcOf(s, j)) ==> i == j
  {
  }

  lemma FirstStepFor(s: State, a: Step, i: nat)
    requires LocksInv(s) && AckInv(s) && NumberInv(s) && FirstIsOwn(s) && Enabled(s, a) && Prompt(s, a) && !ReaderStep(a)
    requires PcOf(Next(s, a), i).Waiting? && Next(s, a).completions > 0
    ensures var s1 := Next(s, a);
            PcOf(s1, i).resetAt < |s1.answers| && AnswersRead(s1.answers[PcOf(s1, i).resetAt], PcOf(s1, i).number)
  {
    OneHoldsAck(s);
    assert PcOf(s, i).Waiting?;
    assert |s.answers| == PcOf(s, i).resetAt + s.completions;
  }

  /** A first response that is not prompt makes a success possible that is not genuine. */
  lemma LatePromptSpoils(s: State, a: Step)
    requires AckInv(s) && NumberInv(s) && Enabled(s, a) && !Prompt(s, a)
    ensures !AcksAreGenuine(Next(s, a))
  {
    var s1 := Next(s, a);
    var i: nat :| PcOf(s, i).Waiting?;
    assert PcOf(s1, i) == PcOf(s, i) && |s.answers| == PcOf(s, i).resetAt && PcOf(s, i).number == |s.stores|;
    assert Enabled(s1, Ack(i)) && !AnswersRead(s1.answers[|s.answers|], PcOf(s, i).number);
    assert !Genuine(s1, Finished(s1, i));
  }

  lemma ReadyStep(s: State, a: Step)
    requires Ready(s) && Enabled(s, a) && Prompt(s, a)
    ensures Ready(Next(s, a))
  {
    InvStep(s, a);
    NumberStep(s, a);
    FirstStep(s, a);
  }

  lemma {:induction false} GenuineIff(s: State, steps: seq<Step>)
    requires Ready(s) && IsRun(s, steps)
    ensures GenuineThroughout(s, steps) <==> AllPrompt(s, steps)
    decreases |steps|
  {
    FirstIsEnough(s);
    if steps == [] {
    } else if Prompt(s, steps[0]) {
      ReadyStep(s, steps[0]);
      GenuineIff(Next(s, steps[0]), steps[1..]);
    } else {
      LatePromptSpoils(s, steps[0]);
      assert !GenuineThroughout(Next(s, steps[0]), steps[1..]);
    }
  }

  /**
   Main result: all along a run, every success a request can return stands for a response to its own record made after
   that record was read, if and only if each first response to a waiting request is prompt. The code checks neither.
   */
  lemma SuccessIsGenuineIff(steps: seq<Step>)
    requires IsRun(Initial(), steps)
    ensures GenuineThroughout(Initial(), steps) <==> AllPrompt(Initial(), steps)
  {
    GenuineIff(Initial(), steps);
  }

  // ---------- all results of a prompt run ----------

  ghost predicate ResultsInv(s: State) {
    && (forall i: nat :: PcOf(s, i).Returning? && PcOf(s, i).ok ==>
          AnsweredBetween(s.answers, PcOf(s, i).number, PcOf(s, i).resetAt, |s.answers|))
    && (forall k :: 0 <= k < |s.results| ==> Genuine(s, s.results[k]))
  }

  lemma AnsweredLonger(answers: seq<Answer>, more: seq<Answer>, number: nat, from: nat, to: nat, later: nat)
    requires AnsweredBetween(answers, number, from, to) && answers <= more && to <= later <= |more|
    ensures AnsweredBetween(more, number, from, later)
  {
    var j :| from <= j < to <= |answers| && AnswersRead(answers[j], number);
    assert AnswersRead(more[j], number);
  }

  lemma HistoryGrows(s: State, a: Step)
    requires Enabled(s, a)
    ensures s.answers <= Next(s, a).answers
    ensures a.Return? || Next(s, a).results == s.results
  {
  }

  lemma ReturningStep(s: State, a: Step, i: nat)
    requires ResultsInv(s) && AcksAreGenuine(s) && Enabled(s, a)
    requires PcOf(Next(s, a), i).Returning? && PcOf(Next(s, a), i).ok
    ensures var s1 := Next(s, a);
            AnsweredBetween(s1.answers, PcOf(s1, i).number, PcOf(s1, i).resetAt, |s1.answers|)
  {
    var pc, s1 := PcOf(Next(s, a), i), Next(s, a);
    HistoryGrows(s, a);
    if a == Ack(i) {
      assert Genuine(s, Finished(s, i));
    }
    AnsweredLonger(s.answers, s1.answers, pc.number, pc.resetAt, |s.answers|, |s1.answers|);
  }

  lemma ResultsStep(s: State, a: Step)
    requires ResultsInv(s) && AcksAreGenuine(s) && Enabled(s, a)
    ensures ResultsInv(Next(s, a))
  {
    var s1 := Next(s, a);
    HistoryGrows(s, a);
    forall i: nat | PcOf(s1, i).Returning? && PcOf(s1, i).ok
      ensures AnsweredBetween(s1.answers, PcOf(s1, i).number, PcOf(s1, i).resetAt, |s1.answers|)
    {
      ReturningStep(s, a, i);
    }
    forall k | 0 <= k < |s1.results| ensures Genuine(s1, s1.results[k]) {
      if k < |s.results| {
        var r := s.results[k];
        assert s1.results[k] == r && Genuine(s, r);
        if r.ok {
          AnsweredLonger(s.answers, s1.answers, r.number, r.resetAt, r.returnedAt, r.returnedAt);
        }
      }
    }
  }

  lemma {:induction false} ResultsRun(s: State, steps: seq<Step>)
    requires ResultsInv(s) && IsRun(s, steps) && GenuineThroughout(s, steps)
    ensures ResultsInv(After(s, steps))
    decreases |steps|
  {
    if steps == [] {
    } else {
      ResultsStep(s, steps[0]);
      ResultsRun(Next(s, steps[0]), steps[1..]);
    }
  }

  /** With prompt responders every CMD_ACK_OK of a run is genuine. */
  lemma PromptResultsAreGenuine(steps: seq<Step>)
    requires IsRun(Initial(), steps) && AllPrompt(Initial(), steps)
    ensures var s := After(Initial(), steps); forall k :: 0 <= k < |s.results| ==> Genuine(s, s.results[k])
  {
    SuccessIsGenuineIff(steps);
    ResultsRun(Initial(), steps);
  }
}
