/** Runs of the command handshake that copy a command twice, forget a response, and acknowledge the wrong command. */
module MutualExamples {
  import opened Kernel
  import opened MutualAnswers
  import opened MutualCommand

  /** One more step at the end of a run. */
  lemma {:induction false} Extend(s: State, steps: seq<Step>, a: Step)
    requires IsRun(s, steps) && Enabled(After(s, steps), a)
    ensures IsRun(s, steps + [a]) && After(s, steps + [a]) == Next(After(s, steps), a)
    decreases |steps|
  {
    if steps == [] {
      assert [] + [a] == [a] && [a][1..] == [];
    } else {
      assert (steps + [a])[1..] == steps[1..] + [a];
      Extend(Next(s, steps[0]), steps[1..], a);
    }
  }

  lemma PutTwice(m: map<nat, ReaderPc>, i: nat, a: ReaderPc, b: ReaderPc)
    ensures m[i := a][i := b] == m[i := b]
  {
  }

  lemma ExtendTwo(steps: seq<Step>, a: Step, b: Step) returns (longer: seq<Step>)
    requires IsRun(Initial(), steps)
    requires var s := After(Initial(), steps); Enabled(s, a) && Enabled(Next(s, a), b)
    ensures IsRun(Initial(), longer)
    ensures After(Initial(), longer) == Next(Next(After(Initial(), steps), a), b)
  {
    Extend(Initial(), steps, a);
    Extend(Initial(), steps + [a], b);
    longer := steps + [a] + [b];
  }

  /** A reader arrives and waits for the flag. */
  lemma Arrive(steps: seq<Step>, i: nat) returns (longer: seq<Step>)
    requires IsRun(Initial(), steps)
    requires var s := After(Initial(), steps); ReaderOf(s, i) == Away && s.readLock == None
    ensures IsRun(Initial(), longer)
    ensures var s := After(Initial(), steps);
            After(Initial(), longer) == Move(s.(hidlReady := true, readLock := Some(i)), i, Watching)
  {
    longer := ExtendTwo(steps, ReaderEnter(i), ReaderTakeRead(i));
    var s := After(Initial(), steps);
    assert s.readers[i := WantRead][i := Watching] == s.readers[i := Watching];
  }

  /** The reader sees the flag and lets the next reader wait. */
  lemma See(steps: seq<Step>, i: nat) returns (longer: seq<Step>)
    requires IsRun(Initial(), steps)
    requires var s := After(Initial(), steps); ReaderOf(s, i) == Watching && s.dataOk
    ensures IsRun(Initial(), longer)
    ensures After(Initial(), longer) == Move(After(Initial(), steps).(readLock := None), i, Seen)
  {
    Extend(Initial(), steps, ReaderSee(i));
    longer := steps + [ReaderSee(i)];
  }

  /** The reader takes the data lock and lowers the flag. */
  lemma BeginCopy(steps: seq<Step>, i: nat) returns (longer: seq<Step>)
    requires IsRun(Initial(), steps)
    requires var s := After(Initial(), steps); ReaderOf(s, i) == Seen && s.dataLock == None
    ensures IsRun(Initial(), longer)
    ensures var s := After(Initial(), steps);
            After(Initial(), longer) ==
              Move(s.(dataLock := Some(Reader(i)), dataOk := false), i, Copying(Blank(), 0, s.dataOk))
  {
    longer := ExtendTwo(steps, ReaderLock(i), ReaderClear(i));
    var s := After(Initial(), steps);
    assert s.readers[i := Locked(s.dataOk)][i := Copying(Blank(), 0, s.dataOk)] ==
             s.readers[i := Copying(Blank(), 0, s.dataOk)];
  }

  /** Two parts are copied, then the third and the end of the section. */
  lemma CopyTwoParts(steps: seq<Step>, i: nat) returns (longer: seq<Step>)
    requires IsRun(Initial(), steps)
    requires var pc := ReaderOf(After(Initial(), steps), i); pc.Copying? && pc.done == 0 && pc.buf == Blank()
    ensures IsRun(Initial(), longer)
    ensures var s := After(Initial(), steps);
            After(Initial(), longer) ==
              Move(s, i, Copying(Record(s.rec.cmd, s.rec.size, Blank().data), 2, ReaderOf(s, i).flag))
  {
    longer := ExtendTwo(steps, ReaderCopy(i), ReaderCopy(i));
    var s, s1 := After(Initial(), steps), Next(After(Initial(), steps), ReaderCopy(i));
    PutTwice(s.readers, i, ReaderOf(s1, i), Copying(Record(s.rec.cmd, s.rec.size, Blank().data), 2, ReaderOf(s, i).flag));
  }

  lemma EndCopy(steps: seq<Step>, i: nat) returns (longer: seq<Step>)
    requires IsRun(Initial(), steps)
    requires var s := After(Initial(), steps);
             ReaderOf(s, i).Copying? && ReaderOf(s, i).done == 2
             && ReaderOf(s, i).buf == Record(s.rec.cmd, s.rec.size, Blank().data)
    ensures IsRun(Initial(), longer)
    ensures var s := After(Initial(), steps);
            After(Initial(), longer) ==
              Move(s.(dataLock := None, copies := s.copies + [Copy(s.rec, |s.stores|, ReaderOf(s, i).flag)]), i, Away)
  {
    longer := ExtendTwo(steps, ReaderCopy(i), ReaderUnlock(i));
    var s, s1 := After(Initial(), steps), Next(After(Initial(), steps), ReaderCopy(i));
    assert s1.readers[i := Away] == s.readers[i := Away];
  }

  /** A reader that has seen the flag copies, whatever has become of the flag. */
  lemma CopyAll(steps: seq<Step>, i: nat) returns (longer: seq<Step>)
    requires IsRun(Initial(), steps)
    requires var s := After(Initial(), steps); ReaderOf(s, i) == Seen && s.dataLock == None
    ensures IsRun(Initial(), longer)
    ensures var s := After(Initial(), steps);
            After(Initial(), longer) ==
              Move(s.(dataOk := false, copies := s.copies + [Copy(s.rec, |s.stores|, s.dataOk)]), i, Away)
  {
    var s := After(Initial(), steps);
    var begun := BeginCopy(steps, i);
    var half := CopyTwoParts(begun, i);
    longer := EndCopy(half, i);
    PutTwice(s.readers, i, Copying(Blank(), 0, s.dataOk), Away);
    PutTwice(s.readers, i, Copying(Blank(), 0, s.dataOk), ReaderOf(After(Initial(), half), i));
    PutTwice(s.readers, i, ReaderOf(After(Initial(), half), i), Away);
  }

  // ---------- a request ----------

  const REQUESTER := 0

  function Requesting(s: State, pc: RequesterPc): State {
    Goto(s, REQUESTER, pc)
  }

  lemma GotoTwice(s: State, a: RequesterPc, b: RequesterPc)
    ensures Requesting(Requesting(s, a), b) == Requesting(s, b)
  {
    assert s.requesters[REQUESTER := a][REQUESTER := b] == s.requesters[REQUESTER := b];
  }

  lemma TakeLocks(steps: seq<Step>, r: Request) returns (longer: seq<Step>)
    requires IsRun(Initial(), steps) && Fits(r)
    requires var s := After(Initial(), steps);
             s.hidlReady && PcOf(s, REQUESTER) == Idle && s.ackLock == None && s.dataLock == None
    ensures IsRun(Initial(), longer)
    ensures var s := After(Initial(), steps);
            After(Initial(), longer) ==
              Requesting(s.(ackLock := Some(REQUESTER), dataLock := Some(Requester(REQUESTER))), Writing(r, 0))
  {
    var begun := ExtendTwo(steps, Begin(REQUESTER, r), TakeAck(REQUESTER));
    Extend(Initial(), begun, TakeData(REQUESTER));
    longer := begun + [TakeData(REQUESTER)];
    var s := After(Initial(), steps);
    GotoTwice(s, WantAck(r), HasAck(r));
    GotoTwice(s, HasAck(r), Writing(r, 0));
  }

  lemma WriteTwo(steps: seq<Step>, r: Request, done: nat) returns (longer: seq<Step>)
    requires IsRun(Initial(), steps) && Fits(r) && done < 4
    requires PcOf(After(Initial(), steps), REQUESTER) == Writing(r, done)
    ensures IsRun(Initial(), longer)
    ensures After(Initial(), longer) ==
              Requesting(WritePart(WritePart(After(Initial(), steps), r, done), r, done + 1), Writing(r, done + 2))
  {
    longer := ExtendTwo(steps, Write(REQUESTER), Write(REQUESTER));
    GotoTwice(After(Initial(), steps), Writing(r, done + 1), Writing(r, done + 2));
  }

  lemma WriteLast(steps: seq<Step>, r: Request) returns (longer: seq<Step>)
    requires IsRun(Initial(), steps) && Fits(r)
    requires PcOf(After(Initial(), steps), REQUESTER) == Writing(r, 4)
    ensures IsRun(Initial(), longer)
    ensures var s := After(Initial(), steps);
            After(Initial(), longer) ==
              Requesting(s.(dataLock := None, dataOk := true, stores := s.stores + [Stored(r)]), Published(|s.stores| + 1))
  {
    longer := ExtendTwo(steps, Write(REQUESTER), ReleaseData(REQUESTER));
    GotoTwice(After(Initial(), steps), Writing(r, 5), Published(|After(Initial(), steps).stores| + 1));
  }

  /** A request is stored and published. */
  lemma Publish(steps: seq<Step>, r: Request) returns (longer: seq<Step>)
    requires IsRun(Initial(), steps) && Fits(r)
    requires var s := After(Initial(), steps);
             s.hidlReady && PcOf(s, REQUESTER) == Idle && s.ackLock == None && s.dataLock == None
    ensures IsRun(Initial(), longer)
    ensures var s := After(Initial(), steps);
            After(Initial(), longer) ==
              Requesting(s.(ackLock := Some(REQUESTER), dataOk := true, rec := Stored(r), stores := s.stores + [Stored(r)]),
                         Published(|s.stores| + 1))
  {
    var s := After(Initial(), steps);
    var locked := TakeLocks(steps, r);
    var half := WriteTwo(locked, r, 0);
    GotoTwice(s, Writing(r, 0), Writing(r, 2));
    var most := WriteTwo(half, r, 2);
    GotoTwice(s, Writing(r, 2), Writing(r, 4));
    StoredInParts(r, Record(r.cmd, |r.data|, Blank().data));
    longer := WriteLast(most, r);
    GotoTwice(s, Writing(r, 4), Published(|s.stores| + 1));
  }

  /** The request waits; its reset makes it forget the responses so far. */
  lemma Wait(steps: seq<Step>) returns (longer: seq<Step>)
    requires IsRun(Initial(), steps) && PcOf(After(Initial(), steps), REQUESTER).Published?
    ensures IsRun(Initial(), longer)
    ensures var s := After(Initial(), steps);
            After(Initial(), longer) ==
              Requesting(s.(completions := 0), Waiting(PcOf(s, REQUESTER).number, |s.answers|))
  {
    Extend(Initial(), steps, Reset(REQUESTER));
    longer := steps + [Reset(REQUESTER)];
  }

  lemma Answered(steps: seq<Step>, number: nat) returns (longer: seq<Step>)
    requires IsRun(Initial(), steps)
    ensures IsRun(Initial(), longer)
    ensures var s := After(Initial(), steps);
            After(Initial(), longer) ==
              s.(completions := s.completions + 1, answers := s.answers + [Answer(number, LastCopied(s))])
  {
    Extend(Initial(), steps, Respond(number));
    longer := steps + [Respond(number)];
  }

  /** The waiting request returns: successfully if there is a completion, and with a time-out if not. */
  lemma Finish(steps: seq<Step>) returns (longer: seq<Step>)
    requires IsRun(Initial(), steps) && PcOf(After(Initial(), steps), REQUESTER).Waiting?
    ensures IsRun(Initial(), longer)
    ensures var s, pc := After(Initial(), steps), PcOf(After(Initial(), steps), REQUESTER);
            After(Initial(), longer) ==
              Requesting(s.(completions := if s.completions > 0 then s.completions - 1 else 0, ackLock := None,
                            results := s.results
                              + [MutualCommand.Result(s.completions > 0, pc.number, pc.resetAt, |s.answers|)]),
                         Idle)
  {
    var s, pc := After(Initial(), steps), PcOf(After(Initial(), steps), REQUESTER);
    var a := if s.completions > 0 then Ack(REQUESTER) else TimeOut(REQUESTER);
    longer := ExtendTwo(steps, a, Return(REQUESTER));
    GotoTwice(s, Returning(s.completions > 0, pc.number, pc.resetAt), Idle);
  }

  // ---------- the runs ----------

  /**
   Two readers pass the wait for the same command, because the read lock is released before the flag is
   lowered, and both copy it.
   */
  lemma TwoReadersCopyTwice(r: Request) returns (steps: seq<Step>)
    requires Fits(r)
    ensures IsRun(Initial(), steps)
    ensures After(Initial(), steps).stores == [Stored(r)]
    ensures After(Initial(), steps).copies == [Copy(Stored(r), 1, true), Copy(Stored(r), 1, false)]
  {
    assert IsRun(Initial(), []);
    steps := Arrive([], 0);
    steps := Publish(steps, r);
    steps := See(steps, 0);
    steps := Arrive(steps, 1);
    steps := See(steps, 1);
    steps := CopyAll(steps, 0);
    steps := CopyAll(steps, 1);
  }

  /** A response that comes after the command is published and before the reset does not help: the request times out. */
  lemma EarlyResponseIsForgotten(r: Request) returns (steps: seq<Step>)
    requires Fits(r)
    ensures IsRun(Initial(), steps)
    ensures After(Initial(), steps).stores == [Stored(r)] && |After(Initial(), steps).answers| == 1
    ensures After(Initial(), steps).results == [MutualCommand.Result(false, 1, 1, 1)]
  {
    assert IsRun(Initial(), []);
    steps := Arrive([], 0);
    steps := Publish(steps, r);
    steps := Answered(steps, 1);
    steps := Wait(steps);
    steps := Finish(steps);
  }

  /** A response before anybody has read the command acknowledges it. */
  lemma UnreadCommandIsAcknowledged(r: Request) returns (steps: seq<Step>)
    requires Fits(r)
    ensures IsRun(Initial(), steps)
    ensures var s := After(Initial(), steps);
            s.copies == [] && s.results == [MutualCommand.Result(true, 1, 0, 1)] && !Genuine(s, s.results[0])
  {
    assert IsRun(Initial(), []);
    steps := Arrive([], 0);
    steps := Publish(steps, r);
    steps := Wait(steps);
    steps := Answered(steps, 1);
    steps := Finish(steps);
  }

  /** A command that is read and then times out. */
  lemma FirstTimesOut(r: Request) returns (steps: seq<Step>)
    requires Fits(r)
    ensures IsRun(Initial(), steps)
    ensures var s := After(Initial(), steps);
            && s.hidlReady && PcOf(s, REQUESTER) == Idle && s.ackLock == None && s.dataLock == None
            && s.stores == [Stored(r)] && s.copies == [Copy(Stored(r), 1, true)]
            && s.answers == [] && s.results == [MutualCommand.Result(false, 1, 0, 0)]
  {
    assert IsRun(Initial(), []);
    steps := Arrive([], 0);
    steps := Publish(steps, r);
    steps := See(steps, 0);
    steps := CopyAll(steps, 0);
    steps := Wait(steps);
    steps := Finish(steps);
  }

  /** The late response to a command that has timed out acknowledges the next command, which nobody has read. */
  lemma LateResponseAcknowledgesNext(r: Request, next: Request) returns (steps: seq<Step>)
    requires Fits(r) && Fits(next)
    ensures IsRun(Initial(), steps)
    ensures var s := After(Initial(), steps);
            && s.answers == [Answer(1, 1)] && LastCopied(s) == 1
            && s.results == [MutualCommand.Result(false, 1, 0, 0), MutualCommand.Result(true, 2, 0, 1)]
            && !Genuine(s, s.results[1])
  {
    steps := FirstTimesOut(r);
    steps := Publish(steps, next);
    steps := Wait(steps);
    steps := Answered(steps, 1);
    steps := Finish(steps);
  }
}
