/**
 The command handshake of oplus_chg_comm.c between kernel requesters, user-space readers and responders,
 any number of each, as a state machine: every access to shared data is a step of its own, and steps of
 different parties interleave freely.
 */
module MutualCommand {
  import opened Kernel

  const CHG_CMD_DATA_LEN := 256

  /** The fixed-size command record. */
  datatype Record = Record(cmd: int, size: nat, data: seq<int>)

  function Blank(): (r: Record)
    ensures |r.data| == CHG_CMD_DATA_LEN
  {
    Record(0, 0, seq(CHG_CMD_DATA_LEN, _ => 0))
  }

  /** A request: its data is at most as long as the record's buffer. */
  datatype Request = Request(cmd: int, data: seq<int>)

  predicate Fits(r: Request) {
    |r.data| <= CHG_CMD_DATA_LEN
  }

  /** The record a request is stored as. */
  function Stored(r: Request): Record
    requires Fits(r)
  {
    Record(r.cmd, |r.data|, r.data + Blank().data[|r.data|..])
  }

  // ---------- the parties ----------

  /**
   Where a requester is: waiting for the acknowledge lock, holding it, writing the record under the data
   lock (`done` parts of six), having published it as record `number`, waiting for a response since `resetAt`, or
   returning.
   */
  datatype RequesterPc =
    | Idle
    | WantAck(r: Request)
    | HasAck(r: Request)
    | Writing(r: Request, done: nat)
    | Published(number: nat)
    | Waiting(number: nat, resetAt: nat)
    | Returning(ok: bool, number: nat, resetAt: nat)

  /**
   Where a reader is: waiting for the read lock, waiting for the flag under it, past that wait with the lock
   released, holding the data lock, or copying with `done` of three parts in `buf`. `flag` is what the
   flag was when it took the data lock, which the code does not look at any more.
   */
  datatype ReaderPc =
    | Away
    | WantRead
    | Watching
    | Seen
    | Locked(flag: bool)
    | Copying(buf: Record, done: nat, flag: bool)

  datatype Holder = Requester(id: nat) | Reader(id: nat)

  /** A finished request: its result, its record, and how many responses there were at its reset and at its return. */
  datatype Result = Result(ok: bool, number: nat, resetAt: nat, returnedAt: nat)

  /** A response: the record it is meant for, and the record copied last when it came. The code looks at neither. */
  datatype Answer = Answer(number: nat, copied: nat)

  /** A finished copy: what was copied, how many records had been stored by then, and its reader's `flag`. */
  datatype Copy = Copy(rec: Record, number: nat, flag: bool)

  datatype State = State(
    hidlReady: bool,
    ackLock: Option<nat>,
    readLock: Option<nat>,
    dataLock: Option<Holder>,
    dataOk: bool,
    rec: Record,
    completions: nat,
    requesters: map<nat, RequesterPc>,
    readers: map<nat, ReaderPc>,
    stores: seq<Record>,
    copies: seq<Copy>,
    answers: seq<Answer>,
    results: seq<Result>)

  function Initial(): State {
    State(false, None, None, None, false, Blank(), 0, map[], map[], [], [], [], [])
  }

  function PcOf(s: State, i: nat): RequesterPc {
    if i in s.requesters then s.requesters[i] else Idle
  }

  function Goto(s: State, i: nat, pc: RequesterPc): State {
    s.(requesters := s.requesters[i := pc])
  }

  function ReaderOf(s: State, i: nat): ReaderPc {
    if i in s.readers then s.readers[i] else Away
  }

  function Move(s: State, i: nat, pc: ReaderPc): State {
    s.(readers := s.readers[i := pc])
  }

  // ---------- the steps ----------

  datatype Step =
    | Begin(i: nat, r: Request)
    | TakeAck(i: nat)
    | TakeData(i: nat)
    | Write(i: nat)
    | ReleaseData(i: nat)
    | Reset(i: nat)
    | Ack(i: nat)
    | TimeOut(i: nat)
    | Return(i: nat)
    | ReaderEnter(i: nat)
    | ReaderTakeRead(i: nat)
    | ReaderInterrupted(i: nat)
    | ReaderSee(i: nat)
    | ReaderLock(i: nat)
    | ReaderClear(i: nat)
    | ReaderCopy(i: nat)
    | ReaderUnlock(i: nat)
    | Respond(number: nat)

  predicate Enabled(s: State, a: Step) {
    match a
    case Begin(i, r) => PcOf(s, i) == Idle && Fits(r) && s.hidlReady
    case TakeAck(i) => PcOf(s, i).WantAck? && s.ackLock == None
    case TakeData(i) => PcOf(s, i).HasAck? && s.dataLock == None
    case Write(i) => PcOf(s, i).Writing? && PcOf(s, i).done < 5 && Fits(PcOf(s, i).r)
    case ReleaseData(i) => PcOf(s, i).Writing? && PcOf(s, i).done == 5
    case Reset(i) => PcOf(s, i).Published?
    case Ack(i) => PcOf(s, i).Waiting? && s.completions > 0
    case TimeOut(i) => PcOf(s, i).Waiting? && s.completions == 0
    case Return(i) => PcOf(s, i).Returning?
    case ReaderEnter(i) => ReaderOf(s, i) == Away
    case ReaderTakeRead(i) => ReaderOf(s, i) == WantRead && s.readLock == None
    case ReaderInterrupted(i) => ReaderOf(s, i) == Watching
    case ReaderSee(i) => ReaderOf(s, i) == Watching && s.dataOk
    case ReaderLock(i) => ReaderOf(s, i) == Seen && s.dataLock == None
    case ReaderClear(i) => ReaderOf(s, i).Locked?
    case ReaderCopy(i) => ReaderOf(s, i).Copying? && ReaderOf(s, i).done < 3
    case ReaderUnlock(i) => ReaderOf(s, i).Copying? && ReaderOf(s, i).done == 3
    case Respond(_) => true
  }

  /** The record after one of the first four writes: blank, command, size, data. */
  function PartWritten(rec: Record, r: Request, done: nat): Record {
    if done == 0 then Blank()
    else if done == 1 then Record(r.cmd, rec.size, rec.data)
    else if done == 2 then Record(rec.cmd, |r.data|, rec.data)
    else Record(rec.cmd, rec.size, Overwrite(rec.data, r.data))
  }

  /** memcpy into the front of a buffer. */
  function Overwrite(buffer: seq<int>, data: seq<int>): seq<int> {
    if |data| <= |buffer| then data + buffer[|data|..] else data
  }

  /** The fifth write raises the flag that publishes the record. */
  function WritePart(s: State, r: Request, done: nat): State
    requires Fits(r)
  {
    if done < 4 then s.(rec := PartWritten(s.rec, r, done))
    else s.(dataOk := true, stores := s.stores + [Stored(r)])
  }

  /** The three parts of the reader's copy. */
  function CopyPart(buf: Record, rec: Record, done: nat): Record {
    if done == 0 then Record(rec.cmd, buf.size, buf.data)
    else if done == 1 then Record(buf.cmd, rec.size, buf.data)
    else Record(buf.cmd, buf.size, rec.data)
  }

  function LastCopied(s: State): nat {
    if s.copies == [] then 0 else s.copies[|s.copies| - 1].number
  }

  function Next(s: State, a: Step): State
    requires Enabled(s, a)
  {
    match a
    case Begin(i, r) => Goto(s, i, WantAck(r))
    case TakeAck(i) => Goto(s.(ackLock := Some(i)), i, HasAck(PcOf(s, i).r))
    case TakeData(i) => Goto(s.(dataLock := Some(Requester(i))), i, Writing(PcOf(s, i).r, 0))
    case Write(i) =>
      var pc := PcOf(s, i);
      Goto(WritePart(s, pc.r, pc.done), i, pc.(done := pc.done + 1))
    case ReleaseData(i) => Goto(s.(dataLock := None), i, Published(|s.stores|))
    case Reset(i) => Goto(s.(completions := 0), i, Waiting(PcOf(s, i).number, |s.answers|))
    case Ack(i) =>
      Goto(s.(completions := s.completions - 1), i, Returning(true, PcOf(s, i).number, PcOf(s, i).resetAt))
    case TimeOut(i) => Goto(s, i, Returning(false, PcOf(s, i).number, PcOf(s, i).resetAt))
    case Return(i) =>
      var pc := PcOf(s, i);
      Goto(s.(ackLock := None, results := s.results + [Result(pc.ok, pc.number, pc.resetAt, |s.answers|)]), i, Idle)
    case ReaderEnter(i) => Move(s.(hidlReady := true), i, WantRead)
    case ReaderTakeRead(i) => Move(s.(readLock := Some(i)), i, Watching)
    case ReaderInterrupted(i) => Move(s.(readLock := None), i, Away)
    case ReaderSee(i) => Move(s.(readLock := None), i, Seen)
    case ReaderLock(i) => Move(s.(dataLock := Some(Reader(i))), i, Locked(s.dataOk))
    case ReaderClear(i) => Move(s.(dataOk := false), i, Copying(Blank(), 0, ReaderOf(s, i).flag))
    case ReaderCopy(i) =>
      var pc := ReaderOf(s, i);
      Move(s, i, Copying(CopyPart(pc.buf, s.rec, pc.done), pc.done + 1, pc.flag))
    case ReaderUnlock(i) =>
      var pc := ReaderOf(s, i);
      Move(s.(dataLock := None, copies := s.copies + [Copy(pc.buf, |s.stores|, pc.flag)]), i, Away)
    case Respond(number) => s.(completions := s.completions + 1, answers := s.answers + [Answer(number, LastCopied(s))])
  }

  predicate IsRun(s: State, steps: seq<Step>)
    decreases |steps|
  {
    steps == [] || (Enabled(s, steps[0]) && IsRun(Next(s, steps[0]), steps[1..]))
  }

  function After(s: State, steps: seq<Step>): State
    requires IsRun(s, steps)
    decreases |steps|
  {
    if steps == [] then s else After(Next(s, steps[0]), steps[1..])
  }

  predicate ReaderStep(a: Step) {
    a.ReaderEnter? || a.ReaderTakeRead? || a.ReaderInterrupted? || a.ReaderSee? || a.ReaderLock? || a.ReaderClear?
    || a.ReaderCopy? || a.ReaderUnlock?
  }

  predicate ByReader(a: Step, r: nat) {
    ReaderStep(a) ==> a.i == r
  }

  /** Readers touch nothing of the requesters. */
  lemma ReadersKeepRest(s: State, a: Step)
    requires Enabled(s, a) && ReaderStep(a)
    ensures var s1 := Next(s, a);
            && s1.requesters == s.requesters && s1.ackLock == s.ackLock && s1.rec == s.rec && s1.stores == s.stores
            && s1.completions == s.completions && s1.answers == s.answers && s1.results == s.results
  {
  }

  /** Requesters and responders touch nothing of the readers, and the shared data only by writing. */
  lemma OthersKeepReaders(s: State, a: Step)
    requires Enabled(s, a) && !ReaderStep(a)
    ensures var s1 := Next(s, a);
            && s1.readers == s.readers && s1.readLock == s.readLock && s1.copies == s.copies && s.stores <= s1.stores
            && (!a.Write? ==> s1.dataOk == s.dataOk && s1.rec == s.rec && s1.stores == s.stores)
  {
  }

  // ---------- invariants ----------

  predicate HoldsAck(pc: RequesterPc) {
    pc.HasAck? || pc.Writing? || pc.Published? || pc.Waiting? || pc.Returning?
  }

  predicate InSection(pc: ReaderPc) {
    pc.Locked? || pc.Copying?
  }

  /** The three locks are held by exactly the parties inside their sections. */
  ghost predicate LocksInv(s: State) {
    && (forall i: nat :: HoldsAck(PcOf(s, i)) <==> s.ackLock == Some(i))
    && (forall i: nat :: PcOf(s, i).Writing? <==> s.dataLock == Some(Requester(i)))
    && (forall i: nat :: ReaderOf(s, i).Watching? <==> s.readLock == Some(i))
    && (forall i: nat :: InSection(ReaderOf(s, i)) <==> s.dataLock == Some(Reader(i)))
  }

  /** What a requester has written so far. */
  predicate Written(s: State, pc: RequesterPc)
    requires pc.Writing?
  {
    && Fits(pc.r)
    && pc.done <= 5
    && (1 <= pc.done <= 3 ==> s.rec.data == Blank().data)
    && (2 <= pc.done ==> s.rec.cmd == pc.r.cmd)
    && (3 <= pc.done ==> s.rec.size == |pc.r.data|)
    && (4 <= pc.done ==> s.rec == Stored(pc.r))
    && (5 <= pc.done ==> s.stores != [] && s.stores[|s.stores| - 1] == Stored(pc.r))
  }

  predicate NoWriter(s: State) {
    s.dataLock == None || s.dataLock.value.Reader?
  }

  /** Outside a writer's section the shared record is the last one stored. */
  ghost predicate RecordInv(s: State) {
    && (forall i: nat :: PcOf(s, i).WantAck? || PcOf(s, i).HasAck? ==> Fits(PcOf(s, i).r))
    && (forall i: nat :: PcOf(s, i).Writing? ==> Written(s, PcOf(s, i)))
    && (NoWriter(s) && s.stores != [] ==> s.rec == s.stores[|s.stores| - 1])
  }

  /** What a reader that is past its wait knows. */
  predicate ReaderKnows(s: State, pc: ReaderPc) {
    match pc
    case Away => true
    case WantRead => true
    case Watching => true
    case Seen => s.stores != []
    case Locked(flag) => s.stores != [] && flag == s.dataOk
    case Copying(buf, done, flag) =>
      && s.stores != []
      && !s.dataOk
      && done <= 3
      && (flag <==> LastCopied(s) < |s.stores|)
      && (1 <= done ==> buf.cmd == s.rec.cmd)
      && (2 <= done ==> buf.size == s.rec.size)
      && (3 <= done ==> buf == s.rec)
  }

  /** The flag is up exactly while a record newer than the last copied is there, except during a copy. */
  ghost predicate FreshInv(s: State) {
    && LastCopied(s) <= |s.stores|
    && (s.dataOk ==> LastCopied(s) < |s.stores|)
    && (!s.dataOk ==> LastCopied(s) == |s.stores| || exists i: nat :: ReaderOf(s, i).Copying?)
    && (forall i: nat :: ReaderKnows(s, ReaderOf(s, i)))
  }

  /** The number of the copy before copy k. */
  function NumberBefore(copies: seq<Copy>, k: nat): nat
    requires k < |copies|
  {
    if k == 0 then 0 else copies[k - 1].number
  }

  /** Copy k is a whole stored record, no older than the one before, and newer exactly if its reader's flag was up. */
  predicate CopyFits(copies: seq<Copy>, stores: seq<Record>, k: nat)
    requires k < |copies|
  {
    var c, before := copies[k], NumberBefore(copies, k);
    && 0 < c.number <= |stores|
    && c.rec == stores[c.number - 1]
    && before <= c.number
    && (c.flag <==> before < c.number)
  }

  ghost predicate CopiesInv(s: State) {
    forall k: nat :: k < |s.copies| ==> CopyFits(s.copies, s.stores, k)
  }

  /** The completion counts the responses since the waiting request's reset. */
  ghost predicate AckInv(s: State) {
    && (forall i: nat :: PcOf(s, i).Waiting? ==> |s.answers| == PcOf(s, i).resetAt + s.completions)
    && (forall i: nat :: PcOf(s, i).Returning? && PcOf(s, i).ok ==> |s.answers| > PcOf(s, i).resetAt)
    && (forall k :: 0 <= k < |s.results| && s.results[k].ok ==> s.results[k].returnedAt > s.results[k].resetAt)
  }

  ghost predicate Inv(s: State) {
    LocksInv(s) && RecordInv(s) && FreshInv(s) && CopiesInv(s) && AckInv(s)
  }

  lemma LocksStep(s: State, a: Step)
    requires LocksInv(s) && Enabled(s, a)
    ensures LocksInv(Next(s, a))
  {
    AckLockStep(s, a);
    DataLockStep(s, a);
    ReaderLocksStep(s, a);
  }

  lemma AckLockStep(s: State, a: Step)
    requires LocksInv(s) && Enabled(s, a)
    ensures forall i: nat :: HoldsAck(PcOf(Next(s, a), i)) <==> Next(s, a).ackLock == Some(i)
  {
    forall i: nat ensures HoldsAck(PcOf(Next(s, a), i)) <==> Next(s, a).ackLock == Some(i) {
      assert HoldsAck(PcOf(s, i)) <==> s.ackLock == Some(i);
    }
  }

  lemma DataLockStep(s: State, a: Step)
    requires LocksInv(s) && Enabled(s, a)
    ensures forall i: nat :: PcOf(Next(s, a), i).Writing? <==> Next(s, a).dataLock == Some(Requester(i))
  {
    forall i: nat ensures PcOf(Next(s, a), i).Writing? <==> Next(s, a).dataLock == Some(Requester(i)) {
      assert PcOf(s, i).Writing? <==> s.dataLock == Some(Requester(i));
    }
  }

  lemma ReaderLocksStep(s: State, a: Step)
    requires LocksInv(s) && Enabled(s, a)
    ensures var s1 := Next(s, a);
            && (forall i: nat :: ReaderOf(s1, i).Watching? <==> s1.readLock == Some(i))
            && (forall i: nat :: InSection(ReaderOf(s1, i)) <==> s1.dataLock == Some(Reader(i)))
  {
    var s1 := Next(s, a);
    forall i: nat
      ensures ReaderOf(s1, i).Watching? <==> s1.readLock == Some(i)
      ensures InSection(ReaderOf(s1, i)) <==> s1.dataLock == Some(Reader(i))
    {
      assert ReaderOf(s, i).Watching? <==> s.readLock == Some(i);
      assert InSection(ReaderOf(s, i)) <==> s.dataLock == Some(Reader(i));
    }
  }

  lemma StoredInParts(r: Request, rec: Record)
    requires Fits(r) && rec == Record(r.cmd, |r.data|, Blank().data)
    ensures PartWritten(rec, r, 3) == Stored(r)
  {
  }

  lemma RecordStep(s: State, a: Step)
    requires LocksInv(s) && RecordInv(s) && Enabled(s, a)
    ensures RecordInv(Next(s, a))
  {
    var s1 := Next(s, a);
    if ReaderStep(a) {
      ReadersKeepRest(s, a);
      assert forall i: nat :: PcOf(s1, i) == PcOf(s, i);
    } else {
      WritersStep(s, a);
    }
    RecordOutside(s, a);
  }

  lemma WrittenOneMore(s: State, pc: RequesterPc)
    requires pc.Writing? && Written(s, pc) && pc.done < 5
    ensures var s1 := WritePart(s, pc.r, pc.done);
            forall m: map<nat, RequesterPc> :: Written(s1.(requesters := m), pc.(done := pc.done + 1))
  {
    if pc.done == 3 {
      StoredInParts(pc.r, s.rec);
    }
  }

  lemma WritersStep(s: State, a: Step)
    requires LocksInv(s) && RecordInv(s) && Enabled(s, a) && !ReaderStep(a)
    ensures var s1 := Next(s, a);
            && (forall i: nat :: PcOf(s1, i).WantAck? || PcOf(s1, i).HasAck? ==> Fits(PcOf(s1, i).r))
            && (forall i: nat :: PcOf(s1, i).Writing? ==> Written(s1, PcOf(s1, i)))
  {
    var s1 := Next(s, a);
    forall i: nat ensures PcOf(s1, i).WantAck? || PcOf(s1, i).HasAck? ==> Fits(PcOf(s1, i).r) {
      assert PcOf(s, i).WantAck? || PcOf(s, i).HasAck? ==> Fits(PcOf(s, i).r);
    }
    forall i: nat ensures PcOf(s1, i).Writing? ==> Written(s1, PcOf(s1, i)) {
      assert PcOf(s, i).HasAck? ==> Fits(PcOf(s, i).r);
      assert PcOf(s, i).Writing? ==> Written(s, PcOf(s, i));
      if a.Write? && PcOf(s, i).Writing? {
        assert a.i == i;
        WrittenOneMore(s, PcOf(s, i));
      }
    }
  }

  lemma RecordOutside(s: State, a: Step)
    requires LocksInv(s) && RecordInv(s) && Enabled(s, a)
    ensures var s1 := Next(s, a);
            NoWriter(s1) && s1.stores != [] ==> s1.rec == s1.stores[|s1.stores| - 1]
  {
    if a.Write? || a.ReleaseData? {
      assert PcOf(s, a.i).Writing? ==> Written(s, PcOf(s, a.i));
    }
  }

  lemma FreshStep(s: State, a: Step)
    requires LocksInv(s) && FreshInv(s) && Enabled(s, a)
    ensures FreshInv(Next(s, a))
  {
    var s1 := Next(s, a);
    forall i: nat ensures ReaderKnows(s1, ReaderOf(s1, i)) {
      KnowsStep(s, a, i);
    }
    FlagStep(s, a);
  }

  /** No two readers are in the data section. */
  lemma OneInSection(s: State, i: nat, j: nat)
    requires LocksInv(s) && InSection(ReaderOf(s, i))
    ensures InSection(ReaderOf(s, j)) ==> i == j
  {
    assert s.dataLock == Some(Reader(i));
    assert InSection(ReaderOf(s, j)) ==> s.dataLock == Some(Reader(j));
  }

  /** No reader is there with a writer. */
  lemma WriterIsAlone(s: State, j: nat)
    requires LocksInv(s) && PcOf(s, j).Writing?
    ensures forall i: nat :: !InSection(ReaderOf(s, i))
  {
    assert s.dataLock == Some(Requester(j));
  }

  lemma KnowsStep(s: State, a: Step, i: nat)
    requires LocksInv(s) && FreshInv(s) && Enabled(s, a)
    ensures ReaderKnows(Next(s, a), ReaderOf(Next(s, a), i))
  {
    assert ReaderKnows(s, ReaderOf(s, i));
    if a.Write? {
      WriterIsAlone(s, a.i);
    } else if InSection(ReaderOf(s, i)) && ReaderStep(a) {
      OneInSection(s, i, a.i);
    }
    if !ReaderStep(a) {
      KnowsBesideRequesters(s, a, i);
    } else if a.i != i {
      KnowsBesideReaders(s, a, i);
    } else {
      if a.ReaderClear? {
        SectionIsClear(s, i);
      }
      KnowsOwnStep(s, a);
    }
  }

  lemma KnowsBesideRequesters(s: State, a: Step, i: nat)
    requires Enabled(s, a) && !ReaderStep(a) && ReaderKnows(s, ReaderOf(s, i))
    requires InSection(ReaderOf(s, i)) ==> !a.Write?
    ensures ReaderKnows(Next(s, a), ReaderOf(Next(s, a), i))
  {
    OthersKeepReaders(s, a);
  }

  lemma KnowsBesideReaders(s: State, a: Step, i: nat)
    requires Enabled(s, a) && ReaderStep(a) && a.i != i && ReaderKnows(s, ReaderOf(s, i))
    requires InSection(ReaderOf(s, i)) ==> !InSection(ReaderOf(s, a.i))
    ensures ReaderKnows(Next(s, a), ReaderOf(Next(s, a), i))
  {
    var s1 := Next(s, a);
    ReadersKeepRest(s, a);
    assert ReaderOf(s1, i) == ReaderOf(s, i);
    if InSection(ReaderOf(s, i)) {
      assert s1.dataOk == s.dataOk && s1.copies == s.copies;
    }
  }

  lemma KnowsOwnStep(s: State, a: Step)
    requires Enabled(s, a) && ReaderStep(a) && FreshInv(s)
    requires a.ReaderClear? ==> forall j: nat :: !ReaderOf(s, j).Copying?
    ensures ReaderKnows(Next(s, a), ReaderOf(Next(s, a), a.i))
  {
    ReadersKeepRest(s, a);
    assert ReaderKnows(s, ReaderOf(s, a.i));
  }

  /** Before the reader in the data section starts to copy, nobody is copying. */
  lemma SectionIsClear(s: State, i: nat)
    requires LocksInv(s) && ReaderOf(s, i).Locked?
    ensures forall j: nat :: !ReaderOf(s, j).Copying?
  {
    forall j: nat ensures !ReaderOf(s, j).Copying? {
      OneInSection(s, i, j);
    }
  }

  lemma FlagStep(s: State, a: Step)
    requires LocksInv(s) && FreshInv(s) && Enabled(s, a)
    ensures var s1 := Next(s, a);
            && LastCopied(s1) <= |s1.stores|
            && (s1.dataOk ==> LastCopied(s1) < |s1.stores|)
            && (!s1.dataOk ==> LastCopied(s1) == |s1.stores| || exists i: nat :: ReaderOf(s1, i).Copying?)
  {
    var s1 := Next(s, a);
    if a.ReaderClear? || a.ReaderCopy? {
      assert ReaderOf(s1, a.i).Copying?;
    } else if a.ReaderUnlock? {
      assert ReaderKnows(s, ReaderOf(s, a.i));
    } else if a.Write? {
      WriterIsAlone(s, a.i);
    } else if !s.dataOk && LastCopied(s) != |s.stores| {
      var i: nat :| ReaderOf(s, i).Copying?;
      assert ReaderOf(s1, i).Copying?;
    }
  }

  lemma CopiesStep(s: State, a: Step)
    requires LocksInv(s) && RecordInv(s) && FreshInv(s) && CopiesInv(s) && Enabled(s, a)
    ensures CopiesInv(Next(s, a))
  {
    if a.ReaderUnlock? {
      var pc := ReaderOf(s, a.i);
      assert s.dataLock == Some(Reader(a.i)) && ReaderKnows(s, pc);
      forall k: nat | k < |Next(s, a).copies| ensures CopyFits(Next(s, a).copies, s.stores, k) {
        AddCopy(s.copies, s.stores, Copy(pc.buf, |s.stores|, pc.flag), k);
      }
    } else {
      var s1 := Next(s, a);
      OnlyUnlockCopies(s, a);
      forall k: nat | k < |s1.copies| ensures CopyFits(s1.copies, s1.stores, k) {
        assert CopyFits(s.copies, s.stores, k);
      }
    }
  }

  lemma AddCopy(copies: seq<Copy>, stores: seq<Record>, c: Copy, k: nat)
    requires k < |copies| ==> CopyFits(copies, stores, k)
    requires k <= |copies| && stores != [] && c.rec == stores[|stores| - 1] && c.number == |stores|
    requires var last := if copies == [] then 0 else copies[|copies| - 1].number;
             last <= |stores| && (c.flag <==> last < |stores|)
    ensures CopyFits(copies + [c], stores, k)
  {
    assert NumberBefore(copies + [c], k) ==
             if k < |copies| then NumberBefore(copies, k) else if copies == [] then 0 else copies[|copies| - 1].number;
  }

  lemma OnlyUnlockCopies(s: State, a: Step)
    requires Enabled(s, a) && !a.ReaderUnlock?
    ensures Next(s, a).copies == s.copies && s.stores <= Next(s, a).stores
  {
    if !ReaderStep(a) {
      OthersKeepReaders(s, a);
    }
  }

  lemma AckStep(s: State, a: Step)
    requires LocksInv(s) && AckInv(s) && Enabled(s, a)
    ensures AckInv(Next(s, a))
  {
    if ReaderStep(a) {
      ReadersKeepRest(s, a);
      assert forall i: nat :: PcOf(Next(s, a), i) == PcOf(s, i);
    } else {
      RequesterAckStep(s, a);
    }
  }

  lemma RequesterAckStep(s: State, a: Step)
    requires LocksInv(s) && AckInv(s) && Enabled(s, a) && !ReaderStep(a)
    ensures AckInv(Next(s, a))
  {
    var s1 := Next(s, a);
    forall i: nat
      ensures PcOf(s1, i).Waiting? ==> |s1.answers| == PcOf(s1, i).resetAt + s1.completions
      ensures PcOf(s1, i).Returning? && PcOf(s1, i).ok ==> |s1.answers| > PcOf(s1, i).resetAt
    {
      assert PcOf(s, i).Waiting? ==> |s.answers| == PcOf(s, i).resetAt + s.completions;
      assert HoldsAck(PcOf(s, i)) <==> s.ackLock == Some(i);
      if a.Reset? || a.Ack? {
        assert HoldsAck(PcOf(s, a.i)) <==> s.ackLock == Some(a.i);
      }
    }
    if a.Return? {
      assert PcOf(s, a.i).ok ==> |s.answers| > PcOf(s, a.i).resetAt;
    }
  }

  lemma InvStep(s: State, a: Step)
    requires Inv(s) && Enabled(s, a)
    ensures Inv(Next(s, a))
  {
    LocksStep(s, a);
    RecordStep(s, a);
    FreshStep(s, a);
    CopiesStep(s, a);
    AckStep(s, a);
  }

  lemma {:induction false} InvRun(s: State, steps: seq<Step>)
    requires Inv(s) && IsRun(s, steps)
    ensures Inv(After(s, steps))
    decreases |steps|
  {
    if steps == [] {
    } else {
      InvStep(s, steps[0]);
      InvRun(Next(s, steps[0]), steps[1..]);
    }
  }

  // ---------- guarantees over all interleavings ----------

  /**
   Main result: in every interleaving of any number of readers each copy is a whole stored record, copies follow the
   order of storing, and one is newer than all before it exactly if its reader took the data lock with the flag up.
   */
  lemma CopiesAreWhole(steps: seq<Step>)
    requires IsRun(Initial(), steps)
    ensures CopiesInv(After(Initial(), steps))
  {
    InvRun(Initial(), steps);
  }

  /** The readers of a run, if any, are all the same one. */
  predicate OnlyReader(steps: seq<Step>, r: nat) {
    forall k :: 0 <= k < |steps| ==> ByReader(steps[k], r)
  }

  /** A lone reader that has seen the flag finds it still up. */
  ghost predicate AloneInv(s: State, r: nat) {
    && (forall i: nat :: i != r ==> ReaderOf(s, i) == Away)
    && (match ReaderOf(s, r)
        case Seen => s.dataOk
        case Locked(flag) => flag
        case Copying(_, _, flag) => flag
        case _ => true)
    && (forall k :: 0 <= k < |s.copies| ==> s.copies[k].flag)
  }

  lemma AloneStep(s: State, a: Step, r: nat)
    requires AloneInv(s, r) && Enabled(s, a) && ByReader(a, r)
    ensures AloneInv(Next(s, a), r)
  {
    forall i: nat | i != r ensures ReaderOf(Next(s, a), i) == Away {
      assert ReaderOf(s, i) == Away;
    }
  }

  lemma {:induction false} AloneRun(s: State, steps: seq<Step>, r: nat)
    requires AloneInv(s, r) && IsRun(s, steps) && OnlyReader(steps, r)
    ensures AloneInv(After(s, steps), r)
    decreases |steps|
  {
    if steps == [] {
    } else {
      assert ByReader(steps[0], r);
      AloneStep(s, steps[0], r);
      AloneRun(Next(s, steps[0]), steps[1..], r);
    }
  }

  /** Main result: a single reader never copies a torn record, nor the same stored record twice. */
  lemma CopiesAreWholeAndNew(steps: seq<Step>, r: nat)
    requires IsRun(Initial(), steps) && OnlyReader(steps, r)
    ensures var s := After(Initial(), steps);
            && CopiesInv(s)
            && forall k: nat :: k < |s.copies| ==> NumberBefore(s.copies, k) < s.copies[k].number
  {
    InvRun(Initial(), steps);
    AloneRun(Initial(), steps, r);
    var s := After(Initial(), steps);
    forall k: nat | k < |s.copies| ensures NumberBefore(s.copies, k) < s.copies[k].number {
      assert CopyFits(s.copies, s.stores, k);
    }
  }

  /** Main result: at most one requester waits, and success means a response since that request's reset. */
  lemma AcksAreAnswers(steps: seq<Step>)
    requires IsRun(Initial(), steps)
    ensures var s := After(Initial(), steps);
            && (forall i: nat, j: nat :: PcOf(s, i).Waiting? && PcOf(s, j).Waiting? ==> i == j)
            && (forall k :: 0 <= k < |s.results| && s.results[k].ok ==> s.results[k].returnedAt > s.results[k].resetAt)
  {
    InvRun(Initial(), steps);
  }

  /**
   A waiting request can succeed exactly when a response came after its reset: the reset follows the
   wake-up of the reader, so a response that arrives between the two is forgotten.
   */
  lemma AckIffAnsweredSinceReset(steps: seq<Step>, i: nat)
    requires IsRun(Initial(), steps)
    ensures var s := After(Initial(), steps);
            PcOf(s, i).Waiting? ==> (Enabled(s, Ack(i)) <==> |s.answers| > PcOf(s, i).resetAt)
  {
    InvRun(Initial(), steps);
  }

  // ---------- what is stored ----------

  /** The record carries the request's command and data, padded with zeros to the size of the buffer. */
  lemma StoredIsRequest(r: Request)
    requires Fits(r)
    ensures var rec := Stored(r);
            && rec.cmd == r.cmd && rec.size == |r.data| && |rec.data| == 256 && rec.data[..rec.size] == r.data
            && forall k :: rec.size <= k < 256 ==> rec.data[k] == 0
  {
  }

  ghost predicate Requested(rec: Record, begun: set<Request>) {
    exists r :: r in begun && Fits(r) && rec == Stored(r)
  }

  lemma RequestedLonger(rec: Record, begun: set<Request>, more: set<Request>)
    requires Requested(rec, begun)
    ensures Requested(rec, begun + more)
  {
    var r :| r in begun && Fits(r) && rec == Stored(r);
    assert r in begun + more;
  }

  /** Until a reader has come in nobody requests anything; what is stored later are requests that were begun. */
  ghost predicate RequestedInv(s: State, begun: set<Request>) {
    && (!s.hidlReady ==> s.stores == [] && forall i: nat :: PcOf(s, i) == Idle)
    && (forall i: nat :: PcOf(s, i).WantAck? || PcOf(s, i).HasAck? || PcOf(s, i).Writing? ==> PcOf(s, i).r in begun)
    && (forall k :: 0 <= k < |s.stores| ==> Requested(s.stores[k], begun))
  }

  function Begun(a: Step): set<Request> {
    if a.Begin? then {a.r} else {}
  }

  lemma RequestedStep(s: State, a: Step, begun: set<Request>)
    requires RequestedInv(s, begun) && Enabled(s, a)
    ensures RequestedInv(Next(s, a), begun + Begun(a))
  {
    var s1 := Next(s, a);
    if ReaderStep(a) {
      ReadersKeepRest(s, a);
      assert forall i: nat :: PcOf(s1, i) == PcOf(s, i);
      assert begun + Begun(a) == begun;
    } else {
      RequestersStep(s, a, begun);
      StoresStep(s, a, begun);
    }
  }

  lemma RequestersStep(s: State, a: Step, begun: set<Request>)
    requires RequestedInv(s, begun) && Enabled(s, a) && !ReaderStep(a)
    ensures var s1 := Next(s, a);
            && (!s1.hidlReady ==> s1.stores == [] && forall i: nat :: PcOf(s1, i) == Idle)
            && (forall i: nat :: PcOf(s1, i).WantAck? || PcOf(s1, i).HasAck? || PcOf(s1, i).Writing? ==>
                  PcOf(s1, i).r in begun + Begun(a))
  {
    var s1 := Next(s, a);
    if !s1.hidlReady {
      forall i: nat ensures PcOf(s1, i) == Idle {
        assert PcOf(s, i) == Idle;
      }
    }
    forall i: nat | PcOf(s1, i).WantAck? || PcOf(s1, i).HasAck? || PcOf(s1, i).Writing?
      ensures PcOf(s1, i).r in begun + Begun(a)
    {
      assert PcOf(s, i).WantAck? || PcOf(s, i).HasAck? || PcOf(s, i).Writing? ==> PcOf(s, i).r in begun;
    }
  }

  lemma StoresStep(s: State, a: Step, begun: set<Request>)
    requires RequestedInv(s, begun) && Enabled(s, a) && !ReaderStep(a)
    ensures forall k :: 0 <= k < |Next(s, a).stores| ==> Requested(Next(s, a).stores[k], begun + Begun(a))
  {
    var s1 := Next(s, a);
    OthersKeepReaders(s, a);
    forall k | 0 <= k < |s1.stores| ensures Requested(s1.stores[k], begun + Begun(a)) {
      if k < |s.stores| {
        RequestedLonger(s.stores[k], begun, Begun(a));
      } else {
        assert a.Write? && PcOf(s, a.i).Writing?;
        assert s1.stores[k] == Stored(PcOf(s, a.i).r) && PcOf(s, a.i).r in begun;
        RequestedLonger(s1.stores[k], begun, Begun(a));
      }
    }
  }

  function AllBegun(steps: seq<Step>): set<Request> {
    if steps == [] then {} else Begun(steps[0]) + AllBegun(steps[1..])
  }

  lemma {:induction false} RequestedRun(s: State, steps: seq<Step>, begun: set<Request>)
    requires RequestedInv(s, begun) && IsRun(s, steps)
    ensures RequestedInv(After(s, steps), begun + AllBegun(steps))
    decreases |steps|
  {
    if steps == [] {
      assert begun + AllBegun(steps) == begun;
    } else {
      RequestedStep(s, steps[0], begun);
      RequestedRun(Next(s, steps[0]), steps[1..], begun + Begun(steps[0]));
      assert begun + AllBegun(steps) == begun + Begun(steps[0]) + AllBegun(steps[1..]);
    }
  }

  lemma {:induction false} ReadyNeedsReader(s: State, steps: seq<Step>)
    requires IsRun(s, steps) && !s.hidlReady && After(s, steps).hidlReady
    ensures exists k :: 0 <= k < |steps| && steps[k].ReaderEnter?
    decreases |steps|
  {
    if steps == [] {
    } else if steps[0].ReaderEnter? {
    } else {
      ReadyNeedsReader(Next(s, steps[0]), steps[1..]);
      var k :| 0 <= k < |steps[1..]| && steps[1..][k].ReaderEnter?;
      assert steps[k + 1].ReaderEnter?;
    }
  }

  /** Main result: in every run what is stored are requests that were begun, and nothing is before a reader has come in. */
  lemma OnlyRequestsAreStored(steps: seq<Step>)
    requires IsRun(Initial(), steps)
    ensures var s := After(Initial(), steps);
            && (forall k :: 0 <= k < |s.stores| ==> Requested(s.stores[k], AllBegun(steps)))
            && (s.stores != [] ==> exists k :: 0 <= k < |steps| && steps[k].ReaderEnter?)
  {
    RequestedRun(Initial(), steps, {});
    if After(Initial(), steps).hidlReady {
      ReadyNeedsReader(Initial(), steps);
    }
    assert {} + AllBegun(steps) == AllBegun(steps);
  }
}
