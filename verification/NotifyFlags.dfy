/**
 The notification flags of oplus_debug_info.c: events are counted, a counting policy raises a flag, and
 flags are cleared by ranges once they have been sent.
 */
module NotifyFlags {
  import opened FlagWord

  const FLAG_COUNT := 43
  const SLOW_FIRST := 6
  const SLOW_LAST := 14

  const FASTCHG_CHARGER_TYPE_UNKNOWN := 0
  const CHARGER_SUBTYPE_FASTCHG_VOOC := 1

  datatype Policy = Unknown | Once | Repeat | Total

  datatype Order = Order(policy: Policy, fastTime: nat, normalTime: nat, percent: int)

  /** The policy table, by the number of the flag. */
  function OrderOf(index: nat): Order
    requires index < FLAG_COUNT
  {
    if index in {8, 12, 14, 30} then Order(Total, 720, 1440, 70)
    else if index == 13 then Order(Total, 720, 1440, 40)
    else if index == 5 then Order(Once, 3, 3, -1)
    else if index in {0, 1, 6, 7, 9, 10, 11, 15, 27, 28, 40, 41} then Order(Once, 1, 1, -1)
    else Order(Repeat, 1, 1, -1)
  }

  function PolicyTime(o: Order, fastType: int): nat {
    if fastType == FASTCHG_CHARGER_TYPE_UNKNOWN || fastType == CHARGER_SUBTYPE_FASTCHG_VOOC then o.normalTime
    else o.fastTime
  }

  function Divisor(o: Order, time: nat): int {
    (time * o.percent) / 100
  }

  /** An order the code can evaluate: no remainder by zero. */
  predicate Sound(o: Order, time: nat) {
    match o.policy
    case Unknown => false
    case Once => true
    case Repeat => time >= 1
    case Total => o.percent >= 0 && Divisor(o, time) >= 1
  }

  /** Whether the event that brings a counter to `count` raises its flag. */
  predicate Fires(o: Order, time: nat, count: nat)
    requires Sound(o, time)
  {
    match o.policy
    case Once => count == time
    case Repeat => count % time == 0
    case Total => count % Divisor(o, time) == 0
  }

  /** No order of the table divides by zero or has an unknown policy, whatever the charger type. */
  lemma TableIsSound(index: nat, fastType: int)
    requires index < FLAG_COUNT
    ensures Sound(OrderOf(index), PolicyTime(OrderOf(index), fastType))
  {
    var o := OrderOf(index);
    assert o.normalTime * o.percent == 1440 * o.percent || o.percent == -1;
    assert o.fastTime * o.percent == 720 * o.percent || o.percent == -1;
  }

  // ---------- the state and its operations ----------

  datatype State = State(flags: set<int>, counts: seq<nat>, fastType: int)

  datatype Op = Mark(index: int) | Clear(low: nat, high: nat) | SetFastType(fastType: int) | ResetInfo

  ghost predicate WellFormed(s: State) {
    |s.counts| == FLAG_COUNT && forall i :: i in s.flags ==> 0 <= i < WORD_BITS
  }

  predicate Callable(op: Op) {
    op.Clear? ==> op.low < WORD_BITS && op.high < WORD_BITS
  }

  /** The effect of an event: its counter goes up by one and its flag is raised if the policy says so. */
  ghost function AfterMark(s: State, index: int): State
    requires WellFormed(s)
  {
    if !(0 <= index < FLAG_COUNT) then s else
    var count := s.counts[index] + 1;
    TableIsSound(index, s.fastType);
    State(if Fires(OrderOf(index), PolicyTime(OrderOf(index), s.fastType), count) then s.flags + {index} else s.flags,
          s.counts[index := count], s.fastType)
  }

  /** The counters of the slow-charge flags go to zero; the others live on. */
  function SlowCountersCleared(counts: seq<nat>): (r: seq<nat>)
    requires |counts| == FLAG_COUNT
    ensures |r| == FLAG_COUNT
    ensures forall i :: 0 <= i < FLAG_COUNT ==> r[i] == if SLOW_FIRST <= i <= SLOW_LAST then 0 else counts[i]
  {
    counts[..SLOW_FIRST] + seq(SLOW_LAST + 1 - SLOW_FIRST, _ => 0) + counts[SLOW_LAST + 1..]
  }

  ghost function Apply(s: State, op: Op): (r: State)
    requires WellFormed(s) && Callable(op)
    ensures WellFormed(r)
  {
    match op
    case Mark(index) => AfterMark(s, index)
    case Clear(low, high) => s.(flags := Without(s.flags, low, high))
    case SetFastType(v) => s.(fastType := v)
    case ResetInfo => State({}, SlowCountersCleared(s.counts), FASTCHG_CHARGER_TYPE_UNKNOWN)
  }

  ghost function Run(s: State, ops: seq<Op>): (r: State)
    requires WellFormed(s) && forall op :: op in ops ==> Callable(op)
    ensures WellFormed(r)
  {
    if ops == [] then s else Apply(Run(s, ops[..|ops| - 1]), ops[|ops| - 1])
  }

  class DebugInfo {
    var notifyFlag: Word
    var chgCnt: array<nat>
    var fastChgType: int

    ghost predicate Valid()
      reads this
    {
      chgCnt.Length == FLAG_COUNT
    }

    ghost function Value(): State
      requires Valid()
      reads this, chgCnt
    {
      State(Flags(notifyFlag), chgCnt[..], fastChgType)
    }

    constructor ()
      ensures Valid() && fresh(chgCnt)
      ensures Value() == State({}, seq(FLAG_COUNT, _ => 0), FASTCHG_CHARGER_TYPE_UNKNOWN)
    {
      notifyFlag := Zero();
      chgCnt := new nat[FLAG_COUNT](_ => 0);
      fastChgType := FASTCHG_CHARGER_TYPE_UNKNOWN;
      new;
      ZeroIsEmpty();
    }

    method MaskNotifyFlag(low: nat, high: nat) returns (rc: int)
      requires Valid() && low < WORD_BITS && high < WORD_BITS
      modifies this`notifyFlag
      ensures rc == 0 && Valid() && Value() == Apply(old(Value()), Clear(low, high))
    {
      var bits := WORD_BITS - 1;
      var mask := Not(Zero());
      mask := ShiftLeft(ShiftRight(mask, low), low);
      mask := ShiftRight(ShiftLeft(mask, bits - high), bits - high);
      ClearIsRemoval(notifyFlag, low, high);
      notifyFlag := And(notifyFlag, Not(mask));
      return 0;
    }

    method SetChgFlag(index: int) returns (rc: int)
      requires Valid()
      modifies this`notifyFlag, chgCnt
      ensures Valid() && Value() == Apply(old(Value()), Mark(index))
      ensures rc == if 0 <= index < FLAG_COUNT then 0 else -1
    {
      if index < 0 || index >= FLAG_COUNT {
        return -1;
      }
      chgCnt[index] := chgCnt[index] + 1;
      var count := chgCnt[index];
      var order := OrderOf(index);
      var policyTime;
      if fastChgType == FASTCHG_CHARGER_TYPE_UNKNOWN || fastChgType == CHARGER_SUBTYPE_FASTCHG_VOOC {
        policyTime := order.normalTime;
      } else {
        policyTime := order.fastTime;
      }
      TableIsSound(index, fastChgType);
      SetIsInsertion(notifyFlag, index);
      match order.policy {
        case Once =>
          if count == policyTime {
            notifyFlag := Or(notifyFlag, ShiftLeft(One(), index));
          }
          rc := 0;
        case Repeat =>
          if count % policyTime == 0 {
            notifyFlag := Or(notifyFlag, ShiftLeft(One(), index));
          }
          rc := 0;
        case Total =>
          if count % (policyTime * order.percent / 100) == 0 {
            notifyFlag := Or(notifyFlag, ShiftLeft(One(), index));
          }
          rc := 0;
      }
    }

    method NotifyFlagIsSet(flag: nat) returns (ret: int)
      requires Valid() && flag < WORD_BITS
      ensures ret == if flag in Value().flags then 1 else 0
    {
      ret := 0;
      TestIsMembership(notifyFlag, flag);
      if And(notifyFlag, ShiftLeft(One(), flag)) != Zero() {
        ret := 1;
      }
    }

    method Reset() returns (rc: int)
      requires Valid()
      modifies this, chgCnt
      ensures rc == 0 && Valid() && chgCnt == old(chgCnt) && Value() == Apply(old(Value()), ResetInfo)
    {
      ghost var before := chgCnt[..];
      var i := SLOW_FIRST;
      while i <= SLOW_LAST
        invariant SLOW_FIRST <= i <= SLOW_LAST + 1
        invariant Valid() && chgCnt == old(chgCnt)
        invariant forall k :: 0 <= k < FLAG_COUNT ==> chgCnt[k] == if SLOW_FIRST <= k < i then 0 else before[k]
      {
        chgCnt[i] := 0;
        i := i + 1;
      }
      assert chgCnt[..] == SlowCountersCleared(before);
      fastChgType := FASTCHG_CHARGER_TYPE_UNKNOWN;
      notifyFlag := Zero();
      ZeroIsEmpty();
      return 0;
    }
  }

  // ---------- how often a flag is raised ----------

  predicate RaisesNow(s: State, op: Op, index: int)
    requires |s.counts| == FLAG_COUNT
  {
    op == Mark(index) && 0 <= index < FLAG_COUNT &&
    var order := OrderOf(index);
    var time := PolicyTime(order, s.fastType);
    Sound(order, time) && Fires(order, time, s.counts[index] + 1)
  }

  /** How many operations of a run raise the flag. */
  ghost function Raises(s: State, ops: seq<Op>, index: int): nat
    requires WellFormed(s) && forall op :: op in ops ==> Callable(op)
  {
    if ops == [] then 0 else
    var before := ops[..|ops| - 1];
    Raises(s, before, index) + if RaisesNow(Run(s, before), ops[|ops| - 1], index) then 1 else 0
  }

  /** The number of raises a counter at `count` has seen since it was zero, under one policy time. */
  function Expected(o: Order, time: nat, count: nat): int
    requires Sound(o, time)
  {
    match o.policy
    case Once => if 1 <= time <= count then 1 else 0
    case Repeat => count / time
    case Total => count / Divisor(o, time)
  }

  lemma MultipleStep(d: nat, n: nat)
    requires d >= 1
    ensures (n + 1) / d == n / d + if (n + 1) % d == 0 then 1 else 0
  {
    var q, r := n / d, n % d;
    assert n == d * q + r;
    if r + 1 == d {
      assert n + 1 == d * (q + 1);
      Quotient(n + 1, d, q + 1, 0);
    } else {
      Quotient(n + 1, d, q, r + 1);
    }
  }

  lemma Quotient(n: nat, d: nat, q: nat, r: nat)
    requires r < d && n == d * q + r
    ensures n / d == q && n % d == r
  {
    var e := n / d - q;
    assert d * e == r - n % d;
    Scale(d, e);
  }

  lemma Scale(d: int, e: int)
    requires d >= 1
    ensures e >= 1 ==> d * e >= d
    ensures e <= -1 ==> d * e <= -d
  {
    if e >= 1 {
      assert d * (e - 1) >= 0;
    } else if e <= -1 {
      assert d * (e + 1) <= 0;
    }
  }

  lemma ExpectedStep(o: Order, time: nat, count: nat)
    requires Sound(o, time)
    ensures Expected(o, time, count + 1) == Expected(o, time, count) + if Fires(o, time, count + 1) then 1 else 0
  {
    match o.policy
    case Once =>
    case Repeat => MultipleStep(time, count);
    case Total => MultipleStep(Divisor(o, time), count);
  }

  /** In every state of the run the flag's policy time is `time`, and its counter is never reset. */
  ghost predicate Steady(s: State, ops: seq<Op>, index: nat, time: nat)
    requires index < FLAG_COUNT
    requires WellFormed(s) && forall op :: op in ops ==> Callable(op)
  {
    && PolicyTime(OrderOf(index), s.fastType) == time
    && (ops != [] ==>
          && Steady(s, ops[..|ops| - 1], index, time)
          && PolicyTime(OrderOf(index), Run(s, ops).fastType) == time
          && (ops[|ops| - 1].ResetInfo? ==> !(SLOW_FIRST <= index <= SLOW_LAST)))
  }

  function Marks(ops: seq<Op>, index: int): nat {
    if ops == [] then 0
    else Marks(ops[..|ops| - 1], index) + if ops[|ops| - 1] == Mark(index) then 1 else 0
  }

  /**
   Between two resets of its counter and under one kind of charger, a flag whose counter started at zero is
   raised once, or every `time` events, or every `time` * percent / 100 events, by its policy; clears of the
   flag and events of other flags in between change nothing.
   */
  lemma {:induction false} RaisesSinceReset(s: State, ops: seq<Op>, index: nat, time: nat)
    requires index < FLAG_COUNT
    requires WellFormed(s) && forall op :: op in ops ==> Callable(op)
    requires s.counts[index] == 0 && Steady(s, ops, index, time)
    ensures Run(s, ops).counts[index] == Marks(ops, index)
    ensures Sound(OrderOf(index), time)
    ensures Raises(s, ops, index) == Expected(OrderOf(index), time, Marks(ops, index))
  {
    TableIsSound(index, s.fastType);
    if ops == [] {
    } else {
      var before, op := ops[..|ops| - 1], ops[|ops| - 1];
      RaisesSinceReset(s, before, index, time);
      ExpectedStep(OrderOf(index), time, Marks(before, index));
      SteadyEnd(s, before, index, time);
    }
  }

  lemma SteadyEnd(s: State, ops: seq<Op>, index: nat, time: nat)
    requires index < FLAG_COUNT
    requires WellFormed(s) && forall op :: op in ops ==> Callable(op)
    requires Steady(s, ops, index, time)
    ensures PolicyTime(OrderOf(index), Run(s, ops).fastType) == time
  {
  }

  // ---------- what a set flag means ----------

  predicate Clears(op: Op, index: int) {
    op.ResetInfo? || (op.Clear? && op.low <= index <= op.high)
  }

  /** The k-th operation of the run raises the flag and no later one clears it. */
  ghost predicate StandsSince(s: State, ops: seq<Op>, index: int, k: nat)
    requires WellFormed(s) && forall op :: op in ops ==> Callable(op)
  {
    k < |ops| && RaisesNow(Run(s, ops[..k]), ops[k], index)
    && forall j :: k < j < |ops| ==> !Clears(ops[j], index)
  }

  ghost predicate NeverCleared(ops: seq<Op>, index: int) {
    forall j :: 0 <= j < |ops| ==> !Clears(ops[j], index)
  }

  /**
   After any run a flag is set exactly when some event raised it and nothing has cleared it since, or it was
   set at the start and never cleared.
   */
  lemma {:induction false} SetIffRaisedSinceCleared(s: State, ops: seq<Op>, index: int)
    requires WellFormed(s) && forall op :: op in ops ==> Callable(op)
    ensures index in Run(s, ops).flags
            <==> (index in s.flags && NeverCleared(ops, index)) || exists k :: StandsSince(s, ops, index, k)
  {
    if ops == [] {
    } else {
      var n := |ops| - 1;
      var before, op := ops[..n], ops[n];
      SetIffRaisedSinceCleared(s, before, index);
      LastOp(Run(s, before), op, index);
      if Clears(op, index) {
        forall k | StandsSince(s, ops, index, k) ensures k == n {
        }
        assert !RaisesNow(Run(s, before), op, index);
      } else {
        forall k: nat | k < n ensures StandsSince(s, ops, index, k) <==> StandsSince(s, before, index, k) {
          assert ops[..k] == before[..k];
        }
        assert StandsSince(s, ops, index, n) <==> RaisesNow(Run(s, before), op, index);
        assert NeverCleared(ops, index) <==> NeverCleared(before, index);
      }
    }
  }

  lemma LastOp(s: State, op: Op, index: int)
    requires WellFormed(s) && Callable(op)
    ensures index in Apply(s, op).flags <==> RaisesNow(s, op, index) || (index in s.flags && !Clears(op, index))
  {
    if op.Mark? && 0 <= op.index < FLAG_COUNT {
      TableIsSound(op.index, s.fastType);
    }
  }

  // ---------- the rates of the flags ----------

  /** The charger is of a slow kind: of unknown type, or plain VOOC. */
  predicate SlowCharger(fastType: int) {
    fastType == 0 || fastType == 1
  }

  /** In every state of the run the charger is slow, or in every state it is fast, and the counter is never reset. */
  ghost predicate SameKind(s: State, ops: seq<Op>, index: nat, slow: bool)
    requires index < FLAG_COUNT
    requires WellFormed(s) && forall op :: op in ops ==> Callable(op)
  {
    && SlowCharger(s.fastType) == slow
    && (ops != [] ==>
          && SameKind(s, ops[..|ops| - 1], index, slow)
          && SlowCharger(Run(s, ops).fastType) == slow
          && (ops[|ops| - 1].ResetInfo? ==> !(6 <= index <= 14)))
  }

  /** Twelve and twenty-four hours of minutes, and the share of them each policy asks for. */
  function RaisesAfter(index: nat, slow: bool, events: nat): int {
    if index in {8, 12, 14, 30} then events / (if slow then 1008 else 504)
    else if index == 13 then events / (if slow then 576 else 288)
    else if index == 5 then if events >= 3 then 1 else 0
    else if index in {0, 1, 6, 7, 9, 10, 11, 15, 27, 28, 40, 41} then if events >= 1 then 1 else 0
    else events
  }

  lemma {:induction false} SameKindIsSteady(s: State, ops: seq<Op>, index: nat, slow: bool)
    requires index < FLAG_COUNT
    requires WellFormed(s) && forall op :: op in ops ==> Callable(op)
    requires SameKind(s, ops, index, slow)
    ensures var o := OrderOf(index); Steady(s, ops, index, if slow then o.normalTime else o.fastTime)
  {
    if ops == [] {
    } else {
      SameKindIsSteady(s, ops[..|ops| - 1], index, slow);
    }
  }

  lemma ExpectedRaises(index: nat, slow: bool, events: nat)
    requires index < FLAG_COUNT
    ensures var o := OrderOf(index);
            var time := if slow then o.normalTime else o.fastTime;
            Sound(o, time) && Expected(o, time, events) == RaisesAfter(index, slow, events)
  {
    TableIsSound(index, if slow then 0 else 2);
    assert 1440 * 70 / 100 == 1008 && 720 * 70 / 100 == 504 && 1440 * 40 / 100 == 576 && 720 * 40 / 100 == 288;
  }

  /**
   Main result: how often each flag is raised by a number of events since its counter was zero, with a slow charger and with
   a fast one.
   */
  lemma RaisesByFlag(s: State, ops: seq<Op>, index: nat, slow: bool)
    requires index < FLAG_COUNT
    requires WellFormed(s) && forall op :: op in ops ==> Callable(op)
    requires s.counts[index] == 0 && SameKind(s, ops, index, slow)
    ensures Raises(s, ops, index) == RaisesAfter(index, slow, Marks(ops, index))
  {
    var o := OrderOf(index);
    SameKindIsSteady(s, ops, index, slow);
    RaisesSinceReset(s, ops, index, if slow then o.normalTime else o.fastTime);
    ExpectedRaises(index, slow, Marks(ops, index));
  }

  /** A reset makes the charger a slow one, clears all flags, and starts the slow-charge counters afresh. */
  lemma ResetStartsAfresh(s: State, index: nat)
    requires WellFormed(s) && index < FLAG_COUNT
    ensures var s1 := Apply(s, ResetInfo);
            && SlowCharger(s1.fastType) && index !in s1.flags
            && s1.counts[index] == if 6 <= index <= 14 then 0 else s.counts[index]
  {
  }
}
