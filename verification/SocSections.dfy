/**
 Charge statistics by state-of-charge section: oplus_chg_track_cal_section_soc_inc_rm keeps, for the
 low, medium and high section, the time and the capacity gained while charging there.
 */
module SocSections {

  const TRACK_REF_SOC_50 := 50
  const TRACK_REF_SOC_75 := 75
  const TRACK_REF_SOC_90 := 90

  datatype Section = Default | Low | Medium | High | Over

  /** An accumulated amount: seconds and capacity. */
  datatype Amount = Amount(time: int, rm: int) {
    function Plus(that: Amount): Amount {
      Amount(time + that.time, rm + that.rm)
    }

    function Minus(that: Amount): Amount {
      Amount(time - that.time, rm - that.rm)
    }
  }

  const ZERO := Amount(0, 0)

  /** One observation: the clock and the remaining capacity, the state of charge, and whether it charges. */
  datatype Obs = Obs(at: Amount, soc: int, charging: bool)

  function SectionOf(soc: int): Section {
    if soc <= TRACK_REF_SOC_50 then Low
    else if soc <= TRACK_REF_SOC_75 then Medium
    else if soc <= TRACK_REF_SOC_90 then High
    else Over
  }

  /** While charging the section moves by at most one step an observation, and leaves OVER only below 90. */
  function Move(from: Section, soc: int): Section {
    match from
    case Default => SectionOf(soc)
    case Low => if soc > TRACK_REF_SOC_50 then Medium else Low
    case Medium => if soc <= TRACK_REF_SOC_50 then Low else if soc > TRACK_REF_SOC_75 then High else Medium
    case High => if soc <= TRACK_REF_SOC_75 then Medium else if soc > TRACK_REF_SOC_90 then Over else High
    case Over => if soc < TRACK_REF_SOC_90 then High else Over
  }

  /** The section after an observation that found it in `before`. */
  function SectionAfter(before: Section, o: Obs): Section {
    if o.charging then Move(before, o.soc) else SectionOf(o.soc)
  }

  // ---------- what is to be accumulated ----------

  /** The time between two observations: the section it began in, whether it ended charging, what passed. */
  datatype Interval = Interval(begins: Section, charging: bool, passed: Amount)

  /** The intervals of a session, the latest last. */
  datatype History = Empty | Snoc(earlier: History, last: Interval)

  /** The two meters of an amount. */
  datatype Meter = Seconds | Capacity

  function Read(a: Amount, m: Meter): int {
    if m == Seconds then a.time else a.rm
  }

  /** What passed over the intervals that end while charging and begin in section k. */
  function Gained(h: History, k: Section, m: Meter): int {
    match h
    case Empty => 0
    case Snoc(earlier, i) => Gained(earlier, k, m) + if i.charging && i.begins == k then Read(i.passed, m) else 0
  }

  /** What passed over the intervals that end while charging and begin outside OVER. */
  function GainedBelowOver(h: History, m: Meter): int {
    match h
    case Empty => 0
    case Snoc(earlier, i) => GainedBelowOver(earlier, m) + if i.charging && i.begins != Over then Read(i.passed, m) else 0
  }

  // ---------- the accumulators ----------

  /** The fields and static variables of the calculation; `goNext` is time_go_next_status and rm_go_next_status. */
  datatype Books = Books(
    status: Section,
    low: Amount,
    medium: Amount,
    high: Amount,
    preLow: Amount,
    preMedium: Amount,
    preHigh: Amount,
    goNext: Amount)

  function Start(o: Obs): Books {
    Books(SectionOf(o.soc), ZERO, ZERO, ZERO, ZERO, ZERO, ZERO, o.at)
  }

  /** At rest the section follows the state of charge and every base catches up. */
  function Rest(b: Books, o: Obs): Books {
    Books(SectionOf(o.soc), b.low, b.medium, b.high, b.low, b.medium, b.high, o.at)
  }

  /** Since `goNext`, on top of the base. */
  function SoFar(b: Books, pre: Amount, o: Obs): Amount {
    o.at.Minus(b.goNext).Plus(pre)
  }

  /** While charging, the current section's accumulator runs on; leaving the section closes it. */
  function Accumulate(b: Books, o: Obs): Books {
    var to := Move(b.status, o.soc);
    var left := to != b.status;
    var go := if left then o.at else b.goNext;
    match b.status
    case Low =>
      var sum := SoFar(b, b.preLow, o);
      b.(status := to, low := sum, preLow := if left then sum else b.preLow, goNext := go)
    case Medium =>
      var sum := SoFar(b, b.preMedium, o);
      b.(status := to, medium := sum, preMedium := if left then sum else b.preMedium, goNext := go)
    case High =>
      var sum := SoFar(b, b.preHigh, o);
      b.(status := to, high := sum, preHigh := if left then sum else b.preHigh, goNext := go)
    case _ => b.(status := to, goNext := go)
  }

  function Observe(b: Books, o: Obs): Books {
    var b1 := if b.status == Default then Start(o) else b;
    if o.charging then Accumulate(b1, o) else Rest(b1, o)
  }

  class SocTracker {
    var status: Section
    var low: Amount
    var medium: Amount
    var high: Amount
    var preLow: Amount
    var preMedium: Amount
    var preHigh: Amount
    var goNext: Amount

    ghost function Value(): Books
      reads this
    {
      Books(status, low, medium, high, preLow, preMedium, preHigh, goNext)
    }

    constructor ()
      ensures status == Default
    {
      status := Default;
    }

    /** Plugging in or out puts the section back to DEFAULT; the next observation starts afresh. */
    method Reset()
      modifies this`status
      ensures status == Default
    {
      status := Default;
    }

    /** oplus_chg_track_cal_section_soc_inc_rm */
    method CalSectionSocIncRm(o: Obs)
      modifies this
      ensures Value() == Observe(old(Value()), o)
    {
      if status == Default {
        low, medium, high := ZERO, ZERO, ZERO;
        preLow, preMedium, preHigh := ZERO, ZERO, ZERO;
        status := SectionOf(o.soc);
        goNext := o.at;
      }
      if !o.charging {
        status := SectionOf(o.soc);
        preLow, preMedium, preHigh := low, medium, high;
        goNext := o.at;
        return;
      }
      CalCharging(o);
    }

    /** The switch over the section while charging. */
    method CalCharging(o: Obs)
      requires status != Default
      modifies this
      ensures Value() == Accumulate(old(Value()), o)
    {
      match status
      case Low =>
        low := o.at.Minus(goNext).Plus(preLow);
        if o.soc > TRACK_REF_SOC_50 {
          preLow := low;
          goNext := o.at;
          status := Medium;
        }
      case Medium =>
        medium := o.at.Minus(goNext).Plus(preMedium);
        if o.soc <= TRACK_REF_SOC_50 {
          preMedium := medium;
          goNext := o.at;
          status := Low;
        } else if o.soc > TRACK_REF_SOC_75 {
          preMedium := medium;
          goNext := o.at;
          status := High;
        }
      case High =>
        high := o.at.Minus(goNext).Plus(preHigh);
        if o.soc <= TRACK_REF_SOC_75 {
          preHigh := high;
          goNext := o.at;
          status := Medium;
        } else if o.soc > TRACK_REF_SOC_90 {
          preHigh := high;
          goNext := o.at;
          status := Over;
        }
      case Over =>
        if o.soc < TRACK_REF_SOC_90 {
          goNext := o.at;
          status := High;
        }
    }
  }

  // ---------- sessions ----------

  /** A session under way: its books, its intervals, and the last observation's clock and capacity. */
  datatype Session = Session(books: Books, history: History, last: Amount)

  /** The first observation after a reset. */
  function Open(b: Books, o: Obs): Session {
    Session(Observe(b.(status := Default), o), Empty, o.at)
  }

  function Next(s: Session, o: Obs): Session {
    Session(Observe(s.books, o), Snoc(s.history, Interval(s.books.status, o.charging, o.at.Minus(s.last))), o.at)
  }

  function Run(s: Session, obs: seq<Obs>): Session
    decreases |obs|
  {
    if obs == [] then s else Run(Next(s, obs[0]), obs[1..])
  }

  /** The accumulator of section k holds what the history gains there. */
  predicate Holds(sum: Amount, h: History, k: Section) {
    sum.time == Gained(h, k, Seconds) && sum.rm == Gained(h, k, Capacity)
  }

  /** It is ahead of its base by the running interval while k is the current section, and level otherwise. */
  predicate Ahead(sum: Amount, pre: Amount, b: Books, k: Section, last: Amount) {
    && sum.time - pre.time == (if b.status == k then last.time - b.goNext.time else 0)
    && sum.rm - pre.rm == (if b.status == k then last.rm - b.goNext.rm else 0)
  }

  predicate AllAhead(b: Books, last: Amount) {
    && Ahead(b.low, b.preLow, b, Low, last)
    && Ahead(b.medium, b.preMedium, b, Medium, last)
    && Ahead(b.high, b.preHigh, b, High, last)
  }

  predicate AllHold(b: Books, h: History) {
    Holds(b.low, h, Low) && Holds(b.medium, h, Medium) && Holds(b.high, h, High)
  }

  /** No interval of a session begins in the DEFAULT section. */
  predicate AllKnown(h: History) {
    h.Snoc? ==> h.last.begins != Default && AllKnown(h.earlier)
  }

  predicate Sound(s: Session) {
    && s.books.status != Default
    && AllAhead(s.books, s.last)
    && AllHold(s.books, s.history)
    && AllKnown(s.history)
  }

  lemma AheadStep(b: Books, last: Amount, o: Obs)
    requires b.status != Default && AllAhead(b, last)
    ensures AllAhead(Observe(b, o), o.at) && Observe(b, o).status == SectionAfter(b.status, o)
  {
  }

  lemma HoldsStep(b: Books, last: Amount, h: History, o: Obs)
    requires b.status != Default && AllAhead(b, last) && AllHold(b, h)
    ensures AllHold(Observe(b, o), Snoc(h, Interval(b.status, o.charging, o.at.Minus(last))))
  {
  }

  lemma {:induction false} SoundRun(s: Session, obs: seq<Obs>)
    requires Sound(s)
    ensures Sound(Run(s, obs))
    decreases |obs|
  {
    if obs == [] {
    } else {
      AheadStep(s.books, s.last, obs[0]);
      HoldsStep(s.books, s.last, s.history, obs[0]);
      SoundRun(Next(s, obs[0]), obs[1..]);
    }
  }

  // ---------- conservation ----------

  lemma {:induction false} SharesAddUp(h: History, m: Meter)
    requires AllKnown(h)
    ensures Gained(h, Low, m) + Gained(h, Medium, m) + Gained(h, High, m) == GainedBelowOver(h, m)
  {
    if h.Empty? {
    } else {
      SharesAddUp(h.earlier, m);
    }
  }

  /**
   Main result: after any session each accumulator is what passed in the intervals that end while charging
   and begin in its section; together they are all such intervals that begin outside OVER.
   */
  lemma SectionsAddUp(b: Books, first: Obs, obs: seq<Obs>)
    ensures var s := Run(Open(b, first), obs);
            && AllHold(s.books, s.history)
            && s.books.low.time + s.books.medium.time + s.books.high.time == GainedBelowOver(s.history, Seconds)
            && s.books.low.rm + s.books.medium.rm + s.books.high.rm == GainedBelowOver(s.history, Capacity)
  {
    var s := Run(Open(b, first), obs);
    SoundRun(Open(b, first), obs);
    SharesAddUp(s.history, Seconds);
    SharesAddUp(s.history, Capacity);
  }

  /** A plug event starts afresh: nothing of the books before it is left in the session after it. */
  lemma PlugForgets(b1: Books, b2: Books, first: Obs, obs: seq<Obs>)
    ensures Run(Open(b1, first), obs) == Run(Open(b2, first), obs)
  {
  }

  // ---------- sessions between plug events ----------

  /** Plugging in or out, or an observation. */
  datatype Event = Plug | Look(o: Obs)

  function RunBooks(b: Books, events: seq<Event>): Books {
    if events == [] then b
    else
      var before := RunBooks(b, events[..|events| - 1]);
      match events[|events| - 1]
      case Plug => before.(status := Default)
      case Look(o) => Observe(before, o)
  }

  /** The observations after the last plug event. */
  function SincePlug(events: seq<Event>): seq<Obs> {
    if events == [] then []
    else
      match events[|events| - 1]
      case Plug => []
      case Look(o) => SincePlug(events[..|events| - 1]) + [o]
  }

  lemma {:induction false} RunOneMore(s: Session, obs: seq<Obs>, o: Obs)
    ensures Run(s, obs + [o]) == Next(Run(s, obs), o)
    decreases |obs|
  {
    if obs == [] {
      assert [] + [o] == [o] && [o][1..] == [];
    } else {
      assert (obs + [o])[1..] == obs[1..] + [o];
      RunOneMore(Next(s, obs[0]), obs[1..], o);
    }
  }

  /** The books after any events are those of the session since the last plug event. */
  lemma {:induction false} BooksOfSession(b: Books, events: seq<Event>)
    requires b.status == Default
    ensures var obs := SincePlug(events);
            if obs == [] then RunBooks(b, events).status == Default
            else RunBooks(b, events) == Run(Open(b, obs[0]), obs[1..]).books
  {
    if events == [] {
    } else {
      var before := events[..|events| - 1];
      BooksOfSession(b, before);
      match events[|events| - 1] {
        case Plug =>
        case Look(o) =>
          var obs := SincePlug(before);
          if obs == [] {
            PlugForgets(RunBooks(b, before), b, o, []);
            assert (obs + [o])[1..] == [];
          } else {
            assert (obs + [o])[1..] == obs[1..] + [o];
            RunOneMore(Open(b, obs[0]), obs[1..], o);
          }
      }
    }
  }

  /**
   Main result: over any run of plug events and observations the accumulators hold what passed since the last plug
   event in the intervals that end charging and begin outside OVER; nothing carries over from before it.
   */
  lemma SectionsAddUpSincePlug(b: Books, events: seq<Event>)
    requires b.status == Default && SincePlug(events) != []
    ensures var obs := SincePlug(events);
            var b1, h := RunBooks(b, events), Run(Open(b, obs[0]), obs[1..]).history;
            && AllHold(b1, h)
            && b1.low.time + b1.medium.time + b1.high.time == GainedBelowOver(h, Seconds)
            && b1.low.rm + b1.medium.rm + b1.high.rm == GainedBelowOver(h, Capacity)
  {
    var obs := SincePlug(events);
    BooksOfSession(b, events);
    SectionsAddUp(b, obs[0], obs[1..]);
  }

  // ---------- the section follows the state of charge ----------

  /** How often the section must move while charging to reach the one that fits the state of charge. */
  function Distance(from: Section, soc: int): nat {
    var x, y := Rank(from), Rank(SectionOf(soc));
    if x < y then y - x else x - y
  }

  function Rank(s: Section): nat {
    match s
    case Default => 0
    case Low => 1
    case Medium => 2
    case High => 3
    case Over => 4
  }

  /**
   While charging each observation brings the section one step nearer, so a lag is counted in a neighbouring
   section; only at exactly 90 percent does OVER, entered above 90, stay.
   */
  lemma SectionCatchesUp(from: Section, soc: int)
    requires from != Default
    ensures Distance(Move(from, soc), soc) ==
              if from == Over && soc == TRACK_REF_SOC_90 then 1
              else if Distance(from, soc) == 0 then 0 else Distance(from, soc) - 1
  {
  }

  /** Up to 50 percent low, up to 75 medium, up to 90 high, and beyond over. */
  predicate Fits(k: Section, soc: int) {
    match k
    case Default => false
    case Low => soc <= 50
    case Medium => 50 < soc <= 75
    case High => 75 < soc <= 90
    case Over => soc > 90
  }

  /** Without charging the section is at once the one that fits. */
  lemma RestFits(b: Books, o: Obs)
    requires !o.charging
    ensures Fits(Observe(b, o).status, o.soc)
  {
  }

  /** While charging at one state of charge the section fits after three observations, unless it stays over at 90. */
  lemma ChargingFits(b: Books, o1: Obs, o2: Obs, o3: Obs)
    requires o1.charging && o2.charging && o3.charging && o1.soc == o2.soc == o3.soc
    ensures var k := Observe(Observe(Observe(b, o1), o2), o3).status;
            Fits(k, o1.soc) || (k == Over && o1.soc == 90 && b.status == Over)
  {
  }

  /** A section that fits stays, and one that does not moves to a neighbour, up for more charge and down for less. */
  lemma MovesTowards(from: Section, soc: int)
    requires from != Default
    ensures Fits(from, soc) ==> Move(from, soc) == from
    ensures !Fits(from, soc) && !(from == Over && soc == 90) ==>
              Rank(Move(from, soc)) == if from == Low || (from == Medium && soc > 75) || (from == High && soc > 90)
                                       then Rank(from) + 1 else Rank(from) - 1
  {
  }
}
