/**
 The sectioned module loader of oplus_chg_core.c (kernels from 6.12 on): entries of one magic lie side by
 side in memory, around a flag entry with no functions, and four sections are brought up in order.
 */
module ModuleSections {

  const CORE_MAGIC := 0x20300000
  const EARLY_MAGIC := 0x20300001
  const NORMAL_MAGIC := 0x20300002
  const LATE_MAGIC := 0x20300003

  /** A module entry; `initRc` is what its init function returns if it has one. */
  datatype Entry = Entry(magic: int, hasInit: bool, hasExit: bool, initRc: int)

  datatype Call = Init(id: nat) | Exit(id: nat)

  /** A section: its magic, the address of its flag entry, and the run [lo, hi) of entries it consists of. */
  datatype Section = Section(magic: int, flag: nat, lo: nat, hi: nat)

  /** [lo, hi) is a maximal run of the magic, with a foreign entry at each end. Address 0 is null. */
  predicate IsRun(mem: seq<Entry>, magic: int, lo: nat, hi: nat) {
    && 0 < lo < hi < |mem|
    && (forall i :: lo <= i < hi ==> mem[i].magic == magic)
    && mem[lo - 1].magic != magic
    && mem[hi].magic != magic
  }

  /** The flag lies in its section's run; if the flag itself has a wrong magic the section counts as empty. */
  predicate Placed(mem: seq<Entry>, s: Section) {
    && 0 < s.flag < |mem|
    && if mem[s.flag].magic == s.magic then s.lo <= s.flag < s.hi && IsRun(mem, s.magic, s.lo, s.hi)
       else s.lo == s.hi == 0
  }

  /** All entries from one address to another have the magic. */
  predicate Joined(mem: seq<Entry>, magic: int, from: nat, to: nat) {
    forall i :: 0 <= i < |mem| && (from <= i <= to || to <= i <= from) ==> mem[i].magic == magic
  }

  /** A section consists of exactly the entries that its flag is joined to by entries with its magic. */
  lemma SectionIsJoined(mem: seq<Entry>, s: Section, i: nat)
    requires Placed(mem, s) && i < |mem|
    ensures s.lo <= i < s.hi <==> Joined(mem, s.magic, s.flag, i)
  {
    if i < s.lo && mem[s.flag].magic == s.magic {
      assert mem[s.lo - 1].magic != s.magic;
    }
    if Joined(mem, s.magic, s.flag, i) {
      assert mem[s.flag].magic == s.magic;
    }
  }

  // ---------- what the loader should do ----------

  function Ids(lo: nat, hi: nat): (ids: seq<nat>)
    requires lo <= hi
    ensures |ids| == hi - lo && forall i :: 0 <= i < |ids| ==> ids[i] == lo + i
  {
    seq(hi - lo, i requires 0 <= i < hi - lo => lo + i)
  }

  predicate InMemory(mem: seq<Entry>, ids: seq<nat>) {
    forall i :: 0 <= i < |ids| ==> ids[i] < |mem|
  }

  predicate Fails(e: Entry) {
    e.hasInit && e.initRc < 0
  }

  /** The position of the first entry whose init fails, or the number of entries. */
  function FirstFailure(mem: seq<Entry>, ids: seq<nat>): (k: nat)
    requires InMemory(mem, ids)
    ensures k <= |ids|
    ensures forall i :: 0 <= i < k ==> !Fails(mem[ids[i]])
    ensures k < |ids| ==> Fails(mem[ids[k]])
  {
    if ids == [] || Fails(mem[ids[0]]) then 0 else 1 + FirstFailure(mem, ids[1..])
  }

  /** The init calls for these entries, in order. */
  function Inits(mem: seq<Entry>, ids: seq<nat>): seq<Call>
    requires InMemory(mem, ids)
  {
    if ids == [] then []
    else InitCall(mem, ids[0]) + Inits(mem, ids[1..])
  }

  /** The exit calls for these entries, last entry first. */
  function Exits(mem: seq<Entry>, ids: seq<nat>): seq<Call>
    requires InMemory(mem, ids)
  {
    if ids == [] then []
    else Exits(mem, ids[1..]) + ExitCall(mem, ids[0])
  }

  function InitCall(mem: seq<Entry>, id: nat): seq<Call>
    requires id < |mem|
  {
    if mem[id].hasInit then [Init(id)] else []
  }

  function ExitCall(mem: seq<Entry>, id: nat): seq<Call>
    requires id < |mem|
  {
    if mem[id].hasExit then [Exit(id)] else []
  }

  /** Bring up the first entry, then the rest inside it: if the rest fails, the first is exited after it. */
  function BringUp(mem: seq<Entry>, ids: seq<nat>): (int, seq<Call>)
    requires InMemory(mem, ids)
  {
    if ids == [] then (0, [])
    else if Fails(mem[ids[0]]) then (mem[ids[0]].initRc, [Init(ids[0])])
    else Then((0, InitCall(mem, ids[0])), BringUp(mem, ids[1..]), ExitCall(mem, ids[0]))
  }

  /** x, then y; if only y fails, x is undone after it. */
  function Then(x: (int, seq<Call>), y: (int, seq<Call>), undo: seq<Call>): (int, seq<Call>) {
    if x.0 < 0 then x
    else if y.0 < 0 then (y.0, x.1 + y.1 + undo)
    else (y.0, x.1 + y.1)
  }

  // ---------- splitting ----------

  lemma {:induction false} InitsAppend(mem: seq<Entry>, a: seq<nat>, b: seq<nat>)
    requires InMemory(mem, a) && InMemory(mem, b)
    ensures Inits(mem, a + b) == Inits(mem, a) + Inits(mem, b)
    decreases |a|
  {
    if a == [] {
      assert a + b == b;
    } else {
      assert (a + b)[1..] == a[1..] + b;
      InitsAppend(mem, a[1..], b);
    }
  }

  lemma {:induction false} ExitsAppend(mem: seq<Entry>, a: seq<nat>, b: seq<nat>)
    requires InMemory(mem, a) && InMemory(mem, b)
    ensures Exits(mem, a + b) == Exits(mem, b) + Exits(mem, a)
    decreases |a|
  {
    if a == [] {
      assert a + b == b;
    } else {
      assert (a + b)[1..] == a[1..] + b;
      ExitsAppend(mem, a[1..], b);
    }
  }

  lemma AssociateFive(a: seq<Call>, b: seq<Call>, c: seq<Call>, d: seq<Call>, e: seq<Call>)
    ensures (a + b) + c + (d + e) == a + (b + c + d) + e
  {
  }

  lemma ThenAssociates(x: (int, seq<Call>), y: (int, seq<Call>), z: (int, seq<Call>), u: seq<Call>, v: seq<Call>)
    ensures Then(x, Then(y, z, u), v) == Then(Then(x, y, v), z, u + v)
  {
    assert x.1 + (y.1 + z.1 + u) + v == x.1 + y.1 + z.1 + (u + v);
    assert x.1 + (y.1 + z.1) == x.1 + y.1 + z.1;
  }

  /** Bringing up a + b: if a fails, as a alone; if b fails, a is exited after b's own rollback. */
  lemma {:induction false} BringUpAppend(mem: seq<Entry>, a: seq<nat>, b: seq<nat>)
    requires InMemory(mem, a) && InMemory(mem, b)
    ensures BringUp(mem, a + b) == Then(BringUp(mem, a), BringUp(mem, b), Exits(mem, a))
    decreases |a|
  {
    if a == [] {
      assert a + b == b;
      var calls := BringUp(mem, b).1;
      assert [] + calls == calls && calls + [] == calls;
    } else {
      assert (a + b)[1..] == a[1..] + b;
      BringUpAppend(mem, a[1..], b);
      ThenAssociates((0, InitCall(mem, a[0])), BringUp(mem, a[1..]), BringUp(mem, b),
                     Exits(mem, a[1..]), ExitCall(mem, a[0]));
    }
  }

  /** The same in one piece: every init before the first failure, the failed one, and their exits in reverse. */
  lemma {:induction false} BringUpUnfolded(mem: seq<Entry>, ids: seq<nat>)
    requires InMemory(mem, ids)
    ensures var k := FirstFailure(mem, ids);
            BringUp(mem, ids) ==
              if k == |ids| then (0, Inits(mem, ids))
              else (mem[ids[k]].initRc, Inits(mem, ids[..k]) + [Init(ids[k])] + Exits(mem, ids[..k]))
  {
    var k := FirstFailure(mem, ids);
    if ids == [] {
    } else if Fails(mem[ids[0]]) {
      assert ids[..k] == [] && [] + [Init(ids[0])] + [] == [Init(ids[0])];
    } else {
      BringUpUnfolded(mem, ids[1..]);
      if k < |ids| {
        assert ids[..k][1..] == ids[1..][..k - 1];
        var h, rest := ids[0], ids[..k][1..];
        AssociateFive(InitCall(mem, h), Inits(mem, rest), [Init(ids[k])], Exits(mem, rest), ExitCall(mem, h));
      }
    }
  }

  lemma FailureAt(mem: seq<Entry>, ids: seq<nat>, k: nat)
    requires InMemory(mem, ids) && k < |ids| && Fails(mem[ids[k]])
    requires forall i :: 0 <= i < k ==> !Fails(mem[ids[i]])
    ensures BringUp(mem, ids) ==
              (mem[ids[k]].initRc, Inits(mem, ids[..k]) + [Init(ids[k])] + Exits(mem, ids[..k]))
  {
    BringUpUnfolded(mem, ids);
  }

  lemma NoFailure(mem: seq<Entry>, ids: seq<nat>)
    requires InMemory(mem, ids) && forall i :: 0 <= i < |ids| ==> !Fails(mem[ids[i]])
    ensures BringUp(mem, ids) == (0, Inits(mem, ids))
  {
    BringUpUnfolded(mem, ids);
  }

  /** Exiting b and then a after a trace t. */
  lemma ExitsTwo(mem: seq<Entry>, a: seq<nat>, b: seq<nat>, t: seq<Call>)
    requires InMemory(mem, a) && InMemory(mem, b)
    ensures t + Exits(mem, b) + Exits(mem, a) == t + Exits(mem, a + b)
  {
    ExitsAppend(mem, a, b);
  }

  /** Two effects one after the other, seen from the trace t before both. */
  lemma TraceOfThen(t: seq<Call>, x: (int, seq<Call>), y: (int, seq<Call>), undo: seq<Call>)
    requires 0 <= x.0
    ensures t + x.1 + y.1 + (if y.0 < 0 then undo else []) == t + Then(x, y, undo).1
    ensures y.0 == Then(x, y, undo).0
  {
    if y.0 < 0 {
      assert t + x.1 + y.1 + undo == t + (x.1 + y.1 + undo);
    } else {
      assert t + x.1 + y.1 == t + (x.1 + y.1) && t + x.1 + y.1 + [] == t + x.1 + y.1;
    }
  }

  predicate AllDistinct(ids: seq<nat>) {
    forall i, j :: 0 <= i < j < |ids| ==> ids[i] != ids[j]
  }

  /** Distinct entries of these magics. */
  predicate OfMagics(mem: seq<Entry>, ids: seq<nat>, magics: set<int>) {
    InMemory(mem, ids) && AllDistinct(ids) && forall i :: 0 <= i < |ids| ==> mem[ids[i]].magic in magics
  }

  /** Distinct entries of different magics are distinct together. */
  lemma JoinDistinct(mem: seq<Entry>, a: seq<nat>, b: seq<nat>, magics: set<int>, magic: int)
    requires OfMagics(mem, a, magics) && OfMagics(mem, b, {magic}) && magic !in magics
    ensures OfMagics(mem, a + b, magics + {magic})
  {
  }

  lemma FourDistinct(mem: seq<Entry>, a: seq<nat>, b: seq<nat>, c: seq<nat>, d: seq<nat>)
    requires OfMagics(mem, a, {CORE_MAGIC}) && OfMagics(mem, b, {EARLY_MAGIC})
    requires OfMagics(mem, c, {NORMAL_MAGIC}) && OfMagics(mem, d, {LATE_MAGIC})
    ensures AllDistinct(a + b + c + d)
  {
    JoinDistinct(mem, a, b, {CORE_MAGIC}, EARLY_MAGIC);
    JoinDistinct(mem, a + b, c, {CORE_MAGIC} + {EARLY_MAGIC}, NORMAL_MAGIC);
    JoinDistinct(mem, a + b + c, d, {CORE_MAGIC} + {EARLY_MAGIC} + {NORMAL_MAGIC}, LATE_MAGIC);
  }

  lemma IdsAreRange(lo: nat, hi: nat, id: nat)
    requires lo <= hi
    ensures id in Ids(lo, hi) <==> lo <= id < hi
  {
    if lo <= id < hi {
      assert Ids(lo, hi)[id - lo] == id;
    }
  }

  lemma InFour(a: seq<nat>, b: seq<nat>, c: seq<nat>, d: seq<nat>, id: nat)
    ensures id in a + b + c + d <==> id in a || id in b || id in c || id in d
  {
  }

  /** Ordered by magic, and within one magic by address. */
  predicate InOrder(mem: seq<Entry>, ids: seq<nat>)
    requires InMemory(mem, ids)
  {
    forall i, j :: 0 <= i < j < |ids| ==>
      && mem[ids[i]].magic <= mem[ids[j]].magic
      && (mem[ids[i]].magic == mem[ids[j]].magic ==> ids[i] < ids[j])
  }

  predicate Rising(ids: seq<nat>) {
    forall i, j :: 0 <= i < j < |ids| ==> ids[i] < ids[j]
  }

  lemma FourInOrder(mem: seq<Entry>, a: seq<nat>, b: seq<nat>, c: seq<nat>, d: seq<nat>)
    requires OfMagics(mem, a, {0x20300000}) && OfMagics(mem, b, {0x20300001})
    requires OfMagics(mem, c, {0x20300002}) && OfMagics(mem, d, {0x20300003})
    requires Rising(a) && Rising(b) && Rising(c) && Rising(d)
    ensures InMemory(mem, a + b + c + d) && InOrder(mem, a + b + c + d)
  {
    TwoInOrder(mem, a, b, 0x20300000);
    TwoInOrder(mem, a + b, c, 0x20300001);
    TwoInOrder(mem, a + b + c, d, 0x20300002);
  }

  /** Entries up to one magic in order, and then entries of the next one. */
  lemma TwoInOrder(mem: seq<Entry>, a: seq<nat>, b: seq<nat>, top: int)
    requires InMemory(mem, a) && InOrder(mem, a) && forall i :: 0 <= i < |a| ==> mem[a[i]].magic <= top
    requires OfMagics(mem, b, {top + 1}) && Rising(b)
    ensures InMemory(mem, a + b) && InOrder(mem, a + b)
    ensures forall i :: 0 <= i < |a + b| ==> mem[(a + b)[i]].magic <= top + 1
  {
  }

  class Loader {
    const mem: seq<Entry>
    const core: Section
    const early: Section
    const normal: Section
    const late: Section
    /** Every init and exit call made, oldest first. */
    var trace: seq<Call>

    ghost predicate Valid() {
      && Placed(mem, core) && core.magic == CORE_MAGIC
      && Placed(mem, early) && early.magic == EARLY_MAGIC
      && Placed(mem, normal) && normal.magic == NORMAL_MAGIC
      && Placed(mem, late) && late.magic == LATE_MAGIC
    }

    /** The section of a magic; an unknown magic has an empty one. */
    ghost function SectionOf(magic: int): (s: Section)
      requires Valid()
      ensures s.flag > 0 ==> Placed(mem, s) && s.magic == magic
      ensures s.flag == 0 ==> s.lo == s.hi == 0
    {
      if magic == NORMAL_MAGIC then normal
      else if magic == CORE_MAGIC then core
      else if magic == EARLY_MAGIC then early
      else if magic == LATE_MAGIC then late
      else Section(magic, 0, 0, 0)
    }

    constructor (mem: seq<Entry>, core: Section, early: Section, normal: Section, late: Section)
      requires Placed(mem, core) && core.magic == CORE_MAGIC
      requires Placed(mem, early) && early.magic == EARLY_MAGIC
      requires Placed(mem, normal) && normal.magic == NORMAL_MAGIC
      requires Placed(mem, late) && late.magic == LATE_MAGIC
      ensures Valid() && trace == [] && this.mem == mem
    {
      this.mem, this.core, this.early, this.normal, this.late := mem, core, early, normal, late;
      trace := [];
    }

    /** oplus_chg_get_flag_module: the flag entry's address, 0 for an unknown magic. */
    method GetFlagModule(magic: int) returns (addr: nat)
      requires Valid()
      ensures addr == SectionOf(magic).flag
    {
      if magic == NORMAL_MAGIC {
        return normal.flag;
      } else if magic == CORE_MAGIC {
        return core.flag;
      } else if magic == EARLY_MAGIC {
        return early.flag;
      } else if magic == LATE_MAGIC {
        return late.flag;
      }
      return 0;
    }

    /** oplus_chg_find_first_module: walk down to the start of the run. */
    method FindFirstModule(magic: int) returns (addr: nat)
      requires Valid()
      ensures addr == SectionOf(magic).lo
    {
      ghost var s := SectionOf(magic);
      addr := GetFlagModule(magic);
      if addr == 0 {
        return 0;
      }
      if mem[addr].magic != magic {
        return 0;
      }
      while mem[addr - 1].magic == magic
        invariant s.lo <= addr <= s.flag
        decreases addr
      {
        addr := addr - 1;
      }
    }

    /** oplus_chg_find_last_module: walk up to the end of the run. */
    method FindLastModule(magic: int) returns (addr: nat)
      requires Valid()
      ensures var s := SectionOf(magic); addr == if s.hi == 0 then 0 else s.hi - 1
    {
      ghost var s := SectionOf(magic);
      addr := GetFlagModule(magic);
      if addr == 0 {
        return 0;
      }
      if mem[addr].magic != magic {
        return 0;
      }
      while mem[addr + 1].magic == magic
        invariant s.flag <= addr < s.hi
        decreases s.hi - addr
      {
        addr := addr + 1;
      }
    }

    ghost function SectionIds(magic: int): (ids: seq<nat>)
      requires Valid()
      ensures InMemory(mem, ids)
    {
      var s := SectionOf(magic);
      assert s.lo <= s.hi <= |mem|;
      Ids(s.lo, s.hi)
    }

    /** oplus_chg_section_modules_init */
    method SectionModulesInit(magic: int) returns (rc: int)
      requires Valid()
      modifies this
      ensures var (r, calls) := BringUp(mem, SectionIds(magic)); rc == r && trace == old(trace) + calls
    {
      var start := FindFirstModule(magic);
      if start == 0 {
        return 0;
      }
      rc := InitRun(magic, start, SectionOf(magic).hi);
    }

    /** The init loop of a section, from the start of its run. */
    method InitRun(magic: int, start: nat, ghost hi: nat) returns (rc: int)
      requires IsRun(mem, magic, start, hi)
      modifies this
      ensures var (r, calls) := BringUp(mem, Ids(start, hi)); rc == r && trace == old(trace) + calls
    {
      ghost var ids := Ids(start, hi);
      var i := 0;
      while mem[start + i].magic == magic
        invariant 0 <= i <= hi - start
        invariant forall j :: 0 <= j < i ==> !Fails(mem[ids[j]])
        invariant trace == old(trace) + Inits(mem, ids[..i])
        decreases hi - start - i
      {
        assert ids[..i + 1] == ids[..i] + [ids[i]];
        InitsAppend(mem, ids[..i], [ids[i]]);
        if mem[start + i].hasInit {
          trace := trace + [Init(start + i)];
          rc := mem[start + i].initRc;
          if rc < 0 {
            assert ids[..i] == Ids(start, start + i);
            FailureAt(mem, ids, i);
            Rollback(start, i);
            return;
          }
        }
        i := i + 1;
      }
      assert ids[..i] == ids;
      NoFailure(mem, ids);
      return 0;
    }

    /** The error path of a section: exit the entries before the failed one, last first. */
    method Rollback(start: nat, count: nat)
      requires start + count <= |mem|
      modifies this
      ensures trace == old(trace) + Exits(mem, Ids(start, start + count))
    {
      ghost var ids := Ids(start, start + count);
      var i := count - 1;
      assert ids[count..] == [];
      while i >= 0
        invariant -1 <= i < count
        invariant trace == old(trace) + Exits(mem, ids[i + 1..])
      {
        assert ids[i..][1..] == ids[i + 1..];
        if mem[start + i].hasExit {
          trace := trace + [Exit(start + i)];
        }
        i := i - 1;
      }
      assert ids[0..] == ids;
    }

    /** oplus_chg_section_modules_exit */
    method SectionModulesExit(magic: int)
      requires Valid()
      modifies this
      ensures trace == old(trace) + Exits(mem, SectionIds(magic))
    {
      var start := FindLastModule(magic);
      if start == 0 {
        return;
      }
      ExitRun(magic, start, SectionOf(magic).lo);
    }

    /** The exit loop of a section, from the end of its run. */
    method ExitRun(magic: int, start: nat, ghost lo: nat)
      requires IsRun(mem, magic, lo, start + 1)
      modifies this
      ensures trace == old(trace) + Exits(mem, Ids(lo, start + 1))
    {
      ghost var ids := Ids(lo, start + 1);
      var i := 0;
      assert ids[|ids|..] == [];
      while mem[start - i].magic == magic
        invariant 0 <= i <= |ids|
        invariant trace == old(trace) + Exits(mem, ids[|ids| - i..])
        decreases |ids| - i
      {
        assert ids[|ids| - i - 1..][1..] == ids[|ids| - i..];
        assert ids[|ids| - i - 1] == start - i;
        if mem[start - i].hasExit {
          trace := trace + [Exit(start - i)];
        }
        i := i + 1;
      }
      assert ids[0..] == ids;
    }

    /** All entries of the four sections, in the order they are brought up. */
    ghost function AllIds(): (ids: seq<nat>)
      requires Valid()
      ensures InMemory(mem, ids)
    {
      SectionIds(CORE_MAGIC) + SectionIds(EARLY_MAGIC) + SectionIds(NORMAL_MAGIC) + SectionIds(LATE_MAGIC)
    }

    /** oplus_chg_modules_init up to the early section; a failure unwinds the core section. */
    method InitToEarly() returns (rc: int)
      requires Valid()
      modifies this
      ensures var (r, calls) := BringUp(mem, SectionIds(CORE_MAGIC) + SectionIds(EARLY_MAGIC));
              rc == r && trace == old(trace) + calls
    {
      ghost var a, b := SectionIds(CORE_MAGIC), SectionIds(EARLY_MAGIC);
      BringUpAppend(mem, a, b);
      rc := SectionModulesInit(CORE_MAGIC);
      if rc < 0 {
        return;
      }
      TraceOfThen(old(trace), BringUp(mem, a), BringUp(mem, b), Exits(mem, a));
      rc := SectionModulesInit(EARLY_MAGIC);
      if rc < 0 {
        SectionModulesExit(CORE_MAGIC);
      }
    }

    /** The same up to the normal section; a failure unwinds the early section first. */
    method InitToNormal() returns (rc: int)
      requires Valid()
      modifies this
      ensures var ab := SectionIds(CORE_MAGIC) + SectionIds(EARLY_MAGIC);
              var (r, calls) := BringUp(mem, ab + SectionIds(NORMAL_MAGIC));
              rc == r && trace == old(trace) + calls
    {
      ghost var a, b, c := SectionIds(CORE_MAGIC), SectionIds(EARLY_MAGIC), SectionIds(NORMAL_MAGIC);
      BringUpAppend(mem, a + b, c);
      rc := InitToEarly();
      if rc < 0 {
        return;
      }
      TraceOfThen(old(trace), BringUp(mem, a + b), BringUp(mem, c), Exits(mem, a + b));
      rc := SectionModulesInit(NORMAL_MAGIC);
      if rc < 0 {
        ExitsTwo(mem, a, b, trace);
        SectionModulesExit(EARLY_MAGIC);
        SectionModulesExit(CORE_MAGIC);
      }
    }

    /** oplus_chg_modules_init */
    method ModulesInit() returns (rc: int)
      requires Valid()
      modifies this
      ensures var (r, calls) := BringUp(mem, AllIds()); rc == r && trace == old(trace) + calls
    {
      ghost var ab, c := SectionIds(CORE_MAGIC) + SectionIds(EARLY_MAGIC), SectionIds(NORMAL_MAGIC);
      ghost var d := SectionIds(LATE_MAGIC);
      BringUpAppend(mem, ab + c, d);
      rc := InitToNormal();
      if rc < 0 {
        return;
      }
      TraceOfThen(old(trace), BringUp(mem, ab + c), BringUp(mem, d), Exits(mem, ab + c));
      rc := SectionModulesInit(LATE_MAGIC);
      if rc < 0 {
        UnwindToNormal();
      }
    }

    /** The unwinding of a failed late section: normal, early, core. */
    method UnwindToNormal()
      requires Valid()
      modifies this
      ensures trace == old(trace) + Exits(mem, SectionIds(CORE_MAGIC) + SectionIds(EARLY_MAGIC) + SectionIds(NORMAL_MAGIC))
    {
      ghost var a, b, c := SectionIds(CORE_MAGIC), SectionIds(EARLY_MAGIC), SectionIds(NORMAL_MAGIC);
      ExitsTwo(mem, a + b, c, trace);
      ExitsTwo(mem, a, b, trace + Exits(mem, c));
      SectionModulesExit(NORMAL_MAGIC);
      SectionModulesExit(EARLY_MAGIC);
      SectionModulesExit(CORE_MAGIC);
    }

    lemma SectionIsOneMagic(magic: int)
      requires Valid()
      ensures OfMagics(mem, SectionIds(magic), {magic})
    {
      var s := SectionOf(magic);
      assert s.lo < s.hi ==> IsRun(mem, magic, s.lo, s.hi);
    }

    /** No entry belongs to two sections: their magics differ. */
    lemma SectionsAreDisjoint()
      requires Valid()
      ensures AllDistinct(AllIds())
    {
      SectionIsOneMagic(CORE_MAGIC);
      SectionIsOneMagic(EARLY_MAGIC);
      SectionIsOneMagic(NORMAL_MAGIC);
      SectionIsOneMagic(LATE_MAGIC);
      FourDistinct(mem, SectionIds(CORE_MAGIC), SectionIds(EARLY_MAGIC), SectionIds(NORMAL_MAGIC), SectionIds(LATE_MAGIC));
    }

    /** Main result: the entries are brought up by section, core first and late last, and within a section by address. */
    lemma BringUpOrder()
      requires Valid()
      ensures InOrder(mem, AllIds())
    {
      SectionIsOneMagic(CORE_MAGIC);
      SectionIsOneMagic(EARLY_MAGIC);
      SectionIsOneMagic(NORMAL_MAGIC);
      SectionIsOneMagic(LATE_MAGIC);
      FourInOrder(mem, SectionIds(CORE_MAGIC), SectionIds(EARLY_MAGIC), SectionIds(NORMAL_MAGIC), SectionIds(LATE_MAGIC));
    }

    /** They are exactly the entries of the four runs. */
    lemma BringUpAll(id: nat)
      requires Valid()
      ensures id in AllIds() <==>
                || core.lo <= id < core.hi || early.lo <= id < early.hi
                || normal.lo <= id < normal.hi || late.lo <= id < late.hi
    {
      InFour(SectionIds(CORE_MAGIC), SectionIds(EARLY_MAGIC), SectionIds(NORMAL_MAGIC), SectionIds(LATE_MAGIC), id);
      assert core.lo <= core.hi && early.lo <= early.hi && normal.lo <= normal.hi && late.lo <= late.hi;
      IdsAreRange(core.lo, core.hi, id);
      IdsAreRange(early.lo, early.hi, id);
      IdsAreRange(normal.lo, normal.hi, id);
      IdsAreRange(late.lo, late.hi, id);
    }

    /**
     Main result: after a start that succeeds, the exits are the inits in exactly the reverse order, over all four
     sections, if and only if every entry has both functions or neither.
     */
    lemma ExitsMirrorStartIff()
      requires Valid() && BringUp(mem, AllIds()).0 >= 0
      ensures Exits(mem, AllIds()) == Mirror(BringUp(mem, AllIds()).1) <==> Paired(mem, AllIds())
    {
      BringUpUnfolded(mem, AllIds());
      SectionsAreDisjoint();
      ExitsMirrorInitsIff(mem, AllIds());
    }

    /** oplus_chg_modules_exit */
    method ModulesExit()
      requires Valid()
      modifies this
      ensures trace == old(trace) + Exits(mem, AllIds())
    {
      ghost var abc := SectionIds(CORE_MAGIC) + SectionIds(EARLY_MAGIC) + SectionIds(NORMAL_MAGIC);
      ExitsTwo(mem, abc, SectionIds(LATE_MAGIC), trace);
      SectionModulesExit(LATE_MAGIC);
      UnwindToNormal();
    }
  }

  // ---------- exits mirror inits ----------

  /** The matching calls in reverse order. */
  function Mirror(calls: seq<Call>): seq<Call> {
    if calls == [] then []
    else Mirror(calls[1..]) + [match calls[0] case Init(i) => Exit(i) case Exit(i) => Init(i)]
  }

  lemma {:induction false} MirrorAppend(a: seq<Call>, b: seq<Call>)
    ensures Mirror(a + b) == Mirror(b) + Mirror(a)
    decreases |a|
  {
    if a == [] {
      assert a + b == b;
    } else {
      assert (a + b)[1..] == a[1..] + b;
      MirrorAppend(a[1..], b);
    }
  }

  /** A module has both functions or neither. */
  predicate Paired(mem: seq<Entry>, ids: seq<nat>)
    requires InMemory(mem, ids)
  {
    forall i :: 0 <= i < |ids| ==> mem[ids[i]].hasInit == mem[ids[i]].hasExit
  }

  lemma {:induction false} ExitCallIsExit(mem: seq<Entry>, ids: seq<nat>, call: Call)
    requires InMemory(mem, ids)
    ensures call in Exits(mem, ids) <==> exists i :: 0 <= i < |ids| && mem[ids[i]].hasExit && call == Exit(ids[i])
  {
    if ids == [] {
    } else {
      ExitCallIsExit(mem, ids[1..], call);
      assert forall i :: 1 <= i < |ids| ==> ids[i] == ids[1..][i - 1];
    }
  }

  lemma {:induction false} MirrorCallIsExit(mem: seq<Entry>, ids: seq<nat>, call: Call)
    requires InMemory(mem, ids)
    ensures call in Mirror(Inits(mem, ids)) <==> exists i :: 0 <= i < |ids| && mem[ids[i]].hasInit && call == Exit(ids[i])
  {
    if ids == [] {
    } else {
      MirrorCallIsExit(mem, ids[1..], call);
      MirrorAppend(InitCall(mem, ids[0]), Inits(mem, ids[1..]));
      assert forall i :: 1 <= i < |ids| ==> ids[i] == ids[1..][i - 1];
    }
  }

  /** Main result: exits undo inits in exactly the reverse order if and only if every entry is paired. */
  lemma {:induction false} ExitsMirrorInitsIff(mem: seq<Entry>, ids: seq<nat>)
    requires InMemory(mem, ids)
    requires forall i, j :: 0 <= i < j < |ids| ==> ids[i] != ids[j]
    ensures Exits(mem, ids) == Mirror(Inits(mem, ids)) <==> Paired(mem, ids)
  {
    if Paired(mem, ids) {
      PairedMirrors(mem, ids);
    } else {
      var i :| 0 <= i < |ids| && mem[ids[i]].hasInit != mem[ids[i]].hasExit;
      ExitCallIsExit(mem, ids, Exit(ids[i]));
      MirrorCallIsExit(mem, ids, Exit(ids[i]));
    }
  }

  lemma {:induction false} PairedMirrors(mem: seq<Entry>, ids: seq<nat>)
    requires InMemory(mem, ids) && Paired(mem, ids)
    ensures Exits(mem, ids) == Mirror(Inits(mem, ids))
  {
    if ids == [] {
    } else {
      PairedMirrors(mem, ids[1..]);
      MirrorAppend(InitCall(mem, ids[0]), Inits(mem, ids[1..]));
    }
  }

  /** With paired entries a failed start leaves a palindrome: the successful inits, the failure, their exits in reverse. */
  lemma FailureUndoesEverything(mem: seq<Entry>, ids: seq<nat>)
    requires InMemory(mem, ids) && Paired(mem, ids) && BringUp(mem, ids).0 < 0
    ensures exists k :: 0 <= k < |ids| && Fails(mem[ids[k]])
              && BringUp(mem, ids).1 == Inits(mem, ids[..k]) + [Init(ids[k])] + Mirror(Inits(mem, ids[..k]))
  {
    BringUpUnfolded(mem, ids);
    PairedMirrors(mem, ids[..FirstFailure(mem, ids)]);
  }
}
