/**
 The change notification of a charger module in oplus_chg_core.c: callers of oplus_chg_mod_changed
 and the non-reentrant work item, interleaved at the points where the spinlock is not held.
 */
module ChangedWork {

  /** Where the work is: not running, entered but not yet at its first lock, or inside the notifier chain. */
  datatype WorkPc = Off | Entered | Notifying

  /**
   `marks` counts calls of oplus_chg_mod_changed past their critical section, and `claimed` how many of
   them the notifier chain has been started for. `scheduling` are the callers about to schedule the work.
   */
  datatype State = State(
    changed: bool,
    awake: bool,
    pending: bool,
    work: WorkPc,
    scheduling: set<nat>,
    marks: nat,
    claimed: nat)

  const INITIAL := State(false, false, false, Off, {}, 0, 0)

  datatype Step =
    | Mark(caller: nat)
    | Schedule(caller: nat)
    | WorkStart
    | WorkFirstLock
    | WorkSecondLock

  predicate Enabled(s: State, a: Step) {
    match a
    case Mark(c) => c !in s.scheduling
    case Schedule(c) => c in s.scheduling
    case WorkStart => s.pending && s.work == Off
    case WorkFirstLock => s.work == Entered
    case WorkSecondLock => s.work == Notifying
  }

  /** The last critical section of the work: drop the wakeup source unless a new change has come in. */
  function Relax(s: State): State {
    s.(awake := s.awake && s.changed, work := Off)
  }

  function Next(s: State, a: Step): State
    requires Enabled(s, a)
  {
    match a
    case Mark(c) => s.(changed := true, awake := true, scheduling := s.scheduling + {c}, marks := s.marks + 1)
    case Schedule(c) => s.(pending := true, scheduling := s.scheduling - {c})
    case WorkStart => s.(pending := false, work := Entered)
    case WorkFirstLock =>
      if s.changed then s.(changed := false, work := Notifying, claimed := s.marks) else Relax(s)
    case WorkSecondLock => Relax(s)
  }

  predicate IsRun(s: State, steps: seq<Step>)
    decreases |steps|
  {
    steps == [] || (Enabled(s, steps[0]) && IsRun(Next(s, steps[0]), steps[1..]))
  }

  function After(s: State, steps: seq<Step>): State
    requires IsRun(s, steps)
    decreases |steps|
  {
    if steps == [] then s else After(Next(s, steps[0]), steps[1..])
  }

  // ---------- safety ----------

  /** Somebody will still look at the flag: a caller about to schedule, a queued work, or one just begun. */
  predicate Served(s: State) {
    s.scheduling != {} || s.pending || s.work == Entered
  }

  predicate Inv(s: State) {
    && (s.changed ==> s.awake)
    && (s.work == Notifying ==> s.awake)
    && (s.changed ==> Served(s))
    && (s.awake ==> Served(s) || s.work == Notifying)
    && s.claimed <= s.marks
    && (s.changed <==> s.claimed < s.marks)
  }

  /** Nothing left to do: no caller inside, no work queued or running. */
  predicate Quiet(s: State) {
    s.scheduling == {} && !s.pending && s.work == Off
  }

  lemma InvStep(s: State, a: Step)
    requires Inv(s) && Enabled(s, a)
    ensures Inv(Next(s, a))
  {
  }

  lemma {:induction false} InvRun(s: State, steps: seq<Step>)
    requires Inv(s) && IsRun(s, steps)
    ensures Inv(After(s, steps))
    decreases |steps|
  {
    if steps == [] {
    } else {
      InvStep(s, steps[0]);
      InvRun(Next(s, steps[0]), steps[1..]);
    }
  }

  /**
   Main result: in every interleaving a change and a running notifier chain hold the wakeup source, and
   an unclaimed change has somebody to serve it. Between the work's start and its first lock that
   is the work itself: it is then neither queued nor about to be.
   */
  lemma WakeupHeld(steps: seq<Step>)
    requires IsRun(INITIAL, steps)
    ensures var s := After(INITIAL, steps);
            && (s.changed ==> s.awake && Served(s))
            && (s.work == Notifying ==> s.awake)
  {
    InvRun(INITIAL, steps);
  }

  /** A run into that phase: a change with no caller about to schedule and no queued work. */
  lemma EnteredWorkServesAlone()
    ensures var steps := [Mark(0)] + ([Schedule(0)] + [WorkStart]);
            && IsRun(INITIAL, steps)
            && var s := After(INITIAL, steps); s.changed && s.scheduling == {} && !s.pending && s.work == Entered
  {
    var marked := Next(INITIAL, Mark(0));
    var scheduled := Next(marked, Schedule(0));
    assert ([Mark(0)] + ([Schedule(0)] + [WorkStart]))[1..] == [Schedule(0)] + [WorkStart];
    assert ([Schedule(0)] + [WorkStart])[1..] == [WorkStart] && [WorkStart][1..] == [];
    assert IsRun(scheduled, [WorkStart]) && After(scheduled, [WorkStart]) == Next(scheduled, WorkStart);
    assert IsRun(marked, [Schedule(0)] + [WorkStart]);
  }

  /** When all is quiet every mark has been claimed by a notification and the device may sleep. */
  lemma QuietMeansDelivered(steps: seq<Step>)
    requires IsRun(INITIAL, steps)
    ensures var s := After(INITIAL, steps);
            Quiet(s) ==> s.claimed == s.marks && !s.changed && !s.awake
  {
    InvRun(INITIAL, steps);
  }

  /** How many changes the steps announce. */
  function Changes(steps: seq<Step>): nat {
    if steps == [] then 0 else (if steps[0].Mark? then 1 else 0) + Changes(steps[1..])
  }

  /** No mark is made twice or forgotten: there are as many as changes announced. */
  lemma {:induction false} MarksAreChanges(s: State, steps: seq<Step>)
    requires IsRun(s, steps)
    ensures After(s, steps).marks == s.marks + Changes(steps)
    decreases |steps|
  {
    if steps == [] {
    } else {
      MarksAreChanges(Next(s, steps[0]), steps[1..]);
    }
  }

  /** How often the notifier chain is started. */
  function Notifications(s: State, steps: seq<Step>): nat
    requires IsRun(s, steps)
    decreases |steps|
  {
    if steps == [] then 0
    else
      var s1 := Next(s, steps[0]);
      (if s.work != Notifying && s1.work == Notifying then 1 else 0) + Notifications(s1, steps[1..])
  }

  lemma {:induction false} NotificationsClaim(s: State, steps: seq<Step>)
    requires Inv(s) && IsRun(s, steps)
    ensures s.claimed + Notifications(s, steps) <= After(s, steps).claimed
    decreases |steps|
  {
    if steps == [] {
    } else {
      InvStep(s, steps[0]);
      NotificationsClaim(Next(s, steps[0]), steps[1..]);
    }
  }

  /** Main result: changes may be merged, but each notification is for at least one change of its own. */
  lemma NoIdleNotification(steps: seq<Step>)
    requires IsRun(INITIAL, steps)
    ensures Notifications(INITIAL, steps) <= Changes(steps)
  {
    NotificationsClaim(INITIAL, steps);
    InvRun(INITIAL, steps);
    MarksAreChanges(INITIAL, steps);
  }

  // ---------- every change is delivered ----------

  /** What is left to do if nobody marks again. */
  function Left(s: State): nat {
    4 * |s.scheduling| + (if s.pending then 3 else 0)
    + (if s.work == Entered then 2 else if s.work == Notifying then 1 else 0)
  }

  lemma LeftFalls(s: State, a: Step)
    requires Enabled(s, a) && !a.Mark?
    ensures Left(Next(s, a)) < Left(s)
  {
    if a.Schedule? {
      assert |s.scheduling - {a.caller}| == |s.scheduling| - 1;
    }
  }

  /** A state that is not quiet has a step other than a new mark. */
  lemma NotStuck(s: State) returns (a: Step)
    requires !Quiet(s)
    ensures Enabled(s, a) && !a.Mark?
  {
    if s.scheduling != {} {
      var c :| c in s.scheduling;
      a := Schedule(c);
    } else if s.work == Entered {
      a := WorkFirstLock;
    } else if s.work == Notifying {
      a := WorkSecondLock;
    } else {
      a := WorkStart;
    }
  }

  predicate NoMarks(steps: seq<Step>) {
    forall i :: 0 <= i < |steps| ==> !steps[i].Mark?
  }

  lemma {:induction false} QuietensInTime(s: State, steps: seq<Step>)
    requires IsRun(s, steps) && NoMarks(steps)
    ensures |steps| + Left(After(s, steps)) <= Left(s)
    ensures After(s, steps).marks == s.marks
    decreases |steps|
  {
    if steps == [] {
    } else {
      LeftFalls(s, steps[0]);
      QuietensInTime(Next(s, steps[0]), steps[1..]);
    }
  }

  /**
   Main result: no change is lost. From any reachable state, however the remaining steps interleave,
   within Left steps without a new mark nothing more can happen; then every mark has been
   claimed by a notification and the wakeup source is released.
   */
  lemma NoChangeIsLost(before: seq<Step>, after: seq<Step>)
    requires IsRun(INITIAL, before) && IsRun(After(INITIAL, before), after) && NoMarks(after)
    requires forall a :: Enabled(After(After(INITIAL, before), after), a) ==> a.Mark?
    ensures var s0 := After(INITIAL, before);
            var s1 := After(s0, after);
            && |after| <= Left(s0)
            && Quiet(s1)
            && s1.claimed == s0.marks
            && !s1.changed && !s1.awake
  {
    var s0 := After(INITIAL, before);
    var s1 := After(s0, after);
    InvRun(INITIAL, before);
    InvRun(s0, after);
    QuietensInTime(s0, after);
    if !Quiet(s1) {
      var a := NotStuck(s1);
      assert false;
    }
  }
}
