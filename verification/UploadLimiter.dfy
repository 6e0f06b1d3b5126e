/**
 The upload limiters of oplus_chg_track.c: a counter that is reset when the last upload is more than a
 period ago, and a refusal once it exceeds a maximum.
 */
module UploadLimiter {

  const PERIOD := 24 * 3600
  const COUNT_MAX := 10

  /**
   `preTime` is the time of the last upload. `uploads` are the times recorded for all uploads so far and `asked` those at
   which they were asked for.
   */
  datatype State = State(count: nat, preTime: int, uploads: seq<int>, asked: seq<int>)

  const INITIAL := State(0, 0, [], [])

  /**
   One attempt: the clock when the counter is looked at, the clock when the upload is recorded, and whether
   something else (an upload in progress, nothing to report, no memory) keeps it from happening.
   */
  datatype Attempt = Attempt(now: int, recorded: int, blocked: bool)

  function Step(s: State, a: Attempt): State {
    var count := if a.now - s.preTime > PERIOD then 0 else s.count;
    if count > COUNT_MAX || a.blocked then s.(count := count)
    else State(count + 1, a.recorded, s.uploads + [a.recorded], s.asked + [a.now])
  }

  function Run(s: State, attempts: seq<Attempt>): State
    decreases |attempts|
  {
    if attempts == [] then s else Run(Step(s, attempts[0]), attempts[1..])
  }

  class Limiter {
    var uploadCount: nat
    var preUploadTime: int
    ghost var uploads: seq<int>
    ghost var asked: seq<int>

    ghost function Value(): State
      reads this
    {
      State(uploadCount, preUploadTime, uploads, asked)
    }

    constructor ()
      ensures Value() == INITIAL
    {
      uploadCount, preUploadTime, uploads, asked := 0, 0, [], [];
    }

    /** oplus_track_upload_bcc_err_info: the clock is read again when the upload is recorded. */
    method UploadBccErrInfo(now: int, recorded: int, uploading: bool, hasReason: bool, allocOk: bool) returns (sent: bool)
      modifies this
      ensures Value() == Step(old(Value()), Attempt(now, recorded, uploading || !hasReason || !allocOk))
      ensures sent <==> |uploads| == |old(uploads)| + 1
    {
      if now - preUploadTime > PERIOD {
        uploadCount := 0;
      }
      if uploadCount > COUNT_MAX {
        return false;
      }
      if uploading {
        return false;
      }
      if !hasReason {
        return false;
      }
      if !allocOk {
        return false;
      }
      uploadCount := uploadCount + 1;
      preUploadTime := recorded;
      uploads, asked := uploads + [recorded], asked + [now];
      return true;
    }

    /** oplus_chg_track_gauge_info_record, for a known error type: one reading of the clock. */
    method RecordGaugeInfo(now: int, allocOk: bool) returns (sent: bool)
      modifies this
      ensures Value() == Step(old(Value()), Attempt(now, now, !allocOk))
      ensures sent <==> |uploads| == |old(uploads)| + 1
    {
      if now - preUploadTime > PERIOD {
        uploadCount := 0;
      }
      if uploadCount > COUNT_MAX {
        return false;
      }
      if !allocOk {
        return false;
      }
      uploadCount := uploadCount + 1;
      preUploadTime := now;
      uploads, asked := uploads + [now], asked + [now];
      return true;
    }
  }

  // ---------- the sliding window ----------

  /** The clock never runs backward, from time t on. */
  predicate Monotone(t: int, attempts: seq<Attempt>)
    decreases |attempts|
  {
    attempts == [] ||
    (t <= attempts[0].now <= attempts[0].recorded && Monotone(attempts[0].recorded, attempts[1..]))
  }

  predicate Sorted(s: seq<int>) {
    forall i, j :: 0 <= i < j < |s| ==> s[i] <= s[j]
  }

  /** Any COUNT_MAX + 2 consecutive uploads span more than a period. */
  predicate Spread(s: seq<int>) {
    forall i :: 0 <= i && i + COUNT_MAX + 1 < |s| ==> s[i + COUNT_MAX + 1] - s[i] > PERIOD
  }

  /** `count` is the length of the current burst, and the uploads before it are more than a period older. */
  predicate Inv(s: State, now: int) {
    var n := |s.uploads|;
    && Sorted(s.uploads)
    && Spread(s.uploads)
    && s.count <= COUNT_MAX + 1
    && s.count <= n
    && (n > 0 ==> s.preTime == s.uploads[n - 1] <= now)
    && (0 < s.count < n ==> s.uploads[n - s.count] - s.uploads[n - s.count - 1] > PERIOD)
    && (s.count == 0 < n ==> now - s.preTime > PERIOD)
  }

  lemma AppendUpload(s: seq<int>, u: int)
    requires Sorted(s) && Spread(s)
    requires s != [] ==> s[|s| - 1] <= u
    requires |s| > COUNT_MAX ==> u - s[|s| - COUNT_MAX - 1] > PERIOD
    ensures Sorted(s + [u]) && Spread(s + [u])
  {
    var s1 := s + [u];
    forall i | 0 <= i && i + COUNT_MAX + 1 < |s1| ensures s1[i + COUNT_MAX + 1] - s1[i] > PERIOD {
      assert i + COUNT_MAX + 1 < |s| ==> s[i + COUNT_MAX + 1] - s[i] > PERIOD;
    }
  }

  /** An upload that is allowed comes more than a period after the one COUNT_MAX + 1 before it. */
  lemma AllowedUploadIsSpread(s: State, t: int, a: Attempt)
    requires Inv(s, t) && t <= a.now <= a.recorded
    requires a.now - s.preTime > PERIOD || s.count <= COUNT_MAX
    ensures var n := |s.uploads|; n > COUNT_MAX ==> a.recorded - s.uploads[n - COUNT_MAX - 1] > PERIOD
  {
    var n := |s.uploads|;
    if n > COUNT_MAX {
      assert s.uploads[n - COUNT_MAX - 1] <= s.uploads[n - 1];
      if a.now - s.preTime <= PERIOD {
        assert s.uploads[n - COUNT_MAX - 1] <= s.uploads[n - s.count - 1];
        assert s.uploads[n - s.count] <= s.uploads[n - 1];
      }
    }
  }

  lemma InvStep(s: State, t: int, a: Attempt)
    requires Inv(s, t) && t <= a.now <= a.recorded
    ensures Inv(Step(s, a), a.recorded)
  {
    if (a.now - s.preTime > PERIOD || s.count <= COUNT_MAX) && !a.blocked {
      AllowedUploadIsSpread(s, t, a);
      AppendUpload(s.uploads, a.recorded);
    }
  }

  lemma {:induction false} InvRun(s: State, t: int, attempts: seq<Attempt>) returns (now: int)
    requires Inv(s, t) && Monotone(t, attempts)
    ensures Inv(Run(s, attempts), now)
    decreases |attempts|
  {
    if attempts == [] {
      now := t;
    } else {
      InvStep(s, t, attempts[0]);
      now := InvRun(Step(s, attempts[0]), attempts[0].recorded, attempts[1..]);
    }
  }

  /** How many of these times lie in [from, from + PERIOD]. */
  function InWindow(s: seq<int>, from: int): nat {
    if s == [] then 0
    else InWindow(s[..|s| - 1], from) + if from <= s[|s| - 1] <= from + PERIOD then 1 else 0
  }

  /** Times that are all too early do not count, so at most the rest does. */
  lemma {:induction false} OnlyTheRest(s: seq<int>, k: nat, from: int)
    requires k <= |s| && forall i :: 0 <= i < k ==> s[i] < from
    ensures InWindow(s, from) <= |s| - k
  {
    if |s| > k {
      OnlyTheRest(s[..|s| - 1], k, from);
    } else if s != [] {
      OnlyTheRest(s[..|s| - 1], k - 1, from);
    }
  }

  lemma {:induction false} SpreadBoundsWindow(s: seq<int>, from: int)
    requires Sorted(s) && Spread(s)
    ensures InWindow(s, from) <= COUNT_MAX + 1
  {
    if s == [] {
    } else {
      var n := |s|;
      if from <= s[n - 1] <= from + PERIOD && n > COUNT_MAX + 1 {
        var k := n - COUNT_MAX - 1;
        assert s[k - 1 + COUNT_MAX + 1] - s[k - 1] > PERIOD;
        OnlyTheRest(s, k, from);
      } else if from <= s[n - 1] <= from + PERIOD {
        OnlyTheRest(s, 0, from);
      } else {
        SpreadBoundsWindow(s[..n - 1], from);
      }
    }
  }

  /** Main result: under a clock that never runs backward, any 24-hour window of any run has at most 11 uploads. */
  lemma WindowBound(t: int, attempts: seq<Attempt>, from: int)
    requires Monotone(t, attempts)
    ensures InWindow(Run(INITIAL, attempts).uploads, from) <= COUNT_MAX + 1
  {
    var now := InvRun(INITIAL, t, attempts);
    SpreadBoundsWindow(Run(INITIAL, attempts).uploads, from);
  }

  // ---------- what is refused ----------

  /** Upload i was asked for within the period after the one before it. */
  predicate Follows(uploads: seq<int>, asked: seq<int>, i: nat)
    requires 0 < i < |uploads| == |asked|
  {
    asked[i] - uploads[i - 1] <= PERIOD
  }

  lemma FollowsBefore(uploads: seq<int>, asked: seq<int>, u: int, a: int, i: nat)
    requires 0 < i < |uploads| == |asked|
    ensures Follows(uploads + [u], asked + [a], i) == Follows(uploads, asked, i)
  {
  }

  /** The last COUNT_MAX + 1 uploads follow each other, and time t is within the period after the last one. */
  predicate Burst(s: State, t: int)
    requires |s.uploads| == |s.asked|
  {
    var n := |s.uploads|;
    && n > COUNT_MAX
    && t - s.uploads[n - 1] <= PERIOD
    && forall i :: n - COUNT_MAX <= i < n ==> Follows(s.uploads, s.asked, i)
  }

  /** The counter is the length of the burst so far. */
  predicate CountInv(s: State, now: int) {
    var n := |s.uploads|;
    && |s.asked| == n
    && s.count <= Capped(n)
    && (n > 0 ==> s.preTime == s.uploads[n - 1])
    && (forall i :: n - s.count < i < n ==> Follows(s.uploads, s.asked, i))
    && (0 < s.count < n ==> !Follows(s.uploads, s.asked, n - s.count))
    && (s.count == 0 < n ==> now - s.preTime > PERIOD)
  }

  function Capped(n: nat): nat {
    if n <= COUNT_MAX + 1 then n else COUNT_MAX + 1
  }

  lemma CountStep(s: State, t: int, a: Attempt)
    requires CountInv(s, t) && t <= a.now <= a.recorded
    ensures CountInv(Step(s, a), a.recorded)
  {
    var s1 := Step(s, a);
    var n := |s.uploads|;
    if |s1.uploads| > n {
      forall i | 0 < i < n ensures Follows(s1.uploads, s1.asked, i) == Follows(s.uploads, s.asked, i) {
        FollowsBefore(s.uploads, s.asked, a.recorded, a.now, i);
      }
      if n > 0 {
        assert Follows(s1.uploads, s1.asked, n) <==> a.now - s.preTime <= PERIOD;
      }
    }
  }

  lemma {:induction false} CountRun(s: State, t: int, attempts: seq<Attempt>) returns (now: int)
    requires CountInv(s, t) && Monotone(t, attempts)
    ensures CountInv(Run(s, attempts), now)
    ensures now == if attempts == [] then t else attempts[|attempts| - 1].recorded
    decreases |attempts|
  {
    if attempts == [] {
      now := t;
    } else {
      CountStep(s, t, attempts[0]);
      now := CountRun(Step(s, attempts[0]), attempts[0].recorded, attempts[1..]);
    }
  }

  /**
   Main result: after any run, an attempt uploads exactly if nothing else blocks it and the last eleven uploads are no burst,
   each asked for within 24 hours after the one before it, that reaches to the attempt.
   */
  lemma RefusedIff(t: int, attempts: seq<Attempt>, a: Attempt)
    requires Monotone(t, attempts)
    requires (if attempts == [] then t else attempts[|attempts| - 1].recorded) <= a.now
    ensures var s := Run(INITIAL, attempts);
            && |s.asked| == |s.uploads|
            && Step(s, a).uploads == s.uploads + if a.blocked || Burst(s, a.now) then [] else [a.recorded]
  {
    var now := CountRun(INITIAL, t, attempts);
    var s := Run(INITIAL, attempts);
    var n := |s.uploads|;
    assert 0 < s.count <= COUNT_MAX && n > COUNT_MAX ==> !Follows(s.uploads, s.asked, n - s.count);
  }
}
