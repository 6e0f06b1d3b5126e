/**
 How soon the temperature region can turn round. The battery monitor adopts its first region silently and
 the FFC monitor does not, and that changes which threshold tables keep all reversals apart.
 */
module TempReversals {
  import opened Kernel
  import opened TempRegion

  // ---------- changes and reversals ----------

  /** The last change of region: its direction and the temperature it happened at. */
  datatype Change = Change(up: bool, temp: int)

  /** The change a sample causes, if any. */
  function ChangeAt(m: Monitor, temp: int, adopt: bool): Option<Change>
    requires Sized(m)
  {
    var r := Observe(m, temp, adopt).region;
    if r == m.region || (adopt && m.region == |m.cfg| + 1) then None
    else Some(Change(r > m.region, temp))
  }

  function Latest(last: Option<Change>, next: Option<Change>): Option<Change> {
    if next.Some? then next else last
  }

  predicate IsReversal(last: Option<Change>, next: Option<Change>) {
    last.Some? && next.Some? && last.value.up != next.value.up
  }

  /** How often the region turns round over a run. */
  function Reversals(m: Monitor, last: Option<Change>, temps: seq<int>, adopt: bool): nat
    requires Sized(m)
    decreases |temps|
  {
    if temps == [] then 0
    else
      var next := ChangeAt(m, temps[0], adopt);
      (if IsReversal(last, next) then 1 else 0)
      + Reversals(Observe(m, temps[0], adopt), Latest(last, next), temps[1..], adopt)
  }

  /** How far the temperature travels in all, starting from sample p. */
  function Variation(p: int, temps: seq<int>): nat
    decreases |temps|
  {
    if temps == [] then 0 else Abs(temps[0] - p) + Variation(temps[0], temps[1..])
  }

  /** Every reversal of the run happens more than the hysteresis away from the change before it. */
  ghost predicate Apart(m: Monitor, last: Option<Change>, temps: seq<int>, adopt: bool)
    requires Sized(m)
    decreases |temps|
  {
    temps == [] ||
    (var next := ChangeAt(m, temps[0], adopt);
     && (IsReversal(last, next) ==> Abs(temps[0] - last.value.temp) > BATT_TEMP_HYST)
     && Apart(Observe(m, temps[0], adopt), Latest(last, next), temps[1..], adopt))
  }

  // ---------- what a reversal costs ----------

  /** The temperature to measure travel from: that of the last change, or the current one. */
  function Origin(last: Option<Change>, p: int): int {
    if last.Some? then last.value.temp else p
  }

  /** If the reversals of a run are apart, each of them costs more than the hysteresis of temperature travel. */
  lemma {:induction false} ReversalsCostTravel(m: Monitor, last: Option<Change>, p: int, temps: seq<int>, adopt: bool)
    requires Sized(m) && Apart(m, last, temps, adopt)
    ensures (BATT_TEMP_HYST + 1) * Reversals(m, last, temps, adopt)
              <= Abs(p - Origin(last, p)) + Variation(p, temps)
    decreases |temps|
  {
    if temps == [] {
    } else {
      var next := ChangeAt(m, temps[0], adopt);
      ReversalsCostTravel(Observe(m, temps[0], adopt), Latest(last, next), temps[0], temps[1..], adopt);
    }
  }

  // ---------- thresholds that are all spaced ----------

  /** The border behind the last change has moved away from the temperature of that change. */
  ghost predicate Behind(m: Monitor, last: Option<Change>)
    requires Sized(m)
  {
    last.Some? ==>
      && m.region <= |m.cfg|
      && if last.value.up then forall i :: 0 <= i < m.region ==> m.dyn[i] <= last.value.temp - BATT_TEMP_HYST
         else m.region < |m.cfg| ==> m.dyn[m.region] > last.value.temp + BATT_TEMP_HYST
  }

  ghost predicate Anchored(m: Monitor, last: Option<Change>) {
    Near(m) && Spaced(m.cfg) && Behind(m, last)
  }

  lemma AnchoredStep(m: Monitor, last: Option<Change>, temp: int, adopt: bool)
    requires Anchored(m, last)
    ensures var next := ChangeAt(m, temp, adopt);
            && Anchored(Observe(m, temp, adopt), Latest(last, next))
            && (IsReversal(last, next) ==> Abs(temp - last.value.temp) > BATT_TEMP_HYST)
  {
    NearStep(m, temp, adopt);
    if ChangeAt(m, temp, adopt).None? {
      assert last.Some? ==> Observe(m, temp, adopt) == m;
    } else if ChangeAt(m, temp, adopt).value.up {
      UpAnchors(m, temp, adopt);
    } else {
      DownAnchors(m, temp, adopt);
    }
  }

  lemma UpAnchors(m: Monitor, temp: int, adopt: bool)
    requires Near(m) && Spaced(m.cfg) && ChangeAt(m, temp, adopt) == Some(Change(true, temp))
    ensures var m1 := Observe(m, temp, adopt);
            forall i :: 0 <= i < m1.region ==> m1.dyn[i] <= temp - BATT_TEMP_HYST
    ensures m.region <= |m.cfg| && (m.region < |m.cfg| ==> m.dyn[m.region] <= temp)
  {
    var m1 := Observe(m, temp, adopt);
    var r := m1.region;
    assert m1.dyn[r - 1] == m.dyn[r - 1] - BATT_TEMP_HYST && m.cfg[r - 1] <= m.dyn[r - 1] <= temp;
    forall i | 0 <= i < r - 1 ensures m1.dyn[i] <= temp - BATT_TEMP_HYST {
      assert m.cfg[i] + BATT_TEMP_HYST <= m.cfg[r - 1];
    }
  }

  lemma DownAnchors(m: Monitor, temp: int, adopt: bool)
    requires Near(m) && Spaced(m.cfg) && ChangeAt(m, temp, adopt) == Some(Change(false, temp))
    ensures var m1 := Observe(m, temp, adopt);
            m1.region < |m1.cfg| ==> m1.dyn[m1.region] > temp + BATT_TEMP_HYST
    ensures m.region <= |m.cfg| ==> exists i :: 0 <= i < m.region && m.dyn[i] > temp
  {
    var r := Classify(m.dyn, temp);
    if r < m.region <= |m.cfg| {
      assert m.dyn[r] > temp;
    }
  }

  lemma {:induction false} SpacedKeepsApart(m: Monitor, last: Option<Change>, temps: seq<int>, adopt: bool)
    requires Anchored(m, last)
    ensures Apart(m, last, temps, adopt)
    decreases |temps|
  {
    if temps == [] {
    } else {
      AnchoredStep(m, last, temps[0], adopt);
      SpacedKeepsApart(Observe(m, temps[0], adopt), Latest(last, ChangeAt(m, temps[0], adopt)), temps[1..], adopt);
    }
  }

  // ---------- thresholds spaced above the lowest one, without silent adoption ----------

  /** Thresholds above the first one are spaced; those not above it do not matter. */
  ghost predicate SpacedAbove(cfg: seq<int>) {
    forall i, j :: 0 <= i < j < |cfg| ==> cfg[i] <= cfg[0] || cfg[i] + BATT_TEMP_HYST <= cfg[j]
  }

  /** The thresholds in force while region p > 0 is the current one: only its two borders may be shifted. */
  ghost predicate Inside(m: Monitor) {
    var p, n := m.region, |m.cfg|;
    && Sized(m) && 0 < p <= n
    && m.dyn[0] == m.cfg[0]
    && (m.dyn[p - 1] == m.cfg[p - 1] || m.dyn[p - 1] == m.cfg[p - 1] - BATT_TEMP_HYST)
    && (forall i :: 0 <= i < n && i != p - 1 && i != p ==> m.dyn[i] == m.cfg[i])
    && (p < n ==>
          && m.cfg[p] > m.cfg[0]
          && m.dyn[p] >= m.cfg[0] + BATT_TEMP_HYST
          && (m.dyn[p] == m.cfg[p] || m.dyn[p] == m.cfg[p] + BATT_TEMP_HYST))
  }

  /** Below the first threshold, which is then raised. */
  ghost predicate AtBottom(m: Monitor) {
    && Sized(m) && m.region == 0 && m.cfg != []
    && m.dyn == m.cfg[0 := m.cfg[0] + BATT_TEMP_HYST]
  }

  /** Where an FFC monitor can be, and the border behind its last change. */
  ghost predicate Placed(m: Monitor, last: Option<Change>) {
    && Sized(m) && m.cfg != [] && SpacedAbove(m.cfg)
    && (m == Fresh(m.cfg) || AtBottom(m) || Inside(m))
    && (m == Fresh(m.cfg) ==> last.None?)
    && Behind(m, last)
  }

  lemma FromFresh(m: Monitor, temp: int)
    requires m == Fresh(m.cfg) && m.cfg != []
    ensures var m1 := Observe(m, temp, false);
            (AtBottom(m1) || Inside(m1)) && Behind(m1, Some(Change(false, temp)))
  {
  }

  lemma FromBottom(m: Monitor, temp: int)
    requires AtBottom(m) && SpacedAbove(m.cfg)
    ensures var m1 := Observe(m, temp, false);
            m1 == m || (Inside(m1) && m1.region > 0 && temp >= m.dyn[0] && Behind(m1, Some(Change(true, temp))))
  {
    var r := Classify(m.dyn, temp);
    if r > 0 {
      var m1 := Observe(m, temp, false);
      forall i | 0 <= i < r ensures m1.dyn[i] <= temp - BATT_TEMP_HYST {
        assert i < r - 1 ==> m.cfg[i] <= m.cfg[0] || m.cfg[i] + BATT_TEMP_HYST <= m.cfg[r - 1];
      }
    }
  }

  lemma InsideRises(m: Monitor, temp: int)
    requires Inside(m) && SpacedAbove(m.cfg) && Classify(m.dyn, temp) > m.region
    ensures var m1 := Observe(m, temp, false);
            Inside(m1) && temp >= m.dyn[m.region] && Behind(m1, Some(Change(true, temp)))
  {
    var r, m1 := Classify(m.dyn, temp), Observe(m, temp, false);
    forall i | 0 <= i < r ensures m1.dyn[i] <= temp - BATT_TEMP_HYST {
      assert i < r - 1 ==> m.cfg[i] <= m.cfg[0] || m.cfg[i] + BATT_TEMP_HYST <= m.cfg[r - 1];
    }
  }

  lemma InsideFalls(m: Monitor, temp: int)
    requires Inside(m) && Classify(m.dyn, temp) < m.region
    ensures var m1 := Observe(m, temp, false);
            (AtBottom(m1) || Inside(m1)) && temp < m.dyn[m1.region] && Behind(m1, Some(Change(false, temp)))
  {
    var r, m1 := Classify(m.dyn, temp), Observe(m, temp, false);
    if r == 0 {
      assert AtBottom(m1);
    } else {
      assert m.dyn[0] <= temp;
      assert Inside(m1);
    }
  }

  lemma PlacedStep(m: Monitor, last: Option<Change>, temp: int)
    requires Placed(m, last)
    ensures var next := ChangeAt(m, temp, false);
            && Placed(Observe(m, temp, false), Latest(last, next))
            && (IsReversal(last, next) ==> Abs(temp - last.value.temp) > BATT_TEMP_HYST)
  {
    if m == Fresh(m.cfg) {
      FromFresh(m, temp);
    } else if AtBottom(m) {
      FromBottom(m, temp);
    } else if Classify(m.dyn, temp) > m.region {
      InsideRises(m, temp);
    } else if Classify(m.dyn, temp) < m.region {
      InsideFalls(m, temp);
    }
  }

  lemma {:induction false} PlacedKeepsApart(m: Monitor, last: Option<Change>, temps: seq<int>)
    requires Placed(m, last)
    ensures Apart(m, last, temps, false)
    decreases |temps|
  {
    if temps == [] {
    } else {
      PlacedStep(m, last, temps[0]);
      PlacedKeepsApart(Observe(m, temps[0], false), Latest(last, ChangeAt(m, temps[0], false)), temps[1..]);
    }
  }

  // ---------- the spacing is necessary ----------

  /** A rise and a fall no further apart than the hysteresis are a reversal that comes too soon. */
  lemma UpAndDown(m0: Monitor, m1: Monitor, m2: Monitor, a: int, b: int, c: int, adopt: bool)
    requires Sized(m0) && m0.region == |m0.cfg| + 1
    requires m1 == Observe(m0, a, adopt) && m2 == Observe(m1, b, adopt)
    requires m1.region < m2.region && Observe(m2, c, adopt).region < m2.region
    requires Abs(c - b) <= BATT_TEMP_HYST
    ensures !Apart(m0, None, [a, b, c], adopt)
  {
    assert [a, b, c][1..] == [b, c] && [b, c][1..] == [c];
    assert !Apart(m2, Some(Change(true, b)), [c], adopt);
    assert !Apart(m1, Latest(None, ChangeAt(m0, a, adopt)), [b, c], adopt);
  }

  /** Just below threshold i, up past threshold j, and back. */
  lemma TurnsAdopted(cfg: seq<int>, i: nat, j: nat, high: int)
    requires i < j < |cfg| && forall t :: 0 <= t <= j ==> cfg[t] <= high
    requires high < cfg[i] + BATT_TEMP_HYST
    ensures !Apart(Fresh(cfg), None, [cfg[i] - 1, high, cfg[i] - 1], true)
  {
    var low, m0 := cfg[i] - 1, Fresh(cfg);
    var m1 := Observe(m0, low, true);
    assert m1.dyn == cfg && m1.region == Classify(cfg, low) <= i;
    var m2 := Observe(m1, high, true);
    assert m2.region > j && m2.dyn[i] == cfg[i];
    assert Observe(m2, low, true).region <= i;
    UpAndDown(m0, m1, m2, low, high, low, true);
  }

  /** Below the first threshold, up past its raised value and threshold j, and back below threshold i. */
  lemma TurnsUnadopted(cfg: seq<int>, i: nat, j: nat, high: int)
    requires 0 < i < j < |cfg| && forall t :: 0 < t <= j ==> cfg[t] <= high
    requires cfg[0] + BATT_TEMP_HYST <= high < cfg[i] + BATT_TEMP_HYST
    ensures !Apart(Fresh(cfg), None, [cfg[0] - 1, high, cfg[i] - 1], false)
  {
    var m0 := Fresh(cfg);
    var m1 := Observe(m0, cfg[0] - 1, false);
    assert AtBottom(m1);
    var m2 := Observe(m1, high, false);
    assert m2.region > j && m2.dyn[i] == cfg[i];
    assert Observe(m2, cfg[i] - 1, false).region <= i;
    UpAndDown(m0, m1, m2, cfg[0] - 1, high, cfg[i] - 1, false);
  }

  lemma {:induction false} MaximumAt(s: seq<int>) returns (k: nat)
    requires s != []
    ensures k < |s| && forall t :: 0 <= t < |s| ==> s[t] <= s[k]
  {
    if |s| == 1 {
      k := 0;
    } else {
      k := MaximumAt(s[..|s| - 1]);
      if s[k] < s[|s| - 1] {
        k := |s| - 1;
      }
    }
  }

  /** The tables that keep all reversals apart, with and without silent adoption of the first region. */
  ghost predicate Sparse(cfg: seq<int>, adopt: bool) {
    if adopt then Spaced(cfg) else SpacedAbove(cfg)
  }

  /** A table that is not sparse turns round too soon in three samples. */
  lemma TooCloseTurns(cfg: seq<int>, adopt: bool) returns (temps: seq<int>)
    requires !Sparse(cfg, adopt)
    ensures |temps| == 3 && !Apart(Fresh(cfg), None, temps, adopt)
  {
    var first := if adopt then 0 else 1;
    var i, j :| 0 <= i < j < |cfg| && cfg[i] + BATT_TEMP_HYST > cfg[j] && (adopt || cfg[i] > cfg[0]);
    var k := MaximumAt(cfg[first..j + 1]);
    k := k + first;
    assert forall t :: first <= t <= j ==> cfg[t] == cfg[first..j + 1][t - first] <= cfg[k];
    var low := if k == j then i else k;
    assert cfg[i] <= cfg[k];
    if adopt {
      TurnsAdopted(cfg, low, j, cfg[k]);
      temps := [cfg[low] - 1, cfg[k], cfg[low] - 1];
    } else {
      var high := Max(cfg[0] + BATT_TEMP_HYST, cfg[k]);
      TurnsUnadopted(cfg, low, j, high);
      temps := [cfg[0] - 1, high, cfg[low] - 1];
    }
  }

  /**
   Main result: for every table whatsoever, all reversals of all runs are more than the hysteresis apart if and
   only if the table is sparse. Where the first region is adopted, all gaps must be at least the hysteresis;
   where it is not, only the gaps above the first threshold must.
   */
  lemma ApartIffSparse(cfg: seq<int>, adopt: bool)
    ensures Sparse(cfg, adopt) <==> forall temps :: Apart(Fresh(cfg), None, temps, adopt)
  {
    if Sparse(cfg, adopt) {
      forall temps ensures Apart(Fresh(cfg), None, temps, adopt) {
        SparseKeepsApart(cfg, temps, adopt);
      }
    } else {
      var temps := TooCloseTurns(cfg, adopt);
      assert !Apart(Fresh(cfg), None, temps, adopt);
    }
  }

  lemma SparseKeepsApart(cfg: seq<int>, temps: seq<int>, adopt: bool)
    requires Sparse(cfg, adopt)
    ensures Apart(Fresh(cfg), None, temps, adopt)
  {
    if adopt || cfg == [] {
      SpacedKeepsApart(Fresh(cfg), None, temps, adopt);
    } else {
      PlacedKeepsApart(Fresh(cfg), None, temps);
    }
  }

  /** Main result: with a sparse table the reversals of a run are bounded by the travel of its samples. */
  lemma FreshRunTravel(cfg: seq<int>, p: int, temps: seq<int>, adopt: bool)
    requires Sparse(cfg, adopt)
    ensures (BATT_TEMP_HYST + 1) * Reversals(Fresh(cfg), None, temps, adopt) <= Variation(p, temps)
  {
    SparseKeepsApart(cfg, temps, adopt);
    ReversalsCostTravel(Fresh(cfg), None, p, temps, adopt);
  }

  /** The built-in battery table fills only seven of its eight entries, so the last is 0. */
  const DEFAULT_BATT_TEMP_THR := [-20, 0, 50, 120, 160, 450, 500, 0]

  /** With it, the regions on both sides of 500 can alternate one tenth of a degree apart. */
  lemma DefaultTableChatters()
    ensures !Sparse(DEFAULT_BATT_TEMP_THR, true)
    ensures !Apart(Fresh(DEFAULT_BATT_TEMP_THR), None, [499, 500, 499], true)
  {
    var t := DEFAULT_BATT_TEMP_THR;
    assert t[6] == 500 && t[7] == 0;
    TurnsAdopted(t, 6, 7, 500);
  }
}
