/**
 Temperature regions with hysteresis, as in oplus_chg_comm.c. N thresholds cut the temperature axis
 into regions 0..N; N + 1 is the invalid region a monitor starts in. The same algorithm runs with
 N = 8 for the battery (which adopts its first region silently) and N = 3 for FFC (which does not).
 */
module TempRegion {
  const BATT_TEMP_HYST := 20

  /** `dyn` are the thresholds in force, `cfg` the configured ones. */
  datatype Monitor = Monitor(cfg: seq<int>, dyn: seq<int>, region: nat)

  /** The index of the first threshold above temp. */
  function Classify(thr: seq<int>, temp: int): (r: nat)
    ensures r <= |thr|
    ensures forall i :: 0 <= i < r ==> thr[i] <= temp
    ensures r < |thr| ==> temp < thr[r]
  {
    if thr == [] || temp < thr[0] then 0 else 1 + Classify(thr[1..], temp)
  }

  lemma ClassifyIs(thr: seq<int>, temp: int, r: nat)
    requires r <= |thr| && (forall i :: 0 <= i < r ==> thr[i] <= temp) && (r < |thr| ==> temp < thr[r])
    ensures Classify(thr, temp) == r
  {
  }

  function Fresh(cfg: seq<int>): Monitor {
    Monitor(cfg, cfg, |cfg| + 1)
  }

  predicate Sized(m: Monitor) {
    |m.dyn| == |m.cfg| && m.region <= |m.cfg| + 1
  }

  /** Every threshold as configured, except border `at`, which is shifted from its value in force. */
  function Shift(m: Monitor, at: int, delta: int): (thr: seq<int>)
    requires Sized(m)
    ensures |thr| == |m.cfg|
    ensures forall i :: 0 <= i < |thr| ==> thr[i] == if i == at then m.dyn[i] + delta else m.cfg[i]
  {
    seq(|m.cfg|, i requires 0 <= i < |m.cfg| => if i == at then m.dyn[i] + delta else m.cfg[i])
  }

  /** Enter region r: falling raises its upper border, rising lowers its lower one. */
  function Enter(m: Monitor, r: nat): (m1: Monitor)
    requires Sized(m) && r <= |m.cfg|
    ensures Sized(m1)
  {
    if r < m.region then m.(dyn := Shift(m, r, BATT_TEMP_HYST), region := r)
    else if r > m.region then m.(dyn := Shift(m, r - 1, -BATT_TEMP_HYST), region := r)
    else m
  }

  /** One evaluation; with `adopt` the very first region is taken over as it is. */
  function Observe(m: Monitor, temp: int, adopt: bool): (m1: Monitor)
    requires Sized(m)
    ensures Sized(m1) && m1.region <= |m1.cfg|
  {
    var r := Classify(m.dyn, temp);
    Enter(if adopt && m.region == |m.cfg| + 1 then m.(region := r) else m, r)
  }

  function Run(m: Monitor, temps: seq<int>, adopt: bool): (m1: Monitor)
    requires Sized(m)
    ensures Sized(m1)
    decreases |temps|
  {
    if temps == [] then m else Run(Observe(m, temps[0], adopt), temps[1..], adopt)
  }

  // ---------- thresholds never drift ----------

  /** At most one threshold is off, by exactly the hysteresis, and it borders the current region. */
  ghost predicate Near(m: Monitor) {
    && Sized(m)
    && (forall i :: 0 <= i < |m.cfg| ==>
          || m.dyn[i] == m.cfg[i]
          || (i == m.region && m.dyn[i] == m.cfg[i] + BATT_TEMP_HYST)
          || (i + 1 == m.region && m.dyn[i] == m.cfg[i] - BATT_TEMP_HYST))
    && !(0 < m.region < |m.cfg| && m.dyn[m.region] != m.cfg[m.region] && m.dyn[m.region - 1] != m.cfg[m.region - 1])
  }

  lemma NearStep(m: Monitor, temp: int, adopt: bool)
    requires Near(m)
    ensures Near(Observe(m, temp, adopt)) && Observe(m, temp, adopt).cfg == m.cfg
  {
  }

  /** Main result: no run of samples makes the thresholds drift. Nothing is asked of the table. */
  lemma {:induction false} NoDrift(m: Monitor, temps: seq<int>, adopt: bool)
    requires Near(m)
    ensures Near(Run(m, temps, adopt)) && Run(m, temps, adopt).cfg == m.cfg
    decreases |temps|
  {
    if temps == [] {
    } else {
      NearStep(m, temps[0], adopt);
      NoDrift(Observe(m, temps[0], adopt), temps[1..], adopt);
    }
  }

  // ---------- the region against the plain classifier ----------

  ghost predicate Ascending(thr: seq<int>) {
    forall i, j :: 0 <= i < j < |thr| ==> thr[i] <= thr[j]
  }

  /** Ascending, with gaps of at least the hysteresis. */
  ghost predicate Spaced(cfg: seq<int>) {
    forall i, j :: 0 <= i < j < |cfg| ==> cfg[i] + BATT_TEMP_HYST <= cfg[j]
  }

  lemma NearAscending(m: Monitor)
    requires Near(m) && Spaced(m.cfg)
    ensures Ascending(m.dyn)
  {
  }

  /** Re-evaluating at the same temperature changes nothing. */
  lemma Settled(m: Monitor, temp: int, adopt: bool)
    requires Near(m) && Ascending(m.cfg)
    ensures var m1 := Observe(m, temp, adopt);
            Classify(m1.dyn, temp) == m1.region && Observe(m1, temp, adopt) == m1
  {
    NearStep(m, temp, adopt);
    var m1 := Observe(m, temp, adopt);
    ClassifyIs(m1.dyn, temp, m1.region);
  }

  /**
   Main result: after a sample the region is the one the configured table gives, or its neighbour;
   and it is a neighbour only within the hysteresis of the border between the two.
   */
  lemma RegionNearPlain(m: Monitor, temp: int, adopt: bool)
    requires Near(m) && Spaced(m.cfg)
    ensures var r, plain := Observe(m, temp, adopt).region, Classify(m.cfg, temp);
            || r == plain
            || (r + 1 == plain && m.cfg[r] <= temp < m.cfg[r] + BATT_TEMP_HYST)
            || (r == plain + 1 && m.cfg[plain] - BATT_TEMP_HYST <= temp < m.cfg[plain])
  {
    var m1 := Observe(m, temp, adopt);
    NearAscending(m);
    Settled(m, temp, adopt);
    NearStep(m, temp, adopt);
    var plain := Classify(m.cfg, temp);
    assert plain < m1.region ==> m1.dyn[plain] <= temp < m.cfg[plain];
    assert m1.region < plain ==> m.cfg[m1.region] <= temp < m1.dyn[m1.region];
    assert m1.region + 1 < |m.cfg| ==> m.cfg[m1.region] + BATT_TEMP_HYST <= m.cfg[m1.region + 1];
  }
}
