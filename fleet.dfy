/**
 * One controller tick over all tracked thrusters, stated on values: the
 * first pass that closes the boost gate when any thruster is overheated, the
 * second pass that advances every thruster with that gate while collecting
 * the peak heat and whether any thruster ends the tick overheated, and the
 * show/hide decision for the notification.
 */
module Fleet {
  import opened UnitSpec
  import StatusText

  /** A tracked thruster at the start of a tick: its id, what it reads, its actuation. */
  datatype Unit = Unit(id: int, reading: Reading, act: Actuation)

  /** The record map, keyed by thruster id. */
  type Records = map<int, BoostInfo>

  /** TryGetValue on the record map, with the zero-initialised record on a miss. */
  function Lookup(m: Records, id: int): BoostInfo {
    if id in m then m[id] else FreshInfo
  }

  predicate DistinctIds(units: seq<Unit>) {
    forall i, j :: 0 <= i < j < |units| ==> units[i].id != units[j].id
  }

  predicate RecordsInRange(m: Records) {
    forall id :: id in m ==> InRange(m[id].heat)
  }

  predicate ValidReadings(units: seq<Unit>) {
    forall i :: 0 <= i < |units| ==> ValidRatio(units[i].reading.ratio)
  }

  /** First pass: some tracked thruster's record is in Overheat. */
  function AnyOverheat(m: Records, units: seq<Unit>): (b: bool)
    ensures b <==> exists j :: 0 <= j < |units| && Lookup(m, units[j].id).mode == Overheat
    decreases |units|
  {
    if units == [] then false
    else AnyOverheat(m, units[..|units| - 1]) || Lookup(m, units[|units| - 1].id).mode == Overheat
  }

  /** enableBoost: the key is held and no tracked thruster was overheated before the tick. */
  function Gate(shift: bool, m: Records, units: seq<Unit>): (g: bool)
    ensures g <==> shift && forall j :: 0 <= j < |units| ==> Lookup(m, units[j].id).mode != Overheat
  {
    shift && !AnyOverheat(m, units)
  }

  /** What UpdateThruster makes of one thruster given the records it reads. */
  function Next(m: Records, u: Unit, gate: bool): UnitState {
    Advance(UnitState(Lookup(m, u.id), u.act), u.reading, gate)
  }

  datatype PassResult = PassResult(records: Records, acts: seq<Actuation>, peak: real, overheat: bool)

  /**
   * Second pass over the first n thrusters: UpdateThruster on each in order,
   * storing each updated record under its id, and folding the peak heat
   * (from 0) and the any-overheat flag (from false).
   */
  function PassUpTo(m: Records, units: seq<Unit>, n: nat, gate: bool): (r: PassResult)
    requires n <= |units|
    ensures |r.acts| == n
    ensures r.peak >= 0.0
    decreases n
  {
    if n == 0 then PassResult(m, [], 0.0, false)
    else
      var p := PassUpTo(m, units, n - 1, gate);
      var u := units[n - 1];
      var s := Next(p.records, u, gate);
      PassResult(p.records[u.id := s.info], p.acts + [s.act],
                 if p.peak < s.info.heat then s.info.heat else p.peak,
                 p.overheat || s.info.mode == Overheat)
  }

  /** The second pass over all tracked thrusters. */
  function Pass(m: Records, units: seq<Unit>, gate: bool): PassResult {
    PassUpTo(m, units, |units|, gate)
  }

  /** The ids of the first n thrusters. */
  function IdsUpTo(units: seq<Unit>, n: nat): set<int>
    requires n <= |units|
  {
    set j | 0 <= j < n :: units[j].id
  }

  /**
   * The pass keeps every record it had and adds one for each visited id;
   * a record for an id it did not visit is left as it was.
   */
  lemma {:induction false} PassRecords(m: Records, units: seq<Unit>, n: nat, gate: bool)
    requires n <= |units|
    ensures PassUpTo(m, units, n, gate).records.Keys == m.Keys + IdsUpTo(units, n)
    ensures forall id :: id !in IdsUpTo(units, n) ==> Lookup(PassUpTo(m, units, n, gate).records, id) == Lookup(m, id)
    decreases n
  {
    if n > 0 {
      PassRecords(m, units, n - 1, gate);
      assert IdsUpTo(units, n) == IdsUpTo(units, n - 1) + {units[n - 1].id};
    }
  }

  /** With distinct ids, thruster n reads the records as they were before the pass. */
  lemma PassAhead(m: Records, units: seq<Unit>, n: nat, gate: bool)
    requires DistinctIds(units) && n < |units|
    ensures Next(PassUpTo(m, units, n, gate).records, units[n], gate) == Next(m, units[n], gate)
  {
    PassRecords(m, units, n, gate);
    assert units[n].id !in IdsUpTo(units, n);
  }

  /**
   * With distinct ids, the pass treats every thruster independently: each
   * stored record and each new actuation is what UpdateThruster makes of that
   * thruster from the records before the tick.
   */
  lemma {:induction false} PassUnits(m: Records, units: seq<Unit>, n: nat, gate: bool, j: int)
    requires DistinctIds(units) && 0 <= j < n <= |units|
    ensures units[j].id in PassUpTo(m, units, n, gate).records
    ensures Lookup(PassUpTo(m, units, n, gate).records, units[j].id) == Next(m, units[j], gate).info
    ensures PassUpTo(m, units, n, gate).acts[j] == Next(m, units[j], gate).act
    decreases n
  {
    if j == n - 1 {
      PassAhead(m, units, n - 1, gate);
    } else {
      PassUnits(m, units, n - 1, gate, j);
    }
  }

  /**
   * The pass's peak is the largest post-update heat: no thruster ends the
   * tick hotter, and some thruster ends it exactly that hot.
   */
  lemma {:induction false} PassPeak(m: Records, units: seq<Unit>, n: nat, gate: bool)
    requires DistinctIds(units) && RecordsInRange(m) && ValidReadings(units) && n <= |units|
    ensures forall j :: 0 <= j < n ==> Next(m, units[j], gate).info.heat <= PassUpTo(m, units, n, gate).peak
    ensures n > 0 ==> exists j :: 0 <= j < n && PassUpTo(m, units, n, gate).peak == Next(m, units[j], gate).info.heat
    decreases n
  {
    if n > 0 {
      PassPeak(m, units, n - 1, gate);
      PassAhead(m, units, n - 1, gate);
      var u := units[n - 1];
      assert InRange(Lookup(m, u.id).heat);
      AdvanceSpec(UnitState(Lookup(m, u.id), u.act), u.reading, gate);
    }
  }

  /** The pass's overheat flag says exactly that some thruster ends the tick in Overheat. */
  lemma {:induction false} PassOverheat(m: Records, units: seq<Unit>, n: nat, gate: bool)
    requires DistinctIds(units) && n <= |units|
    ensures PassUpTo(m, units, n, gate).overheat <==>
            exists j :: 0 <= j < n && Next(m, units[j], gate).info.mode == Overheat
    decreases n
  {
    if n > 0 {
      PassOverheat(m, units, n - 1, gate);
      PassAhead(m, units, n - 1, gate);
    }
  }

  /** Heat stays in [0, MaxHeat] across a pass: in every stored record and in the peak. */
  lemma {:induction false} PassInRange(m: Records, units: seq<Unit>, n: nat, gate: bool)
    requires RecordsInRange(m) && ValidReadings(units) && n <= |units|
    ensures RecordsInRange(PassUpTo(m, units, n, gate).records) && InRange(PassUpTo(m, units, n, gate).peak)
    decreases n
  {
    if n > 0 {
      PassInRange(m, units, n - 1, gate);
      var p := PassUpTo(m, units, n - 1, gate);
      var u := units[n - 1];
      assert InRange(Lookup(p.records, u.id).heat);
      AdvanceSpec(UnitState(Lookup(p.records, u.id), u.act), u.reading, gate);
    }
  }

  /** A thruster that is overheated before the tick closes the gate, so it is not re-boosted on this tick. */
  lemma OverheatedNeverReboosts(m: Records, units: seq<Unit>, shift: bool, j: int)
    requires DistinctIds(units) && 0 <= j < |units|
    requires Lookup(m, units[j].id).mode == Overheat
    ensures !Gate(shift, m, units)
    ensures Lookup(Pass(m, units, Gate(shift, m, units)).records, units[j].id).mode != Boost
  {
    var gate := Gate(shift, m, units);
    PassUnits(m, units, |units|, gate, j);
    AdvanceSpec(UnitState(Lookup(m, units[j].id), units[j].act), units[j].reading, gate);
  }

  /**
   * A boosting thruster on a vehicle where another thruster is overheated
   * drops to Normal at baseline actuation with its heat unchanged, even with
   * the key held.
   */
  lemma BoostRevokedByOtherOverheat(m: Records, units: seq<Unit>, shift: bool, j: int, k: int)
    requires DistinctIds(units) && 0 <= j < |units| && 0 <= k < |units|
    requires Lookup(m, units[j].id).mode == Boost && Lookup(m, units[k].id).mode == Overheat
    ensures Lookup(Pass(m, units, Gate(shift, m, units)).records, units[j].id) ==
            Lookup(m, units[j].id).(mode := Normal)
    ensures IsBaseline(Pass(m, units, Gate(shift, m, units)).acts[j], Lookup(m, units[j].id).originalColor)
  {
    var gate := Gate(shift, m, units);
    PassUnits(m, units, |units|, gate, j);
    BoostStepSpec(UnitState(Lookup(m, units[j].id), units[j].act), units[j].reading, gate);
  }

  /**
   * The gate is fixed before the second pass, so a thruster that overheats
   * during the pass does not close it for the others: a boosting thruster
   * that stays below MaxHeat keeps boosting on the same tick, and the gate
   * closes only on the next one.
   */
  lemma OverheatClosesGateNextTick(m: Records, units: seq<Unit>, shift: bool, j: int, k: int)
    requires DistinctIds(units) && 0 <= j < |units| && 0 <= k < |units|
    requires Gate(shift, m, units) && Next(m, units[j], true).info.mode == Overheat
    requires Lookup(m, units[k].id).mode == Boost
    requires Lookup(m, units[k].id).heat + HeatupQuant(units[k].reading.ratio) < MaxHeat
    ensures var p := Pass(m, units, true);
            && Lookup(p.records, units[j].id).mode == Overheat
            && Lookup(p.records, units[k].id).mode == Boost && p.acts[k] == units[k].act
            && !Gate(shift, p.records, units)
  {
    PassUnits(m, units, |units|, true, j);
    PassUnits(m, units, |units|, true, k);
    BoostStepSpec(UnitState(Lookup(m, units[k].id), units[k].act), units[k].reading, true);
    var p := Pass(m, units, true);
    assert Lookup(p.records, units[j].id).mode == Overheat;
  }

  /**
   * Leaving the ship drops the records without restoring the thrusters. A
   * thruster left boosting reads as a fresh Normal record after re-entering,
   * and a tick with the gate closed keeps its boosted actuation (and its
   * "Damage" effect, if it had one) instead of restoring the baseline.
   */
  lemma StaleBoostAfterReentry(u: Unit)
    requires IsBoosted(u.act) && ValidRatio(u.reading.ratio)
    ensures var s := Next(map[], u, false);
            s.info == FreshInfo && s.act == u.act && IsBoosted(s.act)
  {
    NormalStepSpec(UnitState(FreshInfo, u.act), u.reading, false);
  }

  /** Whether the notification is shown after the second pass. */
  function Shown(gate: bool, p: PassResult): bool {
    gate || p.peak > 0.0
  }

  /** A heat level as a percentage of MaxHeat. */
  function Percent(heat: real): real {
    100.0 * heat / MaxHeat
  }

  /** The notification text after the second pass: the peak heat's percentage drives the bar. */
  function Text(gate: bool, p: PassResult): string {
    StatusText.Message(Percent(p.peak), p.overheat, gate)
  }

  /**
   * The notification is shown exactly when boost is enabled or some thruster
   * is warm after the tick, and its header reads OVERHEAT exactly when some
   * thruster ends the tick overheated.
   */
  lemma TickNotification(m: Records, units: seq<Unit>, shift: bool)
    requires DistinctIds(units) && RecordsInRange(m) && ValidReadings(units)
    ensures var gate := Gate(shift, m, units);
            var p := Pass(m, units, gate);
            (Shown(gate, p) <==> gate || exists j :: 0 <= j < |units| && Next(m, units[j], gate).info.heat > 0.0) &&
            (Text(gate, p)[..StatusText.HeaderWidth] == StatusText.OverheatHeader <==>
               exists j :: 0 <= j < |units| && Next(m, units[j], gate).info.mode == Overheat)
  {
    var gate := Gate(shift, m, units);
    var p := Pass(m, units, gate);
    PassPeak(m, units, |units|, gate);
    PassOverheat(m, units, |units|, gate);
    StatusText.MessageLayout(Percent(p.peak), p.overheat, gate);
  }
}
