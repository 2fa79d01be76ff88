/**
 * The per-thruster heat/boost state machine of ThrustBoost, stated on values.
 *
 * A thruster's state is its boost record (heat, saved flame colour, mode) and
 * the actuation fields the mod writes on the thruster (thrust and power
 * multipliers, flame strength, light colour, the "Damage" effect). Each
 * function here is the value-level meaning of one handler of the source; the
 * imperative handlers in module UnitMachine are proved equal to them.
 * Heat is an exact real number, not a single-precision float.
 */
module UnitSpec {

  /** Thrust multiplier while boosting. */
  const BoostThrust: real := 5.0
  /** Power consumption multiplier while boosting. */
  const BoostPower: real := 2.5
  /** Flame strength while boosting. */
  const BoostStrength: real := 2.5
  /** Heat at which a boosting thruster overheats. */
  const MaxHeat: real := 100.0
  /** Seconds of full-thrust boosting that take a thruster from 0 to MaxHeat. */
  const MaxBoostTime: real := 10.0
  /** Simulation ticks per second assumed by the heat step. */
  const TicksPerSecond: real := 60.0
  /**
   * Heat gained per tick of full-thrust boosting (and the base cooldown
   * step): MaxHeat / TicksPerSecond / MaxBoostTime, written out as its value
   * (lemma HeatQuantValue).
   */
  const HeatQuant: real := 1.0 / 6.0
  /** How much of the cooldown step a thruster at full thrust loses. */
  const CooldownThrustFactor: real := 0.75

  /** An RGBA colour (the source's Vector4). */
  datatype Color = Color(x: real, y: real, z: real, w: real)

  /** Light colour of a boosting thruster. */
  const BoosterFlameColor := Color(1.0, 0.4, 0.0, 1.0)
  /** The zero colour a fresh record holds. */
  const NoColor := Color(0.0, 0.0, 0.0, 0.0)

  datatype Mode = Normal | Boost | Overheat

  /** The record kept per thruster id. */
  datatype BoostInfo = BoostInfo(heat: real, originalColor: Color, mode: Mode)

  /** The record a lookup miss yields: Normal, heat 0 (a zero-initialised struct). */
  const FreshInfo := BoostInfo(0.0, NoColor, Normal)

  /** The fields the mod writes on a thruster. */
  datatype Actuation = Actuation(
    thrustMultiplier: real,
    powerMultiplier: real,
    strength: real,
    lightColor: Color,
    damaged: bool)

  /** What the mod reads from a thruster: CurrentThrust / MaxThrust and ThrustColor. */
  datatype Reading = Reading(ratio: real, thrustColor: Color)

  /** Record and actuation of one thruster together. */
  datatype UnitState = UnitState(info: BoostInfo, act: Actuation)

  predicate ValidRatio(r: real) {
    0.0 <= r <= 1.0
  }

  predicate InRange(heat: real) {
    0.0 <= heat <= MaxHeat
  }

  /** The actuation of a boosting thruster, whatever the previous one was. */
  predicate IsBoosted(a: Actuation) {
    a.thrustMultiplier == BoostThrust && a.powerMultiplier == BoostPower &&
    a.strength == BoostStrength && a.lightColor == BoosterFlameColor
  }

  /** The baseline actuation restored with colour c. */
  predicate IsBaseline(a: Actuation, c: Color) {
    a.thrustMultiplier == 1.0 && a.powerMultiplier == 1.0 &&
    a.strength == 1.0 && a.lightColor == c
  }

  /**
   * How mode and actuation fit together once the machine has driven a
   * thruster: a boosting thruster is boosted and undamaged, an overheated one
   * is back at baseline with its saved colour and carries "Damage", a normal
   * one is undamaged.
   */
  predicate Consistent(s: UnitState) {
    match s.info.mode
    case Normal => !s.act.damaged
    case Boost => IsBoosted(s.act) && !s.act.damaged
    case Overheat => IsBaseline(s.act, s.info.originalColor) && s.act.damaged
  }

  lemma HeatQuantValue()
    ensures HeatQuant == MaxHeat / TicksPerSecond / MaxBoostTime
  {
  }

  /** Heat lost per cooldown tick: less the harder the thruster is working. */
  function CooldownQuant(ratio: real): (q: real)
    ensures ValidRatio(ratio) ==> HeatQuant / 4.0 <= q <= HeatQuant
    ensures ratio == 0.0 ==> q == HeatQuant
  {
    (1.0 - ratio * CooldownThrustFactor) * HeatQuant
  }

  /** Heat gained per boosting tick: proportional to the thrust ratio. */
  function HeatupQuant(ratio: real): (q: real)
    ensures ValidRatio(ratio) ==> 0.0 <= q <= HeatQuant
    ensures q == 0.0 <==> ratio == 0.0
  {
    ratio * HeatQuant
  }

  /**
   * ApplyCooldown: heat drops by CooldownQuant and is clamped at 0; nothing
   * else in the record changes.
   */
  function Cooled(info: BoostInfo, ratio: real): (r: BoostInfo)
    ensures r.mode == info.mode && r.originalColor == info.originalColor
    ensures r.heat >= 0.0 && r.heat >= info.heat - CooldownQuant(ratio)
    ensures r.heat == 0.0 || r.heat == info.heat - CooldownQuant(ratio)
    ensures ValidRatio(ratio) && InRange(info.heat) ==>
              InRange(r.heat) && r.heat <= info.heat && (r.heat == info.heat <==> info.heat == 0.0)
  {
    var h := info.heat - CooldownQuant(ratio);
    info.(heat := if h < 0.0 then 0.0 else h)
  }

  /**
   * EnableBooster: boosted multipliers, strength and flame colour; the
   * thruster's current ThrustColor is saved in the record. Heat, mode and the
   * damage effect are untouched.
   */
  function Enabled(s: UnitState, thrustColor: Color): (r: UnitState)
    ensures IsBoosted(r.act) && r.act.damaged == s.act.damaged
    ensures r.info == s.info.(originalColor := thrustColor)
  {
    UnitState(
      s.info.(originalColor := thrustColor),
      s.act.(thrustMultiplier := BoostThrust, powerMultiplier := BoostPower,
             lightColor := BoosterFlameColor, strength := BoostStrength))
  }

  /**
   * DisableBooster: multipliers and strength back to 1 and the saved colour
   * back on the light. The record and the damage effect are untouched.
   */
  function Disabled(s: UnitState): (r: UnitState)
    ensures IsBaseline(r.act, s.info.originalColor) && r.act.damaged == s.act.damaged
    ensures r.info == s.info
  {
    UnitState(
      s.info,
      s.act.(thrustMultiplier := 1.0, powerMultiplier := 1.0,
             lightColor := s.info.originalColor, strength := 1.0))
  }

  /**
   * ApplyHeatup: heat rises by HeatupQuant; reaching MaxHeat clamps it to
   * exactly MaxHeat, disables the booster and reports an overheat.
   */
  function HeatedUp(s: UnitState, ratio: real): (r: (UnitState, bool))
    ensures r.0.info.mode == s.info.mode && r.0.info.originalColor == s.info.originalColor
    ensures r.1 <==> s.info.heat + HeatupQuant(ratio) >= MaxHeat
    ensures r.1 ==> r.0.info.heat == MaxHeat && r.0.act == Disabled(s).act
    ensures !r.1 ==> r.0.info.heat == s.info.heat + HeatupQuant(ratio) && r.0.act == s.act
    ensures ValidRatio(ratio) && InRange(s.info.heat) ==> InRange(r.0.info.heat)
  {
    var h := s.info.heat + HeatupQuant(ratio);
    var heated := UnitState(s.info.(heat := h), s.act);
    if h >= MaxHeat then
      (Disabled(UnitState(heated.info.(heat := MaxHeat), heated.act)), true)
    else
      (heated, false)
  }

  /** UpdateThrusterNormalMode. */
  function NormalStep(s: UnitState, rd: Reading, enable: bool): UnitState {
    if enable then
      var e := Enabled(s, rd.thrustColor);
      UnitState(e.info.(mode := Boost), e.act)
    else
      UnitState(Cooled(s.info, rd.ratio), s.act)
  }

  /**
   * A Normal thruster with the gate open enters Boost without gaining heat
   * on that tick, saving its current flame colour; with the gate closed it
   * cools and keeps its actuation, and a cold one does not change at all.
   */
  lemma NormalStepSpec(s: UnitState, rd: Reading, enable: bool)
    ensures var r := NormalStep(s, rd, enable);
            && (enable ==>
                  r.info == BoostInfo(s.info.heat, rd.thrustColor, Boost) &&
                  IsBoosted(r.act) && r.act.damaged == s.act.damaged)
            && (!enable ==> r.info == Cooled(s.info, rd.ratio) && r.act == s.act)
            && (!enable && s.info.heat == 0.0 && ValidRatio(rd.ratio) ==> r == s)
  {
  }

  /** UpdateThrusterBoostMode. */
  function BoostStep(s: UnitState, rd: Reading, enable: bool): UnitState {
    if enable then
      var (h, overheat) := HeatedUp(s, rd.ratio);
      if overheat then
        var d := Disabled(UnitState(h.info.(mode := Overheat), h.act));
        UnitState(d.info, d.act.(damaged := true))
      else
        h
    else
      var d := Disabled(s);
      UnitState(d.info.(mode := Normal), d.act)
  }

  /**
   * A boosting thruster with the gate open heats up; reaching MaxHeat puts
   * it in Overheat at exactly MaxHeat, back at baseline with its saved
   * colour and damaged. With the gate closed it drops to Normal at baseline
   * with its heat unchanged.
   */
  lemma BoostStepSpec(s: UnitState, rd: Reading, enable: bool)
    ensures var r := BoostStep(s, rd, enable);
            && (enable && s.info.heat + HeatupQuant(rd.ratio) >= MaxHeat ==>
                  r.info == BoostInfo(MaxHeat, s.info.originalColor, Overheat) &&
                  IsBaseline(r.act, s.info.originalColor) && r.act.damaged)
            && (enable && s.info.heat + HeatupQuant(rd.ratio) < MaxHeat ==>
                  r.info == s.info.(heat := s.info.heat + HeatupQuant(rd.ratio)) && r.act == s.act)
            && (!enable ==>
                  r.info == s.info.(mode := Normal) &&
                  IsBaseline(r.act, s.info.originalColor) && r.act.damaged == s.act.damaged)
  {
  }

  /** UpdateThrusterOverheatMode: cooldown every tick, whatever the flag. */
  function OverheatStep(s: UnitState, rd: Reading, enable: bool): UnitState {
    var c := Cooled(s.info, rd.ratio);
    if c.heat <= 0.0 then
      var a := s.act.(damaged := false);
      if enable then
        var e := Enabled(UnitState(c, a), rd.thrustColor);
        UnitState(e.info.(mode := Boost), e.act)
      else
        UnitState(c.(mode := Normal), a)
    else
      UnitState(c, s.act)
  }

  /**
   * An overheated thruster cools whatever the gate; while heat remains it
   * keeps its record (but the heat) and its actuation; once cold it loses
   * the damage effect and goes to Boost (saving its flame colour) or Normal
   * as the gate says.
   */
  lemma OverheatStepSpec(s: UnitState, rd: Reading, enable: bool)
    ensures var r := OverheatStep(s, rd, enable);
            && r.info.heat == Cooled(s.info, rd.ratio).heat
            && (r.info.heat > 0.0 ==> r.info == s.info.(heat := r.info.heat) && r.act == s.act)
            && (r.info.heat <= 0.0 ==> !r.act.damaged && r.info.mode == (if enable then Boost else Normal))
            && (r.info.heat <= 0.0 && enable ==>
                  IsBoosted(r.act) && r.info.originalColor == rd.thrustColor)
            && (r.info.heat <= 0.0 && !enable ==>
                  r.act == s.act.(damaged := false) && r.info.originalColor == s.info.originalColor)
  {
  }

  /** UpdateThruster's transition: dispatch on the record's mode. */
  function Advance(s: UnitState, rd: Reading, enable: bool): UnitState {
    match s.info.mode
    case Normal => NormalStep(s, rd, enable)
    case Boost => BoostStep(s, rd, enable)
    case Overheat => OverheatStep(s, rd, enable)
  }

  /**
   * What every transition keeps: heat stays in [0, MaxHeat], mode and
   * actuation stay consistent, only a boosting thruster can overheat (and
   * then at exactly MaxHeat), an overheated one is released only once its
   * heat has reached 0, and nothing boosts with the gate closed.
   */
  lemma AdvanceSpec(s: UnitState, rd: Reading, enable: bool)
    ensures var r := Advance(s, rd, enable);
            && (ValidRatio(rd.ratio) && InRange(s.info.heat) ==> InRange(r.info.heat))
            && (Consistent(s) ==> Consistent(r))
            && (r.info.mode == Overheat ==> s.info.mode != Normal && (s.info.mode == Boost ==> r.info.heat == MaxHeat))
            && (s.info.mode == Overheat && r.info.mode != Overheat ==> r.info.heat == 0.0)
            && (r.info.mode == Boost ==> enable)
  {
    match s.info.mode
    case Normal => NormalStepSpec(s, rd, enable);
    case Boost => BoostStepSpec(s, rd, enable);
    case Overheat => OverheatStepSpec(s, rd, enable);
  }
}
