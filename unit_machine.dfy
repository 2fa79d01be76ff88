/**
 * The thruster object and the handlers that drive it. Each handler updates
 * the thruster's fields in place and returns the updated boost record (the
 * source passes the record by reference); its contract ties the new fields
 * and the new record to the matching function of module UnitSpec.
 */
module UnitMachine {
  import opened UnitSpec

  /**
   * A thruster block as the host exposes it. The host sets ratio
   * (CurrentThrust / MaxThrust) and thrustColor; the mod writes the other
   * fields. damaged stands for the "Damage" effect.
   */
  class Thruster {
    const id: int
    var ratio: real
    var thrustColor: Color
    var thrustMultiplier: real
    var powerMultiplier: real
    var strength: real
    var lightColor: Color
    var damaged: bool

    constructor (id: int, rd: Reading, act: Actuation)
      ensures this.id == id && Sensed() == rd && Act() == act
    {
      this.id := id;
      ratio, thrustColor := rd.ratio, rd.thrustColor;
      thrustMultiplier, powerMultiplier, strength := act.thrustMultiplier, act.powerMultiplier, act.strength;
      lightColor, damaged := act.lightColor, act.damaged;
    }

    /** The fields the mod writes. */
    function Act(): Actuation
      reads this
    {
      Actuation(thrustMultiplier, powerMultiplier, strength, lightColor, damaged)
    }

    /** The fields the mod reads. */
    function Sensed(): Reading
      reads this
    {
      Reading(ratio, thrustColor)
    }
  }

  method EnableBooster(t: Thruster, info: BoostInfo) returns (info': BoostInfo)
    modifies t
    ensures UnitState(info', t.Act()) == Enabled(UnitState(info, old(t.Act())), t.thrustColor)
    ensures t.Sensed() == old(t.Sensed())
  {
    t.thrustMultiplier := BoostThrust;
    t.powerMultiplier := BoostPower;
    info' := info.(originalColor := t.thrustColor);
    t.lightColor := BoosterFlameColor;
    t.strength := BoostStrength;
  }

  method DisableBooster(t: Thruster, info: BoostInfo)
    modifies t
    ensures t.Act() == Disabled(UnitState(info, old(t.Act()))).act
    ensures t.Sensed() == old(t.Sensed())
  {
    t.thrustMultiplier := 1.0;
    t.powerMultiplier := 1.0;
    t.lightColor := info.originalColor;
    t.strength := 1.0;
  }

  /** Reads the thruster and changes nothing on it. */
  method ApplyCooldown(t: Thruster, info: BoostInfo) returns (info': BoostInfo)
    ensures info'.mode == info.mode && info'.originalColor == info.originalColor
    ensures info'.heat == Cooled(info, t.ratio).heat
    ensures info'.heat >= 0.0
  {
    var thrustLevel := t.ratio;
    var cooldownQuant := (1.0 - thrustLevel * CooldownThrustFactor) * HeatQuant;
    info' := info.(heat := info.heat - cooldownQuant);
    if info'.heat < 0.0 {
      info' := info'.(heat := 0.0);
    }
  }

  method ApplyHeatup(t: Thruster, info: BoostInfo) returns (info': BoostInfo, overheat: bool)
    modifies t
    ensures (UnitState(info', t.Act()), overheat) == HeatedUp(UnitState(info, old(t.Act())), t.ratio)
    ensures t.Sensed() == old(t.Sensed())
  {
    var thrustLevel := t.ratio;
    var heatQuant := thrustLevel * HeatQuant;
    info' := info.(heat := info.heat + heatQuant);
    if info'.heat >= MaxHeat {
      info' := info'.(heat := MaxHeat);
      DisableBooster(t, info');
      return info', true;
    }
    assert t.Act() == old(t.Act());
    assert !HeatedUp(UnitState(info, old(t.Act())), t.ratio).1;
    assert HeatedUp(UnitState(info, old(t.Act())), t.ratio).0 == UnitState(info', t.Act());
    return info', false;
  }

  method UpdateThrusterNormalMode(t: Thruster, enable: bool, info: BoostInfo) returns (info': BoostInfo)
    modifies t
    ensures UnitState(info', t.Act()) == NormalStep(UnitState(info, old(t.Act())), t.Sensed(), enable)
    ensures t.Sensed() == old(t.Sensed())
  {
    if enable {
      info' := EnableBooster(t, info);
      info' := info'.(mode := Boost);
    } else {
      info' := ApplyCooldown(t, info);
    }
  }

  method UpdateThrusterBoostMode(t: Thruster, enable: bool, info: BoostInfo) returns (info': BoostInfo)
    modifies t
    ensures UnitState(info', t.Act()) == BoostStep(UnitState(info, old(t.Act())), t.Sensed(), enable)
    ensures t.Sensed() == old(t.Sensed())
  {
    if enable {
      var overheat;
      info', overheat := ApplyHeatup(t, info);
      if overheat {
        DisableBooster(t, info');
        info' := info'.(mode := Overheat);
        t.damaged := true;
      }
    } else {
      DisableBooster(t, info);
      info' := info.(mode := Normal);
    }
  }

  method UpdateThrusterOverheatMode(t: Thruster, enable: bool, info: BoostInfo) returns (info': BoostInfo)
    modifies t
    ensures UnitState(info', t.Act()) == OverheatStep(UnitState(info, old(t.Act())), t.Sensed(), enable)
    ensures t.Sensed() == old(t.Sensed())
  {
    info' := ApplyCooldown(t, info);
    if info'.heat <= 0.0 {
      t.damaged := false;
      if enable {
        info' := EnableBooster(t, info');
        info' := info'.(mode := Boost);
      } else {
        info' := info'.(mode := Normal);
      }
    }
  }
}
