/**
 * Several ticks of one thruster's state machine with a fixed thrust reading
 * and a fixed boost gate, and what the source's heat constants promise over
 * such runs.
 */
module UnitRuns {
  import opened UnitSpec

  /** The state after n ticks of UpdateThruster with the same reading and gate. */
  function Run(s: UnitState, rd: Reading, enable: bool, n: nat): UnitState
    decreases n
  {
    if n == 0 then s else Run(Advance(s, rd, enable), rd, enable, n - 1)
  }

  /** Over any number of ticks heat stays in [0, MaxHeat] and mode and actuation stay consistent. */
  lemma {:induction false} RunKeeps(s: UnitState, rd: Reading, enable: bool, n: nat)
    ensures ValidRatio(rd.ratio) && InRange(s.info.heat) ==> InRange(Run(s, rd, enable, n).info.heat)
    ensures Consistent(s) ==> Consistent(Run(s, rd, enable, n))
    decreases n
  {
    if n > 0 {
      RunKeeps(Advance(s, rd, enable), rd, enable, n - 1);
    }
  }

  /** The last of n + 1 ticks is one Advance after the first n. */
  lemma {:induction false} RunLast(s: UnitState, rd: Reading, enable: bool, n: nat)
    ensures Run(s, rd, enable, n + 1) == Advance(Run(s, rd, enable, n), rd, enable)
    decreases n
  {
    if n > 0 {
      RunLast(Advance(s, rd, enable), rd, enable, n - 1);
    }
  }

  /** The total of n steps of size q. */
  function Times(n: nat, q: real): real {
    (n as real) * q
  }

  /** n steps of size q are one step plus n - 1 steps. */
  lemma StepsSplit(n: nat, q: real)
    requires n > 0 && q >= 0.0
    ensures Times(n - 1, q) == Times(n, q) - q
    ensures 0.0 <= Times(n - 1, q) <= Times(n, q)
  {
  }

  function Max0(x: real): real {
    if x < 0.0 then 0.0 else x
  }

  /** One cooldown tick of a Normal thruster without boost. */
  lemma CoolStep(s: UnitState, rd: Reading)
    requires s.info.mode == Normal
    ensures Advance(s, rd, false) == UnitState(s.info.(heat := Max0(s.info.heat - CooldownQuant(rd.ratio))), s.act)
  {
  }

  /** Heat after n cooldown steps of size q, each clamped at 0. */
  function CooledFor(h: real, q: real, n: nat): real
    decreases n
  {
    if n == 0 then h else CooledFor(Max0(h - q), q, n - 1)
  }

  /** With a non-negative step, clamping every step is clamping once at the end. */
  lemma {:induction false} CooledForClosed(h: real, q: real, n: nat)
    requires h >= 0.0 && q >= 0.0
    ensures CooledFor(h, q, n) == Max0(h - Times(n, q))
    decreases n
  {
    if n > 0 {
      CooledForClosed(Max0(h - q), q, n - 1);
      StepsSplit(n, q);
      if h - q < 0.0 {
        assert Max0(h - q) - Times(n - 1, q) <= 0.0;
      }
    }
  }

  /** Cooling a Normal thruster tick by tick. */
  lemma {:induction false} CooldownSteps(s: UnitState, rd: Reading, n: nat)
    requires s.info.mode == Normal
    ensures Run(s, rd, false, n) == UnitState(s.info.(heat := CooledFor(s.info.heat, CooldownQuant(rd.ratio), n)), s.act)
    decreases n
  {
    if n > 0 {
      CoolStep(s, rd);
      CooldownSteps(Advance(s, rd, false), rd, n - 1);
    }
  }

  /**
   * A Normal thruster without boost for n ticks: heat falls by n cooldown
   * steps, clamped at 0; mode and actuation do not change.
   */
  lemma CooldownRun(s: UnitState, rd: Reading, n: nat)
    requires s.info.mode == Normal && ValidRatio(rd.ratio) && s.info.heat >= 0.0
    ensures Run(s, rd, false, n) ==
            UnitState(s.info.(heat := Max0(s.info.heat - Times(n, CooldownQuant(rd.ratio)))), s.act)
  {
    CooldownSteps(s, rd, n);
    CooledForClosed(s.info.heat, CooldownQuant(rd.ratio), n);
  }

  /** Idempotence: an idle, cold Normal thruster stays exactly as it is. */
  lemma {:induction false} IdleIsNoOp(s: UnitState, rd: Reading, n: nat)
    requires s.info.mode == Normal && s.info.heat == 0.0 && ValidRatio(rd.ratio)
    ensures Run(s, rd, false, n) == s
  {
    CooldownRun(s, rd, n);
    assert Times(n, CooldownQuant(rd.ratio)) >= 0.0;
  }

  /** One boosting tick that stays below MaxHeat. */
  lemma HeatStep(s: UnitState, rd: Reading)
    requires s.info.mode == Boost && s.info.heat + HeatupQuant(rd.ratio) < MaxHeat
    ensures Advance(s, rd, true) == UnitState(s.info.(heat := s.info.heat + HeatupQuant(rd.ratio)), s.act)
  {
  }

  /**
   * A boosting thruster with the gate open for n ticks stays in Boost and
   * gains n heat steps, as long as those keep it below MaxHeat.
   */
  lemma {:induction false} BoostRun(s: UnitState, rd: Reading, n: nat)
    requires s.info.mode == Boost && ValidRatio(rd.ratio)
    requires s.info.heat + Times(n, HeatupQuant(rd.ratio)) < MaxHeat
    ensures Run(s, rd, true, n) ==
            UnitState(s.info.(heat := s.info.heat + Times(n, HeatupQuant(rd.ratio))), s.act)
    decreases n
  {
    var q := HeatupQuant(rd.ratio);
    if n == 0 {
      assert Times(n, q) == 0.0;
    } else {
      StepsSplit(n, q);
      HeatStep(s, rd);
      var s1 := UnitState(s.info.(heat := s.info.heat + q), s.act);
      assert s1.info.heat + Times(n - 1, q) == s.info.heat + Times(n, q);
      BoostRun(s1, rd, n - 1);
    }
  }

  /**
   * Full-thrust boosting from a cold Normal thruster: the entry tick adds no
   * heat, so after k ticks (1 <= k <= 600) the thruster is boosting with
   * k - 1 heat steps, still below MaxHeat.
   */
  lemma {:induction false} FullThrustBoosting(s: UnitState, rd: Reading, k: nat)
    requires s.info.mode == Normal && s.info.heat == 0.0 && rd.ratio == 1.0
    requires 1 <= k <= 600
    ensures Run(s, rd, true, k).info == BoostInfo(Times(k - 1, HeatQuant), rd.thrustColor, Boost)
    ensures Run(s, rd, true, k).info.heat < MaxHeat
    ensures IsBoosted(Run(s, rd, true, k).act)
  {
    HeatQuantValue();
    var s1 := Advance(s, rd, true);
    assert s1.info == BoostInfo(0.0, rd.thrustColor, Boost);
    BoostRun(s1, rd, k - 1);
  }

  /**
   * ... and tick 601 overheats it: heat is exactly MaxHeat, the actuation is
   * back at baseline with the saved colour and the damage effect is on.
   */
  lemma {:induction false} FullThrustOverheats(s: UnitState, rd: Reading)
    requires s.info.mode == Normal && s.info.heat == 0.0 && rd.ratio == 1.0
    ensures Run(s, rd, true, 601).info == BoostInfo(MaxHeat, rd.thrustColor, Overheat)
    ensures IsBaseline(Run(s, rd, true, 601).act, rd.thrustColor)
    ensures Run(s, rd, true, 601).act.damaged
  {
    HeatQuantValue();
    FullThrustBoosting(s, rd, 600);
    RunLast(s, rd, true, 600);
  }

  /** With no thrust, holding boost never heats a thruster: it boosts at heat 0 forever. */
  lemma {:induction false} ZeroThrustStaysCold(s: UnitState, rd: Reading, n: nat)
    requires s.info.mode == Normal && s.info.heat == 0.0 && rd.ratio == 0.0
    requires n >= 1
    ensures Run(s, rd, true, n).info == BoostInfo(0.0, rd.thrustColor, Boost)
  {
    var s1 := Advance(s, rd, true);
    BoostRun(s1, rd, n - 1);
  }

  lemma OverheatStaysHot(s: UnitState, rd: Reading, enable: bool)
    requires s.info.mode == Overheat
    requires s.info.heat - CooldownQuant(rd.ratio) > 0.0
    ensures Advance(s, rd, enable) == UnitState(s.info.(heat := s.info.heat - CooldownQuant(rd.ratio)), s.act)
  {
  }

  /**
   * An overheated thruster ignores the gate while it cools: as long as n
   * cooldown steps leave heat above 0 it stays Overheat with its actuation,
   * damage effect included, untouched.
   */
  lemma {:induction false} OverheatRun(s: UnitState, rd: Reading, enable: bool, n: nat)
    requires s.info.mode == Overheat && ValidRatio(rd.ratio)
    requires s.info.heat - Times(n, CooldownQuant(rd.ratio)) > 0.0
    ensures Run(s, rd, enable, n) ==
            UnitState(s.info.(heat := s.info.heat - Times(n, CooldownQuant(rd.ratio))), s.act)
    decreases n
  {
    var q := CooldownQuant(rd.ratio);
    if n == 0 {
      assert Times(n, q) == 0.0;
    } else {
      StepsSplit(n, q);
      var s1 := UnitState(s.info.(heat := s.info.heat - q), s.act);
      OverheatStaysHot(s, rd, enable);
      assert s1.info.heat - Times(n - 1, q) > 0.0;
      OverheatRun(s1, rd, enable, n - 1);
    }
  }
}
