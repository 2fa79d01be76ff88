/**
 * The session component: it tracks the grid of the cockpit the player
 * controls, the thrusters on that grid and the record map, and runs the
 * two-pass tick that drives every thruster and the notification.
 */
module Controller {
  import opened UnitSpec
  import opened UnitMachine
  import Fleet
  import StatusText

  /** A block of a grid: a thruster or something else. */
  datatype Block = ThrustBlock(thruster: Thruster) | OtherBlock

  /** A grid; the host owns its blocks and changes them. */
  class Grid {
    var blocks: seq<Block>

    constructor (blocks: seq<Block>)
      ensures this.blocks == blocks
    {
      this.blocks := blocks;
    }
  }

  /** GetBlocks filtered to thrusters, in block order. */
  function ThrustersOf(blocks: seq<Block>): (ts: seq<Thruster>)
    ensures |ts| <= |blocks|
    ensures forall i :: 0 <= i < |ts| ==> ThrustBlock(ts[i]) in blocks
    ensures forall i :: 0 <= i < |blocks| && blocks[i].ThrustBlock? ==> blocks[i].thruster in ts
    decreases |blocks|
  {
    if blocks == [] then []
    else
      var rest := ThrustersOf(blocks[..|blocks| - 1]);
      assert blocks == blocks[..|blocks| - 1] + [blocks[|blocks| - 1]];
      match blocks[|blocks| - 1]
      case ThrustBlock(t) => rest + [t]
      case OtherBlock => rest
  }

  predicate DistinctThrusterIds(ts: seq<Thruster>) {
    forall i, j :: 0 <= i < j < |ts| ==> ts[i].id != ts[j].id
  }

  /** The thrusters as one tick sees them. */
  function Snapshot(ts: seq<Thruster>): (us: seq<Fleet.Unit>)
    reads set t | t in ts
    ensures |us| == |ts|
    ensures forall i :: 0 <= i < |ts| ==> us[i] == Fleet.Unit(ts[i].id, ts[i].Sensed(), ts[i].Act())
    decreases |ts|
  {
    if ts == [] then []
    else
      var t := ts[|ts| - 1];
      Snapshot(ts[..|ts| - 1]) + [Fleet.Unit(t.id, t.Sensed(), t.Act())]
  }

  class ThrustBoost {
    var grid: Grid?
    var thrusters: seq<Thruster>
    var boostInfo: map<int, BoostInfo>
    var hintShown: bool
    var notificationVisible: bool
    var notificationText: string

    /**
     * Without a grid nothing is tracked; thruster ids are distinct; every
     * stored heat is within [0, MaxHeat].
     */
    ghost predicate Valid()
      reads this
    {
      (grid == null ==> thrusters == [] && boostInfo == map[]) &&
      DistinctThrusterIds(thrusters) &&
      Fleet.RecordsInRange(boostInfo)
    }

    constructor ()
      ensures Valid() && grid == null && thrusters == [] && boostInfo == map[]
      ensures !hintShown && !notificationVisible && notificationText == ""
    {
      grid := null;
      thrusters := [];
      boostInfo := map[];
      hintShown := false;
      notificationVisible := false;
      notificationText := "";
    }

    /** The tracked thrusters as the tick sees them. */
    function Units(): seq<Fleet.Unit>
      reads this, set t | t in thrusters
    {
      Snapshot(thrusters)
    }

    /** The mode of a thruster's record, Normal on a miss; the map is only read. */
    method ReadThrusterState(t: Thruster) returns (mode: Mode)
      ensures t.id in boostInfo ==> mode == boostInfo[t.id].mode
      ensures t.id !in boostInfo ==> mode == Normal
    {
      var info: BoostInfo;
      if t.id in boostInfo {
        info := boostInfo[t.id];
      } else {
        info := FreshInfo;
      }
      mode := info.mode;
    }

    /**
     * Advances one thruster by its record's mode, stores the new record
     * under the thruster's id and returns its heat and mode.
     */
    method UpdateThruster(t: Thruster, enable: bool) returns (heat: real, mode: Mode)
      modifies this`boostInfo, t
      ensures var s := Fleet.Next(old(boostInfo), Fleet.Unit(t.id, old(t.Sensed()), old(t.Act())), enable);
              boostInfo == old(boostInfo)[t.id := s.info] && t.Act() == s.act &&
              heat == s.info.heat && mode == s.info.mode
      ensures t.Sensed() == old(t.Sensed())
    {
      var info: BoostInfo;
      if t.id in boostInfo {
        info := boostInfo[t.id];
      } else {
        info := FreshInfo;
      }

      match info.mode {
        case Boost =>
          info := UpdateThrusterBoostMode(t, enable, info);
        case Overheat =>
          info := UpdateThrusterOverheatMode(t, enable, info);
        case Normal =>
          info := UpdateThrusterNormalMode(t, enable, info);
      }

      boostInfo := boostInfo[t.id := info];
      heat := info.heat;
      mode := info.mode;
    }

    /** First pass of a tick: whether some tracked thruster's record is in Overheat. */
    method AnyOverheated() returns (hasOverheat: bool)
      ensures hasOverheat == Fleet.AnyOverheat(boostInfo, Units())
    {
      ghost var units := Units();
      hasOverheat := false;
      var i := 0;
      while i < |thrusters|
        invariant 0 <= i <= |thrusters|
        invariant hasOverheat == Fleet.AnyOverheat(boostInfo, units[..i])
      {
        var thrusterMode := ReadThrusterState(thrusters[i]);
        assert units[..i + 1][..i] == units[..i];
        hasOverheat := hasOverheat || thrusterMode == Overheat;
        i := i + 1;
      }
      assert units[..i] == units;
    }

    /**
     * The second pass has handled the first i thrusters: the records and the
     * folded heat and overheat flag are those of the pass over them, they
     * carry their new actuation and the others are as they were.
     */
    ghost predicate PassedUpTo(m0: Fleet.Records, units: seq<Fleet.Unit>, i: nat, gate: bool,
                               heatLevel: real, hasOverheat: bool)
      reads this, set t | t in thrusters
    {
      i <= |thrusters| == |units| &&
      var p := Fleet.PassUpTo(m0, units, i, gate);
      boostInfo == p.records && heatLevel == p.peak && hasOverheat == p.overheat &&
      (forall j :: 0 <= j < |thrusters| ==> thrusters[j].id == units[j].id) &&
      (forall j :: 0 <= j < |thrusters| ==> thrusters[j].Sensed() == units[j].reading) &&
      (forall j :: 0 <= j < i ==> thrusters[j].Act() == p.acts[j]) &&
      (forall j :: i <= j < |thrusters| ==> thrusters[j].Act() == units[j].act)
    }

    /** One iteration of the second pass: UpdateThruster on thruster i and the fold. */
    method AdvanceOne(ghost m0: Fleet.Records, ghost units: seq<Fleet.Unit>, i: nat, enableBoost: bool,
                      heatLevel: real, hasOverheat: bool)
      returns (heatLevel': real, hasOverheat': bool)
      requires DistinctThrusterIds(thrusters) && i < |thrusters|
      requires PassedUpTo(m0, units, i, enableBoost, heatLevel, hasOverheat)
      modifies this`boostInfo, thrusters[i]
      ensures PassedUpTo(m0, units, i + 1, enableBoost, heatLevel', hasOverheat')
    {
      var t := thrusters[i];
      ghost var before := Fleet.PassUpTo(m0, units, i, enableBoost);
      label Pre:
      var thrusterHeat, thrusterMode := UpdateThruster(t, enableBoost);
      ghost var after := Fleet.PassUpTo(m0, units, i + 1, enableBoost);
      assert after.acts == before.acts + [t.Act()];
      forall j | 0 <= j < |thrusters| && j != i
        ensures thrusters[j].Act() == old@Pre(thrusters[j].Act())
        ensures thrusters[j].Sensed() == old@Pre(thrusters[j].Sensed())
      {
        assert thrusters[j].id != t.id;
      }
      heatLevel', hasOverheat' := heatLevel, hasOverheat;
      if heatLevel' < thrusterHeat {
        heatLevel' := thrusterHeat;
      }
      hasOverheat' := hasOverheat' || thrusterMode == Overheat;
    }

    /**
     * Second pass of a tick: UpdateThruster on every tracked thruster in
     * order with the same gate, folding the peak heat and whether any
     * thruster ends the tick overheated.
     */
    method AdvanceAll(enableBoost: bool) returns (heatLevel: real, hasOverheat: bool)
      requires DistinctThrusterIds(thrusters)
      modifies this`boostInfo, set t | t in thrusters
      ensures var p := Fleet.Pass(old(boostInfo), old(Units()), enableBoost);
              boostInfo == p.records && heatLevel == p.peak && hasOverheat == p.overheat &&
              forall j :: 0 <= j < |thrusters| ==> thrusters[j].Act() == p.acts[j]
      ensures forall j :: 0 <= j < |thrusters| ==> thrusters[j].Sensed() == old(thrusters[j].Sensed())
    {
      ghost var m0 := boostInfo;
      ghost var units := Units();
      heatLevel := 0.0;
      hasOverheat := false;
      var i := 0;
      while i < |thrusters|
        invariant PassedUpTo(m0, units, i, enableBoost, heatLevel, hasOverheat)
      {
        heatLevel, hasOverheat := AdvanceOne(m0, units, i, enableBoost, heatLevel, hasOverheat);
        i := i + 1;
      }
    }

    /**
     * One simulation tick. shift is whether a shift key is held. Nothing
     * happens without a grid or without thrusters; otherwise the boost gate
     * is computed from the records before the tick, every thruster is
     * advanced with it, and the notification is shown with the rendered
     * text or hidden.
     */
    method UpdateBeforeSimulation(shift: bool)
      requires Valid()
      requires forall i :: 0 <= i < |thrusters| ==> ValidRatio(thrusters[i].ratio)
      modifies this`boostInfo, this`notificationVisible, this`notificationText, set t | t in thrusters
      ensures Valid()
      ensures forall i :: 0 <= i < |thrusters| ==> thrusters[i].Sensed() == old(thrusters[i].Sensed())
      ensures old(grid) == null || old(thrusters) == [] ==>
                boostInfo == old(boostInfo) &&
                notificationVisible == old(notificationVisible) && notificationText == old(notificationText)
      ensures old(grid) != null && old(thrusters) != [] ==>
                var gate := Fleet.Gate(shift, old(boostInfo), old(Units()));
                var p := Fleet.Pass(old(boostInfo), old(Units()), gate);
                boostInfo == p.records &&
                (forall i :: 0 <= i < |thrusters| ==> thrusters[i].Act() == p.acts[i]) &&
                notificationVisible == Fleet.Shown(gate, p) &&
                notificationText == if Fleet.Shown(gate, p) then Fleet.Text(gate, p) else old(notificationText)
    {
      if grid == null || |thrusters| == 0 {
        return;
      }
      ghost var units := Units();
      ghost var m0 := boostInfo;
      assert Fleet.ValidReadings(units);

      var hasOverheat := AnyOverheated();
      Fleet.PassInRange(m0, units, |units|, shift && !hasOverheat);
      var enableBoost := shift && !hasOverheat;
      assert enableBoost == Fleet.Gate(shift, m0, units);
      ghost var p := Fleet.Pass(m0, units, enableBoost);

      var heatLevel;
      heatLevel, hasOverheat := AdvanceAll(enableBoost);
      assert heatLevel == p.peak && hasOverheat == p.overheat;

      Notify(enableBoost, heatLevel, hasOverheat);
    }

    /**
     * The end of a tick: the notification is shown with the rendered text
     * when boost is enabled or some thruster is warm, and hidden otherwise.
     */
    method Notify(enableBoost: bool, heatLevel: real, hasOverheat: bool)
      modifies this`notificationVisible, this`notificationText
      ensures notificationVisible == (enableBoost || heatLevel > 0.0)
      ensures notificationText ==
              if notificationVisible then StatusText.Message(Fleet.Percent(heatLevel), hasOverheat, enableBoost)
              else old(notificationText)
    {
      if enableBoost || heatLevel > 0.0 {
        var progress := 100.0 * heatLevel / MaxHeat;
        notificationText := StatusText.RenderMessage(progress, hasOverheat, enableBoost);
        notificationVisible := true;
      } else {
        notificationVisible := false;
      }
    }

    /** Rebuilds the thruster list from the grid's blocks; the record map is left as it is. */
    method UpdateThrusters()
      requires Valid() && grid != null && DistinctThrusterIds(ThrustersOf(grid.blocks))
      modifies this`thrusters
      ensures Valid() && thrusters == ThrustersOf(grid.blocks)
    {
      thrusters := [];
      var blocks := grid.blocks;
      var i := 0;
      while i < |blocks|
        invariant 0 <= i <= |blocks|
        invariant thrusters == ThrustersOf(blocks[..i])
      {
        assert blocks[..i + 1][..i] == blocks[..i];
        match blocks[i] {
          case ThrustBlock(t) =>
            thrusters := thrusters + [t];
          case OtherBlock =>
        }
        i := i + 1;
      }
      assert blocks[..i] == blocks;
    }

    /** The player now controls entity's grid, or no grid when entity is null. */
    method ControlledEntityChanged(entity: Grid?)
      requires Valid()
      requires entity != null ==> DistinctThrusterIds(ThrustersOf(entity.blocks))
      modifies this`grid, this`thrusters, this`boostInfo, this`hintShown
      ensures Valid() && grid == entity
      ensures entity == null ==> thrusters == [] && boostInfo == map[] && hintShown == old(hintShown)
      ensures entity != null ==> thrusters == ThrustersOf(entity.blocks) && boostInfo == old(boostInfo) && hintShown
    {
      grid := entity;
      if grid == null {
        thrusters := [];
        boostInfo := map[];
        return;
      }

      UpdateThrusters();

      if !hintShown {
        hintShown := true;
      }
    }

    /** A block was added to the tracked grid. */
    method OnBlockAdded()
      requires Valid() && grid != null && DistinctThrusterIds(ThrustersOf(grid.blocks))
      modifies this`thrusters
      ensures Valid() && thrusters == ThrustersOf(grid.blocks)
    {
      UpdateThrusters();
    }

    /** A block was removed from the tracked grid. */
    method OnBlockRemoved()
      requires Valid() && grid != null && DistinctThrusterIds(ThrustersOf(grid.blocks))
      modifies this`thrusters
      ensures Valid() && thrusters == ThrustersOf(grid.blocks)
    {
      UpdateThrusters();
    }
  }
}
