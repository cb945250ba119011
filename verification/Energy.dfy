/** Energy held by units and bases, and the sums the energy account needs. */
module Energy {
  import opened Common
  import opened GameRules
  import opened TileCodec
  import opened TileMap
  import opened Sums
  import opened Placement
  import opened Flight
  import opened BulletPass
  import opened UnitMoves

  ghost function Energies(units: seq<Unit>): seq<nat> {
    seq(|units|, i requires 0 <= i < |units| => units[i].energy)
  }

  /** All energy on the board. */
  ghost function Held(units: seq<Unit>, players: seq<Player>): nat
    requires |players| == 2
  {
    Sum(Energies(units)) + players[0].baseEnergy + players[1].baseEnergy
  }

  /** No unit carries more than its capacity or is healthier than allowed. */
  ghost predicate WithinLimits(rules: Rules, units: seq<Unit>) {
    forall i :: 0 <= i < |units| ==>
      units[i].energy <= units[i].MaxCapacity(rules) && units[i].health <= rules.unitHealth
  }

  /** Units collect natural energy in every tick divisible by the rate. */
  predicate NaturalTick(rules: Rules, tick: u32) {
    rules.naturalEnergyRate != 0 && tick % rules.naturalEnergyRate == 0
  }

  /** What a unit standing at c collects. */
  function Gain(board: TileMap, rules: Rules, natural: bool, c: Cell): nat {
    (if natural then 1 else 0)
    + (if board.WellFormed() && board.InBounds(c) && board.At(c).isResource then rules.resourceZoneEnergyRate else 0)
  }

  /** The unit after collecting: capped at its capacity, after the sum has been
      narrowed to 16 bits as the source does. */
  function Charged(board: TileMap, rules: Rules, natural: bool, u: Unit): Unit {
    u.(energy := Min((u.energy + Gain(board, rules, natural, u.at)) % 0x1_0000, u.MaxCapacity(rules)))
  }

  /** What is lost of a sum that goes into a purse of 16 bits and the given capacity:
      what the capacity does not hold, or all that wraps around. */
  function Spilled(sum: nat, cap: u16): nat {
    if sum < 0x1_0000 then (if sum > cap then sum - cap else 0) else sum - Min(sum % 0x1_0000, cap)
  }

  function ChargeLoss(board: TileMap, rules: Rules, natural: bool, u: Unit): nat {
    Spilled(u.energy + Gain(board, rules, natural, u.at), u.MaxCapacity(rules))
  }

  function ChargeAll(board: TileMap, rules: Rules, natural: bool, units: seq<Unit>): seq<Unit> {
    seq(|units|, i requires 0 <= i < |units| => Charged(board, rules, natural, units[i]))
  }

  /** What all units together collect. */
  ghost function TotalGain(board: TileMap, rules: Rules, natural: bool, units: seq<Unit>): nat {
    if units == [] then 0
    else TotalGain(board, rules, natural, units[..|units| - 1]) + Gain(board, rules, natural, units[|units| - 1].at)
  }

  /** What all together lose of it. */
  ghost function TotalLoss(board: TileMap, rules: Rules, natural: bool, units: seq<Unit>): nat {
    if units == [] then 0
    else TotalLoss(board, rules, natural, units[..|units| - 1]) + ChargeLoss(board, rules, natural, units[|units| - 1])
  }

  lemma LossOneMore(board: TileMap, rules: Rules, natural: bool, units: seq<Unit>, i: nat)
    requires i < |units|
    ensures TotalLoss(board, rules, natural, units[..i + 1])
         == TotalLoss(board, rules, natural, units[..i]) + ChargeLoss(board, rules, natural, units[i])
  {
    assert units[..i + 1][..i] == units[..i];
  }

  lemma GainOneMore(board: TileMap, rules: Rules, natural: bool, units: seq<Unit>, i: nat)
    requires i < |units|
    ensures TotalGain(board, rules, natural, units[..i + 1])
         == TotalGain(board, rules, natural, units[..i]) + Gain(board, rules, natural, units[i].at)
  {
    assert units[..i + 1][..i] == units[..i];
  }

  /** The units from index i on have yet to collect. */
  ghost function ChargeFrom(board: TileMap, rules: Rules, natural: bool, units: seq<Unit>, i: nat): seq<Unit>
    requires i <= |units|
  {
    units[..i] + ChargeAll(board, rules, natural, units[i..])
  }

  lemma ChargeOneMore(board: TileMap, rules: Rules, natural: bool, units: seq<Unit>, i: nat)
    requires i < |units|
    ensures ChargeFrom(board, rules, natural, units, i)
            == ChargeFrom(board, rules, natural, units[i := Charged(board, rules, natural, units[i])], i + 1)
  {
  }

  lemma ChargeFromEnds(board: TileMap, rules: Rules, natural: bool, after: seq<Unit>, before: seq<Unit>)
    ensures ChargeFrom(board, rules, natural, after, |after|) == after
    ensures ChargeFrom(board, rules, natural, before, 0) == ChargeAll(board, rules, natural, before)
  {
    assert before[0..] == before;
  }

  lemma ChargeIsBounded(board: TileMap, rules: Rules, natural: bool, u: Unit)
    ensures Charged(board, rules, natural, u).energy <= u.MaxCapacity(rules)
    ensures Charged(board, rules, natural, u).energy + ChargeLoss(board, rules, natural, u)
         == u.energy + Gain(board, rules, natural, u.at)
  {
  }

  /** A unit is filled up to its capacity exactly when the sum does not wrap around
      to something smaller; a capacity of at most 65535 - 256 rules that out. */
  lemma ChargeSaturates(board: TileMap, rules: Rules, natural: bool, u: Unit)
    ensures var sum, cap := u.energy + Gain(board, rules, natural, u.at), u.MaxCapacity(rules);
            Charged(board, rules, natural, u).energy == Min(sum, cap) <==> sum < 0x1_0000 || cap <= sum - 0x1_0000
    ensures u.energy <= u.MaxCapacity(rules) && u.MaxCapacity(rules) + 256 < 0x1_0000 ==>
              Charged(board, rules, natural, u).energy
              == Min(u.energy + Gain(board, rules, natural, u.at), u.MaxCapacity(rules))
  {
  }

  /** A full unit with the largest capacity is emptied by the next unit of energy. */
  lemma FullUnitIsEmptied(board: TileMap, rules: Rules, u: Unit)
    requires u.MaxCapacity(rules) == u.energy == 65535 && Gain(board, rules, true, u.at) == 1
    ensures Charged(board, rules, true, u).energy == 0
  {
    assert (65535 + 1) % 0x1_0000 == 0;
  }

  lemma EnergyUpdate(units: seq<Unit>, i: nat, u: Unit)
    requires i < |units|
    ensures Sum(Energies(units[i := u])) + units[i].energy == Sum(Energies(units)) + u.energy
  {
    SumOneChange(Energies(units), Energies(units[i := u]), i);
  }

  lemma EnergyAppend(units: seq<Unit>, u: Unit)
    ensures Sum(Energies(units + [u])) == Sum(Energies(units)) + u.energy
  {
    assert Energies(units + [u]) == Energies(units) + [u.energy];
    SumAppend(Energies(units), u.energy);
  }

  lemma SameEnergiesSameSum(a: seq<Unit>, b: seq<Unit>)
    requires |a| == |b| && forall i :: 0 <= i < |a| ==> a[i].energy == b[i].energy
    ensures Sum(Energies(a)) == Sum(Energies(b))
  {
    assert Energies(a) == Energies(b);
  }

  /** What the dead carried. */
  ghost function DeadEnergy(units: seq<Unit>): nat {
    if units == [] then 0
    else (if units[0].health == 0 then units[0].energy else 0) + DeadEnergy(units[1..])
  }

  /** The dead take their energy with them, and the living keep theirs. */
  lemma {:induction false} DeadTakeTheirs(units: seq<Unit>)
    ensures Sum(Energies(Live(units))) + DeadEnergy(units) == Sum(Energies(units))
  {
    if units != [] {
      DeadTakeTheirs(units[1..]);
      assert Energies(units)[1..] == Energies(units[1..]);
      if units[0].health > 0 {
        assert Live(units) == [units[0]] + Live(units[1..]);
        assert Energies(Live(units))[1..] == Energies(Live(units[1..]));
      } else {
        assert Live(units) == Live(units[1..]);
      }
    }
  }

  // ---- Upgrades (src/world.cpp:696-736) ----

  function UpgradeCost(rules: Rules, kind: u8): u16 {
    if kind == 0 then rules.capacityUpgradeCost else if kind == 1 then rules.visionUpgradeCost else rules.damageUpgradeCost
  }

  function Has(u: Upgrades, kind: u8): bool {
    if kind == 0 then u.capacity else if kind == 1 then u.vision else u.damage
  }

  function With(u: Upgrades, kind: u8): Upgrades {
    if kind == 0 then u.(capacity := true) else if kind == 1 then u.(vision := true) else u.(damage := true)
  }

  // ---- A whole round of movement ----

  /** f before the bullet pass, g after it, c after the dead are removed, h after
      the units have moved. */
  ghost predicate Carried(f: Field, g: Field, c: Field, h: Field) {
    && |f.players| == 2 && |h.players| == 2
    && SamePurses(f, g) && |g.units| == |f.units|
    && (forall i :: 0 <= i < |f.units| ==> SameBody(f.units[i], g.units[i]))
    && DeadRemoved(g, c) && h.players == c.players && |h.units| == |c.units|
    && (forall i :: 0 <= i < |c.units| ==> h.units[i] == c.units[i].(at := h.units[i].at, pendingMove := None))
  }

  lemma MovesKeepLimits(rules: Rules, f: Field, g: Field, c: Field, h: Field)
    requires Carried(f, g, c, h) && WithinLimits(rules, f.units)
    ensures WithinLimits(rules, h.units)
  {
    LiveKeeps(g.units);
    forall i | 0 <= i < |h.units|
      ensures h.units[i].energy <= h.units[i].MaxCapacity(rules) && h.units[i].health <= rules.unitHealth
    {
      assert c.units[i] in g.units;
      var j :| 0 <= j < |g.units| && g.units[j] == c.units[i];
      assert SameBody(f.units[j], g.units[j]);
    }
  }

  lemma MovesKeepAccount(f: Field, g: Field, c: Field, h: Field)
    requires Carried(f, g, c, h)
    ensures Held(h.units, h.players) + DeadEnergy(g.units) == Held(f.units, f.players)
  {
    SameEnergiesSameSum(f.units, g.units);
    DeadTakeTheirs(g.units);
    SameEnergiesSameSum(c.units, h.units);
  }
}
