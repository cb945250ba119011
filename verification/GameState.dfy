/**
 The state of a game between steps, what always holds of it, and why each kind of
 change keeps it so. Energy is accounted for: what is held, what was spent and what
 was lost is what was collected.
 */
module GameState {
  import opened Common
  import opened GameRules
  import opened TileMap
  import opened Placement
  import opened Flight
  import opened BulletPass
  import opened BulletBound
  import opened UnitMoves
  import opened Counting
  import opened Energy
  import C = Capture

  /** gained and spent are the energy ever collected by units and ever paid for
      actions, lost what full units and bases could not hold and what died with units;
      events are the capture checks and referee draws so far. */
  datatype State = State(board: TileMap, rules: Rules, now: Field, verdict: C.Verdict,
                         gained: nat, spent: nat, lost: nat, events: seq<C.Event>)

  ghost predicate Valid(s: State) {
    !Invalid(s)
  }

  ghost predicate Invalid(s: State) {
    || !FieldOk(s.board, s.now) || !AllLive(s.now.units)
    || !SetUpWell(s) || !WithinLimits(s.rules, s.now.units) || !AccountOk(s) || !CaptureOk(s)
    || !Thinned(s.board, s.now.bullets)
  }

  /** The rules are valid, describe the board, and both bases lie on it. */
  ghost predicate SetUpWell(s: State) {
    && s.rules.Validate()
    && s.rules.width == s.board.width && s.rules.height == s.board.height && s.rules.baseSize == s.board.baseSize
    && |s.now.players| == 2
    && BaseInside(s.board, s.now.players[0].base) && BaseInside(s.board, s.now.players[1].base)
  }

  predicate BaseInside(board: TileMap, base: Cell) {
    0 <= base.x && base.x + board.baseSize <= board.width && 0 <= base.y && base.y + board.baseSize <= board.height
  }

  /** isInBase: the square of side baseSize at the base's corner. */
  predicate InBase(board: TileMap, c: Cell, base: Cell) {
    InSquare(c, base, board.baseSize)
  }

  ghost predicate AccountOk(s: State) {
    |s.now.players| == 2 && Held(s.now.units, s.now.players) + s.spent + s.lost == s.gained
  }

  ghost predicate CaptureOk(s: State) {
    && |s.now.players| == 2 && s.rules.captureTurnThreshold >= 1
    && C.Counters(s.now.players[0].captureCounter, s.now.players[1].captureCounter, s.verdict)
       == C.AfterAll(s.events, s.rules.captureTurnThreshold)
  }

  lemma Parts(s: State)
    requires Valid(s)
    ensures FieldOk(s.board, s.now) && AllLive(s.now.units)
    ensures SetUpWell(s) && WithinLimits(s.rules, s.now.units) && AccountOk(s) && CaptureOk(s)
    ensures |s.now.players| == 2 && RosterShape(s.now.players) && Thinned(s.board, s.now.bullets)
  {
  }

  // ---- Bullets and movement ----

  /** From s, the bullet pass, the removal of the dead and the movement step lead
      to the field after. */
  ghost predicate Moved(s: State, flown: Field, cleared: Field, after: Field) {
    && FieldOk(s.board, s.now) && Pass(s.board, s.rules, s.now) == Some(flown)
    && DeadRemoved(flown, cleared) && FieldOk(s.board, cleared) && AllLive(cleared.units)
    && Relocated(s.board, cleared, after)
  }

  /** The state after the moves; the units that died are gone with what they carried. */
  ghost function AfterMoves(s: State, flown: Field, after: Field): State {
    s.(now := after, lost := s.lost + DeadEnergy(flown.units))
  }

  lemma MovingKeepsValid(s: State, flown: Field, cleared: Field, after: Field)
    requires Valid(s) && Moved(s, flown, cleared, after)
    ensures Valid(AfterMoves(s, flown, after))
  {
    hide Disagrees, Thinned, Pass, UnitsPlaced, BulletsPlaced, RosterOk;
    Parts(s);
    AtMostFifteenEach(s);
    PassKeepsThinned(s.board, s.rules, s.now);
    PassKeepsBodies(s.board, s.rules, s.now);
    RelocationKeepsField(s.board, cleared, after);
    MovesKeepLimits(s.rules, s.now, flown, cleared, after);
    MovesKeepAccount(s.now, flown, cleared, after);
  }

  // ---- Capture ----

  /** Live units standing in the base at `base`: those of player pid if own, the
      others otherwise. */
  ghost function CountIn(board: TileMap, us: seq<Unit>, base: Cell, pid: u8, own: bool): nat {
    if us == [] then 0
    else
      var u := us[|us| - 1];
      CountIn(board, us[..|us| - 1], base, pid, own)
      + if u.health > 0 && InBase(board, u.at, base) && (u.key.playerId == pid) == own then 1 else 0
  }

  /** More enemies than own units in the base of player pid. */
  ghost predicate InCaptureCondition(board: TileMap, us: seq<Unit>, base: Cell, pid: u8) {
    CountIn(board, us, base, pid, false) > CountIn(board, us, base, pid, true)
  }

  lemma EventKeepsValid(s: State, e: C.Event)
    requires Valid(s)
    ensures |s.now.players| == 2 && s.rules.captureTurnThreshold >= 1
    ensures Valid(AfterEvent(s, e))
  {
    Parts(s);
    C.AfterOneMore(s.events, e, s.rules.captureTurnThreshold);
    PurseChangeKeepsField(s.board, s.now, AfterEvent(s, e).now);
  }

  /** The state after one capture check or referee draw. */
  ghost function AfterEvent(s: State, e: C.Event): State
    requires |s.now.players| == 2 && s.rules.captureTurnThreshold >= 1
  {
    var p, q := s.now.players[0], s.now.players[1];
    var c := C.After(C.Counters(p.captureCounter, q.captureCounter, s.verdict), e, s.rules.captureTurnThreshold);
    s.(now := s.now.(players := [p.(captureCounter := c.one), q.(captureCounter := c.two)]),
       verdict := c.verdict, events := s.events + [e])
  }

  // ---- Units and purses ----

  /** Unit i becomes u where it stands; the energy account must cover it. */
  lemma RefitKeepsValid(s: State, i: nat, u: Unit, gain: nat, cost: nat, loss: nat)
    requires Valid(s) && i < |s.now.units|
    requires u.key == s.now.units[i].key && u.at == s.now.units[i].at && u.health > 0
    requires u.energy <= u.MaxCapacity(s.rules) && u.health <= s.rules.unitHealth
    requires u.energy + cost + loss == s.now.units[i].energy + gain
    ensures Valid(s.(now := s.now.(units := s.now.units[i := u]), gained := s.gained + gain, spent := s.spent + cost,
                     lost := s.lost + loss))
  {
    hide Disagrees, Thinned;
    Parts(s);
    EnergyUpdate(s.now.units, i, u);
    RefitKeepsField(s.board, s.now, i, u);
  }

  /** Energy moves between unit i and the purse of player p, perhaps losing some. */
  lemma TransferKeepsValid(s: State, i: nat, e: u16, p: nat, purse: u16, loss: nat)
    requires Valid(s) && i < |s.now.units| && p < 2 && |s.now.players| == 2
    requires e <= s.now.units[i].MaxCapacity(s.rules)
    requires e + purse + loss == s.now.units[i].energy + s.now.players[p].baseEnergy
    ensures Valid(s.(now := s.now.(units := s.now.units[i := s.now.units[i].(energy := e)],
                                   players := s.now.players[p := s.now.players[p].(baseEnergy := purse)]),
                     lost := s.lost + loss))
  {
    hide Disagrees, Thinned;
    Parts(s);
    var u := s.now.units[i].(energy := e);
    EnergyUpdate(s.now.units, i, u);
    RefitKeepsField(s.board, s.now, i, u);
    var refit := s.now.(units := s.now.units[i := u]);
    PurseChangeKeepsField(s.board, refit, refit.(players := s.now.players[p := s.now.players[p].(baseEnergy := purse)]));
  }

  lemma PayingKeepsValid(s: State, p: nat, cost: nat)
    requires Valid(s) && p < 2 && |s.now.players| == 2 && cost <= s.now.players[p].baseEnergy
    ensures Valid(s.(now := s.now.(players := s.now.players[p := Paid(s.now.players[p], cost)]), spent := s.spent + cost))
  {
    hide Disagrees, Thinned;
    Parts(s);
    PurseChangeKeepsField(s.board, s.now, s.now.(players := s.now.players[p := Paid(s.now.players[p], cost)]));
  }

  function Paid(p: Player, cost: nat): Player
    requires cost <= p.baseEnergy
  {
    p.(baseEnergy := p.baseEnergy - cost)
  }

  lemma SpawningKeepsValid(s: State, key: UnitKey, at: Cell)
    requires Valid(s) && ValidKey(key) && UnitIndex(s.now.units, key) == |s.now.units|
    requires s.board.InBounds(at) && at !in s.now.occ && RosterShape(s.now.players)
    ensures Valid(s.(now := Spawned(s.now, NewUnit(s.rules, key, at))))
  {
    hide Disagrees, Thinned;
    Parts(s);
    SpawnKeepsField(s.board, s.now, NewUnit(s.rules, key, at));
    EnergyAppend(s.now.units, NewUnit(s.rules, key, at));
  }

  // ---- What holds in every valid state ----

  ghost function UnitsOf(units: seq<Unit>, pid: u8): nat {
    if units == [] then 0
    else UnitsOf(units[..|units| - 1], pid) + if units[|units| - 1].key.playerId == pid then 1 else 0
  }

  ghost function IdsOf(units: seq<Unit>, pid: u8): set<int> {
    set i | 0 <= i < |units| && units[i].key.playerId == pid :: units[i].key.id as int
  }

  lemma IdsOneMore(units: seq<Unit>, u: Unit, pid: u8)
    requires DistinctKeys(units + [u])
    ensures IdsOf(units + [u], pid) == IdsOf(units, pid) + (if u.key.playerId == pid then {u.key.id as int} else {})
    ensures DistinctKeys(units) && (u.key.playerId == pid ==> u.key.id as int !in IdsOf(units, pid))
  {
    var more := units + [u];
    assert forall i :: 0 <= i < |units| ==> more[i] == units[i];
    assert more[|units|] == u;
  }

  lemma {:induction false} IdsCountUnits(units: seq<Unit>, pid: u8)
    requires DistinctKeys(units)
    ensures |IdsOf(units, pid)| == UnitsOf(units, pid)
  {
    hide DistinctKeys;
    if units != [] {
      var init, u := units[..|units| - 1], units[|units| - 1];
      assert units == init + [u];
      IdsOneMore(init, u, pid);
      IdsCountUnits(init, pid);
    }
  }

  lemma {:induction false} EveryUnitIsSomeones(units: seq<Unit>)
    requires forall i :: 0 <= i < |units| ==> ValidKey(units[i].key)
    ensures |units| == UnitsOf(units, 1) + UnitsOf(units, 2)
  {
    if units != [] {
      EveryUnitIsSomeones(units[..|units| - 1]);
    }
  }

  /** A player never owns more than 15 units, so a frame holds at most 30. */
  lemma AtMostFifteenEach(s: State)
    requires Valid(s)
    ensures UnitsOf(s.now.units, 1) <= MAX_UNITS && UnitsOf(s.now.units, 2) <= MAX_UNITS
    ensures |s.now.units| <= 2 * MAX_UNITS
  {
    Parts(s);
    var units := s.now.units;
    assert DistinctKeys(units);
    EveryUnitIsSomeones(units);
    IdsCountUnits(units, 1);
    IdsCountUnits(units, 2);
    UpToSize(MAX_UNITS);
    SubsetIsSmaller(IdsOf(units, 1), UpTo(MAX_UNITS));
    SubsetIsSmaller(IdsOf(units, 2), UpTo(MAX_UNITS));
  }

  /** Units and flying bullets are each alone on a tile of the board, and the tile
      of a unit names it. A tile names no unit that is not there. */
  ghost predicate EachAlone(s: State) {
    && (forall i, j :: 0 <= i < j < |s.now.units| ==> s.now.units[i].at != s.now.units[j].at)
    && (forall i, j :: 0 <= i < |s.now.units| && 0 <= j < |s.now.bullets| && s.now.bullets[j].damage > 0 ==>
          s.now.units[i].at != s.now.bullets[j].at)
    && (forall i, j :: 0 <= i < j < |s.now.bullets| && s.now.bullets[i].damage > 0 && s.now.bullets[j].damage > 0 ==>
          s.now.bullets[i].at != s.now.bullets[j].at)
    && (forall i :: 0 <= i < |s.now.units| ==>
          && s.board.InBounds(s.now.units[i].at)
          && Names(s.now.occ, s.now.units[i].at, ByUnit(s.now.units[i].key)))
    && (forall c :: c in s.now.occ && s.now.occ[c].ByUnit? ==>
          exists i :: 0 <= i < |s.now.units| && s.now.units[i].key == s.now.occ[c].key && s.now.units[i].at == c)
    && (forall i :: 0 <= i < |s.now.bullets| && s.now.bullets[i].damage > 0 ==>
          && s.board.WellFormed() && Clear(s.board, s.now.bullets[i].at)
          && Names(s.now.occ, s.now.bullets[i].at, ByBullet(s.now.bullets[i].serial)))
  }

  lemma OneToATile(s: State)
    requires Valid(s)
    ensures EachAlone(s)
  {
    Parts(s);
    LiveThingsAreApart(s.board, s.now);
  }

  /** A roster slot is taken exactly when the unit it stands for is on the board. */
  lemma RosterMirrorsUnits(s: State, key: UnitKey)
    requires Valid(s) && ValidKey(key)
    ensures RosterShape(s.now.players)
    ensures Slot(s.now.players, key) == if exists i :: 0 <= i < |s.now.units| && s.now.units[i].key == key then Some(key) else None
  {
    Parts(s);
    SlotMeansListed(s.board, s.now, key);
  }

  /** Energy and health bounds; all energy ever collected is held, spent or lost. */
  ghost predicate EnergyInOrder(s: State) {
    && (forall i :: 0 <= i < |s.now.units| ==>
          && s.now.units[i].energy <= s.now.units[i].MaxCapacity(s.rules)
          && 1 <= s.now.units[i].health <= s.rules.unitHealth)
    && |s.now.players| == 2 && Held(s.now.units, s.now.players) + s.spent + s.lost == s.gained
  }

  lemma EnergyIsBoundedAndConserved(s: State)
    requires Valid(s)
    ensures EnergyInOrder(s)
  {
    Parts(s);
  }

  /** What can be said of every state of every game. */
  ghost predicate InOrder(s: State) {
    && EachAlone(s) && EnergyInOrder(s)
    && UnitsOf(s.now.units, 1) <= MAX_UNITS && UnitsOf(s.now.units, 2) <= MAX_UNITS
    && |DropSpent(s.now.bullets)| <= LIMIT
  }

  lemma ValidIsInOrder(s: State)
    requires Valid(s)
    ensures InOrder(s)
  {
    hide Disagrees, Thinned, EachAlone, EnergyInOrder;
    Parts(s);
    OneToATile(s);
    EnergyIsBoundedAndConserved(s);
    AtMostFifteenEach(s);
    FewFly(s.board, s.now);
  }

  // ---- The start of a game ----

  const NO_UNITS: seq<Option<UnitKey>> :=
    [None, None, None, None, None, None, None, None, None, None, None, None, None, None, None]

  /** A game before any unit is placed. */
  ghost function Opening(board: TileMap, rules: Rules, base1: Cell, base2: Cell): State {
    State(board, rules,
          Field([], [], map[], [Player(base1, 0, NO_UNITS, 0), Player(base2, 0, NO_UNITS, 0)], 0),
          C.Ongoing, 0, 0, 0, [])
  }

  /** These are player pid's first units, in order, fresh and at their base. */
  ghost predicate Garrison(board: TileMap, rules: Rules, placed: seq<Unit>, pid: u8, base: Cell) {
    |placed| <= MAX_UNITS
    && forall n :: 0 <= n < |placed| ==> FreshAtBase(board, rules, placed[n], UnitKey(pid, n + 1), base)
  }

  ghost predicate FreshAtBase(board: TileMap, rules: Rules, u: Unit, key: UnitKey, base: Cell) {
    u == NewUnit(rules, key, u.at) && InBase(board, u.at, base)
  }

  /** Part of a garrison has been placed, on the taken cells of its base. */
  ghost predicate Placing(board: TileMap, rules: Rules, before: Field, now: Field, pid: u8, base: Cell,
                          placed: seq<Unit>, taken: set<Cell>)
  {
    && now.units == before.units + placed && |taken| <= |placed|
    && Garrison(board, rules, placed, pid, base)
    && (forall c :: c in now.occ ==> c in before.occ || c in taken)
    && (forall c :: c in taken ==> InBase(board, c, base))
    && SamePurses(before, now)
  }

  lemma PlacingOneMore(board: TileMap, rules: Rules, before: Field, now: Field, after: Field, pid: u8, base: Cell,
                       placed: seq<Unit>, taken: set<Cell>, u: Unit)
    requires Placing(board, rules, before, now, pid, base, placed, taken)
    requires |placed| < MAX_UNITS && FreshAtBase(board, rules, u, UnitKey(pid, |placed| + 1), base)
    requires after.units == now.units + [u] && SamePurses(now, after)
    requires forall c :: c in after.occ ==> c in now.occ || c == u.at
    ensures Placing(board, rules, before, after, pid, base, placed + [u], taken + {u.at})
  {
    assert before.units + (placed + [u]) == (before.units + placed) + [u];
  }

  lemma OpeningIsValid(board: TileMap, rules: Rules, base1: Cell, base2: Cell)
    requires board.WellFormed() && SetUpWell(Opening(board, rules, base1, base2))
    ensures Valid(Opening(board, rules, base1, base2))
  {
    var s := Opening(board, rules, base1, base2);
    assert RosterOk(s.now.players, []) by {
      forall key | ValidKey(key)
        ensures Slot(s.now.players, key) == None
      {
      }
    }
    assert UnitsPlaced(board, [], map[]);
    assert BulletsPlaced(board, [], map[], 0);
    assert FieldOk(board, s.now);
    assert Energies([]) == [];
    assert Held([], s.now.players) == 0;
    assert Thinned(board, []);
    assert C.AfterAll([], rules.captureTurnThreshold) == C.START;
  }

  /** A base has room for three units. */
  lemma BaseHasRoom(base: Cell, size: int, taken: set<Cell>)
    requires size >= 2 && |taken| <= 2
    ensures exists c :: InSquare(c, base, size) && c !in taken
  {
    var a, b, c, d := base, Cell(base.x + 1, base.y), Cell(base.x, base.y + 1), Cell(base.x + 1, base.y + 1);
    assert |{a, b, c, d}| == 4;
    if {a, b, c, d} <= taken {
      SubsetIsSmaller({a, b, c, d}, taken);
    }
    assert InSquare(a, base, size) && InSquare(b, base, size) && InSquare(c, base, size) && InSquare(d, base, size);
  }
}
