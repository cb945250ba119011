/**
 What the calls of guest programs do to a game (src/runtime.cpp:284-491,
 src/world.cpp:564-741), and what a program can achieve within one tick whatever it
 calls.
 */
module Actions {
  import opened Common
  import opened GameRules
  import opened TileMap
  import opened Sums
  import opened Placement
  import opened Flight
  import opened BulletPass
  import opened UnitMoves
  import opened Energy
  import opened GameState
  import C = Capture

  datatype ActionResult = OK | INVALID_UNIT | INSUFFICIENT_ENERGY | ON_COOLDOWN | INVALID_ID | OUT_OF_RANGE
                        | UNSUPPORTED_RUNTIME

  /** The calls of a guest program that act on the world. Arguments are the 32-bit
      integers the guest passes. */
  datatype ECall = Fire(dirId: int, power: int) | Move(dirId: int) | Deposit(amount: int) | Withdraw(amount: int)
                 | Manufact(unitId: int) | Repair(unitId: int) | Upgrade(unitId: int, upgradeId: int)

  /** What a device has already done this tick. */
  datatype Flags = Flags(move: bool, depositWithdraw: bool, manufact: bool, repair: bool, upgrade: bool)

  const NO_FLAGS := Flags(false, false, false, false, false)

  function DirectionOf(id: int): Direction
    requires 0 <= id <= 3
  {
    if id == 0 then Up else if id == 1 then Right else if id == 2 then Down else Left
  }

  /** Conversion of a guest integer to the 8-bit identifiers of the engine. */
  function ToU8(v: int): u8 {
    v % 256
  }

  /** A game and what the running device has done in this tick. */
  datatype Snap = Snap(game: State, flags: Flags)

  // ---- Units ----

  predicate HasUnit(s: State, i: nat) {
    |s.now.players| == 2 && i < |s.now.units| && 1 <= s.now.units[i].key.playerId <= 2
  }

  ghost function SetUnit(s: State, i: nat, u: Unit): (t: State)
    requires HasUnit(s, i) && u.key == s.now.units[i].key
    ensures HasUnit(t, i) && |t.now.units| == |s.now.units|
  {
    s.(now := s.now.(units := s.now.units[i := u]))
  }

  function Damage(u: Unit, power: int): int {
    power * (if u.upgrades.damage then 2 else 1)
  }

  function FireResult(u: Unit, dirId: int, power: int): ActionResult {
    if u.attackCooldown != 0 then ON_COOLDOWN
    else if dirId < 0 || dirId > 3 || power < 1 then OUT_OF_RANGE
    else if power > u.energy then INSUFFICIENT_ENERGY
    else if Damage(u, power) > 255 then OUT_OF_RANGE
    else OK
  }

  function Armed(u: Unit, rules: Rules, dirId: int, power: int): Unit
    requires FireResult(u, dirId, power) == OK
  {
    u.(energy := u.energy - power, pendingAttack := Attack(Damage(u, power), DirectionOf(dirId)),
       attackCooldown := rules.attackCooldown)
  }

  ghost function Fired(s: Snap, i: nat, dirId: int, power: int): (Snap, ActionResult)
    requires HasUnit(s.game, i)
  {
    var u := s.game.now.units[i];
    var r := FireResult(u, dirId, power);
    if r != OK then (s, r)
    else (s.(game := SetUnit(s.game, i, Armed(u, s.game.rules, dirId, power)).(spent := s.game.spent + power)), OK)
  }

  /** A wrong direction takes back an earlier request; a second request changes nothing. */
  ghost function MoveAsked(s: Snap, i: nat, dirId: int): (Snap, ActionResult)
    requires HasUnit(s.game, i)
  {
    var u := s.game.now.units[i];
    if s.flags.move then (s, ON_COOLDOWN)
    else if dirId < 0 || dirId > 3 then (s.(game := SetUnit(s.game, i, u.(pendingMove := None))), OUT_OF_RANGE)
    else (Snap(SetUnit(s.game, i, u.(pendingMove := Some(DirectionOf(dirId)))), s.flags.(move := true)), OK)
  }

  /** The tests deposit and withdraw share. */
  ghost function MayTransfer(s: Snap, i: nat, amount: int, available: nat): ActionResult
    requires HasUnit(s.game, i)
  {
    var u := s.game.now.units[i];
    if s.flags.depositWithdraw then ON_COOLDOWN
    else if amount < 1 then OUT_OF_RANGE
    else if amount > available then INSUFFICIENT_ENERGY
    else if !InBase(s.game.board, u.at, s.game.now.players[u.key.playerId - 1].base) then INVALID_UNIT
    else OK
  }

  ghost function Transferred(s: Snap, i: nat, energy: u16, purse: u16, loss: nat): Snap
    requires HasUnit(s.game, i)
  {
    var u := s.game.now.units[i];
    var p := u.key.playerId - 1;
    Snap(s.game.(now := s.game.now.(units := s.game.now.units[i := u.(energy := energy)],
                                    players := s.game.now.players[p := s.game.now.players[p].(baseEnergy := purse)]),
                  lost := s.game.lost + loss),
         s.flags.(depositWithdraw := true))
  }

  /** What the base cannot hold is lost. */
  ghost function Deposited(s: Snap, i: nat, amount: int): (Snap, ActionResult)
    requires HasUnit(s.game, i)
  {
    var u := s.game.now.units[i];
    var r := MayTransfer(s, i, amount, u.energy);
    if r != OK then (s, r)
    else
      var sum := s.game.now.players[u.key.playerId - 1].baseEnergy + amount;
      (Transferred(s, i, u.energy - amount, Min(sum, 65535), if sum > 65535 then sum - 65535 else 0), OK)
  }

  /** What the unit cannot carry is lost. */
  ghost function Withdrawn(s: Snap, i: nat, amount: int): (Snap, ActionResult)
    requires HasUnit(s.game, i)
  {
    var u := s.game.now.units[i];
    var purse := s.game.now.players[u.key.playerId - 1].baseEnergy;
    var r := MayTransfer(s, i, amount, purse);
    if r != OK then (s, r)
    else
      var sum, cap := u.energy + amount, u.MaxCapacity(s.game.rules);
      (Transferred(s, i, Min(sum, cap), purse - amount, if sum > cap then sum - cap else 0), OK)
  }

  /** One call of the program that runs unit i. */
  ghost function UnitCalled(s: Snap, i: nat, call: ECall): (t: (Snap, ActionResult))
    requires HasUnit(s.game, i)
    ensures HasUnit(t.0.game, i) && |t.0.game.now.units| == |s.game.now.units| && t.0.game.rules == s.game.rules
  {
    match call
    case Fire(dirId, power) => Fired(s, i, dirId, power)
    case Move(dirId) => MoveAsked(s, i, dirId)
    case Deposit(amount) => Deposited(s, i, amount)
    case Withdraw(amount) => Withdrawn(s, i, amount)
    case _ => (s, UNSUPPORTED_RUNTIME)
  }

  /** All its calls in a tick. */
  ghost function UnitProgram(s: Snap, i: nat, calls: seq<ECall>): (t: (Snap, seq<ActionResult>))
    requires HasUnit(s.game, i)
    ensures HasUnit(t.0.game, i) && |t.0.game.now.units| == |s.game.now.units| && |t.1| == |calls|
    ensures t.0.game.rules == s.game.rules
  {
    if calls == [] then (s, [])
    else
      var before := UnitProgram(s, i, calls[..|calls| - 1]);
      var (after, r) := UnitCalled(before.0, i, calls[|calls| - 1]);
      (after, before.1 + [r])
  }

  function Cooled(u: Unit): Unit {
    u.(attackCooldown := if u.attackCooldown > 0 then u.attackCooldown - 1 else 0)
  }

  /** A unit's turn: it cools down, and its program runs. */
  ghost function UnitTurn(s: State, i: nat, calls: seq<ECall>): (t: State)
    requires HasUnit(s, i)
    ensures HasUnit(t, i) && |t.now.units| == |s.now.units|
  {
    UnitProgram(Snap(SetUnit(s, i, Cooled(s.now.units[i])), NO_FLAGS), i, calls).0.game
  }

  ghost predicate KeysAreGood(s: State) {
    |s.now.players| == 2 && forall i :: 0 <= i < |s.now.units| ==> 1 <= s.now.units[i].key.playerId <= 2
  }

  lemma ValidKeysAreGood(s: State)
    requires Valid(s)
    ensures KeysAreGood(s)
  {
    hide Disagrees;
    Parts(s);
    FieldParts(s.board, s.now);
  }

  // ---- Bases ----

  ghost function Manufactured(s: State, pid: u8, id: u8, at: Cell): State
    requires 1 <= pid <= 2 && RosterShape(s.now.players) && ValidKey(UnitKey(pid, id))
    requires s.rules.manufactCost <= s.now.players[pid - 1].baseEnergy
  {
    var paid := s.now.(players := s.now.players[pid - 1 := Paid(s.now.players[pid - 1], s.rules.manufactCost)]);
    s.(now := Spawned(paid, NewUnit(s.rules, UnitKey(pid, id), at)), spent := s.spent + s.rules.manufactCost)
  }

  function ManufactResult(s: State, pid: u8, id: u8): ActionResult
    requires 1 <= pid <= 2 && |s.now.players| == 2
  {
    if s.now.players[pid - 1].baseEnergy < s.rules.manufactCost then INSUFFICIENT_ENERGY
    else if !ValidKey(UnitKey(pid, id)) || UnitIndex(s.now.units, UnitKey(pid, id)) < |s.now.units| then INVALID_ID
    else OK
  }

  /** A new unit appears on some empty tile of the base. */
  ghost predicate Manufactures(s: State, pid: u8, id: u8, t: State, r: ActionResult)
    requires 1 <= pid <= 2
  {
    && RosterShape(s.now.players) && r == ManufactResult(s, pid, id)
    && if r != OK then t == s
       else exists at :: InBase(s.board, at, s.now.players[pid - 1].base) && at !in s.now.occ && t == Manufactured(s, pid, id, at)
  }

  /** No tile of the base is left for a new unit. */
  ghost predicate BaseIsFull(s: State, pid: u8)
    requires 1 <= pid <= 2 && |s.now.players| == 2
  {
    forall c :: InBase(s.board, c, s.now.players[pid - 1].base) ==> c in s.now.occ
  }

  function FindResult(s: State, pid: u8, id: u8): ActionResult
    requires 1 <= pid <= 2 && |s.now.players| == 2
  {
    var i := UnitIndex(s.now.units, UnitKey(pid, id));
    if !ValidKey(UnitKey(pid, id)) || i == |s.now.units| then INVALID_ID
    else if !InBase(s.board, s.now.units[i].at, s.now.players[pid - 1].base) then INVALID_UNIT
    else OK
  }

  function Bought(s: State, pid: u8, i: nat, u: Unit, cost: nat): State
    requires 1 <= pid <= 2 && |s.now.players| == 2 && i < |s.now.units| && cost <= s.now.players[pid - 1].baseEnergy
  {
    s.(now := s.now.(units := s.now.units[i := u], players := s.now.players[pid - 1 := Paid(s.now.players[pid - 1], cost)]),
       spent := s.spent + cost)
  }

  /** Two energy for each health point, all missing ones at once. */
  function Repaired(s: State, pid: u8, id: u8): (State, ActionResult)
    requires 1 <= pid <= 2 && |s.now.players| == 2
  {
    if FindResult(s, pid, id) != OK then (s, FindResult(s, pid, id))
    else
      var i := UnitIndex(s.now.units, UnitKey(pid, id));
      var missing := s.rules.unitHealth - s.now.units[i].health;
      if missing == 0 then (s, INVALID_UNIT)
      else if missing < 0 || s.now.players[pid - 1].baseEnergy < 2 * missing then (s, INSUFFICIENT_ENERGY)
      else (Bought(s, pid, i, s.now.units[i].(health := s.rules.unitHealth), 2 * missing), OK)
  }

  function Upgraded(s: State, pid: u8, id: u8, kind: u8): (State, ActionResult)
    requires 1 <= pid <= 2 && |s.now.players| == 2
  {
    if FindResult(s, pid, id) != OK then (s, FindResult(s, pid, id))
    else
      var i := UnitIndex(s.now.units, UnitKey(pid, id));
      var u := s.now.units[i];
      if kind > 2 then (s, OUT_OF_RANGE)
      else if Has(u.upgrades, kind) then (s, INVALID_UNIT)
      else if s.now.players[pid - 1].baseEnergy < UpgradeCost(s.rules, kind) then (s, INSUFFICIENT_ENERGY)
      else (Bought(s, pid, i, u.(upgrades := With(u.upgrades, kind)), UpgradeCost(s.rules, kind)), OK)
  }

  /** One call of the program that runs the base of player pid. */
  ghost predicate BaseCalled(s: Snap, pid: u8, call: ECall, t: Snap, r: ActionResult)
    requires 1 <= pid <= 2
  {
    |s.game.now.players| == 2 &&
    match call
    case Manufact(id) =>
      if s.flags.manufact then t == s && r == ON_COOLDOWN
      else Manufactures(s.game, pid, ToU8(id), t.game, r) && t.flags == if r == OK then s.flags.(manufact := true) else s.flags
    case Repair(id) =>
      if s.flags.repair then t == s && r == ON_COOLDOWN
      else (t.game, r) == Repaired(s.game, pid, ToU8(id)) && t.flags == if r == OK then s.flags.(repair := true) else s.flags
    case Upgrade(id, kind) =>
      if s.flags.upgrade then t == s && r == ON_COOLDOWN
      else (t.game, r) == Upgraded(s.game, pid, ToU8(id), ToU8(kind)) && t.flags == if r == OK then s.flags.(upgrade := true) else s.flags
    case _ => t == s && r == UNSUPPORTED_RUNTIME
  }

  /** The one call that aborts the process: a new unit for which the base has no tile. */
  ghost predicate BaseAborts(s: Snap, pid: u8, call: ECall)
    requires 1 <= pid <= 2
  {
    && |s.game.now.players| == 2 && call.Manufact? && !s.flags.manufact
    && ManufactResult(s.game, pid, ToU8(call.unitId)) == OK && BaseIsFull(s.game, pid)
  }

  /** Its calls in a tick lead from s to t with these results. */
  ghost predicate BaseProgram(s: Snap, pid: u8, calls: seq<ECall>, t: Snap, results: seq<ActionResult>)
    requires 1 <= pid <= 2
    decreases |calls|
  {
    if calls == [] then t == s && results == []
    else
      var n := |calls| - 1;
      |results| == n + 1 && exists m: Snap :: BaseProgram(s, pid, calls[..n], m, results[..n]) && BaseCalled(m, pid, calls[n], t, results[n])
  }

  lemma NoCalls(s: Snap, pid: u8)
    requires 1 <= pid <= 2
    ensures BaseProgram(s, pid, [], s, [])
  {
  }

  lemma BaseProgramOneMore(s: Snap, pid: u8, calls: seq<ECall>, m: Snap, results: seq<ActionResult>, call: ECall, t: Snap, r: ActionResult)
    requires 1 <= pid <= 2 && |results| == |calls| && BaseProgram(s, pid, calls, m, results) && BaseCalled(m, pid, call, t, r)
    ensures BaseProgram(s, pid, calls + [call], t, results + [r])
  {
    hide BaseCalled;
    assert (calls + [call])[..|calls|] == calls && (results + [r])[..|calls|] == results;
  }

  /** Its calls can lead to one that aborts. */
  ghost predicate BaseProgramAborts(s: Snap, pid: u8, calls: seq<ECall>)
    requires 1 <= pid <= 2
  {
    exists n: nat, m: Snap, results ::
      n < |calls| && BaseProgram(s, pid, calls[..n], m, results) && BaseAborts(m, pid, calls[n])
  }

  // ---- A whole tick ----

  ghost function Collected(s: State, natural: bool): State {
    s.(now := s.now.(units := ChargeAll(s.board, s.rules, natural, s.now.units)),
       gained := s.gained + TotalGain(s.board, s.rules, natural, s.now.units),
       lost := s.lost + TotalLoss(s.board, s.rules, natural, s.now.units))
  }

  ghost function Checked(s: State): State
    requires |s.now.players| == 2 && s.rules.captureTurnThreshold >= 1
  {
    AfterEvent(s, C.Check(InCaptureCondition(s.board, s.now.units, s.now.players[0].base, 1),
                          InCaptureCondition(s.board, s.now.units, s.now.players[1].base, 2)))
  }

  /** In every game that goes on, each capture counter is the length of the current run of
      checks in capture condition, cut off below the threshold. */
  lemma CountersAreRuns(s: State)
    requires Valid(s) && s.verdict == C.Ongoing
    ensures |s.now.players| == 2 && s.rules.captureTurnThreshold >= 1
    ensures s.now.players[0].captureCounter == C.Min(C.Run(s.events, 1), s.rules.captureTurnThreshold - 1)
    ensures s.now.players[1].captureCounter == C.Min(C.Run(s.events, 2), s.rules.captureTurnThreshold - 1)
  {
    hide Disagrees;
    Parts(s);
    C.CounterIsCutOffRun(s.events, s.rules.captureTurnThreshold);
  }

  /** A check gives the game to player q exactly when the other base has now been in
      capture condition for the threshold and q's own has not. */
  lemma CheckDecides(s: State, q: u8)
    requires Valid(s) && s.verdict == C.Ongoing && 1 <= q <= 2
    ensures |s.now.players| == 2 && s.rules.captureTurnThreshold >= 1
    ensures Checked(s).verdict == C.Victory(q) <==>
              && C.Run(Checked(s).events, 3 - q) >= s.rules.captureTurnThreshold
              && C.Run(Checked(s).events, q) < s.rules.captureTurnThreshold
  {
    hide Disagrees, InCaptureCondition;
    Parts(s);
    var e := C.Check(InCaptureCondition(s.board, s.now.units, s.now.players[0].base, 1),
                     InCaptureCondition(s.board, s.now.units, s.now.players[1].base, 2));
    var T := s.rules.captureTurnThreshold;
    C.AfterOneMore(s.events, e, T);
    assert (s.events + [e])[..|s.events|] == s.events;
    C.VictoryMeansOneLongRun(s.events + [e], T, q);
  }

  /** The turns of the units from i on. */
  ghost function UnitTurns(s: State, i: nat, calls: UnitKey -> seq<ECall>): State
    requires KeysAreGood(s) && i <= |s.now.units|
    decreases |s.now.units| - i
  {
    if i == |s.now.units| then s
    else
      var t := UnitTurn(s, i, calls(s.now.units[i].key));
      if KeysAreGood(t) then UnitTurns(t, i + 1, calls) else t
  }

  /** The programs of both bases and then of all units, in the order of the list. */
  ghost predicate ProgramsRan(s: State, baseCalls: u8 -> seq<ECall>, unitCalls: UnitKey -> seq<ECall>, t: State) {
    exists b1: Snap, r1, b2: Snap, r2 ::
      && BaseProgram(Snap(s, NO_FLAGS), 1, baseCalls(1), b1, r1)
      && BaseProgram(Snap(b1.game, NO_FLAGS), 2, baseCalls(2), b2, r2)
      && KeysAreGood(b2.game) && t == UnitTurns(b2.game, 0, unitCalls)
  }

  /** A tick of an undecided game: bullets, moves, the capture check; then, if the game
      goes on, energy and programs. */
  ghost predicate Ticked(s: State, tick: u32, baseCalls: u8 -> seq<ECall>, unitCalls: UnitKey -> seq<ECall>, t: State) {
    exists flown, cleared, after ::
      && Moved(s, flown, cleared, after) && |after.players| == 2 && s.rules.captureTurnThreshold >= 1
      && var checked := Checked(AfterMoves(s, flown, after));
         if checked.verdict != C.Ongoing then t == checked
         else ProgramsRan(Collected(checked, NaturalTick(s.rules, tick)), baseCalls, unitCalls, t)
  }

  /** A tick can abort in two ways only: a pending attack aims off the board, or a base
      without an empty tile makes a unit. */
  ghost predicate TickAborts(s: State, tick: u32, baseCalls: u8 -> seq<ECall>) {
    || (FieldOk(s.board, s.now) && Pass(s.board, s.rules, s.now).None?)
    || exists flown, cleared, after ::
         && Moved(s, flown, cleared, after) && |after.players| == 2 && s.rules.captureTurnThreshold >= 1
         && var checked := Checked(AfterMoves(s, flown, after));
            checked.verdict == C.Ongoing && ProgramsAbort(Collected(checked, NaturalTick(s.rules, tick)), baseCalls)
  }

  ghost predicate ProgramsAbort(s: State, baseCalls: u8 -> seq<ECall>) {
    || BaseProgramAborts(Snap(s, NO_FLAGS), 1, baseCalls(1))
    || exists b1: Snap, r1 ::
         BaseProgram(Snap(s, NO_FLAGS), 1, baseCalls(1), b1, r1) && BaseProgramAborts(Snap(b1.game, NO_FLAGS), 2, baseCalls(2))
  }

  // ---- A game ----

  /** What every device calls in every tick, and whether the referee then declares a draw. */
  datatype Script = Script(bases: (nat, u8) -> seq<ECall>, units: (nat, UnitKey) -> seq<ECall>, draws: nat -> bool) {
    function BasesAt(t: nat): u8 -> seq<ECall> {
      (p: u8) => bases(t, p)
    }

    function UnitsAt(t: nat): UnitKey -> seq<ECall> {
      (key: UnitKey) => units(t, key)
    }
  }

  datatype Moment = Moment(game: State, tick: u32)

  ghost function Drawn(s: State, draw: bool): State {
    if draw && |s.now.players| == 2 && s.rules.captureTurnThreshold >= 1 then AfterEvent(s, C.MarkDraw) else s
  }

  /** One tick, or none if the game is over, and then perhaps a draw by the referee. */
  ghost predicate Follows(m: Moment, baseCalls: u8 -> seq<ECall>, unitCalls: UnitKey -> seq<ECall>, draw: bool, n: Moment) {
    exists s: State ::
      && n.game == Drawn(s, draw)
      && if m.game.verdict != C.Ongoing then s == m.game && n.tick == m.tick
         else n.tick == (m.tick + 1) % 0x1_0000_0000 && Ticked(m.game, n.tick, baseCalls, unitCalls, s)
  }

  lemma OneMoreMoment(m: Moment, baseCalls: u8 -> seq<ECall>, unitCalls: UnitKey -> seq<ECall>, draw: bool, s: State, n: Moment)
    requires n.game == Drawn(s, draw)
    requires if m.game.verdict != C.Ongoing then s == m.game && n.tick == m.tick
             else n.tick == (m.tick + 1) % 0x1_0000_0000 && Ticked(m.game, n.tick, baseCalls, unitCalls, s)
    ensures Follows(m, baseCalls, unitCalls, draw, n)
  {
  }

  /** The history ends before its time, in an undecided game whose next tick can abort. */
  ghost predicate CutShort(history: seq<Moment>, ticks: nat, script: Script)
    requires history != []
  {
    var last := |history| - 1;
    var m := history[last];
    last < ticks && m.game.verdict == C.Ongoing
    && TickAborts(m.game, (m.tick + 1) % 0x1_0000_0000, script.BasesAt(last))
  }

  /** Every state on the way is valid and sound, and no verdict ever changes. */
  ghost predicate SafeSoFar(history: seq<Moment>) {
    && (forall t :: 0 <= t < |history| ==> Valid(history[t].game) && InOrder(history[t].game))
    && (forall t, u :: 0 <= t < u < |history| && history[t].game.verdict != C.Ongoing ==>
          history[u].game.verdict == history[t].game.verdict)
  }

  lemma StaysSafe(history: seq<Moment>, n: Moment)
    requires SafeSoFar(history) && history != [] && Valid(n.game)
    requires history[|history| - 1].game.verdict != C.Ongoing ==> n.game.verdict == history[|history| - 1].game.verdict
    ensures SafeSoFar(history + [n])
  {
    hide Valid, InOrder;
    ValidIsInOrder(n.game);
    var more := history + [n];
    forall t, u | 0 <= t < u < |more| && more[t].game.verdict != C.Ongoing
      ensures more[u].game.verdict == more[t].game.verdict
    {
      assert more[|history| - 1] == history[|history| - 1];
    }
  }

  // ---- At most one of each per tick ----

  /** How many of the calls that count succeeded. */
  ghost function Successes(calls: seq<ECall>, results: seq<ActionResult>, counts: ECall -> bool): nat
    requires |results| == |calls|
  {
    if calls == [] then 0
    else
      var n := |calls| - 1;
      Successes(calls[..n], results[..n], counts) + if counts(calls[n]) && results[n] == OK then 1 else 0
  }

  function IsMove(call: ECall): bool {
    call.Move?
  }

  function IsTransfer(call: ECall): bool {
    call.Deposit? || call.Withdraw?
  }

  function IsFire(call: ECall): bool {
    call.Fire?
  }

  /** However often a unit's program calls them, at most one move and one transfer
      succeed in a tick, and one shot, since its cooldown is at least one tick. */
  lemma {:induction false} OneOfEachPerTick(s: Snap, i: nat, calls: seq<ECall>)
    requires HasUnit(s.game, i) && s.flags == NO_FLAGS && s.game.rules.attackCooldown >= 1
    ensures var t := UnitProgram(s, i, calls);
            && Successes(calls, t.1, IsMove) == (if t.0.flags.move then 1 else 0)
            && Successes(calls, t.1, IsTransfer) == (if t.0.flags.depositWithdraw then 1 else 0)
            && Successes(calls, t.1, IsFire) <= 1
            && (Successes(calls, t.1, IsFire) == 1 ==> t.0.game.now.units[i].attackCooldown == s.game.rules.attackCooldown)
  {
    if calls != [] {
      var n := |calls| - 1;
      OneOfEachPerTick(s, i, calls[..n]);
      var before := UnitProgram(s, i, calls[..n]);
      OneMoreCall(before.0, i, calls[n]);
      assert UnitProgram(s, i, calls).1[..n] == before.1;
    }
  }

  lemma OneMoreCall(s: Snap, i: nat, call: ECall)
    requires HasUnit(s.game, i)
    ensures var (t, r) := UnitCalled(s, i, call);
            && (IsMove(call) && r == OK <==> t.flags.move && !s.flags.move)
            && (IsTransfer(call) && r == OK <==> t.flags.depositWithdraw && !s.flags.depositWithdraw)
            && (s.flags.move ==> t.flags.move) && (s.flags.depositWithdraw ==> t.flags.depositWithdraw)
            && (IsFire(call) && r == OK ==> s.game.now.units[i].attackCooldown == 0)
            && (IsFire(call) && r == OK ==> t.game.now.units[i].attackCooldown == s.game.rules.attackCooldown)
            && (!(IsFire(call) && r == OK) ==> t.game.now.units[i].attackCooldown == s.game.now.units[i].attackCooldown)
  {
  }

  function IsManufact(call: ECall): bool {
    call.Manufact?
  }

  function IsRepair(call: ECall): bool {
    call.Repair?
  }

  function IsUpgrade(call: ECall): bool {
    call.Upgrade?
  }

  /** And at most one new unit, one repair and one upgrade for each base. */
  lemma {:induction false} OneOfEachPerBase(s: Snap, pid: u8, calls: seq<ECall>, t: Snap, results: seq<ActionResult>)
    requires 1 <= pid <= 2 && s.flags == NO_FLAGS && |results| == |calls| && BaseProgram(s, pid, calls, t, results)
    ensures Successes(calls, results, IsManufact) == if t.flags.manufact then 1 else 0
    ensures Successes(calls, results, IsRepair) == if t.flags.repair then 1 else 0
    ensures Successes(calls, results, IsUpgrade) == if t.flags.upgrade then 1 else 0
    decreases |calls|
  {
    if calls != [] {
      var n := |calls| - 1;
      var m: Snap :| BaseProgram(s, pid, calls[..n], m, results[..n]) && BaseCalled(m, pid, calls[n], t, results[n]);
      OneOfEachPerBase(s, pid, calls[..n], m, results[..n]);
      OneMoreBaseCall(m, pid, calls[n], t, results[n]);
    }
  }

  lemma OneMoreBaseCall(m: Snap, pid: u8, call: ECall, t: Snap, r: ActionResult)
    requires 1 <= pid <= 2 && BaseCalled(m, pid, call, t, r)
    ensures t.flags.manufact == (m.flags.manufact || (call.Manufact? && r == OK))
    ensures t.flags.repair == (m.flags.repair || (call.Repair? && r == OK))
    ensures t.flags.upgrade == (m.flags.upgrade || (call.Upgrade? && r == OK))
    ensures (call.Manufact? && m.flags.manufact) || (call.Repair? && m.flags.repair) || (call.Upgrade? && m.flags.upgrade) ==> r != OK
  {
  }
}
