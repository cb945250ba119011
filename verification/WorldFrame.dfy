/**
 What a tick writes into the replay (src/replay.cpp:649-757): the frame shows
 the world as it is, and fits the decoders' limits.
 */
module WorldFrame {
  import opened Common
  import opened GameRules
  import opened TileCodec
  import opened TileMap
  import opened Sums
  import opened Placement
  import opened Flight
  import opened BulletPass
  import opened BulletBound
  import opened GameState
  import A = Actions
  import W = World
  import C = Capture
  import opened Counting
  import opened ReplayFormat
  import opened ReplayParser
  import opened ReplayRoundTrip
  import opened ReplayStream

  function DirectionCode(d: Direction): u8 {
    match d
    case Up => 0
    case Right => 1
    case Down => 2
    case Left => 3
  }

  function UpgradeBits(u: Upgrades): u8 {
    (if u.capacity then 1 else 0) + (if u.vision then 2 else 0) + (if u.damage then 4 else 0)
  }

  /** A cell on a board of at most 255 tiles a side keeps its coordinates. */
  function ShownUnit(u: Unit): ReplayUnit {
    ReplayUnit(u.key.id, u.key.playerId, u.at.x % 256, u.at.y % 256, u.health, u.attackCooldown, UpgradeBits(u.upgrades),
               u.energy)
  }

  function ShownBullet(b: Bullet): ReplayBullet {
    ReplayBullet(b.at.x % 256, b.at.y % 256, DirectionCode(b.direction), b.playerId, b.damage)
  }

  function ShownPlayer(id: u8, p: Player): ReplayPlayer {
    ReplayPlayer(id, p.baseEnergy, if p.captureCounter > 255 then 255 else p.captureCounter)
  }

  function ShownUnits(units: seq<Unit>): seq<ReplayUnit> {
    seq(|units|, i requires 0 <= i < |units| => ShownUnit(units[i]))
  }

  function ShownBullets(bullets: seq<Bullet>): seq<ReplayBullet> {
    seq(|bullets|, i requires 0 <= i < |bullets| => ShownBullet(bullets[i]))
  }

  ghost function Frame(tick: u32, now: Field, logs: seq<LogEntry>): Tick
    requires |now.players| == 2
  {
    Tick(tick, ShownPlayer(1, now.players[0]), ShownPlayer(2, now.players[1]),
         ShownUnits(now.units), ShownBullets(DropSpent(now.bullets)), logs)
  }

  method FromWorldState(world: W.World, logs: seq<LogEntry>) returns (t: Tick)
    requires Valid(world.Game())
    ensures |world.players| == 2 && t == Frame(world.tick, world.Now(), logs)
  {
    hide Disagrees, Invalid, ShownUnit, ShownBullet, ShownPlayer, UnitsPlaced, BulletsPlaced, RosterOk;
    Parts(world.Game());
    var units: seq<ReplayUnit> := [];
    for i := 0 to |world.units|
      invariant units == ShownUnits(world.units)[..i]
    {
      TakeOneMore(ShownUnits(world.units), i);
      if world.units[i].health > 0 {
        units := units + [ShownUnit(world.units[i])];
      }
    }
    assert units == ShownUnits(world.units);
    var bullets: seq<ReplayBullet> := [];
    for i := 0 to |world.bullets|
      invariant bullets + ShownBullets(DropSpent(world.bullets[i..])) == ShownBullets(DropSpent(world.bullets))
    {
      FirstShown(world.bullets[i..]);
      assert world.bullets[i..][1..] == world.bullets[i + 1..];
      if world.bullets[i].damage > 0 {
        bullets := bullets + [ShownBullet(world.bullets[i])];
      }
    }
    assert bullets == ShownBullets(DropSpent(world.bullets));
    t := Tick(world.tick, ShownPlayer(1, world.players[0]), ShownPlayer(2, world.players[1]), units, bullets, logs);
  }

  lemma FirstShown(bullets: seq<Bullet>)
    requires bullets != []
    ensures ShownBullets(DropSpent(bullets))
         == (if bullets[0].damage > 0 then [ShownBullet(bullets[0])] else []) + ShownBullets(DropSpent(bullets[1..]))
  {
  }

  // ---- What a frame shows ----

  /** Each unit appears once, at its own cell, and no more than 30 do. */
  lemma FrameShowsUnits(s: State, tick: u32, logs: seq<LogEntry>)
    requires Valid(s)
    ensures |s.now.players| == 2
    ensures var f := Frame(tick, s.now, logs);
            && |f.units| == |s.now.units| <= 30
            && forall i :: 0 <= i < |f.units| ==>
                 Cell(f.units[i].x, f.units[i].y) == s.now.units[i].at && f.units[i].id == s.now.units[i].key.id
  {
    hide Disagrees, Names, UnitIndex;
    Parts(s);
    FieldParts(s.board, s.now);
    AtMostFifteenEach(s);
    forall i | 0 <= i < |s.now.units|
      ensures Cell(ShownUnit(s.now.units[i]).x, ShownUnit(s.now.units[i]).y) == s.now.units[i].at
    {
      ShownWhereItIs(s.board, s.now.units[i]);
    }
  }

  lemma ShownWhereItIs(board: TileMap, u: Unit)
    requires board.InBounds(u.at) && board.width <= 255 && board.height <= 255
    ensures Cell(ShownUnit(u).x, ShownUnit(u).y) == u.at
  {
  }

  /** 1 for capacity, 2 for vision, 4 for damage. */
  ghost predicate UpgradeByte(u: Upgrades, b: u8) {
    && b < 8 && (u.capacity <==> b in {1, 3, 5, 7}) && (u.vision <==> b in {2, 3, 6, 7}) && (u.damage <==> b in {4, 5, 6, 7})
  }

  /** The entry of a frame says all of a unit that the format has a place for. */
  lemma FrameSaysOfUnit(s: State, tick: u32, logs: seq<LogEntry>, i: nat)
    requires Valid(s) && i < |s.now.units|
    ensures |s.now.players| == 2 && |Frame(tick, s.now, logs).units| == |s.now.units|
    ensures var e, u := Frame(tick, s.now, logs).units[i], s.now.units[i];
            && e.id == u.key.id && e.playerId == u.key.playerId && e.x == u.at.x && e.y == u.at.y
            && e.health == u.health && e.attackCooldown == u.attackCooldown && e.energy == u.energy
            && UpgradeByte(u.upgrades, e.upgrades)
  {
    hide Disagrees, Names, UnitIndex, Thinned, DropSpent;
    FrameShowsUnits(s, tick, logs);
    Parts(s);
  }

  /** It says what each base holds, its capture counter up to 255, and the tick. */
  lemma FrameSaysOfPlayers(s: State, tick: u32, logs: seq<LogEntry>)
    requires Valid(s)
    ensures |s.now.players| == 2
    ensures var f, p, q := Frame(tick, s.now, logs), s.now.players[0], s.now.players[1];
            && f.tick == tick && f.logs == logs && f.one.id == 1 && f.two.id == 2
            && f.one.baseEnergy == p.baseEnergy && f.two.baseEnergy == q.baseEnergy
            && f.one.baseCaptureCounter == (if p.captureCounter <= 255 then p.captureCounter else 255)
            && f.two.baseCaptureCounter == (if q.captureCounter <= 255 then q.captureCounter else 255)
  {
    hide Disagrees, Thinned, DropSpent;
    Parts(s);
  }

  /** It says where each flying bullet is, where it goes, whose it is and how strong. */
  lemma FrameSaysOfBullet(s: State, tick: u32, logs: seq<LogEntry>, i: nat)
    requires Valid(s) && i < |DropSpent(s.now.bullets)|
    ensures |s.now.players| == 2 && |Frame(tick, s.now, logs).bullets| == |DropSpent(s.now.bullets)|
    ensures var e, b := Frame(tick, s.now, logs).bullets[i], DropSpent(s.now.bullets)[i];
            && e.x == b.at.x && e.y == b.at.y && e.playerId == b.playerId && e.damage == b.damage
            && e.direction < 4 && b.direction == [Up, Right, Down, Left][e.direction]
  {
    hide Disagrees, Thinned, DropSpent;
    Parts(s);
    FieldParts(s.board, s.now);
    DropSpentKeeps(s.now.bullets);
    var b := DropSpent(s.now.bullets)[i];
    assert b in s.now.bullets && Clear(s.board, b.at);
  }

  /** A bullet fired by a call for direction dirId is recorded with that direction. */
  lemma RecordedDirection(s: A.Snap, i: nat, dirId: int, power: int)
    requires A.HasUnit(s.game, i) && A.Fired(s, i, dirId, power).1 == A.OK
    ensures DirectionCode(A.Fired(s, i, dirId, power).0.game.now.units[i].pendingAttack.direction) == dirId
  {
  }

  /** Bullets in a frame fly over different tiles of the board, so there are no more
      of them than tiles. */
  lemma FrameBulletsAreApart(s: State)
    requires Valid(s)
    ensures |DropSpent(s.now.bullets)| <= s.board.width * s.board.height
  {
    hide Disagrees;
    Parts(s);
    FieldParts(s.board, s.now);
    var kept := DropSpent(s.now.bullets);
    DropSpentKeeps(s.now.bullets);
    DropKeepsField(s.board, s.now);
    FieldParts(s.board, s.now.(bullets := kept));
    LiveThingsAreApart(s.board, s.now.(bullets := kept));
    DistinctCellsFit(seq(|kept|, i requires 0 <= i < |kept| => kept[i].at), s.board.width, s.board.height);
  }

  // ---- Limits ----

  lemma {:induction false} LogsBytesBound(logs: seq<LogEntry>)
    requires LogsFit(logs) && forall i :: 0 <= i < |logs| ==> |logs[i].payload| <= 512
    ensures |LogsBytes(logs)| <= 522 * |logs|
  {
    if logs != [] {
      LogsBytesBound(logs[1..]);
    }
  }

  /** The limits of both decoders for the logs of one tick. */
  predicate LogsWithin(logs: seq<LogEntry>) {
    |logs| <= 64 && forall i :: 0 <= i < |logs| ==> LogFits(CPP, logs[i])
  }

  /** The frame of a reachable world is within a decoder's limits exactly if its logs
      are: there are never too many units or bullets. */
  lemma FrameFits(d: Dialect, s: State, tick: u32, logs: seq<LogEntry>)
    requires Valid(s) && EitherDecoder(d)
    ensures |s.now.players| == 2
    ensures TickFits(d, Frame(tick, s.now, logs)) <==> LogsWithin(logs)
  {
    hide Disagrees, DropSpent, Thinned;
    Parts(s);
    FrameShowsUnits(s, tick, logs);
    FewFly(s.board, s.now);
    var f := Frame(tick, s.now, logs);
    if LogsWithin(logs) {
      LogsBytesBound(logs);
      assert Encodable(f);
      assert |PayloadBytes(f)| <= 8 + 2 + 9 * 30 + 2 + 5 * LIMIT + 2 + 64 * 522;
    }
  }

  /** Whatever is logged, the payload of the frame decodes to the frame exactly if the
      logs are within limits, and too many of them are reported as such. */
  lemma FrameDecodes(d: Dialect, s: State, tick: u32, logs: seq<LogEntry>)
    requires Valid(s) && EitherDecoder(d) && |s.now.players| == 2 && RecordWritable(Frame(tick, s.now, logs))
    ensures var f := Frame(tick, s.now, logs);
            && (ParsePayload(d, tick, PayloadBytes(f)) == Success(f) <==> LogsWithin(logs))
            && (|logs| > 64 ==> ParsePayload(d, tick, PayloadBytes(f)) == Failure(LogCountExceedsMaximum))
  {
    hide Disagrees, DropSpent, Thinned, Invalid, ParsePayload, PayloadBytes;
    var f := Frame(tick, s.now, logs);
    FrameFits(d, s, tick, logs);
    FrameShowsUnits(s, tick, logs);
    Parts(s);
    FewFly(s.board, s.now);
    if LogsWithin(logs) {
      PayloadRoundTrip(d, f);
    }
    if ParsePayload(d, tick, PayloadBytes(f)) == Success(f) {
      ParsedTickFits(d, tick, PayloadBytes(f));
    }
    if |logs| > 64 {
      TooManyLogsAreRejected(d, f);
    }
  }

  // ---- What programs may log ----

  /** What a device may log in its first tick: 2048 bytes to begin with and 32 more
      for each tick, up to 4096. */
  const FIRST_QUOTA := 2048 + 32

  /** The lengths of the entries that log calls of these lengths append: the quota
      counts bytes, not entries. */
  function LogCalls(quota: nat, lengths: seq<int>): seq<nat> {
    if lengths == [] then []
    else if lengths[0] < 1 || lengths[0] > 512 || lengths[0] > quota then LogCalls(quota, lengths[1..])
    else [lengths[0]] + LogCalls(quota - lengths[0], lengths[1..])
  }

  /** No entry is empty or longer than 512 bytes, and all together stay within the quota. */
  lemma {:induction false} LogsStayWithinQuota(quota: nat, lengths: seq<int>)
    ensures Sum(LogCalls(quota, lengths)) <= quota
    ensures forall i :: 0 <= i < |LogCalls(quota, lengths)| ==> 1 <= LogCalls(quota, lengths)[i] <= 512
  {
    if lengths != [] {
      if lengths[0] < 1 || lengths[0] > 512 || lengths[0] > quota {
        LogsStayWithinQuota(quota, lengths[1..]);
      } else {
        LogsStayWithinQuota(quota - lengths[0], lengths[1..]);
        assert LogCalls(quota, lengths)[1..] == LogCalls(quota - lengths[0], lengths[1..]);
      }
    }
  }

  /** Every call is logged exactly if each is of 1 to 512 bytes and the quota covers all. */
  lemma {:induction false} AllAreLogged(quota: nat, lengths: seq<nat>)
    ensures LogCalls(quota, lengths) == lengths <==>
              (forall i :: 0 <= i < |lengths| ==> 1 <= lengths[i] <= 512) && Sum(lengths) <= quota
  {
    if lengths != [] {
      var rest := lengths[1..];
      if lengths[0] < 1 || lengths[0] > 512 || lengths[0] > quota {
        LoggedAreNoMore(quota, rest);
      } else {
        AllAreLogged(quota - lengths[0], rest);
        assert ([lengths[0]] + LogCalls(quota - lengths[0], rest))[1..] == LogCalls(quota - lengths[0], rest);
        assert lengths == [lengths[0]] + rest;
        assert (forall i :: 0 <= i < |rest| ==> 1 <= rest[i] <= 512) ==> forall i :: 1 <= i < |lengths| ==> lengths[i] == rest[i - 1];
      }
    }
  }

  lemma {:induction false} LoggedAreNoMore(quota: nat, lengths: seq<int>)
    ensures |LogCalls(quota, lengths)| <= |lengths|
  {
    if lengths != [] {
      if lengths[0] < 1 || lengths[0] > 512 || lengths[0] > quota {
        LoggedAreNoMore(quota, lengths[1..]);
      } else {
        LoggedAreNoMore(quota - lengths[0], lengths[1..]);
      }
    }
  }

  /** Short entries are as many as the quota has bytes. */
  lemma {:induction false} ManyShortLogs(quota: nat, n: nat)
    requires n <= quota
    ensures LogCalls(quota, seq(n, _ => 1)) == seq(n, _ => 1)
  {
    if n > 0 {
      ManyShortLogs(quota - 1, n - 1);
      assert seq(n, _ => 1)[1..] == seq(n - 1, _ => 1);
    }
  }

  /** The entry of a log call: source player, kind custom. */
  function CustomLog(tick: u32, pid: u8, unitId: u8, payload: seq<u8>): LogEntry {
    LogEntry(tick, pid, unitId, 1, 0, payload)
  }

  function CustomLogs(tick: u32, pid: u8, unitId: u8, lengths: seq<nat>): seq<LogEntry> {
    seq(|lengths|, i requires 0 <= i < |lengths| => CustomLog(tick, pid, unitId, seq(lengths[i], _ => 0)))
  }

  /** One device can log 65 single bytes in its first tick. Each entry is fine, but
      both decoders reject the frame. */
  lemma OneDeviceOverflowsTheLogs(s: State, tick: u32, pid: u8, unitId: u8)
    requires Valid(s)
    ensures |s.now.players| == 2
    ensures var logs := CustomLogs(tick, pid, unitId, LogCalls(FIRST_QUOTA, seq(65, _ => 1)));
            var f := Frame(tick, s.now, logs);
            && |logs| == 65 && (forall i :: 0 <= i < |logs| ==> LogFits(CPP, logs[i]))
            && RecordWritable(f)
            && ParsePayload(CPP, tick, PayloadBytes(f)) == Failure(LogCountExceedsMaximum)
            && ParsePayload(Script(DEFAULT_LIMITS), tick, PayloadBytes(f)) == Failure(LogCountExceedsMaximum)
  {
    hide Disagrees, DropSpent, Thinned, Invalid, ParsePayload, LogCalls;
    ManyShortLogs(FIRST_QUOTA, 65);
    var logs := CustomLogs(tick, pid, unitId, LogCalls(FIRST_QUOTA, seq(65, _ => 1)));
    Parts(s);
    FewFly(s.board, s.now);
    FrameShowsUnits(s, tick, logs);
    var f := Frame(tick, s.now, logs);
    LogsBytesBound(logs);
    assert Encodable(f);
    assert |PayloadBytes(f)| <= 8 + 2 + 9 * 30 + 2 + 5 * LIMIT + 2 + 65 * 522;
    FrameDecodes(CPP, s, tick, logs);
    FrameDecodes(Script(DEFAULT_LIMITS), s, tick, logs);
  }

  // ---- The header ----

  function HeaderOf(board: TileMap, rules: Rules): Header
    requires board.width >= 0 && board.height >= 0 && board.baseSize >= 0
    requires board.width < 0x1_0000 && board.height < 0x1_0000 && board.baseSize < 0x1_0000
  {
    Header(VERSION, ReplayTilemap(board.width, board.height, board.baseSize, board.tiles), rules)
  }

  /** The header of any world fits its 16-bit size field and both decoders. */
  lemma HeaderOfWorldFits(s: State)
    requires Valid(s) && forall i :: 0 <= i < |s.board.tiles| ==> s.board.tiles[i].terrain < 4 && s.board.tiles[i].side < 4
    ensures s.board.WellFormed() && s.board.width <= 255 && s.board.height <= 255 && 0 <= s.board.baseSize <= 255
    ensures HeaderFits(CPP, HeaderOf(s.board, s.rules)) && HeaderFits(Script(DEFAULT_LIMITS), HeaderOf(s.board, s.rules))
  {
    hide Disagrees;
    Parts(s);
    FieldParts(s.board, s.now);
    AreaBound(s.board.width, s.board.height);
  }

  /** The header says the sizes, the tiles row by row and the rules. */
  lemma HeaderSaysOfWorld(s: State, x: int, y: int)
    requires Valid(s) && 0 <= x < s.board.width && 0 <= y < s.board.height
    ensures s.board.WellFormed() && s.board.width <= 255 && s.board.height <= 255 && 0 <= s.board.baseSize <= 255
    ensures var h := HeaderOf(s.board, s.rules);
            && h.version == 5 && h.rules == s.rules && h.tilemap.width == s.board.width && h.tilemap.height == s.board.height
            && h.tilemap.baseSize == s.board.baseSize && |h.tilemap.tiles| == s.board.width * s.board.height
            && 0 <= y * s.board.width + x < |h.tilemap.tiles|
            && h.tilemap.tiles[y * s.board.width + x] == s.board.At(Cell(x, y))
  {
    hide Disagrees, Thinned;
    Parts(s);
    FieldParts(s.board, s.now);
    IndexFits(x, y, s.board.width, s.board.height);
  }

  lemma AreaBound(w: nat, h: nat)
    requires w <= 255 && h <= 255
    ensures w * h <= 255 * 255
  {
    assert w * h <= w * 255 by {
      MultiplyMonotone(h, 256, w);
    }
  }

  // ---- The end marker ----

  function EndOf(v: C.Verdict): EndMarker {
    match v
    case Ongoing => EndMarker(Aborted, 0)
    case Victory(pid) => EndMarker(Completed, pid)
    case RuleDraw => EndMarker(Termination.RuleDraw, 0)
  }

  lemma {:induction false} WinnerIsAPlayer(events: seq<C.Event>, T: nat)
    requires T >= 1
    ensures var v := C.AfterAll(events, T).verdict; v.Victory? ==> v.winner == 1 || v.winner == 2
  {
    if events != [] {
      WinnerIsAPlayer(events[..|events| - 1], T);
    }
  }

  /** The end marker of any world is one that decodes. */
  lemma EndOfWorldFits(s: State)
    requires Valid(s)
    ensures EndFits(EndOf(s.verdict))
  {
    hide Disagrees;
    Parts(s);
    WinnerIsAPlayer(s.events, s.rules.captureTurnThreshold);
  }

  // ---- The recording of a game ----

  ghost predicate TwoPlayers(history: seq<A.Moment>) {
    forall t :: 0 <= t < |history| ==> |history[t].game.now.players| == 2
  }

  /** The frames of a game, one for each tick, with what was logged in it. */
  ghost function Frames(history: seq<A.Moment>, logs: seq<seq<LogEntry>>): (r: seq<Tick>)
    requires |logs| < |history| && TwoPlayers(history)
    ensures |r| == |logs|
  {
    seq(|logs|, t requires 0 <= t < |logs| => Frame(history[t + 1].tick, history[t + 1].game.now, logs[t]))
  }

  ghost predicate AllLogsWithin(logs: seq<seq<LogEntry>>) {
    forall t :: 0 <= t < |logs| ==> LogsWithin(logs[t])
  }

  lemma FramesFit(d: Dialect, history: seq<A.Moment>, logs: seq<seq<LogEntry>>)
    requires A.SafeSoFar(history) && |logs| < |history| && EitherDecoder(d)
    ensures TwoPlayers(history)
    ensures TicksFit(d, Frames(history, logs)) <==> AllLogsWithin(logs)
  {
    hide Valid, InOrder, LogsWithin, TickFits, Frame;
    forall t | 0 <= t < |history|
      ensures |history[t].game.now.players| == 2
    {
      Parts(history[t].game);
    }
    var frames := Frames(history, logs);
    forall t | 0 <= t < |logs|
      ensures TickFits(d, frames[t]) <==> LogsWithin(logs[t])
    {
      FrameFits(d, history[t + 1].game, history[t + 1].tick, logs[t]);
    }
    if TicksFit(d, frames) {
      forall t | 0 <= t < |logs|
        ensures LogsWithin(logs[t])
      {
        assert TickFits(d, frames[t]);
      }
    }
  }

  /** The encoder writes it: all sizes fit their fields. */
  ghost predicate Recordable(history: seq<A.Moment>, logs: seq<seq<LogEntry>>) {
    && |history| == |logs| + 1 && TwoPlayers(history) && Writable(Frames(history, logs))
    && var b := history[0].game.board;
       && 0 <= b.width <= 255 && 0 <= b.height <= 255 && 0 <= b.baseSize <= 255
       && HeaderSize(HeaderOf(b, history[0].game.rules)) < 0x1_0000
  }

  ghost function HeaderOfGame(history: seq<A.Moment>, logs: seq<seq<LogEntry>>): Header
    requires Recordable(history, logs)
  {
    HeaderOf(history[0].game.board, history[0].game.rules)
  }

  /** What recording a game writes. */
  ghost function Recording(history: seq<A.Moment>, logs: seq<seq<LogEntry>>): seq<u8>
    requires Recordable(history, logs)
  {
    ReplayBytes(HeaderOfGame(history, logs), Frames(history, logs), EndOf(history[|logs|].game.verdict))
  }

  ghost predicate TwoBits(tiles: seq<TileFlags>) {
    forall i :: 0 <= i < |tiles| ==> tiles[i].terrain < 4 && tiles[i].side < 4
  }

  /** Of a game, only the frames could be too large to write. */
  lemma GamesAreRecordable(history: seq<A.Moment>, logs: seq<seq<LogEntry>>)
    requires A.SafeSoFar(history) && |history| == |logs| + 1 && TwoBits(history[0].game.board.tiles)
    ensures TwoPlayers(history)
    ensures Recordable(history, logs) <==> Writable(Frames(history, logs))
  {
    hide Valid, InOrder, Frames, HeaderOf;
    forall t | 0 <= t < |history|
      ensures |history[t].game.now.players| == 2
    {
      Parts(history[t].game);
    }
    HeaderOfWorldFits(history[0].game);
  }

  /** The recording of a whole game, with its header, a frame for each tick and its end
      marker, decodes to exactly these values in either decoder if and only if the logs
      of every tick are within limits. The history is that of any run of a world. */
  lemma RecordingDecodes(d: Dialect, history: seq<A.Moment>, logs: seq<seq<LogEntry>>)
    requires A.SafeSoFar(history) && Recordable(history, logs) && EitherDecoder(d) && TwoBits(history[0].game.board.tiles)
    ensures var header, frames := HeaderOfGame(history, logs), Frames(history, logs);
            AllLogsWithin(logs) <==>
            Drive(d, AwaitHeader, Recording(history, logs))
            == Run([HeaderEvent(header, HeaderSize(header))]
                   + (TickEvents(frames) + [EndEvent(EndOf(history[|logs|].game.verdict))]), Ended([]))
  {
    hide Valid, InOrder, AllLogsWithin, TicksFit, Drive, Frames, ReplayBytes, TickEvents, Writable, HeaderOf;
    HeaderOfWorldFits(history[0].game);
    EndOfWorldFits(history[|logs|].game);
    FramesFit(d, history, logs);
    DecodesExactlyIfFits(d, HeaderOfGame(history, logs), Frames(history, logs), EndOf(history[|logs|].game.verdict));
  }

  /** The last event of that decoding names as winner exactly the player to whom the last
      state gives the game, and says exactly for a draw that it was one. */
  lemma RecordedResult(d: Dialect, history: seq<A.Moment>, logs: seq<seq<LogEntry>>, q: u8)
    requires A.SafeSoFar(history) && Recordable(history, logs) && EitherDecoder(d) && TwoBits(history[0].game.board.tiles)
    requires AllLogsWithin(logs) && 1 <= q <= 2
    ensures var last, run := history[|logs|].game, Drive(d, AwaitHeader, Recording(history, logs));
            && run.events != [] && Tells(run.events[|run.events| - 1], last.verdict, q)
            && TellsHistory(run.events[|run.events| - 1], last.events, last.rules.captureTurnThreshold, q)
  {
    hide Valid, InOrder, AllLogsWithin, Drive, Recording, Writable, Frames, HeaderOf, TickEvents, Tells, TellsHistory;
    RecordingDecodes(d, history, logs);
    EndSaysWhoWon(history[|logs|].game, q);
  }

  /** An end marker with winner q for q's victory, without one for a draw or an open game. */
  ghost predicate Tells(e: Event, v: C.Verdict, q: u8) {
    && e.EndEvent?
    && (e.end == EndMarker(Completed, q) <==> v == C.Victory(q))
    && (e.end == EndMarker(Termination.RuleDraw, 0) <==> v == C.RuleDraw)
    && (e.end == EndMarker(Aborted, 0) <==> v == C.Ongoing)
  }

  /** The same, told by the checks of the game: q won exactly if, with nothing decided
      before, at some check the other base had been threatened for T checks on end and
      q's had not. */
  ghost predicate TellsHistory(e: Event, events: seq<C.Event>, T: nat, q: u8)
    requires 1 <= q <= 2
  {
    && e.EndEvent?
    && (e.end == EndMarker(Completed, q) <==> C.Won(events, T, q))
    && (e.end == EndMarker(Termination.RuleDraw, 0) <==> C.DrawnByReferee(events, T))
    && (e.end == EndMarker(Aborted, 0) <==> C.Undecided(events, T, |events|))
  }

  lemma EndSaysWhoWon(s: State, q: u8)
    requires Valid(s) && 1 <= q <= 2
    ensures s.rules.captureTurnThreshold >= 1
    ensures Tells(EndEvent(EndOf(s.verdict)), s.verdict, q)
    ensures TellsHistory(EndEvent(EndOf(s.verdict)), s.events, s.rules.captureTurnThreshold, q)
  {
    hide Disagrees, Thinned;
    Parts(s);
    C.VerdictOfHistory(s.events, s.rules.captureTurnThreshold, q);
    C.OngoingMeansUndecided(s.events, s.rules.captureTurnThreshold);
  }
}
