# Core RTT

A Dafny model of the Core RTT simulator: the tick engine with its bullets,
simultaneous moves, capture rule and energy account; the replay format with its
encoder, the C++ decoder and the incremental TypeScript decoder; the searches behind
unit vision and the harvester program; the map loaders; the random number generator,
the bounded formatter and the task scheduler of the guest libraries.

Guest programs are adversaries: in every tick each device makes an arbitrary finite
sequence of calls, and what is said of games holds for all such sequences.

How the modules hang together:

- `Common`, `GameRules`, `TileCodec`, `TileMap`, `Sums`, `Counting`, `Numerals`:
  vocabulary and small facts.
- `MovementRule` is the written rule for simultaneous moves as a fixed point,
  `MoveResolution` the engine's steps that compute it.
- `Placement` says when units, bullets, rosters and the tile grid agree; `Flight`,
  `BulletPass` and `UnitMoves` show that flying, hitting, firing, dying and moving keep
  it so; `BulletBound` says how many bullets can fly, `Traces` what they leave behind, and
  `Ground` what moves, flights and hits do in terms of tiles and terrain.
  `Capture` and `Energy` are the counters and the energy account. `GameState`
  joins them into what holds of every reachable state, `Actions` says what programs can
  do, `Calls` what they are answered and what comes of it in the next tick, `Turns` in which
  order they act, and the class `World` carries it all out.
- `Wire`, `ReplayFormat`, `ReplayEncoder`: bytes and their writing. `ReplayParser` says
  what bytes mean in each decoder, `ReplayRoundTrip` and `ReplayStream` relate the two.
  `ByteReading` and `DecoderCore` are the TypeScript decoder, `CppDecoder` and `Playback`
  the C++ one with the loop that plays a file, `ReplayAgreement` compares them,
  `StreamAdapter` is what the C++ one reads from, `WorldFrame` is what a world writes, and
  `Layout` says at which offset every value is.
- `Vision`; `ShortestPath` and `Harvester`; `BaseMarking`, `TilemapText` and
  `TilemapBinary`; `Xoroshiro`; `Formatter`; `Scheduler`.

Methods follow the source's steps and are proved against functions or relations on
values; what the source promises is proved of those.

## Where the code and its documentation differ

The model follows the code.

- The jump functions are documented as 2^64 and 2^96 calls of `next`. They add the state
  they start from in every step rather than the advancing one, so they compute another
  sum of powers of the state map (`JumpIsPowers`, `JumpPowersAre`).
- A text map is described as having two bases; the loader accepts none or one
  (`AssignSides`, `TextWithoutBases`). Two squares of one size are rejected if the top row of one runs into
  the other. A text that ends within a line is filled up with that line
  (`LastRowRepeats`).
- A binary map is described as having both bases and zero reserved bits; neither is
  checked, and a base size of 0 can come with a base tile (`BaseSizeZeroIsAccepted`).
  When a game can start on an accepted map, of either form, is said exactly
  (`ProperMapStartsGame`, `AcceptedMapStartsGame`).
- The replay format describes two ways a game can end; the code has a third, a draw by
  the rules.
- `canReadNextRecord` accepts an end record one byte early (`EndRecordIsTriedEarly`).
- Playback reports a truncated file only once it has met the end of the file. In front of
  a record of unknown type it does not read on, so it can wait forever
  (`UnknownRecordPlays`, `PlaybackCanWait`).
- Logs are limited by their bytes when they are made and by their number when they are
  decoded, so a recorded frame can be one that both decoders reject (`FrameDecodes`,
  `OneDeviceOverflowsTheLogs`).
- A bullet that ends at a wall or the map edge leaves its old tile marked
  (`MarkStaysAtWalls`, `MarkedBySpentBullet`); for bullets only one direction of the
  agreement with the grid holds.
- Energy is narrowed to 16 bits before it is capped (`ChargeSaturates`,
  `FullUnitIsEmptied`).
- An attack on an obstacle, or one used up at once, stays pending and is made again
  (`AttackIsOverIfItFlies`, `OneShotHitsTwice`).
- The bounded formatter is documented to return the number of characters that would have
  been written; it returns the number stored (`VfmtStr`).
- Numbers from 2^31 on are printed without digits, and pointers with the lowest digit
  first (`DigitsDenote`, `WritePointer`).

## Model

| member | source | states |
|---|---|---|
| `MovementRule.WinnersIsGreatestFixedPoint` | src/world.cpp:289-310 | The moves that succeed under the recursive rule (target free, wanted by nobody else, an occupant that moves on and not head-on) are the greatest set of moves that justifies itself, and a move is in it exactly when the rule allows it given the others. |
| `MovementRule.RingMoves` | src/world.cpp:289-310 | Three or more units that move round a ring all succeed. |
| `MovementRule.HeadOnStays` | src/world.cpp:297-299 | Two units that move into each other both stay. |
| `MovementRule.DestinationsAreDistinct` | src/world.cpp:449-484 | After the successful moves no two units share a cell; movers enter free cells, and whoever stood there has left. |
| `MoveResolution.CancelShared` | src/world.cpp:402-427 | The counting step cancels exactly the moves whose target another active move shares. |
| `MoveResolution.Propagate` | src/world.cpp:429-447 | The worklist keeps a set of moves none of which depends on a cancelled one and that contains every such set; it terminates on the queue length plus the number of active moves. |
| `MoveResolution.CancelDependents` | src/world.cpp:438-447 | Taking one entry off the queue cancels its active dependents, queues each of them once and keeps every set that could still survive. |
| `MoveResolution.StepsComputeTheRule` | src/world.cpp:312-447 | Scan, dependency lists, shared targets and propagation together keep exactly the moves that the recursive rule lets succeed. |
| `MoveResolution.IntentsIgnoreOrder` | src/world.cpp:312-369 | Only which units there are and what they want matters, not their order in the list. |
| `UnitMoves.OrderOfUnitsIsIrrelevant` | src/world.cpp:312-447 | Permuting the unit list changes nobody's move. |
| `UnitMoves.RelocationKeepsField` | src/world.cpp:449-484 | Carrying out the successful moves in two passes leaves grid, unit list, bullets and rosters in agreement. |
| `UnitMoves.MoversStepAsRequested` | src/world.cpp:449-484 | Each unit stays or makes exactly the step it asked for, onto a cell on the board whose terrain is neither water nor obstacle, that named no bullet and that is shared with no unit. |
| `Ground.UnitMovesIfWayIsOpen` | src/world.cpp:312-447 | A unit changes its cell for c if and only if it asks for that neighbour, c is a tile of the board that is neither water nor obstacle and names no bullet, nobody else asks for c, and a unit on c moves away and not head-on. |
| `Ground.LoneMoverGetsThere` | src/world.cpp:312-447 | A unit alone in asking for an unoccupied tile of any other terrain ends there. |
| `UnitMoves.CarriedOut` | src/world.cpp:449-484 | Intents reset, tiles left, tiles entered amounts to the relocation by the rule. |
| `World.World.RemoveDestroyedUnits` | src/world.cpp:260-287 | Dead units leave the list, their roster slots and their tiles, and nothing else changes. |
| `World.World.CollectIntents` | src/world.cpp:312-369 | The first scan finds the targets and the moves that pass the tests on board and occupant. |
| `World.World.BuildDependencies` | src/world.cpp:371-400 | Each list holds exactly the active units that wait for its unit; the search for the occupant always finds one. |
| `World.World.LeaveTiles` | src/world.cpp:454-460 | The first pass unmarks exactly the tiles of moving units. |
| `World.World.EnterTiles` | src/world.cpp:462-484 | The second pass puts each moving unit on its target and marks it, and touches no other tile. |
| `World.World.ProcessUnitMovement` | src/world.cpp:260-484 | The movement step relocates the living by the recursive rule and keeps grid and lists in agreement. |
| `World.World.HandleBulletCollision` | src/world.cpp:216-258 | What is left of the damage and the state after a hit are those of the collision function; a serial that is no longer listed counts as a spent bullet. |
| `World.World.MoveBulletOneStep` | src/world.cpp:183-214 | One step of a bullet, with walls and the map edge leaving the old tile marked. |
| `World.World.CommitAttackOf` | src/world.cpp:761-795 | A pending attack becomes a bullet, hits at once or stays pending; aiming off the board is reported instead of read out of bounds. |
| `World.World.ProcessBulletMovement` | src/world.cpp:157-181 | A step of all bullets, the pending attacks, four more steps, removal of spent bullets. |
| `Flight.CollisionKeepsField` | src/world.cpp:216-258 | A hit keeps grid, lists and rosters in agreement. |
| `Flight.StepKeepsField` | src/world.cpp:183-214 | So does a step of a bullet. |
| `BulletPass.PassKeepsField` | src/world.cpp:157-181 | So does a whole bullet pass. |
| `BulletPass.PassConservesDamage` | src/world.cpp:157-258 | Over a bullet pass, damage before plus damage spawned is damage after plus health lost by units plus twice what bullets cancelled plus what walls took. |
| `BulletPass.SurvivorsTravelFive` | src/world.cpp:157-214 | Every bullet left has come exactly five tiles from its old tile or from its shooter, over clear cells only. |
| `Ground.SurvivorsFlewOverOpenTiles` | src/world.cpp:157-214 | The five cells that a bullet left after a pass has flown in its direction are all on the board and none an obstacle. |
| `Ground.LoneBulletFliesFive` | src/world.cpp:157-214 | A bullet with nothing else about and five free cells on the board before it, no obstacles, is five cells on after a pass, as strong as before. |
| `Ground.LoneBulletIsSpent` | src/world.cpp:188-203 | One in front of an obstacle or the edge is gone after a pass, and nobody was hurt. |
| `Ground.BulletFliesOn` | src/world.cpp:183-214 | Among others too, a bullet flies over an unoccupied tile that is no obstacle with what it has, and marks it instead of its old one. |
| `Ground.WallSpendsBullet` | src/world.cpp:188-203 | Among others too, a bullet at an obstacle or the edge is spent, and nothing else changes. |
| `Ground.ConvoyFlies` | src/world.cpp:157-214 | Of two bullets one right behind the other, if the one in front is older, both fly on. |
| `Ground.ConvoyCollides` | src/world.cpp:157-214 | If the one behind is older, it hits the other and only the difference of their damage is left: bullets move in the order of the list. |
| `Ground.EarlierShotIsOver` | src/world.cpp:761-795 | Of two units that shoot at one free tile, the shot of the one listed first is over, the other's exactly if it was stronger. |
| `Ground.UnitIsHit` | src/world.cpp:225-239 | A unit loses what hits it down to 0, the hit that much; only a hit that is stronger clears tile and roster slot. |
| `Ground.BulletIsHit` | src/world.cpp:240-256 | Two bullets take each other's strength off; one left with none vacates the tile. |
| `Ground.ShotBecomesBullet` | src/world.cpp:773-795 | A shot at a free tile that is no obstacle becomes a bullet there of the shooter with the attack's damage and direction, and the attack is over. |
| `Ground.ShotAtWall` | src/world.cpp:761-780 | A shot at an obstacle does nothing and one aimed off the board aborts. |
| `BulletPass.PassKeepsBodies` | src/world.cpp:157-258 | A bullet pass moves no unit, touches no energy and heals nobody. |
| `BulletPass.AimedAttacksNeverAbort` | src/world.cpp:761-771 | If all pending attacks aim at the board, the pass goes through. |
| `Traces.MarkStaysAtWalls` | src/world.cpp:183-203 | After its step, a bullet is still named by the tile it was on exactly if the next cell is off the board or an obstacle. |
| `Traces.MarkedBySpentBullet` | src/world.cpp:188-199 | A field in agreement whose tile names a spent bullet. |
| `Traces.AttackIsOverIfItFlies` | src/world.cpp:761-795 | After a pending attack on a cell of the board nothing is pending exactly if that cell is clear and what its tile names is weaker than the attack. |
| `Traces.OneShotHitsTwice` | src/world.cpp:783-786 | One shot, paid once, does its damage in two passes. |
| `World.World.CheckCaptureCondition` | src/world.cpp:491-515 | More live enemies than own live units stand in the base. |
| `World.World.CheckBaseCaptureCondition` | src/world.cpp:486-539 | One check is one event of the capture machine. |
| `World.World.MarkRuleDraw` | src/world.cpp:829-835 | A draw is recorded only in an undecided game. |
| `Capture.CounterIsCutOffRun` | src/world.cpp:510-526 | While a game goes on, each counter is the smaller of the current run of checks in capture condition and the threshold less one. |
| `Capture.VictoryMeansOneLongRun` | src/world.cpp:518-538 | A check gives the game to q exactly when the other base's run has reached the threshold and q's has not; it goes on exactly when both or neither have. |
| `Capture.VerdictOfHistory` | src/world.cpp:129-143 | Of a whole history, q has won exactly if, with nothing decided before, at some check the other base had been threatened for a threshold of checks on end and q's had not; it is a draw exactly if a referee declared one with nothing decided before. |
| `Capture.RunIsLastChecks` | src/world.cpp:510-516 | A run is at least n long exactly if the last n events are checks that found the base threatened. |
| `Capture.VerdictIsFinal` | src/world.cpp:129-143 | No later event changes a verdict. |
| `Actions.CountersAreRuns` | src/world.cpp:486-539 | The same of the counters of any reachable game. |
| `Actions.CheckDecides` | src/world.cpp:486-539 | The same of the check made in any reachable game. |
| `Calls.CaptureConditionCounts` | src/world.cpp:486-515 | A base is in capture condition exactly if there are more living enemies than living own units among those inside its square. |
| `Calls.TickChecksOnce` | src/world.cpp:129-155 | A tick makes one check of both bases, of the units as the moves have left them, and one that decides the game collects and buys nothing. |
| `Turns.BasesActFirst` | src/world.cpp:147-154 | After the check and the energy the base of player 1 acts, then that of player 2, each on its own purse and for health and upgrades alone; each adds at most one unit, at the end of the list, and all units then take their turns. |
| `Turns.LaterCallsDoNotMatter` | src/world.cpp:151-154 | What the first n units of the list do and get in a tick does not depend on what the later ones call. |
| `Turns.TurnCools` | src/entity.cpp:55-62 | A unit shoots in its turn only if it had at most one turn to cool, and is then as hot as a shot makes it; otherwise it cools by one. |
| `World.World.CollectEnergy` | src/world.cpp:541-562 | Every unit collects, capped after the sum has been narrowed to 16 bits, and the accounts of what was collected and of what was lost grow by the totals. |
| `Energy.ChargeSaturates` | src/world.cpp:555-560 | A unit is filled to exactly its capacity if and only if the narrowed sum is not smaller than it should be; a capacity of at most 65279 rules the other case out. |
| `Calls.CollectingGains` | src/world.cpp:541-562 | A unit gains 1 in every tick that the natural rate divides and the zone's rate on a resource tile, and keeps what it can carry of the sum narrowed to 16 bits. |
| `Energy.FullUnitIsEmptied` | src/world.cpp:558-560 | A full unit with a capacity of 65535 is emptied by gaining 1. |
| `Energy.DeadTakeTheirs` | src/world.cpp:281-287 | What the living and the dead hold is what all held: the dead take theirs with them. |
| `GameState.EnergyIsBoundedAndConserved` | src/runtime.cpp:348-491 | In every valid state no unit holds more than its capacity or health than allowed, and the energy collected is exactly what is held, what was spent and what was lost: overflow of units and bases, wrapped sums, and the energy of the dead. |
| `World.World.EcallFire` | src/runtime.cpp:348-384 | Result and effect of fire. |
| `Calls.FireAnswers` | src/runtime.cpp:348-384 | When a shot is accepted, and what it is answered otherwise, with no other effect. |
| `Calls.AcceptedShot` | src/runtime.cpp:348-384 | It costs its power, heats the unit up, and aims at the neighbour that differs by (0,-1), (1,0), (0,1) or (-1,0) for directions 0 to 3, which is the guest library's next cell in that direction. |
| `WorldFrame.RecordedDirection` | src/replay.cpp:715-729 | The direction byte of a bullet recorded of an accepted shot is the direction the guest gave. |
| `World.World.EcallMove` | src/runtime.cpp:386-409 | Result and effect of a move request. |
| `Calls.MoveAnswers` | src/runtime.cpp:386-409 | One request a tick is granted; a direction that does not exist takes an earlier one back; nothing but the request changes. |
| `Calls.AcceptedMoveGoesThere` | src/runtime.cpp:386-409 | If the next tick moves the unit of an accepted request, its cell changes by (0,-1), (1,0), (0,1) or (-1,0) for directions 0 to 3, to the cell that the search of the guest library calls the next one in that direction. |
| `Calls.TickMovesAsAsked` | src/world.cpp:129-155 | What a unit asks for outlasts the bullets of the tick; it then stays or steps to the neighbour it asked for. |
| `World.World.EcallDeposit` | src/runtime.cpp:411-450 | Result and effect of a deposit; what the base cannot hold is lost. |
| `Calls.DepositAnswers` | src/runtime.cpp:411-450 | One transfer a tick, of at least 1 and at most what there is, in the own base; the base keeps up to 65535 and the rest is lost. |
| `World.World.EcallWithdraw` | src/runtime.cpp:452-491 | Result and effect of a withdrawal; what the unit cannot carry is lost. |
| `Calls.WithdrawAnswers` | src/runtime.cpp:452-491 | The same from the base; the unit keeps what it can carry. |
| `World.World.ManufactureUnit` | src/world.cpp:564-589 | A unit with an unused number appears on an empty tile of the base for its price, or nothing changes; the call aborts exactly when everything is right for it but no tile is empty. |
| `Calls.ManufactAnswers` | src/world.cpp:564-636 | The new unit has full health, no energy, no upgrade and nothing to do, and stands on an unoccupied tile of the base; when the call is refused and how. |
| `World.World.SpawnUnitAtBase` | src/world.cpp:591-618 | The tile chosen is an empty one of the base; it fails only if there is none. |
| `World.World.SpawnUnit` | src/world.cpp:620-636 | The new unit is listed, in its roster slot and on its tile. |
| `World.World.RepairUnit` | src/world.cpp:638-675 | Result and effect of a repair. |
| `Calls.RepairAnswers` | src/world.cpp:638-675 | All missing health for two energy a point, of a unit of the player in its base; refusals in the source's order. |
| `World.World.UpgradeUnit` | src/world.cpp:677-741 | Result and effect of an upgrade. |
| `Calls.UpgradeAnswers` | src/world.cpp:677-741 | Upgrades 0, 1 and 2 are capacity, vision and damage, each bought once at its own price; refusals in the source's order. |
| `World.World.UnitCall` | src/runtime.cpp:284-491 | Each call of a unit's program has its effect, the calls for bases none. |
| `World.World.BaseCall` | src/runtime.cpp:284-346 | Each call of a base's program has its effect at most once per tick, the calls for units none; it aborts exactly when a new unit finds no tile. |
| `Calls.BaseCallsActOnIds` | src/runtime.cpp:284-346 | Of a kind that has not yet succeeded in the tick, a call with 8-bit numbers is that manufacture, repair or upgrade; of one that has, it is refused. |
| `Calls.NarrowedNumbers` | src/runtime.cpp:284-346 | Larger numbers of units and upgrades are taken modulo 256. |
| `Actions.OneOfEachPerTick` | src/runtime.cpp:348-491 | Whatever sequence of calls a unit's program makes in a tick, at most one move, one transfer and one shot succeed. |
| `Actions.OneOfEachPerBase` | src/runtime.cpp:284-346 | Whatever a base's program calls, at most one new unit, one repair and one upgrade succeed. |
| `World.World.FindBases` | src/world.cpp:97-114 | The column-by-column scan finds the corners of both bases. |
| `World.World.Open` | src/world.cpp:83-122 | A game opens in a valid state, and being in a base agrees with the tile flags everywhere on the board. |
| `World.World.PlaceFirstUnits` | src/world.cpp:121-127 | Three fresh units stand in each base. |
| `World.World.Step` | src/world.cpp:129-155 | A tick is the bullets, the moves, the check and, if the game goes on, the energy and the programs of bases and units in order; a decided game does not change. It aborts only when an attack aims off the board or a base without an empty tile makes a unit. |
| `World.World.Run` | src/world.cpp:129-155 | For any number of ticks, any calls by every device and any draws: every state on the way is valid and in order, each follows from the one before, no verdict changes, and the run ends early only before a tick that can abort. |
| `Turns.TicksAreCounted` | src/cli/main.cpp:199-216 | A game open after t ticks has counted all of them and nobody declared a draw; a drawn game was declared so at its last tick. |
| `Turns.TickIsNoDraw` | src/world.cpp:129-155 | No tick by itself ends a game in a draw. |
| `GameState.MovingKeepsValid` | src/world.cpp:157-484 | Bullets and moves keep a game valid. |
| `GameState.OneToATile` | src/world.cpp:129-287 | In every valid state, units and flying bullets are each alone on a tile of the board that names them, and a tile names no unit that is not there. |
| `GameState.RosterMirrorsUnits` | src/world.cpp:260-287 | A roster slot is taken exactly when its unit is on the board. |
| `GameState.AtMostFifteenEach` | src/world.cpp:564-589 | Nobody ever has more than 15 units. |
| `GameState.ValidIsInOrder` | src/world.cpp:129-155 | What every state of every run satisfies: each thing alone on its tile, energy bounded and accounted for, at most 15 units each, at most 1530 bullets. |
| `WorldFrame.FromWorldState` | src/replay.cpp:679-732 | The frame of a tick lists the living units and the flying bullets of the world. |
| `WorldFrame.FrameShowsUnits` | src/replay.cpp:694-713 | A frame shows every unit once, at its own cell, and at most 30 of them. |
| `WorldFrame.FrameSaysOfUnit` | src/replay.cpp:694-713 | An entry has the unit's number, player, cell, health, cooldown and energy, and one bit for each upgrade. |
| `WorldFrame.FrameSaysOfPlayers` | src/replay.cpp:679-692 | A frame has the energy of both bases and their capture counters, cut off at 255. |
| `WorldFrame.FrameSaysOfBullet` | src/replay.cpp:715-731 | An entry has the bullet's cell, direction, player and damage, directions counted clockwise from up. |
| `WorldFrame.FrameBulletsAreApart` | src/replay.cpp:715-731 | A frame shows no more bullets than the board has tiles. |
| `BulletBound.PassThins` | src/world.cpp:157-181 | After a pass, the bullets with n cells ahead of them are no more than those with n + 5 before it and one for each unit. |
| `BulletBound.PassKeepsThinned` | src/world.cpp:157-181 | So a pass keeps it that at most 30 * (51 - k) bullets have 5 * k cells ahead, for every k. |
| `BulletBound.FewFly` | src/world.cpp:157-181 | Never more than 1530 bullets fly at once. |
| `WorldFrame.FrameFits` | src/replay.cpp:236-328 | The frame of any reachable world is within the limits of either decoder exactly if it has at most 64 logs and each is within them. |
| `WorldFrame.FrameDecodes` | src/replay.cpp:181-328 | Whatever is logged, the payload of such a frame decodes to the frame exactly then; more than 64 logs are reported as too many. |
| `WorldFrame.LogsStayWithinQuota` | src/runtime.cpp:32-60 | Log calls append entries of 1 to 512 bytes, all together within the quota of bytes. |
| `WorldFrame.AllAreLogged` | src/runtime.cpp:32-60 | Every log call appends its entry if and only if each is of 1 to 512 bytes and the quota covers all of them. |
| `WorldFrame.OneDeviceOverflowsTheLogs` | src/runtime.cpp:32-60 | The quota does not limit their number: one device can log 65 single bytes in its first tick, and both decoders reject that frame. |
| `WorldFrame.RecordingDecodes` | src/cli/main.cpp:181-222 | The header, the frames of all ticks of a game and its end marker decode to exactly these in either decoder if and only if the logs of every tick are within limits. |
| `WorldFrame.RecordedResult` | src/replay.cpp:740-757 | The last event of the decoding has winner q exactly if q has won the game, told by its checks, says draw exactly if it was declared one, and aborted exactly if nothing was decided. |
| `WorldFrame.GamesAreRecordable` | src/cli/main.cpp:181-222 | Of any game on a map of two-bit tiles everything can be written but, possibly, frames with too much logged. |
| `WorldFrame.HeaderOfWorldFits` | src/replay.cpp:330-342 | The header of any world fits its 16-bit size field and both decoders. |
| `WorldFrame.HeaderSaysOfWorld` | src/replay.cpp:649-671 | It has the sizes of the board, its tiles row by row and the rules. |
| `WorldFrame.EndOfWorldFits` | src/replay.cpp:740-757 | The end marker of any world is one that decodes. |
| `TileCodec.UnpackPack` | src/tile_codec.cpp:5-21 | Packing a tile loses nothing exactly when terrain and side fit two bits. |
| `TileCodec.PackUnpack` | src/tile_codec.cpp:5-21 | Unpacking ignores the two reserved bits and nothing else. |
| `Layout.TileByte` | src/tile_codec.cpp:5-21 | Terrain in bits 0 and 1, side in bits 2 and 3, resource in bit 4, base in bit 5. |
| `Wire.WriteBuffer.PatchU32` | src/buffer.cpp:39-51 | Patching overwrites four bytes and leaves the others. |
| `ReplayEncoder.EncodeHeader` | src/replay.cpp:330-342 | The header encoder appends exactly the header's bytes. |
| `ReplayEncoder.EncodeTick` | src/replay.cpp:181-234 | The tick encoder appends exactly the tick's bytes, the size field patched in afterwards. |
| `ReplayEncoder.EncodeEndMarker` | src/replay.cpp:344-351 | The end marker encoder appends exactly its bytes. |
| `Layout.HeaderLayout` | src/replay.cpp:330-342 | At which offset of a header each value is, little-endian. |
| `Layout.RulesLayout` | src/replay.cpp:86-96 | The same of the rules. |
| `Layout.TickLayout` | src/replay.cpp:181-234 | The same of a tick record, whose size field is the size of what follows it. |
| `Layout.EntryLayouts` | src/replay.cpp:124-234 | The same of units, bullets and logs. |
| `Layout.UnitAt` | src/replay.cpp:206-212 | The i-th unit of a tick is nine bytes from offset 9 * i of the list. |
| `Layout.BulletAt` | src/replay.cpp:214-220 | The i-th bullet is five bytes from offset 5 * i. |
| `Layout.CountLimits` | src/replay.cpp:236-328 | Decoders report more than 30 units, 4096 bullets or 64 logs, and nothing less. |
| `Layout.LogPayloadLimit` | src/replay.cpp:141-179 | The same of log texts of more than 512 bytes. |
| `Layout.HeaderCodes` | src/replay.cpp:391-408 | Both decoders report another magic than CRPL and another version than 5 as such. |
| `Layout.LogCodes` | src/replay.cpp:141-159 | They report log sources above 1 and kinds above 4. |
| `Layout.EndCodes` | src/replay.cpp:353-389 | They report reasons above 2, a completed game without winner 1 or 2, and a winner of any other. |
| `Layout.MapLimits` | src/replay.cpp:59-83 | The C++ decoder takes maps of up to 512 tiles a side, the script decoder of up to 256. |
| `Layout.ShortInputs` | src/replay.cpp:236-328 | What each decoder says to parts that end before their fixed fields. |
| `Layout.MissingBodies` | src/replay.cpp:236-328 | What each says to lists, tiles and texts that are announced but not there. |
| `ReplayRoundTrip.HeaderRoundTrip` | src/replay.cpp:330-427 | A header within a decoder's limits decodes to itself, and its size field is the number of bytes that follow. |
| `ReplayRoundTrip.PayloadRoundTrip` | src/replay.cpp:181-328 | A tick within a decoder's limits decodes to itself. |
| `ReplayRoundTrip.TooManyLogsAreRejected` | src/replay.cpp:310-317 | A tick with more logs than a decoder takes is rejected for that reason. |
| `ReplayRoundTrip.EndRoundTrip` | src/replay.cpp:344-389 | An end marker decodes to itself exactly when its winner goes with its reason. |
| `ReplayStream.TickRecordRoundTrip` | src/replay.cpp:181-234 | A tick record is read back in front of anything, and its patched size is the number of payload bytes taken. |
| `ReplayStream.ReplayDecodes` | src/replay.cpp:893-946 | The concatenated encodings of a header, ticks and an end marker decode to exactly these values in both decoders, whatever follows. |
| `ReplayStream.DecodesExactlyIfFits` | src/replay.cpp:893-946 | Whatever ticks the encoder writes, the replay decodes to exactly its values if and only if every tick is within the limits. |
| `ReplayStream.ChunksDoNotMatter` | js/corereplay/src/stream.ts:9-40 | However bytes are cut into chunks, the events and the outcome are those of one piece. |
| `ReplayStream.DriveMore` | js/corereplay/src/decoder_core.ts:43-132 | Bytes that arrive later continue a run exactly where it waited, and change nothing in one that ended or failed. |
| `ReplayStream.CutInHeader` | js/corereplay/src/decoder_core.ts:65-82 | A replay cut off inside its header yields nothing and is not an error yet. |
| `ReplayStream.CutInRecord` | js/corereplay/src/decoder_core.ts:84-132 | Cut off later, it yields the header and exactly the ticks before the cut. |
| `ByteReading.ParseHeaderAt` | js/corereplay/src/internal/parse_header.ts:20-51 | The header parser decodes what the format says, with the same errors. |
| `ByteReading.ParseTilemapAt` | js/corereplay/src/internal/parse_header.ts:53-93 | So does the tilemap parser. |
| `ByteReading.ParseTickPayload` | js/corereplay/src/internal/parse_tick.ts:30-113 | So does the tick parser. |
| `ByteReading.ParseLogEntry` | js/corereplay/src/internal/parse_tick.ts:115-152 | So does the log parser. |
| `ByteReading.ParseEndMarkerAt` | js/corereplay/src/internal/parse_end.ts:10-51 | So does the end marker parser. |
| `DecoderCore.ReplayDecoderCore.Push` | js/corereplay/src/decoder_core.ts:43-55 | A push appends to the unread bytes. |
| `DecoderCore.ReplayDecoderCore.Compact` | js/corereplay/src/decoder_core.ts:175-185 | Compaction changes neither the unread bytes nor the position, and leaves less than half of the buffer read. |
| `DecoderCore.ReplayDecoderCore.Read` | js/corereplay/src/decoder_core.ts:57-132 | A read is one step on the unread bytes; an error moves nothing. |
| `DecoderCore.ReplayDecoderCore.Finalize` | js/corereplay/src/decoder_core.ts:148-173 | Without a header or, if strict, without an end marker it fails; otherwise an aborted end is made up. |
| `DecoderCore.DecodeReplay` | js/corereplay/src/decode.ts:8-41 | The one-shot decoder returns the header, ticks and end of the run over its input, or that run's error. |
| `DecoderCore.DecodeReplayStream` | js/corereplay/src/stream.ts:9-40 | The events and the error of the streaming decoder are those of the run over the joined chunks, strict or not. |
| `DecoderCore.DecodeReplayFromStream` | js/corereplay/src/decode.ts:43-70 | Collecting the stream gives what the one-shot decoder gives on the joined chunks. |
| `DecoderCore.CompleteAnswers` | js/corereplay/src/decode.ts:34-35 | A decoder that throws nothing has a header and an end marker: the assertions hold. |
| `DecoderCore.EncodedReplayDecodes` | js/corereplay/src/decode.ts:8-41 | Encoding a replay and decoding it gives the replay back. |
| `DecoderCore.CutReplayDecodes` | js/corereplay/src/decoder_core.ts:148-173 | A replay cut inside a record gives its complete ticks and an aborted end, or, strictly, an error. |
| `Playback.DecodeReplayHeader` | src/replay.cpp:391-427 | The C++ header decoder decodes what the format says, with its own error for each kind of truncation. |
| `CppDecoder.DecodeReplayTickPayload` | src/replay.cpp:236-328 | So does its tick decoder. |
| `CppDecoder.DecodeLogEntry` | src/replay.cpp:141-179 | So does its log decoder. |
| `Playback.DecodeReplayEndMarker` | src/replay.cpp:353-389 | So does its end marker decoder. |
| `Playback.ReplayStreamDecoder.CanReadHeader` | src/replay.cpp:813-828 | A header is readable exactly when all of it is there. |
| `Playback.ReplayStreamDecoder.CanReadNextRecord` | src/replay.cpp:830-855 | A record is readable exactly when the run can take a step; if not, the stream has ended or a record of unknown type is in front. |
| `Playback.ReplayStreamDecoder.NextTick` | src/replay.cpp:893-946 | Reading a record gives its value or its error, and leaves the bytes after it. |
| `Playback.EndRecordIsTriedEarly` | src/replay.cpp:838-840 | A readable record turns out truncated exactly when it is an end record of which one byte is missing. |
| `Playback.Play` | src/cli/main.cpp:76-153 | Playing publishes the run of reads over the file, with a missing header or end marker reported; but before a record of unknown type it waits while the end of the file has not been met, until the user stops it, after any number of rounds. Of a file delivered in blocks this is so exactly if the block of 4096 bytes with that type in it is complete. |
| `Playback.PlayRecords` | src/cli/main.cpp:99-150 | The same of the loop after the header, for any patience of the user. |
| `Playback.UnknownRecordPlays` | src/replay.cpp:830-855 | A replay that goes on with a record of unknown type is played up to there; then it waits forever if the 4096 bytes around that type are all there, and is reported as truncated otherwise. |
| `Playback.PlaybackCanWait` | src/cli/main.cpp:129-147 | A header of 54 bytes, the byte 2 and 5000 more make a playback that never ends; with 4000 more it ends. |
| `ReplayAgreement.DecodersAgree` | js/corereplay/src/internal/parse_header.ts:17-18 | A file is complete for the script decoder exactly when it is for the C++ one and its map is at most 256 tiles a side; both then give the same values. |
| `StreamAdapter.IstreamAdapter.EnsureBuffered` | src/stream_adapter.cpp:113-140 | Buffering succeeds exactly when the contents go on that far, for any sizes of the pieces; of a file exactly the blocks that were reached into are read, and its end is met exactly if they go beyond it. |
| `StreamAdapter.IstreamAdapter.CompactBuffer` | src/stream_adapter.cpp:142-153 | Compaction keeps the buffer a window of the contents at the same position, its unread part as it is and less than half of it read. |
| `StreamAdapter.IstreamAdapter.Take` | src/stream_adapter.cpp:83-93 | Taking copies the next bytes of the contents and moves on. |
| `StreamAdapter.IstreamAdapter.End` | src/stream_adapter.cpp:106-111 | The end is reported exactly at the end of the contents. |
| `StreamAdapter.SameAnswers` | src/stream_adapter.cpp:15-153 | For any contents, any delivery in pieces or blocks and any script of calls, both adapters give the same answers. |
| `Vision.VisibleTiles` | src/entity.cpp:64-112 | A window cell is visible exactly if it is on the board and a 4-connected walk inside the window joins it to the centre whose earlier cells are on the board and no obstacles; the search ends although cells are queued repeatedly. |
| `Vision.WindowIsCentred` | src/entity.cpp:64-82 | The window's centre is the unit's own cell, its cells are those around it row by row, and steps in it are steps on the board. |
| `Vision.SeenIsInSight` | src/entity.cpp:64-112 | Window cell (i, j) is visible exactly if board cell (x - range/2 + i, y - range/2 + j) is on the board and a walk of neighbouring board cells leads there from the unit's own, within the window and over tiles that are no obstacles. |
| `Vision.SeesItself` | src/entity.cpp:64-112 | A unit on the board always sees its own tile. |
| `Vision.LookOn` | src/entity.cpp:76-112 | One round of the search keeps what arrays and queue say and brings it nearer to its end. |
| `Vision.SeeOpen` | src/entity.cpp:84-111 | Expanding an open cell keeps what is known of seen and queued cells. |
| `Vision.NothingMore` | src/entity.cpp:76-112 | With an empty queue exactly the reached cells have been seen. |
| `Harvester.Search.FillRandomDirOrder` | corelib/example/harvester.c:187-199 | The shuffled order is a permutation of the four directions for any random numbers. |
| `Harvester.IsTargetCell` | corelib/example/harvester.c:201-218 | The target test of each mode. |
| `Harvester.TargetsMean` | corelib/example/harvester.c:201-218 | In terms of the remembered map: resources; base tiles if any is known, else the given cell; cells next to unknown ones. |
| `Harvester.EnterableMeans` | corelib/example/harvester.c:82-150 | A cell can be entered exactly if it is remembered as neither water nor obstacle and no other unit was sensed there. |
| `Harvester.WalksStayOnKnownGround` | corelib/example/harvester.c:82-150 | No step of a walk enters a cell that is unknown, water, an obstacle or taken. |
| `Harvester.Search.Expand` | corelib/example/harvester.c:248-265 | Expanding a cell queues its unvisited walkable neighbours with their first steps; the queue never exceeds the map. |
| `Harvester.Search.BfsDirToMode` | corelib/example/harvester.c:220-271 | The search finds a nearest target and the first step of a shortest walk to it, or that there is none. |
| `Harvester.Search.PointDir` | corelib/example/harvester.c:289-344 | The same for one cell, which must be walkable or the unit's own. |
| `Harvester.FoundMeans` | corelib/example/harvester.c:239-270 | -1 says exactly that the start is itself a target or that none can be reached; any other direction begins a shortest walk to a nearest target. |
| `ShortestPath.WalkIsQueued` | corelib/example/harvester.c:239-266 | Any walk not longer than the distance of the head ends in a queued cell that is no farther than the walk is long. |
| `ShortestPath.HeadIsNearest` | corelib/example/harvester.c:239-246 | The first target taken from the queue is a nearest one. |
| `ShortestPath.NoTargetReached` | corelib/example/harvester.c:268-270 | A queue used up without a target means no walk leads to one. |
| `ShortestPath.QueueFits` | corelib/example/harvester.c:257-264 | The queue holds at most one entry per cell. |
| `BaseMarking.MarkSquare` | src/tilemap.cpp:323-337 | Marking succeeds exactly if all cells of the square are base tiles of the map, and marks exactly these. |
| `BaseMarking.AssignSides` | src/tilemap.cpp:283-341 | Bases are found exactly if the base tiles are at most two squares of one size with no base tile right of their top rows; they are numbered in scan order. |
| `BaseMarking.SquaresAreUnique` | src/tilemap.cpp:283-341 | The squares and their size are determined by the base tiles. |
| `TilemapText.LoadText` | src/tilemap.cpp:216-344 | A text is accepted exactly if header, lines and bases give a map, and that map is the result. |
| `Layout.TileCharacters` | src/tilemap.cpp:252-277 | The five characters and their tiles. |
| `TilemapText.ProperMapHasSquareBases` | src/tilemap.cpp:283-343 | The base tiles of an accepted map are at most two squares of its base size that do not meet, the first in scan order of player 1, the second of player 2, and no other tile has a side. |
| `TilemapText.AcceptedMapIsProper` | src/tilemap.cpp:216-344 | That holds of every map with tiles that the loader accepts. |
| `TilemapText.ProperMapStartsGame` | src/tilemap.cpp:283-344 | A game can start on such a map exactly if both sides have a tile. |
| `TilemapText.TextWithoutBases` | src/tilemap.cpp:283-343 | A text of one blank tile is accepted, and no game can start on its map. |
| `TilemapText.LastRowRepeats` | src/tilemap.cpp:236-250 | Where the text ends within a line, that line stands for all missing ones. |
| `TilemapText.SaveAsText` | src/tilemap.cpp:346-378 | Saving writes the sizes and the characters of all tiles, or throws on a terrain without one. |
| `TilemapText.TextRoundTrip` | src/tilemap.cpp:346-378 | The text of an accepted map gives that map and no other. |
| `TilemapBinary.LoadBinary` | src/tilemap.cpp:59-214 | Bytes are accepted exactly if they declare a valid map and end with it, and that map is the result. |
| `TilemapBinary.CheckBases` | src/tilemap.cpp:153-205 | The geometry check passes exactly if each side's base tiles are absent or one square of the declared size (with a size below 1: at most one tile). |
| `TilemapBinary.SaveAsBinary` | src/tilemap.cpp:380-423 | Saving writes the declared format, or throws on sizes that are not positive. |
| `Layout.MapLayout` | src/tilemap.cpp:380-423 | At which offset of a saved map each value is, tiles row by row. |
| `Layout.ValidMapMeans` | src/tilemap.cpp:59-205 | A map with a base size of at least 1 is valid exactly if it has 1 to 512 tiles a side, of terrain 0, 1 or 3 and with a side 1 or 2 on base tiles alone, and each side's base tiles are none or one square of that size. |
| `TilemapBinary.SavedMapLoads` | src/tilemap.cpp:380-423 | A saved map is accepted exactly if it is valid, and comes back unchanged. |
| `TilemapBinary.AcceptedMapStartsGame` | src/tilemap.cpp:153-205 | A game can start on an accepted map exactly if it declares a base size of at least 1 and has base tiles of both sides. |
| `TilemapBinary.BaseSizeZeroIsAccepted` | src/tilemap.cpp:153-205 | A base size of 0 does not keep a base tile from being accepted. |
| `Xoroshiro.NextIsBijective` | src/xoroshiro.cpp:82-92 | Every state has exactly one predecessor. |
| `Xoroshiro.FirstNumbers` | src/xoroshiro.cpp:82-92 | The first two numbers from the seed 1, 2 and the states after them. |
| `Xoroshiro.OutputsOfOneWord` | src/xoroshiro.cpp:82-92 | What is put out when the first word is 0 or the words add up to 0. |
| `Xoroshiro.NextIsLinear` | src/xoroshiro.cpp:82-92 | The state map is linear over GF(2). |
| `Xoroshiro.ZeroStaysZero` | src/xoroshiro.cpp:82-92 | The all-zero state, and only it, is followed by the all-zero state. |
| `Xoroshiro.ZeroIsNeverReached` | src/xoroshiro.cpp:82-92 | No number of steps leads from another state to the all-zero one. |
| `Xoroshiro.Xoroshiro128PP.TakeNext` | src/xoroshiro.cpp:82-92 | next advances the state by the map and returns the output of the old one. |
| `Xoroshiro.Xoroshiro128PP.JumpBy` | src/xoroshiro.cpp:94-132 | Both jumps compute the loop that adds the state they started from. |
| `Xoroshiro.JumpIsPowers` | src/xoroshiro.cpp:94-132 | A jump is a fixed sum of powers of the state map. |
| `Xoroshiro.JumpPowersAre` | src/xoroshiro.cpp:94-132 | Which powers these are: 128 less the bit's place, and 128 itself flipped; never the state as it is. |
| `Xoroshiro.JumpCommutes` | src/xoroshiro.cpp:94-132 | Jumping commutes with next. |
| `Xoroshiro.JumpsCommute` | src/xoroshiro.cpp:94-132 | The two jumps commute. |
| `Xoroshiro.FromString` | src/xoroshiro.cpp:42-62 | 32 hex digits are read as two words, any other text is stirred in byte by byte. |
| `Xoroshiro.SeedRoundTrip` | src/xoroshiro.cpp:42-66 | Every seed is read back from what is written. |
| `Xoroshiro.ParseThenWrite` | src/xoroshiro.cpp:29-40 | Digits that are read are written again in lower case. |
| `Formatter.VfmtStr` | corelib/corelib.c:46-150 | The buffer holds the first size - 1 characters of the unbounded result and a terminator, the result is their number, which is the full length exactly if that is below the size, and nothing after it is written. |
| `Formatter.WriteUnsigned` | corelib/corelib.c:15-36 | The digits are written where they belong as far as they fit. |
| `Formatter.WritePointer` | corelib/corelib.c:114-131 | 0x and the eight digits, the lowest first. |
| `Formatter.DigitsDenote` | corelib/corelib.c:23-34 | The digits denote the number exactly if it is below 2^31, without leading zeros. |
| `Formatter.SignedDigitsDenote` | corelib/corelib.c:81-87 | Signed numbers are denoted with their sign, but for the least one. |
| `Formatter.DirectiveTexts` | corelib/corelib.c:46-146 | What each directive writes, what it takes, and that unknown ones write themselves. |
| `Scheduler.Scheduler.Tick` | rusty-corelib/src/async_rt.rs:211-242 | In an advanced turn, a tick without an error polls every task present at its start exactly once and keeps exactly the pending ones; one with an error removes the failed task and those done before it and keeps the others. Otherwise nothing is polled. |
| `Scheduler.Scheduler.Spawn` | rusty-corelib/src/async_rt.rs:184-195 | A new task is added under the next handle. |
| `Scheduler.HandlesCountUp` | rusty-corelib/src/async_rt.rs:184-195 | Handles count up from 1 and go on with 0 after 2^32 - 1. |
| `Scheduler.Scheduler.Contains` | rusty-corelib/src/async_rt.rs:198-200 | A handle is reported exactly if a slot holds it, which, while ids have not wrapped, is exactly if its task is unfinished. |
| `Scheduler.HandleMeansTask` | rusty-corelib/src/async_rt.rs:184-200 | While fewer than 2^32 tasks have been spawned, handles and tasks correspond. |
| `Scheduler.HandleIsSharedBy` | rusty-corelib/src/async_rt.rs:184-200 | In general a handle is reported exactly if the number of a listed task agrees with that of its own task up to multiples of 2^32. |
| `Scheduler.HandlesComeAgain` | rusty-corelib/src/async_rt.rs:184-200 | After that, a finished task can seem to be present. |
| `Scheduler.PolledDone` | rusty-corelib/src/async_rt.rs:222-235 | Removing a finished task by moving the last one into its place skips no task and polls none twice. |

## Left out

- RISC-V execution, machine set-up, program loading and guest memory: replaced by arbitrary sequences of calls.
- Calls that do not act on the world: logs, messages, sensors, metadata, random numbers, positions.
- Update in place of unit, bullet and tile objects: they are values in sequences and a map of the class `World`; a unit pointer is the pair of player and unit number, a bullet pointer a serial number. A tile that points to a freed bullet, whose use the source leaves undefined, names a serial that is no longer listed, and such a bullet has damage 0.
- Aborts of the whole process (an attack aimed off the board, no empty tile for a new unit) are a result `ok == false`; nothing is said of the state after one.
- World.World.Open: boards of more than 255 tiles a side, whose size the source narrows to 8 bits, and boards without both square bases are not opened.
- World.World.PlaceFirstUnits: the random choice of tiles is left open.
- Turn events, runtime logs, the message buffers and the cached vision are not part of `World`; `Vision` models the search itself.
- Referees that declare draws: any tick may be followed by a draw.
- Byte offsets in decoding errors and the absolute position of the TypeScript decoder, which forgets what a push drops.
- ReplayAgreement.DecodersAgree: says nothing of the error codes of files that are not complete.
- The check of the TypeScript decoder that a map has at most 65536 tiles, which its check of the dimensions makes unreachable.
- Playback.Play: the user interface, the clock, errors of the file itself, and files that grow while they are played.
- StreamAdapter.IstreamAdapter.EnsureBuffered: a stream that delivers nothing and neither ends nor fails, which reading from a standard stream never does.
- Sizes near the largest representable one, where additions in the stream adapters would wrap around.
- Harvester.Search.BfsDirToMode: the map memory is stored row by row with the map's width, not in arrays of fixed width 64; sensing is a value; the other decisions of the program are left out.
- TilemapText.LoadText: the text is a sequence of characters up to 255; a text that makes the source go on with an unassigned height is rejected.
- TilemapText.TextRoundTrip: maps without tiles.
- TilemapText.SaveAsText: maps of negative size.
- TilemapBinary.LoadBinary: which error is reported when several apply; a base tile of side 0, for which the source reads out of bounds, is rejected.
- The tile occupants in a loaded map, which start empty.
- Vision.VisibleTiles: which of the two vision ranges a unit has.
- Random map generation and noise: floating point and library distributions.
- Xoroshiro.FromString: that different texts that are not hex digits give different seeds.
- Formatter.VfmtStr: arguments that do not fit the format, which the language leaves undefined; the negation of the least number is taken to wrap around.
- Scheduler.Scheduler.Tick: what a poll does beyond its outcome; the loop that runs until all tasks are complete, which need not end.
- Terminal and plain user interfaces, the replay command line tools, the compression writer, argument parsing.
