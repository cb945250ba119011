/**
 Who acts when in a tick, and on what (src/world.cpp:147-154): what a base's program
 finds and leaves alone, and that what a unit does depends on the programs before its
 own only.
 */
module Turns {
  import opened Common
  import opened GameRules
  import opened TileMap
  import opened Placement
  import opened UnitMoves
  import opened Energy
  import opened BulletBound
  import opened GameState
  import opened Actions
  import C = Capture

  // ---- Units ----

  /** One of the calls was a shot that was accepted. */
  ghost predicate Shot(calls: seq<ECall>, results: seq<ActionResult>) {
    exists k :: 0 <= k < |calls| && k < |results| && calls[k].Fire? && results[k] == OK
  }

  lemma {:induction false} ProgramShoots(s: Snap, i: nat, calls: seq<ECall>)
    requires HasUnit(s.game, i)
    ensures var (t, results) := UnitProgram(s, i, calls);
            && (Shot(calls, results) ==> s.game.now.units[i].attackCooldown == 0)
            && t.game.now.units[i].attackCooldown
               == if Shot(calls, results) then s.game.rules.attackCooldown else s.game.now.units[i].attackCooldown
  {
    hide UnitCalled, Shot;
    if calls == [] {
      NoShot();
    } else {
      var n := |calls| - 1;
      ProgramShoots(s, i, calls[..n]);
      var before := UnitProgram(s, i, calls[..n]);
      var (t, r) := UnitCalled(before.0, i, calls[n]);
      OneMoreCall(before.0, i, calls[n]);
      ShotOrBefore(calls, before.1, r);
    }
  }

  lemma NoShot()
    ensures !Shot([], [])
  {
  }

  lemma ShotOrBefore(calls: seq<ECall>, before: seq<ActionResult>, r: ActionResult)
    requires |calls| == |before| + 1
    ensures var n := |before|;
            Shot(calls, before + [r]) <==> Shot(calls[..n], before) || (calls[n].Fire? && r == OK)
  {
    var n, results := |before|, before + [r];
    if Shot(calls[..n], before) {
      var k :| 0 <= k < n && calls[..n][k].Fire? && before[k] == OK;
      assert calls[k].Fire? && results[k] == OK;
    }
    if calls[n].Fire? && r == OK {
      assert results[n] == OK;
    }
  }

  /** What a unit's program is answered in its turn. */
  ghost function TurnResults(s: State, i: nat, calls: seq<ECall>): seq<ActionResult>
    requires HasUnit(s, i)
  {
    UnitProgram(Snap(SetUnit(s, i, Cooled(s.now.units[i])), NO_FLAGS), i, calls).1
  }

  /** A unit shoots in a turn only if one turn or none was missing, and is as hot as a shot
      makes it at the end of that turn; in a turn without a shot it cools by one. */
  lemma TurnCools(s: State, i: nat, calls: seq<ECall>)
    requires HasUnit(s, i)
    ensures var u, v := s.now.units[i], UnitTurn(s, i, calls).now.units[i];
            if Shot(calls, TurnResults(s, i, calls)) then u.attackCooldown <= 1 && v.attackCooldown == s.rules.attackCooldown
            else v.attackCooldown == if u.attackCooldown > 0 then u.attackCooldown - 1 else 0
  {
    ProgramShoots(Snap(SetUnit(s, i, Cooled(s.now.units[i])), NO_FLAGS), i, calls);
  }

  /** What a program's calls leave alone: all other units, and of the unit itself what it
      is, where it stands, its health and its upgrades. */
  ghost predicate TouchesOne(us: seq<Unit>, vs: seq<Unit>, i: nat) {
    && |us| == |vs| && i < |us| && (forall j :: 0 <= j < |us| && j != i ==> vs[j] == us[j])
    && vs[i].key == us[i].key && vs[i].at == us[i].at && vs[i].health == us[i].health && vs[i].upgrades == us[i].upgrades
  }

  lemma {:induction false} ProgramTouchesOne(s: Snap, i: nat, calls: seq<ECall>)
    requires HasUnit(s.game, i)
    ensures TouchesOne(s.game.now.units, UnitProgram(s, i, calls).0.game.now.units, i)
    ensures UnitProgram(s, i, calls).0.game.verdict == s.game.verdict
  {
    if calls != [] {
      ProgramTouchesOne(s, i, calls[..|calls| - 1]);
    }
  }

  lemma TurnTouchesOne(s: State, i: nat, calls: seq<ECall>)
    requires KeysAreGood(s) && i < |s.now.units|
    ensures TouchesOne(s.now.units, UnitTurn(s, i, calls).now.units, i) && KeysAreGood(UnitTurn(s, i, calls))
    ensures UnitTurn(s, i, calls).verdict == s.verdict
  {
    hide UnitProgram;
    ProgramTouchesOne(Snap(SetUnit(s, i, Cooled(s.now.units[i])), NO_FLAGS), i, calls);
  }

  /** Turns after the first n change nothing of the first n units. */
  lemma {:induction false} EarlierUnitsStay(s: State, i: nat, calls: UnitKey -> seq<ECall>)
    requires KeysAreGood(s) && i <= |s.now.units|
    ensures |UnitTurns(s, i, calls).now.units| == |s.now.units| && UnitTurns(s, i, calls).now.units[..i] == s.now.units[..i]
    ensures UnitTurns(s, i, calls).verdict == s.verdict
    decreases |s.now.units| - i
  {
    hide UnitTurn;
    if i < |s.now.units| {
      var t := UnitTurn(s, i, calls(s.now.units[i].key));
      TurnTouchesOne(s, i, calls(s.now.units[i].key));
      EarlierUnitsStay(t, i + 1, calls);
      assert UnitTurns(t, i + 1, calls).now.units[..i] == UnitTurns(t, i + 1, calls).now.units[..i + 1][..i];
      assert t.now.units[..i + 1][..i] == t.now.units[..i];
    }
  }

  /** What the first n units do and get in a tick does not depend on what the later ones
      call; units act in the order of the list. */
  lemma {:induction false} LaterCallsDoNotMatter(s: State, i: nat, n: nat, one: UnitKey -> seq<ECall>, two: UnitKey -> seq<ECall>)
    requires KeysAreGood(s) && i <= n <= |s.now.units|
    requires forall k :: i <= k < n ==> one(s.now.units[k].key) == two(s.now.units[k].key)
    ensures |UnitTurns(s, i, one).now.units| == |UnitTurns(s, i, two).now.units| == |s.now.units|
    ensures UnitTurns(s, i, one).now.units[..n] == UnitTurns(s, i, two).now.units[..n]
    decreases n - i
  {
    hide UnitTurn;
    EarlierUnitsStay(s, i, one);
    EarlierUnitsStay(s, i, two);
    if i < n {
      var calls := one(s.now.units[i].key);
      TurnTouchesOne(s, i, calls);
      LaterCallsDoNotMatter(UnitTurn(s, i, calls), i + 1, n, one, two);
    }
  }

  // ---- Bases ----

  /** A base's program changes of a unit its health and upgrades alone. */
  predicate Tended(u: Unit, v: Unit) {
    v.(health := u.health, upgrades := u.upgrades) == u
  }

  /** A base's program adds at most one unit, to its player and at the end of the list,
      touches of the others health and upgrades alone, and takes from its own purse. */
  ghost predicate BaseEffect(s: State, pid: u8, t: State)
    requires 1 <= pid <= 2
  {
    && |s.now.players| == |t.now.players| == 2 && |s.now.units| <= |t.now.units| <= |s.now.units| + 1
    && (forall i :: 0 <= i < |s.now.units| ==> Tended(s.now.units[i], t.now.units[i]))
    && (|t.now.units| > |s.now.units| ==> t.now.units[|s.now.units|].key.playerId == pid)
    && t.now.players[pid - 1].baseEnergy <= s.now.players[pid - 1].baseEnergy
    && t.now.players[2 - pid] == s.now.players[2 - pid] && t.verdict == s.verdict
  }

  lemma CallHasEffect(s: Snap, pid: u8, call: ECall, t: Snap, r: ActionResult)
    requires 1 <= pid <= 2 && BaseCalled(s, pid, call, t, r)
    ensures BaseEffect(s.game, pid, t.game) && (s.flags.manufact ==> t.flags.manufact)
    ensures |t.game.now.units| > |s.game.now.units| ==> !s.flags.manufact && t.flags.manufact
  {
    hide UnitIndex;
  }

  lemma {:induction false} BaseHasEffect(s: Snap, pid: u8, calls: seq<ECall>, t: Snap, results: seq<ActionResult>)
    requires 1 <= pid <= 2 && |s.game.now.players| == 2 && BaseProgram(s, pid, calls, t, results)
    ensures BaseEffect(s.game, pid, t.game) && (s.flags.manufact ==> t.flags.manufact)
    ensures |t.game.now.units| > |s.game.now.units| ==> !s.flags.manufact && t.flags.manufact
    decreases |calls|
  {
    hide BaseCalled;
    if calls != [] {
      var n := |calls| - 1;
      var m: Snap :| BaseProgram(s, pid, calls[..n], m, results[..n]) && BaseCalled(m, pid, calls[n], t, results[n]);
      BaseHasEffect(s, pid, calls[..n], m, results[..n]);
      CallHasEffect(m, pid, calls[n], t, results[n]);
    }
  }

  /** The bases act first, player 1's before player 2's, each from the purse it had; what
      they have made then takes its turn, too, after the older units. */
  lemma BasesActFirst(s: State, baseCalls: u8 -> seq<ECall>, unitCalls: UnitKey -> seq<ECall>, t: State)
    requires KeysAreGood(s) && ProgramsRan(s, baseCalls, unitCalls, t)
    ensures exists b: State ::
              && KeysAreGood(b) && t == UnitTurns(b, 0, unitCalls) && t.verdict == b.verdict == s.verdict
              && |s.now.units| <= |b.now.units| == |t.now.units| <= |s.now.units| + 2
              && (forall i :: 0 <= i < |s.now.units| ==> Tended(s.now.units[i], b.now.units[i]))
              && (|b.now.units| == |s.now.units| + 2 ==>
                    b.now.units[|s.now.units|].key.playerId == 1 && b.now.units[|s.now.units| + 1].key.playerId == 2)
              && (forall p :: 0 <= p < 2 ==> b.now.players[p].baseEnergy <= s.now.players[p].baseEnergy)
  {
    hide BaseProgram, UnitTurns;
    var b1: Snap, r1, b2: Snap, r2 :|
      && BaseProgram(Snap(s, NO_FLAGS), 1, baseCalls(1), b1, r1)
      && BaseProgram(Snap(b1.game, NO_FLAGS), 2, baseCalls(2), b2, r2)
      && KeysAreGood(b2.game) && t == UnitTurns(b2.game, 0, unitCalls);
    BaseHasEffect(Snap(s, NO_FLAGS), 1, baseCalls(1), b1, r1);
    BaseHasEffect(Snap(b1.game, NO_FLAGS), 2, baseCalls(2), b2, r2);
    EarlierUnitsStay(b2.game, 0, unitCalls);
  }

  // ---- Whole games ----

  /** A tick ends in no draw: programs decide nothing, and a check gives a victory or nothing. */
  lemma TickIsNoDraw(s: State, tick: u32, baseCalls: u8 -> seq<ECall>, unitCalls: UnitKey -> seq<ECall>, t: State)
    requires Valid(s) && s.verdict == C.Ongoing && Ticked(s, tick, baseCalls, unitCalls, t)
    ensures t.verdict != C.RuleDraw
  {
    hide Moved, ProgramsRan, InCaptureCondition, ChargeAll, TotalGain, TotalLoss, DeadEnergy, Valid;
    var flown, cleared, after: Field :|
      && Moved(s, flown, cleared, after) && |after.players| == 2 && s.rules.captureTurnThreshold >= 1
      && var checked := Checked(AfterMoves(s, flown, after));
         if checked.verdict != C.Ongoing then t == checked
         else ProgramsRan(Collected(checked, NaturalTick(s.rules, tick)), baseCalls, unitCalls, t);
    var checked := Checked(AfterMoves(s, flown, after));
    if checked.verdict == C.Ongoing {
      ProgramsDecideNothing(Collected(checked, NaturalTick(s.rules, tick)), baseCalls, unitCalls, t);
    }
  }

  lemma ProgramsDecideNothing(s: State, baseCalls: u8 -> seq<ECall>, unitCalls: UnitKey -> seq<ECall>, t: State)
    requires |s.now.players| == 2 && ProgramsRan(s, baseCalls, unitCalls, t)
    ensures t.verdict == s.verdict
  {
    hide BaseProgram, UnitTurns;
    var b1: Snap, r1, b2: Snap, r2 :|
      && BaseProgram(Snap(s, NO_FLAGS), 1, baseCalls(1), b1, r1)
      && BaseProgram(Snap(b1.game, NO_FLAGS), 2, baseCalls(2), b2, r2)
      && KeysAreGood(b2.game) && t == UnitTurns(b2.game, 0, unitCalls);
    BaseHasEffect(Snap(s, NO_FLAGS), 1, baseCalls(1), b1, r1);
    BaseHasEffect(Snap(b1.game, NO_FLAGS), 2, baseCalls(2), b2, r2);
    EarlierUnitsStay(b2.game, 0, unitCalls);
  }

  /** An open game counts its next tick; the referee's draw ends it, and nothing else
      makes it one. */
  lemma MomentAfter(m: Moment, baseCalls: u8 -> seq<ECall>, unitCalls: UnitKey -> seq<ECall>, draw: bool, n: Moment)
    requires Valid(m.game) && Valid(n.game) && Follows(m, baseCalls, unitCalls, draw, n)
    ensures m.game.verdict == C.Ongoing ==> n.tick == (m.tick + 1) % 0x1_0000_0000
    ensures m.game.verdict != C.Ongoing ==> n.tick == m.tick && n.game.verdict == m.game.verdict
    ensures draw ==> n.game.verdict != C.Ongoing
    ensures m.game.verdict == C.Ongoing && n.game.verdict == C.RuleDraw ==> draw
  {
    hide Ticked, Valid;
    Parts(n.game);
    var s: State :|
      && n.game == Drawn(s, draw)
      && if m.game.verdict != C.Ongoing then s == m.game && n.tick == m.tick
         else n.tick == (m.tick + 1) % 0x1_0000_0000 && Ticked(m.game, n.tick, baseCalls, unitCalls, s);
    assert s.rules.captureTurnThreshold >= 1 && |s.now.players| == 2 by {
      SetUp(n.game);
    }
    if m.game.verdict == C.Ongoing {
      TickIsNoDraw(m.game, n.tick, baseCalls, unitCalls, s);
    }
  }

  lemma SetUp(s: State)
    requires Valid(s)
    ensures |s.now.players| == 2 && s.rules.captureTurnThreshold >= 1
  {
    hide Disagrees, Thinned;
    Parts(s);
  }

  /** A history in which each moment follows from the one before. */
  ghost predicate Played(history: seq<Moment>, script: Script) {
    && SafeSoFar(history)
    && forall t :: 0 <= t < |history| - 1 ==>
         Follows(history[t], script.BasesAt(t), script.UnitsAt(t), script.draws(t), history[t + 1])
  }

  /** The referee declares a draw after tick k of a game that is open until then. */
  predicate DeclaredAfter(history: seq<Moment>, script: Script, k: nat) {
    k + 1 < |history| && script.draws(k) && history[k].game.verdict == C.Ongoing
  }

  /** A game that is open after t ticks has counted them all, and nobody declared a draw;
      a game drawn by then was declared so at its last tick. */
  lemma {:induction false} TicksAreCounted(history: seq<Moment>, script: Script, t: nat)
    requires Played(history, script) && t < |history| && history[0].game.verdict == C.Ongoing
    ensures history[t].game.verdict == C.Ongoing ==>
              && history[t].tick == (history[0].tick + t) % 0x1_0000_0000
              && forall k :: 0 <= k < t ==> !script.draws(k)
    ensures history[t].game.verdict == C.RuleDraw ==>
              exists k: nat :: k < t && DeclaredAfter(history, script, k) && history[t].tick == (history[0].tick + k + 1) % 0x1_0000_0000
  {
    hide Valid, InOrder, Follows;
    if t > 0 {
      TicksAreCounted(history, script, t - 1);
      assert t - 1 + 1 == t;
      MomentAfter(history[t - 1], script.BasesAt(t - 1), script.UnitsAt(t - 1), script.draws(t - 1), history[t]);
      if history[t].game.verdict == C.RuleDraw && history[t - 1].game.verdict == C.Ongoing {
        assert DeclaredAfter(history, script, t - 1);
      }
    }
  }
}
