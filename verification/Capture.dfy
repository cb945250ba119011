/**
 The capture counters (src/world.cpp:486-539) as a state machine, and what the
 counters and the verdict mean in terms of the history of the game.
 */
module Capture {
  import opened Common

  datatype Verdict = Ongoing | Victory(winner: u8) | RuleDraw

  datatype Counters = Counters(one: nat, two: nat, verdict: Verdict)

  /** One tick's check, knowing which bases are in capture condition, or a call of
      markRuleDraw by the referee. */
  datatype Event = Check(base1: bool, base2: bool) | MarkDraw

  const START := Counters(0, 0, Ongoing)

  function Count(counter: nat, inCondition: bool): nat {
    if inCondition then counter + 1 else 0
  }

  /** The effect of one event with capture threshold T. */
  function After(c: Counters, e: Event, T: nat): Counters
    requires T >= 1
  {
    if c.verdict != Ongoing then c
    else match e
      case MarkDraw => c.(verdict := RuleDraw)
      case Check(base1, base2) =>
        var one, two := Count(c.one, base1), Count(c.two, base2);
        if one == T && two == T then Counters(one - 1, two - 1, Ongoing)
        else if one >= T then Counters(one, two, Victory(2))
        else if two >= T then Counters(one, two, Victory(1))
        else Counters(one, two, Ongoing)
  }

  function AfterAll(events: seq<Event>, T: nat): Counters
    requires T >= 1
  {
    if events == [] then START else After(AfterAll(events[..|events| - 1], T), events[|events| - 1], T)
  }

  lemma AfterOneMore(events: seq<Event>, e: Event, T: nat)
    requires T >= 1
    ensures AfterAll(events + [e], T) == After(AfterAll(events, T), e, T)
  {
    assert (events + [e])[..|events|] == events;
  }

  /** Length of the run of checks, up to the last event, in which base p was in
      capture condition. */
  function Run(events: seq<Event>, p: nat): nat {
    if events == [] then 0
    else match events[|events| - 1]
      case MarkDraw => 0
      case Check(base1, base2) =>
        if (if p == 1 then base1 else base2) then Run(events[..|events| - 1], p) + 1 else 0
  }

  function Min(a: nat, b: nat): nat {
    if a < b then a else b
  }

  /** While the game goes on, each counter is the length of the current run, cut
      off below the threshold. */
  lemma {:induction false} CounterIsCutOffRun(events: seq<Event>, T: nat)
    requires T >= 1 && AfterAll(events, T).verdict == Ongoing
    ensures AfterAll(events, T).one == Min(Run(events, 1), T - 1)
    ensures AfterAll(events, T).two == Min(Run(events, 2), T - 1)
  {
    if events != [] {
      CounterIsCutOffRun(events[..|events| - 1], T);
    }
  }

  /** The last event of an ongoing game decides it exactly when one base has been
      in capture condition for T checks and the other has not. */
  lemma {:induction false} VictoryMeansOneLongRun(events: seq<Event>, T: nat, q: u8)
    requires T >= 1 && 1 <= q <= 2
    requires events != [] && AfterAll(events[..|events| - 1], T).verdict == Ongoing
    requires events[|events| - 1].Check?
    ensures AfterAll(events, T).verdict == Victory(q) <==> Run(events, 3 - q) >= T && Run(events, q) < T
    ensures AfterAll(events, T).verdict == Ongoing <==>
              (Run(events, 1) >= T <==> Run(events, 2) >= T)
  {
    CounterIsCutOffRun(events[..|events| - 1], T);
  }

  /** A verdict is final, whatever follows. */
  lemma {:induction false} VerdictIsFinal(events: seq<Event>, more: seq<Event>, T: nat)
    requires T >= 1 && AfterAll(events, T).verdict != Ongoing
    ensures AfterAll(events + more, T).verdict == AfterAll(events, T).verdict
  {
    if more == [] {
      assert events + more == events;
    } else {
      var before := events + more[..|more| - 1];
      assert (events + more)[..|events + more| - 1] == before;
      VerdictIsFinal(events, more[..|more| - 1], T);
    }
  }

  // ---- The whole history ----

  /** Base p was in capture condition at a check. */
  predicate Threatened(e: Event, p: nat) {
    e.Check? && if p == 1 then e.base1 else e.base2
  }

  /** The run is at least n long exactly if the last n events are checks in which the base
      was in capture condition. */
  lemma {:induction false} RunIsLastChecks(events: seq<Event>, p: nat, n: nat)
    ensures Run(events, p) >= n <==>
              n <= |events| && forall k :: |events| - n <= k < |events| ==> Threatened(events[k], p)
  {
    if n > 0 && events != [] {
      var init := events[..|events| - 1];
      RunIsLastChecks(init, p, n - 1);
      assert forall k :: 0 <= k < |init| ==> init[k] == events[k];
    }
  }

  /** Event k is a check after which no base alone has been threatened for T checks on end. */
  predicate Even(events: seq<Event>, T: nat, k: nat)
    requires k < |events|
  {
    events[k].Check? && (Run(events[..k + 1], 1) >= T <==> Run(events[..k + 1], 2) >= T)
  }

  /** So are all of the first n events. */
  ghost predicate Undecided(events: seq<Event>, T: nat, n: nat)
    requires n <= |events|
  {
    forall k :: 0 <= k < n ==> Even(events, T, k)
  }

  /** Nothing is decided before event n, a check at which the base of q's opponent has
      been threatened for T checks on end, and q's has not. */
  ghost predicate WonAt(events: seq<Event>, T: nat, q: u8, n: nat)
    requires n < |events| && 1 <= q <= 2
  {
    && Undecided(events, T, n) && events[n].Check?
    && Run(events[..n + 1], 3 - q) >= T && Run(events[..n + 1], q) < T
  }

  ghost predicate Won(events: seq<Event>, T: nat, q: u8)
    requires 1 <= q <= 2
  {
    exists n :: 0 <= n < |events| && WonAt(events, T, q, n)
  }

  /** The referee ended it before anything was decided. */
  ghost predicate DrawnByReferee(events: seq<Event>, T: nat) {
    exists n :: 0 <= n < |events| && Undecided(events, T, n) && events[n].MarkDraw?
  }

  lemma UndecidedPrefix(events: seq<Event>, T: nat, n: nat)
    requires n <= |events|
    ensures Undecided(events[..n], T, n) <==> Undecided(events, T, n)
  {
    forall k | 0 <= k < n
      ensures Even(events[..n], T, k) <==> Even(events, T, k)
    {
      assert events[..n][..k + 1] == events[..k + 1];
    }
  }

  lemma {:induction false} OngoingMeansUndecided(events: seq<Event>, T: nat)
    requires T >= 1
    ensures AfterAll(events, T).verdict == Ongoing <==> Undecided(events, T, |events|)
  {
    if events != [] {
      var n := |events| - 1;
      OngoingMeansUndecided(events[..n], T);
      UndecidedPrefix(events, T, n);
      assert events[..n + 1] == events;
      assert Undecided(events, T, n + 1) <==> Undecided(events, T, n) && Even(events, T, n);
      if AfterAll(events[..n], T).verdict == Ongoing && events[n].Check? {
        VictoryMeansOneLongRun(events, T, 1);
      }
    }
  }

  lemma {:induction false} VerdictOfHistory(events: seq<Event>, T: nat, q: u8)
    requires T >= 1 && 1 <= q <= 2
    ensures AfterAll(events, T).verdict == Victory(q) <==> Won(events, T, q)
    ensures AfterAll(events, T).verdict == RuleDraw <==> DrawnByReferee(events, T)
  {
    if events != [] {
      var n := |events| - 1;
      var init := events[..n];
      VerdictOfHistory(init, T, q);
      OngoingMeansUndecided(init, T);
      UndecidedPrefix(events, T, n);
      assert events[..n + 1] == events;
      ExtendDecision(events, T, q);
      if AfterAll(init, T).verdict == Ongoing {
        if events[n].Check? {
          VictoryMeansOneLongRun(events, T, q);
        }
      }
    }
  }

  /** Winning and drawing, up to the last event. */
  lemma ExtendDecision(events: seq<Event>, T: nat, q: u8)
    requires T >= 1 && 1 <= q <= 2 && events != []
    ensures var n := |events| - 1;
            && (Won(events, T, q) <==> Won(events[..n], T, q) || WonAt(events, T, q, n))
            && (DrawnByReferee(events, T) <==> DrawnByReferee(events[..n], T) || (Undecided(events, T, n) && events[n].MarkDraw?))
            && (Won(events[..n], T, q) || DrawnByReferee(events[..n], T) ==> !Undecided(events, T, n))
  {
    var n := |events| - 1;
    var init := events[..n];
    forall k | 0 <= k < n
      ensures WonAt(init, T, q, k) <==> WonAt(events, T, q, k)
      ensures Undecided(init, T, k) && init[k].MarkDraw? <==> Undecided(events, T, k) && events[k].MarkDraw?
      ensures WonAt(init, T, q, k) || init[k].MarkDraw? ==> !Even(events, T, k)
    {
      UndecidedPrefix(events, T, k);
      UndecidedPrefix(init, T, k);
      assert init[..k] == events[..k] && init[..k + 1] == events[..k + 1];
    }
  }
}
