/**
 * The round/break engine of the older clock revision (bridge_clock_main.py).
 * Its handlers compute the same clock as the newer revision's except in
 * three places, which this module defines afresh: `update_from_dict`
 * catches the AttributeError and carries on, `_game_over` pauses the clock
 * (and `_next_round` stops the timer after it), and `on_clock_tick` has no
 * "game finished" guard. The older record has no description, so its value
 * is the shared record with an empty description. Go To Break on a round
 * that already has a break is silently ignored, which on the state is what
 * RoundEngine.GotoBreak does; its notice flag is dropped.
 */
module LegacyRoundEngine {
  import opened Options
  import E = RoundEngine

  /**
   * `update_from_dict` of the older record: a `None` value is skipped, and
   * so is every name `setattr` cannot assign (read-only, unknown, or the
   * description the older record lacks), since the AttributeError is caught.
   */
  function Merge(s: E.Settings, entries: seq<E.Entry>): (r: E.Settings)
    ensures r.description == s.description
    decreases |entries|
  {
    if entries == [] then s
    else
      match entries[0]
      case Field(a) =>
        if a.SetDescription? then Merge(s, entries[1..]) else Merge(E.Assign(s, a), entries[1..])
      case _ => Merge(s, entries[1..])
  }

  /** An item the older record assigns. */
  predicate Assignable(e: E.Entry) {
    e.Field? && !e.assignment.SetDescription?
  }

  /** Items that assign nothing leave the record as it was. */
  lemma {:induction false} MergeSkipsUnassignable(s: E.Settings, entries: seq<E.Entry>)
    requires forall i :: 0 <= i < |entries| ==> !Assignable(entries[i])
    ensures Merge(s, entries) == s
    decreases |entries|
  {
    if entries != [] {
      MergeSkipsUnassignable(s, entries[1..]);
    }
  }

  /** Updating with two dictionaries in turn is updating with both: nothing ever stops the older loop. */
  lemma {:induction false} MergeAppend(s: E.Settings, a: seq<E.Entry>, b: seq<E.Entry>)
    ensures Merge(s, a + b) == Merge(Merge(s, a), b)
    decreases |a|
  {
    if a == [] {
      assert a + b == b;
    } else {
      assert (a + b)[0] == a[0] && (a + b)[1..] == a[1..] + b;
      match a[0]
      case Field(x) =>
        if x.SetDescription? {
          MergeAppend(s, a[1..], b);
        } else {
          MergeAppend(E.Assign(s, x), a[1..], b);
        }
      case _ => MergeAppend(s, a[1..], b);
    }
  }

  /**
   * An item the record cannot assign (read-only, unknown, blank, or a
   * description) may be deleted from anywhere in the dictionary: the
   * AttributeError is caught and the loop carries on with the next item.
   */
  lemma MergeSkipsItem(s: E.Settings, a: seq<E.Entry>, e: E.Entry, b: seq<E.Entry>)
    requires !Assignable(e)
    ensures Merge(s, a + [e] + b) == Merge(s, a + b)
  {
    assert a + [e] + b == a + ([e] + b);
    assert ([e] + b)[0] == e && ([e] + b)[1..] == b;
    MergeAppend(s, a, [e] + b);
    MergeAppend(s, a, b);
  }

  /**
   * On a dictionary with no read-only name and no description, the two
   * revisions' updates give the same record.
   */
  lemma {:induction false} MergeAgrees(s: E.Settings, entries: seq<E.Entry>)
    requires !E.HasReadOnly(entries) && !E.Assigns(entries, "description")
    ensures Merge(s, entries) == E.Merge(s, entries).settings
    decreases |entries|
  {
    if entries != [] {
      var rest := entries[1..];
      assert !E.HasReadOnly(rest) && !E.Assigns(rest, "description");
      assert !entries[0].ReadOnly?;
      match entries[0]
      case Field(a) =>
        assert E.Key(a) != "description";
        MergeAgrees(E.Assign(s, a), rest);
      case Blank(_) => MergeAgrees(s, rest);
      case Unknown(_) => MergeAgrees(s, rest);
    }
  }

  /**
   * They differ after a read-only name: the older update goes on to the
   * next item, the newer one stops there with an escaping AttributeError.
   */
  lemma MergeGoesPastReadOnly(s: E.Settings, n: int)
    ensures var entries := [E.ReadOnly("breaks"), E.Field(E.SetRounds(n))];
      Merge(s, entries).rounds == n && E.Merge(s, entries) == E.MergeResult(s, true)
  {
    var entries := [E.ReadOnly("breaks"), E.Field(E.SetRounds(n))];
    var rest := [E.Field(E.SetRounds(n))];
    assert entries[1..] == rest && rest[1..] == [];
    assert Merge(s, entries) == Merge(s, rest);
    assert Merge(s, rest) == Merge(E.Assign(s, E.SetRounds(n)), []);
  }

  /** `_game_over`: pause the clock, then mark the game finished. */
  function GameOver(c: E.Clock, now: int): E.Clock {
    E.PauseGame(c, now).(gameFinished := true)
  }

  /** `_next_round`: as the newer revision before the last round; after it, game over and `timer.Stop()`. */
  function NextRound(c: E.Clock, s: E.Settings, now: int): (r: E.Clock) {
    if c.round < s.rounds then
      if E.EntersBreak(c, s) then E.GoToBreak(c, s, now) else E.NewRound(c, s, now)
    else
      GameOver(c, now).(timerRunning := false)
  }

  /** `on_clock_tick` for the countdown timer: a deadline at or before `now` always runs `_next_round`, finished or not. */
  function OnClockTick(c: E.Clock, s: E.Settings, now: int): (r: E.Clock) {
    if c.roundEnd <= now then NextRound(c, s, now) else c
  }

  /** `on_menu_settings_customize` after OK: merge, then reset when not started or asked to. */
  function OnSettingsCustomize(w: E.Session, entries: seq<E.Entry>, restart: bool, now: int): (r: E.Session)
    ensures r.settings == Merge(w.settings, entries)
    ensures !w.clock.gameStarted || restart ==> r.clock == E.InitializeGame(w.clock, r.settings, now)
    ensures w.clock.gameStarted && !restart ==> r.clock == w.clock
  {
    var s := Merge(w.settings, entries);
    if !w.clock.gameStarted || restart then E.Session(s, E.InitializeGame(w.clock, s, now))
    else E.Session(s, w.clock)
  }

  /** One event, as the older revision handles it. */
  function Step(w: E.Session, e: E.Event): (r: E.Session) {
    var c := w.clock;
    var s := w.settings;
    match e
    case Tick(now) => if c.timerRunning then E.Session(s, OnClockTick(c, s, now)) else w
    case Customize(entries, restart, now) => OnSettingsCustomize(w, entries, restart, now)
    case _ => E.Step(w, e)
  }

  function Run(w: E.Session, events: seq<E.Event>): E.Session
    decreases |events|
  {
    if events == [] then w else Run(Step(w, events[0]), events[1..])
  }

  /** Every handler of the older revision keeps the invariant. */
  lemma StepKeepsInv(w: E.Session, e: E.Event)
    requires E.Inv(w.clock)
    ensures E.Inv(Step(w, e).clock)
  {
    match e
    case Tick(now) => E.NextRoundKeepsInv(w.clock, w.settings, now);
    case Customize(_, _, _) =>
    case _ => E.StepKeepsInv(w, e);
  }

  lemma {:induction false} RunKeepsInv(w: E.Session, events: seq<E.Event>)
    requires E.Inv(w.clock)
    ensures E.Inv(Run(w, events).clock)
    decreases |events|
  {
    if events != [] {
      StepKeepsInv(w, events[0]);
      RunKeepsInv(Step(w, events[0]), events[1..]);
    }
  }

  /** Every handler other than a settings change keeps the round within 1 and the round count. */
  lemma {:induction false} RunKeepsRoundInRange(w: E.Session, events: seq<E.Event>)
    requires E.RoundInRange(w)
    requires forall i :: 0 <= i < |events| ==> !events[i].Customize?
    ensures E.RoundInRange(Run(w, events))
    decreases |events|
  {
    if events != [] {
      if !events[0].Tick? {
        E.StepKeepsRoundInRange(w, events[0]);
      }
      RunKeepsRoundInRange(Step(w, events[0]), events[1..]);
    }
  }

  /** Ticks never move the round back. */
  lemma {:induction false} TicksNeverDecreaseRound(w: E.Session, events: seq<E.Event>)
    requires E.AllTicks(events)
    ensures Run(w, events).clock.round >= w.clock.round
    ensures Run(w, events).settings == w.settings
    decreases |events|
  {
    if events != [] {
      TicksNeverDecreaseRound(Step(w, events[0]), events[1..]);
    }
  }

  /** Before the last round the two revisions change rounds alike. */
  lemma RevisionsAgreeBeforeLastRound(c: E.Clock, s: E.Settings, now: int)
    requires c.round < s.rounds
    ensures NextRound(c, s, now) == E.NextRound(c, s, now)
  {
  }

  /**
   * After the last round the older revision finishes the game, stops the
   * timer and keeps the time left as a pause snapshot; the round and the
   * deadline stay.
   */
  lemma LastRoundPausesGame(c: E.Clock, s: E.Settings, now: int)
    requires c.round >= s.rounds
    ensures NextRound(c, s, now) ==
      c.(gameFinished := true, timerRunning := false, startButtonDown := false,
         timeLeftOnPause := Some(c.roundEnd - now))
  {
  }

  /** With its timer stopped, a finished game receives no ticks and so stays as it is. */
  lemma {:induction false} StoppedIgnoresTicks(w: E.Session, events: seq<E.Event>)
    requires !w.clock.timerRunning && E.AllTicks(events)
    ensures Run(w, events) == w
    decreases |events|
  {
    if events != [] {
      StoppedIgnoresTicks(w, events[1..]);
    }
  }

  /**
   * Answering "No" to "start another session?" resumes a finished game
   * whose deadline has passed, so the next tick runs game over again and
   * pauses it; the newer revision keeps the timer running and its ticks
   * change nothing.
   */
  lemma DeclinedRestartRerunsGameOver(c: E.Clock, s: E.Settings, t1: int, t2: int)
    requires E.Inv(c) && c.gameFinished && !c.timerRunning && c.round >= s.rounds
    requires c.timeLeftOnPause.value <= 0 && t1 <= t2
    ensures var r := OnClockTick(E.OnButtonStart(c, s, t1, false), s, t2);
      r.gameFinished && !r.timerRunning && r.round == c.round &&
      r.timeLeftOnPause == Some(t1 + c.timeLeftOnPause.value - t2)
    ensures var n := E.OnButtonStart(c, s, t1, false);
      n.timerRunning && E.OnClockTick(n, s, t2) == n
  {
  }
}
