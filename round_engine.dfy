/**
 * The round/break engine of the newer clock revision
 * (clock/bridge_clock_main.py) as values: the settings record, a snapshot of
 * the timer's clock fields, and one function per handler that computes the
 * snapshot after it. Wall-clock time is an explicit `now` in seconds; the
 * answer to a modal dialog is a boolean parameter; widget updates, sounds
 * and logging are left out. The class layer (module ClockMain) is proved
 * to follow these functions.
 */
module RoundEngine {
  import opened Options

  /** `wx.TimeSpan.Minute()`, in seconds. */
  const Minute := 60

  /** The fields of GameSettings. */
  datatype Settings = Settings(
    rounds: int,
    roundLength: int,
    scheduledBreaks: seq<int>,
    unscheduledBreaks: seq<int>,
    breakLength: int,
    breakVisible: bool,
    description: string,
    sounds: bool,
    manualRestart: bool)

  /** The dataclass defaults. */
  const DefaultSettings := Settings(9, 20, [4], [], 5, false, "", false, false)

  /** The `breaks` property: every round with a break after it, scheduled or requested with "go to break". */
  function Breaks(s: Settings): (b: set<int>)
    ensures forall r :: r in b <==> r in s.scheduledBreaks || r in s.unscheduledBreaks
  {
    set r | r in s.scheduledBreaks + s.unscheduledBreaks
  }

  /** One `setattr` that succeeds: an attribute of the record and a value of its type. */
  datatype Assignment =
    | SetRounds(rounds: int)
    | SetRoundLength(roundLength: int)
    | SetScheduledBreaks(scheduledBreaks: seq<int>)
    | SetUnscheduledBreaks(unscheduledBreaks: seq<int>)
    | SetBreakLength(breakLength: int)
    | SetBreakVisible(breakVisible: bool)
    | SetDescription(description: string)
    | SetSounds(sounds: bool)
    | SetManualRestart(manualRestart: bool)

  /** The attribute an assignment writes. */
  function Key(a: Assignment): string {
    match a
    case SetRounds(_) => "rounds"
    case SetRoundLength(_) => "round_length"
    case SetScheduledBreaks(_) => "scheduled_breaks"
    case SetUnscheduledBreaks(_) => "unscheduled_breaks"
    case SetBreakLength(_) => "break_length"
    case SetBreakVisible(_) => "break_visible"
    case SetDescription(_) => "description"
    case SetSounds(_) => "sounds"
    case SetManualRestart(_) => "manual_restart"
  }

  /**
   * One item of the dictionary given to `update_from_dict`, by how the
   * record treats it: a `None` value; an assignable attribute; a name the
   * instance has but cannot assign (the `breaks` property, the class
   * constants, the init-only parameters, the methods); a name it does not have.
   */
  datatype Entry = Blank(name: string) | Field(assignment: Assignment) | ReadOnly(name: string) | Unknown(name: string)

  /** `setattr(self, k, v)` for an assignable attribute. */
  function Assign(s: Settings, a: Assignment): (r: Settings) {
    match a
    case SetRounds(v) => s.(rounds := v)
    case SetRoundLength(v) => s.(roundLength := v)
    case SetScheduledBreaks(v) => s.(scheduledBreaks := v)
    case SetUnscheduledBreaks(v) => s.(unscheduledBreaks := v)
    case SetBreakLength(v) => s.(breakLength := v)
    case SetBreakVisible(v) => s.(breakVisible := v)
    case SetDescription(v) => s.(description := v)
    case SetSounds(v) => s.(sounds := v)
    case SetManualRestart(v) => s.(manualRestart := v)
  }

  /** The record after `update_from_dict`, and whether an AttributeError escaped it. */
  datatype MergeResult = MergeResult(settings: Settings, raised: bool)

  /**
   * `update_from_dict`: items in dictionary order; a `None` value is
   * skipped, an unknown name is logged and skipped, an assignable attribute
   * is set, and a read-only name passes `hasattr` but makes `setattr` raise,
   * which ends the update with the earlier items applied.
   */
  function Merge(s: Settings, entries: seq<Entry>): (r: MergeResult)
    decreases |entries|
  {
    if entries == [] then MergeResult(s, false)
    else
      match entries[0]
      case Blank(_) => Merge(s, entries[1..])
      case Unknown(_) => Merge(s, entries[1..])
      case Field(a) => Merge(Assign(s, a), entries[1..])
      case ReadOnly(_) => MergeResult(s, true)
  }

  predicate Inert(e: Entry) {
    e.Blank? || e.Unknown?
  }

  predicate HasReadOnly(entries: seq<Entry>) {
    exists i :: 0 <= i < |entries| && entries[i].ReadOnly?
  }

  /** Some item assigns the attribute `key`. */
  predicate Assigns(entries: seq<Entry>, key: string) {
    exists i :: 0 <= i < |entries| && entries[i].Field? && Key(entries[i].assignment) == key
  }

  /** `None` values and unknown names leave the record as it was, and nothing raises. */
  lemma {:induction false} MergeIgnoresInert(s: Settings, entries: seq<Entry>)
    requires forall i :: 0 <= i < |entries| ==> Inert(entries[i])
    ensures Merge(s, entries) == MergeResult(s, false)
    decreases |entries|
  {
    if entries != [] {
      MergeIgnoresInert(s, entries[1..]);
    }
  }

  /** The update raises exactly when some item names a read-only attribute. */
  lemma {:induction false} MergeRaisesIff(s: Settings, entries: seq<Entry>)
    ensures Merge(s, entries).raised <==> HasReadOnly(entries)
    decreases |entries|
  {
    if entries != [] {
      var rest := entries[1..];
      assert HasReadOnly(entries) <==> entries[0].ReadOnly? || HasReadOnly(rest) by {
        if HasReadOnly(entries) && !entries[0].ReadOnly? {
          var i :| 0 <= i < |entries| && entries[i].ReadOnly?;
          assert rest[i - 1].ReadOnly?;
        }
        if HasReadOnly(rest) {
          var i :| 0 <= i < |rest| && rest[i].ReadOnly?;
          assert entries[i + 1].ReadOnly?;
        }
      }
      match entries[0]
      case Field(x) => MergeRaisesIff(Assign(s, x), rest);
      case Blank(_) => MergeRaisesIff(s, rest);
      case Unknown(_) => MergeRaisesIff(s, rest);
      case ReadOnly(_) =>
    }
  }

  /** Updating with two dictionaries in turn is updating with both, when the first does not raise. */
  lemma {:induction false} MergeAppend(s: Settings, a: seq<Entry>, b: seq<Entry>)
    requires !HasReadOnly(a)
    ensures Merge(s, a + b) == Merge(Merge(s, a).settings, b)
    decreases |a|
  {
    if a == [] {
      assert a + b == b;
    } else {
      assert (a + b)[0] == a[0] && (a + b)[1..] == a[1..] + b;
      assert !HasReadOnly(a[1..]);
      assert !a[0].ReadOnly?;
      match a[0]
      case Field(x) => MergeAppend(Assign(s, x), a[1..], b);
      case Blank(_) => MergeAppend(s, a[1..], b);
      case Unknown(_) => MergeAppend(s, a[1..], b);
    }
  }

  /** `r` and `s` agree on the attribute `key`. */
  predicate Keeps(r: Settings, s: Settings, key: string) {
    (key == "rounds" ==> r.rounds == s.rounds) &&
    (key == "round_length" ==> r.roundLength == s.roundLength) &&
    (key == "scheduled_breaks" ==> r.scheduledBreaks == s.scheduledBreaks) &&
    (key == "unscheduled_breaks" ==> r.unscheduledBreaks == s.unscheduledBreaks) &&
    (key == "break_length" ==> r.breakLength == s.breakLength) &&
    (key == "break_visible" ==> r.breakVisible == s.breakVisible) &&
    (key == "description" ==> r.description == s.description) &&
    (key == "sounds" ==> r.sounds == s.sounds) &&
    (key == "manual_restart" ==> r.manualRestart == s.manualRestart)
  }

  /** An assignment changes only the attribute it names. */
  lemma AssignKeepsOthers(s: Settings, a: Assignment, key: string)
    requires Key(a) != key
    ensures Keeps(Assign(s, a), s, key)
  {
  }

  /** Every attribute that no item assigns keeps its value, whether or not the update raises. */
  lemma {:induction false} MergeKeepsUnassigned(s: Settings, entries: seq<Entry>, key: string)
    requires !Assigns(entries, key)
    ensures Keeps(Merge(s, entries).settings, s, key)
    decreases |entries|
  {
    if entries != [] && !entries[0].ReadOnly? {
      var rest := entries[1..];
      assert !Assigns(rest, key);
      match entries[0]
      case Field(x) =>
        assert entries[0].Field? && Key(entries[0].assignment) == Key(x);
        AssignKeepsOthers(s, x, key);
        MergeKeepsUnassigned(Assign(s, x), rest, key);
      case Blank(_) => MergeKeepsUnassigned(s, rest, key);
      case Unknown(_) => MergeKeepsUnassigned(s, rest, key);
    }
  }

  /**
   * The clock fields of BridgeTimer: `round`, `round_end`,
   * `time_left_on_pause`, `_in_break`, `_game_started`, `_game_finished`,
   * whether `self.timer` is started, and the value of the start/pause
   * toggle button, which `on_button_start` branches on.
   */
  datatype Clock = Clock(
    round: int,
    roundEnd: int,
    timeLeftOnPause: Option<int>,
    inBreak: bool,
    gameStarted: bool,
    gameFinished: bool,
    timerRunning: bool,
    startButtonDown: bool)

  /**
   * Kept by every handler: the round is at least 1, there is a pause
   * snapshot exactly when the timer is stopped, and a stopped timer has its
   * button up. (A running timer may have its button up too: see
   * `RestartLeavesButtonUp`.)
   */
  predicate Inv(c: Clock) {
    c.round >= 1 &&
    (c.timerRunning <==> c.timeLeftOnPause.None?) &&
    (!c.timerRunning ==> !c.startButtonDown)
  }

  /** `_pause_game`: stop the timer and keep the time left, which may be negative. */
  function PauseGame(c: Clock, now: int): Clock {
    c.(timerRunning := false, timeLeftOnPause := Some(c.roundEnd - now), startButtonDown := false)
  }

  /** `_reset_clock`: a full break while in a visible break, a full round otherwise, from `now`. */
  function ResetClock(c: Clock, s: Settings, now: int): Clock {
    c.(roundEnd := now + Minute * (if c.inBreak then s.breakLength else s.roundLength))
  }

  /** `_round_1`. */
  function Round1(c: Clock): Clock {
    c.(round := 1)
  }

  /** `_break_this_round`: the current round has a break after it. */
  function BreakThisRound(c: Clock, s: Settings): (b: bool)
    ensures b <==> c.round in s.scheduledBreaks || c.round in s.unscheduledBreaks
  {
    c.round in Breaks(s)
  }

  /**
   * `_initialize_game`: not started, not finished, round 1, clock reset and
   * paused. It neither clears `_in_break` nor the unscheduled breaks.
   */
  function InitializeGame(c: Clock, s: Settings, now: int): (r: Clock)
    ensures r.round == 1 && !r.gameStarted && !r.gameFinished && r.inBreak == c.inBreak
    ensures !r.timerRunning && !r.startButtonDown
    ensures r.timeLeftOnPause == Some(Minute * (if c.inBreak then s.breakLength else s.roundLength))
    ensures Inv(r)
  {
    PauseGame(ResetClock(Round1(c.(gameStarted := false, gameFinished := false)), s, now), now)
  }

  /** `BridgeTimer.__init__`: the fields' first values, then `_initialize_game`. */
  function InitialClock(s: Settings, now: int): (r: Clock)
    ensures Inv(r) && !r.inBreak
    ensures r.timeLeftOnPause == Some(Minute * s.roundLength)
  {
    InitializeGame(Clock(1, now, None, false, false, false, false, false), s, now)
  }

  /** `_go_to_break`: a visible break of `break_length` minutes from `now`. */
  function GoToBreak(c: Clock, s: Settings, now: int): Clock {
    c.(inBreak := true, roundEnd := now + Minute * s.breakLength)
  }

  /** `_game_over`, state part: the game is finished; the timer keeps running. */
  function GameOver(c: Clock): Clock {
    c.(gameFinished := true)
  }

  /** Takes the visible-break branch of `_next_round`. */
  predicate EntersBreak(c: Clock, s: Settings) {
    !c.inBreak && s.breakVisible && BreakThisRound(c, s)
  }

  /**
   * `_next_round`: before the last round either a visible break (kept off
   * when one is in progress) or the next round, whose clock takes an
   * invisible break when the NEW round has one, and which pauses when
   * restarts are manual; after the last round, game over.
   */
  function NextRound(c: Clock, s: Settings, now: int): (r: Clock) {
    if c.round < s.rounds then
      if EntersBreak(c, s) then GoToBreak(c, s, now) else NewRound(c, s, now)
    else
      GameOver(c)
  }

  /** The increment branch of `_next_round`. */
  function NewRound(c: Clock, s: Settings, now: int): Clock {
    var c1 := ResetClock(c.(round := c.round + 1, inBreak := false), s, now);
    var c2 := if !s.breakVisible && BreakThisRound(c1, s)
      then c1.(roundEnd := c1.roundEnd + Minute * s.breakLength) else c1;
    if s.manualRestart then PauseGame(c2, now) else c2
  }

  /**
   * `on_button_start`: the click flips the toggle first. Pressed: after a
   * finished game, `restart` is the answer to "start another session?";
   * then the game is started, a pause snapshot is turned back into a
   * deadline, and the timer runs. Released: pause.
   */
  function OnButtonStart(c: Clock, s: Settings, now: int, restart: bool): (r: Clock) {
    var c0 := c.(startButtonDown := !c.startButtonDown);
    if c0.startButtonDown then
      var c1 := if c0.gameFinished && restart then InitializeGame(c0, s, now) else c0;
      var c2 := c1.(gameStarted := true);
      var c3 := if c2.timeLeftOnPause.Some?
        then c2.(roundEnd := now + c2.timeLeftOnPause.value, timeLeftOnPause := None) else c2;
      c3.(timerRunning := true)
    else
      PauseGame(c0, now)
  }

  /** `on_button_clock_plus`: one more minute, whatever the phase. */
  function ClockPlus(c: Clock): Clock {
    c.(roundEnd := c.roundEnd + Minute)
  }

  /** `on_button_clock_minus`: one minute less, but never at or before `now` (then five seconds from now). */
  function ClockMinus(c: Clock, now: int): (r: Clock)
    ensures r.roundEnd > now
    ensures c.roundEnd - Minute > now ==> r.roundEnd == c.roundEnd - Minute
    ensures c.roundEnd - Minute <= now ==> r.roundEnd == now + 5
    ensures r.(roundEnd := c.roundEnd) == c
  {
    var e := c.roundEnd - Minute;
    c.(roundEnd := if e <= now then now + 5 else e)
  }

  /** `on_button_end_round`: the round (or break) ends two seconds from now. */
  function EndRound(c: Clock, now: int): Clock {
    c.(roundEnd := now + 2)
  }

  /** What `on_goto_break` leaves: the clock, the settings, and whether it showed "Break already scheduled". */
  datatype GotoBreakResult = GotoBreakResult(clock: Clock, settings: Settings, alreadyScheduled: bool)

  /**
   * `on_goto_break`: a round that already has a break changes nothing (a
   * notice is shown); otherwise the round is appended to the unscheduled
   * breaks and, with invisible breaks, the break's minutes are added to the
   * running clock.
   */
  function GotoBreak(c: Clock, s: Settings): (r: GotoBreakResult)
    ensures r.alreadyScheduled <==> BreakThisRound(c, s)
    ensures r.alreadyScheduled ==> r.clock == c && r.settings == s
    ensures !r.alreadyScheduled ==>
      r.settings == s.(unscheduledBreaks := s.unscheduledBreaks + [c.round]) &&
      BreakThisRound(c, r.settings) &&
      r.clock == c.(roundEnd := c.roundEnd + (if s.breakVisible then 0 else Minute * s.breakLength))
  {
    if !BreakThisRound(c, s) then
      var s' := s.(unscheduledBreaks := s.unscheduledBreaks + [c.round]);
      var c' := if !s.breakVisible then c.(roundEnd := c.roundEnd + Minute * s.breakLength) else c;
      GotoBreakResult(c', s', false)
    else
      GotoBreakResult(c, s, true)
  }

  /** `on_button_round_plus`: up to the last round; the clock is not touched. */
  function RoundPlus(c: Clock, s: Settings): (r: Clock)
    ensures 1 <= c.round <= s.rounds ==> 1 <= r.round <= s.rounds
    ensures r.round == (if c.round < s.rounds then c.round + 1 else c.round)
    ensures r.(round := c.round) == c
  {
    if c.round < s.rounds then c.(round := c.round + 1) else c
  }

  /** `on_button_round_minus`: down to round 1; the clock is not touched. */
  function RoundMinus(c: Clock): (r: Clock)
    ensures c.round >= 1 ==> r.round >= 1
    ensures r.round == (if c.round > 1 then c.round - 1 else c.round)
    ensures r.(round := c.round) == c
  {
    if c.round > 1 then c.(round := c.round - 1) else c
  }

  /** `on_clock_tick` for the countdown timer: a deadline at or before `now` runs `_next_round`, unless the game is finished. */
  function OnClockTick(c: Clock, s: Settings, now: int): (r: Clock) {
    if c.roundEnd <= now && !c.gameFinished then NextRound(c, s, now) else c
  }

  /** The record and the clock together, as the handlers that change both see them. */
  datatype Session = Session(settings: Settings, clock: Clock)

  /** What `on_menu_settings_customize` leaves, and whether `update_from_dict` raised. */
  datatype CustomizeResult = CustomizeResult(session: Session, raised: bool)

  /**
   * `on_menu_settings_customize` after OK: merge the dialog's values; reset
   * the game when it has not started or a restart was asked for. An
   * exception from the update leaves the handler before the reset.
   */
  function OnSettingsCustomize(w: Session, entries: seq<Entry>, restart: bool, now: int): (r: CustomizeResult)
    ensures r.raised <==> HasReadOnly(entries)
    ensures r.session.settings == Merge(w.settings, entries).settings
    ensures r.raised || (w.clock.gameStarted && !restart) ==> r.session.clock == w.clock
    ensures !r.raised && (!w.clock.gameStarted || restart) ==>
      r.session.clock == InitializeGame(w.clock, r.session.settings, now)
  {
    MergeRaisesIff(w.settings, entries);
    var m := Merge(w.settings, entries);
    if m.raised then CustomizeResult(Session(m.settings, w.clock), true)
    else if !w.clock.gameStarted || restart then
      CustomizeResult(Session(m.settings, InitializeGame(w.clock, m.settings, now)), false)
    else
      CustomizeResult(Session(m.settings, w.clock), false)
  }

  /** What can happen to a running clock: a timer tick, or a button or menu command, each at its own `now`. */
  datatype Event =
    | Tick(now: int)
    | StartPause(now: int, restart: bool)
    | Reset(now: int)
    | PlusMinute
    | MinusMinute(now: int)
    | GotoBreakRequest
    | EndRoundNow(now: int)
    | NextRoundNumber
    | PreviousRoundNumber
    | Customize(entries: seq<Entry>, restart: bool, now: int)

  /** One event. A stopped `wx.Timer` delivers no ticks. */
  function Step(w: Session, e: Event): (r: Session) {
    var c := w.clock;
    var s := w.settings;
    match e
    case Tick(now) => if c.timerRunning then Session(s, OnClockTick(c, s, now)) else w
    case StartPause(now, restart) => Session(s, OnButtonStart(c, s, now, restart))
    case Reset(now) => Session(s, ResetClock(c, s, now))
    case PlusMinute => Session(s, ClockPlus(c))
    case MinusMinute(now) => Session(s, ClockMinus(c, now))
    case GotoBreakRequest => var g := GotoBreak(c, s); Session(g.settings, g.clock)
    case EndRoundNow(now) => Session(s, EndRound(c, now))
    case NextRoundNumber => Session(s, RoundPlus(c, s))
    case PreviousRoundNumber => Session(s, RoundMinus(c))
    case Customize(entries, restart, now) => OnSettingsCustomize(w, entries, restart, now).session
  }

  function Run(w: Session, events: seq<Event>): Session
    decreases |events|
  {
    if events == [] then w else Run(Step(w, events[0]), events[1..])
  }

  /**
   * The clock buttons move only the deadline, never the round or the phase:
   * one minute more; one minute less but still strictly after `now`
   * (five seconds from now when a minute less would not be); two seconds
   * from now.
   */
  lemma DeadlineAdjustments(c: Clock, now: int)
    ensures ClockPlus(c) == c.(roundEnd := c.roundEnd + Minute)
    ensures ClockMinus(c, now) == c.(roundEnd := ClockMinus(c, now).roundEnd)
    ensures ClockMinus(c, now).roundEnd > now
    ensures EndRound(c, now) == c.(roundEnd := now + 2)
  {
  }

  /** Reset gives a full break in a visible break and a full round otherwise, from `now`, and touches nothing else. */
  lemma ResetGivesFullPhase(c: Clock, s: Settings, now: int)
    ensures var r := ResetClock(c, s, now);
      r.roundEnd - now == Minute * (if c.inBreak then s.breakLength else s.roundLength) &&
      r == c.(roundEnd := r.roundEnd)
  {
  }

  /** `_next_round` keeps the invariant. */
  lemma NextRoundKeepsInv(c: Clock, s: Settings, now: int)
    requires Inv(c)
    ensures Inv(NextRound(c, s, now))
  {
  }

  /** Every handler keeps the invariant. */
  lemma StepKeepsInv(w: Session, e: Event)
    requires Inv(w.clock)
    ensures Inv(Step(w, e).clock)
  {
    match e
    case Tick(now) => NextRoundKeepsInv(w.clock, w.settings, now);
    case _ =>
  }

  /** Every reachable clock satisfies the invariant, starting from the one `__init__` builds. */
  lemma {:induction false} RunKeepsInv(w: Session, events: seq<Event>)
    requires Inv(w.clock)
    ensures Inv(Run(w, events).clock)
    decreases |events|
  {
    if events != [] {
      StepKeepsInv(w, events[0]);
      RunKeepsInv(Step(w, events[0]), events[1..]);
    }
  }

  /** The round stays within 1 and the round count. */
  predicate RoundInRange(w: Session) {
    1 <= w.clock.round <= w.settings.rounds
  }

  /** Every handler other than a settings change keeps the round within range (`_next_round` never passes the last round). */
  lemma StepKeepsRoundInRange(w: Session, e: Event)
    requires RoundInRange(w) && !e.Customize?
    ensures RoundInRange(Step(w, e))
  {
  }

  lemma {:induction false} RunKeepsRoundInRange(w: Session, events: seq<Event>)
    requires RoundInRange(w)
    requires forall i :: 0 <= i < |events| ==> !events[i].Customize?
    ensures RoundInRange(Run(w, events))
    decreases |events|
  {
    if events != [] {
      StepKeepsRoundInRange(w, events[0]);
      RunKeepsRoundInRange(Step(w, events[0]), events[1..]);
    }
  }

  predicate AllTicks(events: seq<Event>) {
    forall i :: 0 <= i < |events| ==> events[i].Tick?
  }

  /** Ticks never move the round back and never change the settings. */
  lemma {:induction false} TicksNeverDecreaseRound(w: Session, events: seq<Event>)
    requires AllTicks(events)
    ensures Run(w, events).clock.round >= w.clock.round
    ensures Run(w, events).settings == w.settings
    decreases |events|
  {
    if events != [] {
      TicksNeverDecreaseRound(Step(w, events[0]), events[1..]);
    }
  }

  /** Once the game is finished, no tick changes anything. */
  lemma {:induction false} FinishedIgnoresTicks(w: Session, events: seq<Event>)
    requires w.clock.gameFinished && AllTicks(events)
    ensures Run(w, events) == w
    decreases |events|
  {
    if events != [] {
      assert Step(w, events[0]) == w;
      FinishedIgnoresTicks(w, events[1..]);
    }
  }

  /** A visible break after the current round: the round stays, the break starts, its deadline is a full break away. */
  lemma VisibleBreakEntry(c: Clock, s: Settings, now: int)
    requires c.round < s.rounds && !c.inBreak && s.breakVisible && c.round in Breaks(s)
    ensures NextRound(c, s, now) == c.(inBreak := true, roundEnd := now + Minute * s.breakLength)
  {
  }

  /**
   * The increment branch: the round goes up by one, the break flag is
   * cleared, the deadline is a full round from `now` plus the break when
   * breaks are invisible and the new round has one, and the clock pauses
   * on manual restart. A clock in a visible break always takes it.
   */
  lemma IncrementBranch(c: Clock, s: Settings, now: int)
    requires c.round < s.rounds && (c.inBreak || !s.breakVisible || c.round !in Breaks(s))
    ensures var r := NextRound(c, s, now);
      var end := now + Minute * s.roundLength +
        (if !s.breakVisible && c.round + 1 in Breaks(s) then Minute * s.breakLength else 0);
      r.round == c.round + 1 && !r.inBreak && r.roundEnd == end &&
      r.gameStarted == c.gameStarted && r.gameFinished == c.gameFinished &&
      (s.manualRestart ==> r == PauseGame(c.(round := c.round + 1, inBreak := false, roundEnd := end), now)) &&
      (!s.manualRestart ==> r == c.(round := c.round + 1, inBreak := false, roundEnd := end))
  {
  }

  /** A visible break is taken exactly once: when it ends, the next round starts. */
  lemma BreakTakenOnce(c: Clock, s: Settings, t1: int, t2: int)
    requires c.round < s.rounds && !c.inBreak && s.breakVisible && c.round in Breaks(s)
    ensures var b := NextRound(c, s, t1);
      b.inBreak && b.round == c.round &&
      NextRound(b, s, t2).round == c.round + 1 && !NextRound(b, s, t2).inBreak
  {
    VisibleBreakEntry(c, s, t1);
    IncrementBranch(NextRound(c, s, t1), s, t2);
  }

  /** After the last round only the finished flag changes; the round and the deadline stay. */
  lemma LastRoundEndsGame(c: Clock, s: Settings, now: int)
    requires c.round >= s.rounds
    ensures NextRound(c, s, now) == c.(gameFinished := true)
  {
  }

  /**
   * Pausing at `t1` and resuming at `t2` (two clicks of a pressed button in
   * a game that is not over) moves the deadline by the time spent paused
   * and leaves the rest as it was; at the same instant it changes nothing.
   */
  lemma PauseResume(c: Clock, s: Settings, t1: int, t2: int, a1: bool, a2: bool)
    requires Inv(c) && c.startButtonDown && !c.gameFinished && c.gameStarted
    ensures OnButtonStart(OnButtonStart(c, s, t1, a1), s, t2, a2) == c.(roundEnd := c.roundEnd + (t2 - t1))
  {
  }

  /**
   * The toggle button can show "not pressed" while the timer runs: after a
   * finished game, answering "Yes" re-initializes, which releases the
   * button, and the timer is then started; the next click therefore
   * resumes rather than pauses.
   */
  lemma RestartLeavesButtonUp(c: Clock, s: Settings, now: int)
    requires Inv(c) && c.gameFinished && !c.startButtonDown
    ensures var r := OnButtonStart(c, s, now, true);
      r.timerRunning && !r.startButtonDown && r.round == 1 && r.gameStarted && !r.gameFinished
  {
  }

  /** Re-initializing during a visible break keeps the break: round 1 gets a break's length and its end moves to round 2. */
  lemma InitializeKeepsBreak(c: Clock, s: Settings, now: int, later: int)
    requires c.inBreak && s.rounds > 1
    ensures var r := InitializeGame(c, s, now);
      r.inBreak && r.round == 1 && r.timeLeftOnPause == Some(Minute * s.breakLength) &&
      NextRound(r, s, later).round == 2
  {
  }

  /** Minutes added or taken while paused are lost on resume: the deadline comes from the snapshot. */
  lemma PausedAdjustmentLost(c: Clock, s: Settings, now: int, t: int, restart: bool)
    requires Inv(c) && !c.timerRunning && !c.gameFinished
    ensures OnButtonStart(ClockPlus(c), s, t, restart) == OnButtonStart(c, s, t, restart)
    ensures OnButtonStart(ClockMinus(c, now), s, t, restart) == OnButtonStart(c, s, t, restart)
  {
  }

  /**
   * The invisible break is folded into the clock of the round that FOLLOWS
   * a round in the break list only when that following round is itself in
   * the list: a break listed after round `r` alone is never added.
   */
  lemma FoldTestsNewRound(c: Clock, s: Settings, now: int)
    requires !s.breakVisible && c.round < s.rounds
    ensures NextRound(c, s, now).roundEnd ==
      now + Minute * s.roundLength + (if c.round + 1 in Breaks(s) then Minute * s.breakLength else 0)
  {
  }

  /** Settings of the worked examples below: three rounds of 20 minutes, a visible break after round 1. */
  const ScenarioSettings := DefaultSettings.(rounds := 3, roundLength := 20, scheduledBreaks := [1], breakVisible := true)

  /**
   * Worked example of VisibleBreakEntry, IncrementBranch and
   * LastRoundEndsGame on one game started at `t0`. With a visible break
   * after round 1: the break starts at t0+20m with
   * round 1 kept and ends at t0+25m; round 2 runs to t0+45m, round 3 to
   * t0+65m, and then the game is finished.
   */
  lemma VisibleBreakScenario(tInit: int, t0: int)
    ensures var s := ScenarioSettings;
      var c0 := OnButtonStart(InitialClock(s, tInit), s, t0, false);
      var c1 := OnClockTick(c0, s, t0 + 20 * Minute);
      var c2 := OnClockTick(c1, s, t0 + 25 * Minute);
      var c3 := OnClockTick(c2, s, t0 + 45 * Minute);
      var c4 := OnClockTick(c3, s, t0 + 65 * Minute);
      c0.roundEnd == t0 + 20 * Minute && c0.timerRunning &&
      c1.inBreak && c1.round == 1 && c1.roundEnd == t0 + 25 * Minute &&
      !c2.inBreak && c2.round == 2 && c2.roundEnd == t0 + 45 * Minute &&
      c3.round == 3 && c3.roundEnd == t0 + 65 * Minute && !c3.gameFinished &&
      c4.gameFinished && c4.round == 3
  {
    var s := ScenarioSettings;
    assert 1 in Breaks(s) && 2 !in Breaks(s) && 3 !in Breaks(s);
  }

  /**
   * Worked example of FoldTestsNewRound. The same game with invisible
   * breaks: round 2 starts at t0+20m with no
   * break phase and, because round 2 is not in the break list, its
   * deadline is t0+40m; the five break minutes are not added.
   */
  lemma InvisibleBreakScenario(tInit: int, t0: int)
    ensures var s := ScenarioSettings.(breakVisible := false);
      var c0 := OnButtonStart(InitialClock(s, tInit), s, t0, false);
      var c1 := OnClockTick(c0, s, t0 + 20 * Minute);
      !c1.inBreak && c1.round == 2 && c1.roundEnd == t0 + 40 * Minute
  {
    var s := ScenarioSettings.(breakVisible := false);
    assert 2 !in Breaks(s);
  }

  /** Worked example of GotoBreak: asking for a break after round 2 with invisible breaks adds the break's minutes at once; asking again is refused. */
  lemma UnscheduledBreakScenario(c: Clock)
    requires c.round == 2
    ensures var s := ScenarioSettings.(breakVisible := false);
      var g1 := GotoBreak(c, s);
      var g2 := GotoBreak(g1.clock, g1.settings);
      !g1.alreadyScheduled && g1.clock.roundEnd == c.roundEnd + 5 * Minute &&
      g2.alreadyScheduled && g2.clock == g1.clock && g2.settings == g1.settings
  {
    var s := ScenarioSettings.(breakVisible := false);
    assert 2 !in Breaks(s);
  }

  /** Worked example of ClockMinus: taking a minute off with ten seconds left leaves exactly five seconds. */
  lemma MinusMinuteScenario(c: Clock, now: int)
    requires c.roundEnd == now + 10
    ensures ClockMinus(c, now).roundEnd == now + 5
  {
  }
}
