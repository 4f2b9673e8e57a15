/**
 * GameSettings and BridgeTimer of the newer clock revision
 * (clock/bridge_clock_main.py) as classes whose methods update their fields
 * in place. Each method is proved to leave the state that the matching
 * function of RoundEngine computes, and to keep RoundEngine.Inv.
 */
module ClockMain {
  import opened Options
  import E = RoundEngine

  /** The settings record; `go to break` appends to its unscheduled breaks in place. */
  class GameSettings {
    var rounds: int
    var roundLength: int
    var scheduledBreaks: seq<int>
    var unscheduledBreaks: seq<int>
    var breakLength: int
    var breakVisible: bool
    var description: string
    var sounds: bool
    var manualRestart: bool

    function Value(): E.Settings
      reads this
    {
      E.Settings(rounds, roundLength, scheduledBreaks, unscheduledBreaks, breakLength,
                 breakVisible, description, sounds, manualRestart)
    }

    /** `GameSettings()`: the defaults, with no unscheduled breaks. */
    constructor ()
      ensures Value() == E.DefaultSettings
    {
      rounds := 9;
      roundLength := 20;
      scheduledBreaks := [4];
      unscheduledBreaks := [];
      breakLength := 5;
      breakVisible := false;
      description := "";
      sounds := false;
      manualRestart := false;
    }

    /**
     * `GameSettings(dict_)`: the defaults updated from the dictionary, then
     * the unscheduled breaks cleared; `null` when the update raises.
     */
    static method FromDict(entries: seq<E.Entry>) returns (g: GameSettings?, raised: bool)
      ensures raised <==> E.HasReadOnly(entries)
      ensures !raised ==> (g != null && fresh(g) &&
        g.Value() == E.Merge(E.DefaultSettings, entries).settings.(unscheduledBreaks := []))
      ensures raised ==> g == null
    {
      g := new GameSettings();
      raised := g.UpdateFromDict(entries);
      E.MergeRaisesIff(E.DefaultSettings, entries);
      if raised {
        g := null;
      } else {
        g.unscheduledBreaks := [];
      }
    }

    /** `setattr(self, k, v)` for an assignable attribute. */
    method SetAttr(a: E.Assignment)
      modifies this
      ensures Value() == E.Assign(old(Value()), a)
    {
      match a
      case SetRounds(v) => rounds := v;
      case SetRoundLength(v) => roundLength := v;
      case SetScheduledBreaks(v) => scheduledBreaks := v;
      case SetUnscheduledBreaks(v) => unscheduledBreaks := v;
      case SetBreakLength(v) => breakLength := v;
      case SetBreakVisible(v) => breakVisible := v;
      case SetDescription(v) => description := v;
      case SetSounds(v) => sounds := v;
      case SetManualRestart(v) => manualRestart := v;
    }

    /**
     * `update_from_dict`: the loop over the dictionary's items; `raised`
     * stands for the AttributeError that leaves it at a read-only name.
     */
    method UpdateFromDict(entries: seq<E.Entry>) returns (raised: bool)
      modifies this
      ensures E.Merge(old(Value()), entries) == E.MergeResult(Value(), raised)
    {
      var i := 0;
      while i < |entries|
        invariant 0 <= i <= |entries|
        invariant E.Merge(old(Value()), entries) == E.Merge(Value(), entries[i..])
      {
        assert entries[i..][0] == entries[i] && entries[i..][1..] == entries[i + 1..];
        match entries[i] {
          case Blank(_) =>
          case Unknown(_) =>
          case ReadOnly(_) =>
            return true;
          case Field(a) =>
            SetAttr(a);
        }
        i := i + 1;
      }
      return false;
    }

    /** `self.unscheduled_breaks.append(r)`. */
    method AddUnscheduledBreak(r: int)
      modifies this
      ensures Value() == old(Value()).(unscheduledBreaks := old(unscheduledBreaks) + [r])
    {
      unscheduledBreaks := unscheduledBreaks + [r];
    }
  }

  /** The clock window's state: its settings object and the clock fields its handlers update. */
  class BridgeTimer {
    const settings: GameSettings
    var round: int
    var roundEnd: int
    var timeLeftOnPause: Option<int>
    var inBreak: bool
    var gameStarted: bool
    var gameFinished: bool
    var timerRunning: bool
    var startButtonDown: bool

    function Snapshot(): E.Clock
      reads this
    {
      E.Clock(round, roundEnd, timeLeftOnPause, inBreak, gameStarted, gameFinished, timerRunning, startButtonDown)
    }

    predicate Valid()
      reads this
    {
      E.Inv(Snapshot())
    }

    /** `__init__`: the settings loaded elsewhere, the fields' first values, then `_initialize_game`. */
    constructor (settings: GameSettings, now: int)
      ensures this.settings == settings && Valid()
      ensures Snapshot() == E.InitialClock(settings.Value(), now)
    {
      this.settings := settings;
      round := 1;
      roundEnd := now;
      timeLeftOnPause := None;
      inBreak := false;
      gameStarted := false;
      gameFinished := false;
      timerRunning := false;
      startButtonDown := false;
      new;
      InitializeGame(now);
    }

    method PauseGame(now: int)
      modifies this
      ensures Snapshot() == E.PauseGame(old(Snapshot()), now)
    {
      timerRunning := false;
      timeLeftOnPause := Some(roundEnd - now);
      startButtonDown := false;
    }

    method ResetClock(now: int)
      modifies this
      ensures Snapshot() == E.ResetClock(old(Snapshot()), settings.Value(), now)
    {
      var minutes := if inBreak then settings.breakLength else settings.roundLength;
      roundEnd := now + E.Minute * minutes;
    }

    method Round1()
      modifies this
      ensures Snapshot() == E.Round1(old(Snapshot()))
    {
      round := 1;
    }

    /** `_break_this_round`. */
    function BreakThisRound(): bool
      reads this, settings
    {
      E.BreakThisRound(Snapshot(), settings.Value())
    }

    method InitializeGame(now: int)
      modifies this
      ensures Snapshot() == E.InitializeGame(old(Snapshot()), settings.Value(), now) && Valid()
    {
      gameStarted := false;
      gameFinished := false;
      Round1();
      ResetClock(now);
      PauseGame(now);
    }

    method GoToBreak(now: int)
      modifies this
      ensures Snapshot() == E.GoToBreak(old(Snapshot()), settings.Value(), now)
    {
      inBreak := true;
      roundEnd := now + E.Minute * settings.breakLength;
    }

    method GameOver()
      modifies this
      ensures Snapshot() == E.GameOver(old(Snapshot()))
    {
      gameFinished := true;
    }

    method NextRound(now: int)
      requires Valid()
      modifies this
      ensures Snapshot() == E.NextRound(old(Snapshot()), settings.Value(), now) && Valid()
    {
      E.NextRoundKeepsInv(Snapshot(), settings.Value(), now);
      if round < settings.rounds {
        if !inBreak && settings.breakVisible && BreakThisRound() {
          GoToBreak(now);
        } else {
          NewRound(now);
        }
      } else {
        GameOver();
      }
    }

    /** The increment branch of `_next_round`. */
    method NewRound(now: int)
      modifies this
      ensures Snapshot() == E.NewRound(old(Snapshot()), settings.Value(), now)
    {
      ghost var c1 := E.ResetClock(Snapshot().(round := round + 1, inBreak := false), settings.Value(), now);
      round := round + 1;
      inBreak := false;
      ResetClock(now);
      assert Snapshot() == c1;
      ghost var c2 := if !settings.breakVisible && E.BreakThisRound(c1, settings.Value())
        then c1.(roundEnd := c1.roundEnd + E.Minute * settings.breakLength) else c1;
      if !settings.breakVisible && BreakThisRound() {
        roundEnd := roundEnd + E.Minute * settings.breakLength;
      }
      assert Snapshot() == c2;
      if settings.manualRestart {
        PauseGame(now);
      }
    }

    /** `on_button_start`; `restart` is the answer to "start another session?". */
    method OnButtonStart(now: int, restart: bool)
      requires Valid()
      modifies this
      ensures Snapshot() == E.OnButtonStart(old(Snapshot()), settings.Value(), now, restart) && Valid()
    {
      startButtonDown := !startButtonDown;
      if startButtonDown {
        if gameFinished && restart {
          InitializeGame(now);
        }
        gameStarted := true;
        if timeLeftOnPause.Some? {
          roundEnd := now + timeLeftOnPause.value;
          timeLeftOnPause := None;
        }
        timerRunning := true;
      } else {
        PauseGame(now);
      }
    }

    method OnButtonReset(now: int)
      requires Valid()
      modifies this
      ensures Snapshot() == E.ResetClock(old(Snapshot()), settings.Value(), now) && Valid()
    {
      ResetClock(now);
    }

    method OnButtonClockPlus()
      requires Valid()
      modifies this
      ensures Snapshot() == E.ClockPlus(old(Snapshot())) && Valid()
    {
      roundEnd := roundEnd + E.Minute;
    }

    method OnButtonClockMinus(now: int)
      requires Valid()
      modifies this
      ensures Snapshot() == E.ClockMinus(old(Snapshot()), now) && Valid()
      ensures roundEnd > now
    {
      roundEnd := roundEnd - E.Minute;
      if roundEnd <= now {
        roundEnd := now + 5;
      }
    }

    /** `on_goto_break`; `alreadyScheduled` stands for the "Break already scheduled" notice. */
    method OnGotoBreak() returns (alreadyScheduled: bool)
      requires Valid()
      modifies this, settings
      ensures E.GotoBreak(old(Snapshot()), old(settings.Value())) ==
        E.GotoBreakResult(Snapshot(), settings.Value(), alreadyScheduled)
      ensures Valid()
    {
      if !BreakThisRound() {
        settings.AddUnscheduledBreak(round);
        if !settings.breakVisible {
          roundEnd := roundEnd + E.Minute * settings.breakLength;
        }
        alreadyScheduled := false;
      } else {
        alreadyScheduled := true;
      }
    }

    method OnButtonEndRound(now: int)
      requires Valid()
      modifies this
      ensures Snapshot() == E.EndRound(old(Snapshot()), now) && Valid()
    {
      roundEnd := now + 2;
    }

    method OnButtonRoundPlus()
      requires Valid()
      modifies this
      ensures Snapshot() == E.RoundPlus(old(Snapshot()), settings.Value()) && Valid()
    {
      if round < settings.rounds {
        round := round + 1;
      }
    }

    method OnButtonRoundMinus()
      requires Valid()
      modifies this
      ensures Snapshot() == E.RoundMinus(old(Snapshot())) && Valid()
    {
      if round > 1 {
        round := round - 1;
      }
    }

    /** `on_clock_tick` for the countdown timer, which only ticks while started. */
    method OnClockTick(now: int)
      requires Valid() && timerRunning
      modifies this
      ensures Snapshot() == E.OnClockTick(old(Snapshot()), settings.Value(), now) && Valid()
    {
      if roundEnd <= now && !gameFinished {
        NextRound(now);
      }
    }

    /** `on_menu_settings_customize` after OK, with the dialog's values and its restart box. */
    method OnMenuSettingsCustomize(entries: seq<E.Entry>, restart: bool, now: int) returns (raised: bool)
      requires Valid()
      modifies this, settings
      ensures E.OnSettingsCustomize(E.Session(old(settings.Value()), old(Snapshot())), entries, restart, now) ==
        E.CustomizeResult(E.Session(settings.Value(), Snapshot()), raised)
      ensures Valid()
    {
      raised := settings.UpdateFromDict(entries);
      if raised {
        return;
      }
      if !gameStarted || restart {
        InitializeGame(now);
      }
    }
  }
}
