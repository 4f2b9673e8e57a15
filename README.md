# Bridge clock: the round/break timer and its settings checks

This project is a Dafny model of the core of `bridge_clock`. That program shows a bridge club a countdown clock: a game of several rounds, each a few minutes long, with optional breaks after some of them. The model covers two things:

* the timer engine: `GameSettings`, the record of a game's settings, and the clock logic of `BridgeTimer`, which moves through rounds and breaks when the deadline passes and when buttons or menu commands are used;
* the field validators of the settings dialog: round count, round length, break length, and the comma-separated list of break rounds.

The repository holds two revisions of both parts. The newer one is under `clock/` and the older one is at the top level. Both are modelled, and lemmas state where they agree and where they differ.

## Layout

| module | file | holds |
|---|---|---|
| `Options` | `options.dfy` | `Option` |
| `Text` | `text.dfy` | `strip()`, `split(",")`, `",".join`, `str(n)`, and an abstract base-10 `int()` (`ParseInt`) |
| `Validators` | `validators.dfy` | the checks in `clock/validators.py` |
| `LegacyValidators` | `legacy_validators.dfy` | the checks in `validators.py`, compared with the newer ones |
| `RoundEngine` | `round_engine.dfy` | the newer engine as values: one function per handler, a `Session`/`Event`/`Run` trace, and the lemmas |
| `ClockMain` | `clock_main.dfy` | classes `GameSettings` and `BridgeTimer` of `clock/bridge_clock_main.py` |
| `LegacyRoundEngine` | `legacy_round_engine.dfy` | the three handlers the older engine writes differently, and its lemmas |
| `LegacyClockMain` | `legacy_clock_main.dfy` | classes `GameSettings` and `BridgeTimer` of `bridge_clock_main.py` |

The classes work the way the Python objects do: their methods update the objects' fields in place. Each method is proved to leave `Snapshot()`, or the settings object's `Value()`, equal to what the matching `RoundEngine` or `LegacyRoundEngine` function computes. The properties are then lemmas about those functions.

Time is an integer number of seconds, and a minute is 60 of them. The wall clock (`wx.DateTime.Now()`) becomes a `now` parameter for each handler. The answers to the modal dialogs become `bool` parameters:

* "start another session?" becomes `restart`;
* the settings dialog's restart box is also `restart`;
* the "Break already scheduled" notice is modelled as an out value.

A dictionary passed to `update_from_dict` is a sequence of `Entry` items in dictionary order:

* `Blank`: the value is `None`;
* `Field`: an attribute the record can assign;
* `ReadOnly`: the read-only `breaks` property;
* `Unknown`: any other name.

### Behaviour of the code worth knowing

The code does the following, which a reader of its docstrings and button labels might not expect; the model does the same:

* **Pause snapshot.** `_pause_game` stores `round_end - now` unclamped, so a pause after the deadline keeps a negative time left.
* **Re-initialising.** `_initialize_game` clears neither `_in_break` nor the unscheduled breaks. A restart during a visible break therefore gives round 1 a break's length (`InitializeKeepsBreak`).
* **±1 minute while paused.** The ±1 minute buttons change the deadline even while the clock is paused. The change is lost on resume, because resuming recomputes the deadline from the pause snapshot (`PausedAdjustmentLost`).
* **Invisible breaks.** `_next_round` adds an invisible break's minutes to the clock of the NEW round only when the new round is itself in the break list. A break listed after round 1 alone is never added (`FoldTestsNewRound`, `InvisibleBreakScenario`: round 2 ends at t0+40m, not at t0+45m).
* **Declined restart in the older revision.** The older `_game_over` pauses the clock, and its tick handler has no "finished" guard. Answering "No" to "start another session?" resumes a finished game whose deadline has passed, and the next tick runs game over again (`DeclinedRestartRerunsGameOver`).

## Model

| member | source | states |
|---|---|---|
| Text.Strip | clock/validators.py:193 | `strip()` leaves no white space at either end |
| Text.StripSlice | clock/validators.py:193 | what `strip()` keeps is a contiguous slice, and everything removed on either side is white space |
| Text.StripPadding | clock/validators.py:193 | surrounding white space never changes the result of `strip()` |
| Text.StripIdempotent | clock/validators.py:193 | `strip()` applied twice equals `strip()` applied once |
| Text.StripBlank | clock/validators.py:193 | `strip()` leaves nothing exactly when the text is all white space |
| Text.ShowNat | clock/bridge_clock_main.py:689-691 | `str(n)` of a natural number is a non-empty string of digits whose decimal value is `n` |
| Text.ShowInt | clock/bridge_clock_main.py:689-691 | `str(n)`; its meaning is given by `Text.ParseShow` (read back, it is `n`) and `Validators.ShowIntShape` |
| Text.ParseShow | clock/validators.py:69 | `int(str(n)) == n` for every integer |
| Text.ParseInt | clock/validators.py:69 | `int(text)`, with `None` for the ValueError; its meaning is given by `Text.ParseIntShape` (which texts it accepts and which raise), `Text.ParseShow` and `Text.ParsePadding` |
| Text.ParsePadding | clock/validators.py:69 | `int()` ignores white space around the number |
| Text.ParseIntShape | clock/validators.py:69 | `int()` succeeds exactly on white space, an optional `+` or `-`, one or more digits, and white space; every other text raises ValueError |
| Text.Split | clock/validators.py:170 | `split(",")` yields at least one piece, no piece contains the separator, and joining the pieces gives back the input |
| Text.SplitJoin | clock/bridge_clock_main.py:689-691 | splitting what `join` wrote gives back the pieces, when none contains the separator |
| Text.Join | clock/bridge_clock_main.py:689-691 | `",".join`; `Text.Split` and `Text.SplitJoin` state that it and `split` undo each other |
| Validators.CheckInt | clock/validators.py:66-76 | raises "not an integer" exactly when `int()` fails, and returns exactly when the value lies within the inclusive limits |
| Validators.Validate | clock/validators.py:79-97 | accepts exactly the integers within `[min, max]`; asks for confirmation exactly when `warn` is non-zero and the value exceeds it; rejects a non-integer with the "integer" reason |
| Validators.RoundCountValidate | clock/validators.py:113-117 | a round count is accepted exactly as an integer from 1 to 20, and confirmed exactly above 14 |
| Validators.RoundLengthValidate | clock/validators.py:132-136 | a round length is accepted exactly as an integer from 1 to 210, and confirmed exactly above 85 |
| Validators.BreakLengthValidate | clock/validators.py:218-222 | a break length is accepted exactly as an integer from 0 to 100, and confirmed exactly above 7 |
| Validators.ValidateNumber | clock/validators.py:20-32 | a number written by `str()` is accepted exactly within the limits, and confirmed exactly above a non-zero `warn` |
| Validators.ParseAll | clock/validators.py:170 | the list comprehension fails exactly when some piece is not an integer; otherwise it yields each piece's value in order |
| Validators.NumRounds | clock/validators.py:177-182 | the round-count text's integer, or 1 when it has none |
| Validators.CheckPieces | clock/validators.py:170-187 | passes exactly when every piece is an integer in `1..numRounds-1`; reports "not integers" exactly when some piece is not one |
| Validators.CheckBreaks | clock/validators.py:162-187 | empty text passes; otherwise passes exactly when every comma-separated piece is an integer in `1..numRounds-1`; reports "not integers" exactly when some piece is not one |
| Validators.BreakValidate | clock/validators.py:189-202 | accepts exactly when the text is blank (all white space) or every piece of the stripped text is an integer in `1..numRounds-1` |
| Validators.BreakValidatePadding | clock/validators.py:189-202 | white space around the break list never changes the verdict (the text is stripped first) |
| Validators.BlankBreaksAccepted | clock/validators.py:166-167 | blank break text means "no breaks" and is accepted |
| Validators.UnparsableRoundCountRejects | clock/validators.py:177-187 | with an unreadable round count the fallback of one round rejects every non-blank break list |
| Validators.ParseAllShown | clock/bridge_clock_main.py:689-691 | the pieces the dialog writes parse back to the break rounds |
| Validators.ShowAll | clock/bridge_clock_main.py:689-691 | `map(str, breaks)` keeps one piece per break; `Validators.ParseAllShown` reads them back |
| Validators.BreaksText | clock/bridge_clock_main.py:689-691 | the dialog's break text; `Validators.BreaksTextSplits` and `Validators.BreaksTextAccepted` state its meaning |
| Validators.BreaksTextSplits | clock/bridge_clock_main.py:689-691 | the dialog's break text is unchanged by `strip()` and splits back into the written pieces |
| Validators.BreaksTextAccepted | clock/validators.py:162-202 | a break list written the way the dialog writes it is accepted exactly when every break lies in `1..rounds-1` |
| LegacyValidators.IntValidate | validators.py:49-67 | never raises; accepts exactly the integers within `[lo, hi]`; shows a message exactly above `warn` |
| LegacyValidators.RoundCountValidate | validators.py:49-67 | accepted exactly as an integer from 1 to 20, with a message exactly above 14 |
| LegacyValidators.RoundLengthValidate | validators.py:89-107 | accepted exactly as an integer from 1 to 210, with a message exactly above 80 |
| LegacyValidators.BreakLengthValidate | validators.py:173-191 | accepted exactly as an integer from 0 to 100, with a message exactly above 7 |
| LegacyValidators.BreakValidate | validators.py:128-151 | accepted exactly when the text is empty, or the round count parses and every piece is a break in range; a ValueError escapes exactly when all pieces are integers and the round count is not |
| LegacyValidators.IntValidateNumber | validators.py:17-27 | a number written by `str()` is accepted exactly within the limits, with a message exactly above `warn` |
| LegacyValidators.BreakRevisionsAgree | validators.py:128-151 | on stripped text with a readable round count, both revisions accept the same break lists |
| LegacyValidators.BlankBreaksDiffer | validators.py:134-143 | `" "` is rejected by the older break check and accepted by the newer one |
| LegacyValidators.UnreadableRoundCountDiffers | validators.py:143 | with an unreadable round count the older break check raises, while the newer one rejects |
| LegacyValidators.RoundLengthWarnDiffers | validators.py:17-27 | round lengths from 81 to 85 get a message in the older revision and none in the newer |
| RoundEngine.Breaks | clock/bridge_clock_main.py:47-52 | a round has a break exactly when it is scheduled or requested with "go to break" |
| RoundEngine.Merge | clock/bridge_clock_main.py:79-86 | `update_from_dict`; its meaning is stated by `RoundEngine.MergeIgnoresInert`, `RoundEngine.MergeRaisesIff`, `RoundEngine.MergeAppend` and `RoundEngine.MergeKeepsUnassigned` |
| RoundEngine.PauseGame | clock/bridge_clock_main.py:229-234 | `_pause_game`; `RoundEngine.PauseResume` and `RoundEngine.PausedAdjustmentLost` state what the snapshot does on resume |
| RoundEngine.ResetClock | clock/bridge_clock_main.py:287-293 | `_reset_clock`; `RoundEngine.ResetGivesFullPhase` states its result |
| RoundEngine.Round1 | clock/bridge_clock_main.py:271-274 | `_round_1`; its result is part of `RoundEngine.InitializeGame`'s contract |
| RoundEngine.GoToBreak | clock/bridge_clock_main.py:363-372 | `_go_to_break`; `RoundEngine.VisibleBreakEntry` states its result |
| RoundEngine.GameOver | clock/bridge_clock_main.py:374-382 | `_game_over`; `RoundEngine.LastRoundEndsGame` and `RoundEngine.FinishedIgnoresTicks` state its effect |
| RoundEngine.NextRound | clock/bridge_clock_main.py:326-361 | `_next_round`; `RoundEngine.VisibleBreakEntry`, `RoundEngine.IncrementBranch` and `RoundEngine.LastRoundEndsGame` state its three branches, and `RoundEngine.NextRoundKeepsInv` the invariant |
| RoundEngine.NewRound | clock/bridge_clock_main.py:347-359 | the increment branch of `_next_round`; `RoundEngine.IncrementBranch` and `RoundEngine.FoldTestsNewRound` state it |
| RoundEngine.OnButtonStart | clock/bridge_clock_main.py:569-595 | `on_button_start`; `RoundEngine.PauseResume`, `RoundEngine.RestartLeavesButtonUp` and `RoundEngine.PausedAdjustmentLost` state its behaviour |
| RoundEngine.ClockPlus | clock/bridge_clock_main.py:602-606 | +1 minute; `RoundEngine.DeadlineAdjustments` states that it moves only the deadline, one minute later |
| RoundEngine.EndRound | clock/bridge_clock_main.py:636-640 | end round; `RoundEngine.DeadlineAdjustments` states that only the deadline moves, to two seconds from now |
| RoundEngine.OnClockTick | clock/bridge_clock_main.py:656-670 | `on_clock_tick`: a passed deadline runs `_next_round` unless the game is finished; `RoundEngine.FinishedIgnoresTicks` and `RoundEngine.TicksNeverDecreaseRound` state its effect over runs |
| RoundEngine.Step | clock/bridge_clock_main.py:569-670 | one handler call; `RoundEngine.StepKeepsInv` and `RoundEngine.StepKeepsRoundInRange` state what it keeps |
| RoundEngine.Run | clock/bridge_clock_main.py:569-670 | a sequence of handler calls; `RoundEngine.RunKeepsInv` and `RoundEngine.RunKeepsRoundInRange` state what it keeps |
| RoundEngine.MergeIgnoresInert | clock/bridge_clock_main.py:79-86 | `None` values and unknown names leave the record as it was, and nothing raises |
| RoundEngine.MergeRaisesIff | clock/bridge_clock_main.py:79-86 | the update raises exactly when some item names the read-only `breaks` |
| RoundEngine.MergeAppend | clock/bridge_clock_main.py:79-86 | updating with two dictionaries in turn equals updating with both, when the first does not raise |
| RoundEngine.AssignKeepsOthers | clock/bridge_clock_main.py:84 | a `setattr` changes only the attribute it names |
| RoundEngine.MergeKeepsUnassigned | clock/bridge_clock_main.py:79-86 | every attribute no item assigns keeps its value, whether or not the update raises |
| RoundEngine.BreakThisRound | clock/bridge_clock_main.py:276-278 | true exactly when the current round is scheduled or requested |
| RoundEngine.InitializeGame | clock/bridge_clock_main.py:219-227 | round 1, not started, not finished, paused with a full round (or break, when in one) left; keeps `in_break`; keeps the invariant |
| RoundEngine.InitialClock | clock/bridge_clock_main.py:127-152 | the first clock is paused with a full round left, not in a break, and satisfies the invariant |
| RoundEngine.ClockMinus | clock/bridge_clock_main.py:608-614 | the new deadline is strictly after `now`: a minute earlier when that is still after `now`, else five seconds from now; nothing else changes |
| RoundEngine.GotoBreak | clock/bridge_clock_main.py:616-634 | a notice exactly when the round already has a break, and then nothing changes; otherwise the round is appended to the unscheduled breaks and now has a break, and with invisible breaks the break's minutes are added to the deadline |
| RoundEngine.RoundPlus | clock/bridge_clock_main.py:642-647 | one round up unless at the last round; stays within range; nothing else changes |
| RoundEngine.RoundMinus | clock/bridge_clock_main.py:649-654 | one round down unless at round 1; stays at least 1; nothing else changes |
| RoundEngine.OnSettingsCustomize | clock/bridge_clock_main.py:418-430 | raises exactly on a read-only name, and then the clock is untouched; the settings are the merge; the game is re-initialized exactly when it did not raise and was not started or a restart was asked for |
| RoundEngine.DeadlineAdjustments | clock/bridge_clock_main.py:602-640 | +1 minute, −1 minute and "end round" move only the deadline: a minute later; strictly after `now`; two seconds from now |
| RoundEngine.ResetGivesFullPhase | clock/bridge_clock_main.py:287-293 | reset sets a full break (in a visible break) or a full round from `now`, and touches nothing else |
| RoundEngine.NextRoundKeepsInv | clock/bridge_clock_main.py:326-361 | `_next_round` keeps the invariant: round at least 1, a pause snapshot exactly when the timer is stopped, a stopped timer has its button up |
| RoundEngine.StepKeepsInv | clock/bridge_clock_main.py:569-670 | every handler keeps the invariant |
| RoundEngine.RunKeepsInv | clock/bridge_clock_main.py:569-670 | every sequence of handlers keeps the invariant |
| RoundEngine.StepKeepsRoundInRange | clock/bridge_clock_main.py:326-361 | every handler other than a settings change keeps the round between 1 and the round count |
| RoundEngine.RunKeepsRoundInRange | clock/bridge_clock_main.py:642-670 | so does every sequence of them |
| RoundEngine.TicksNeverDecreaseRound | clock/bridge_clock_main.py:656-670 | clock ticks never move the round back and never change the settings |
| RoundEngine.FinishedIgnoresTicks | clock/bridge_clock_main.py:661 | once the game is finished, no tick changes anything |
| RoundEngine.VisibleBreakEntry | clock/bridge_clock_main.py:339-346 | at a visible break the round stays, the break starts, and it ends a full break from now |
| RoundEngine.IncrementBranch | clock/bridge_clock_main.py:347-359 | otherwise the round goes up by one, the break flag is cleared, the deadline is a full round (plus an invisible break of the new round), and the clock pauses on manual restart |
| RoundEngine.BreakTakenOnce | clock/bridge_clock_main.py:339-359 | a visible break is taken once; when it ends the next round starts |
| RoundEngine.LastRoundEndsGame | clock/bridge_clock_main.py:360-361 | after the last round only the finished flag changes |
| RoundEngine.PauseResume | clock/bridge_clock_main.py:569-595 | pausing at t1 and resuming at t2 moves the deadline by t2−t1 and changes nothing else |
| RoundEngine.RestartLeavesButtonUp | clock/bridge_clock_main.py:575-591 | after "Yes" to a restart the timer runs while the toggle shows "not pressed" |
| RoundEngine.InitializeKeepsBreak | clock/bridge_clock_main.py:219-227 | re-initializing in a visible break keeps the break: round 1 gets a break's length |
| RoundEngine.PausedAdjustmentLost | clock/bridge_clock_main.py:589-614 | ±1 minute while paused is lost on resume |
| RoundEngine.FoldTestsNewRound | clock/bridge_clock_main.py:347-359 | with invisible breaks, the new round's deadline includes a break exactly when the new round is in the break list |
| RoundEngine.VisibleBreakScenario | clock/bridge_clock_main.py:326-372 | three 20-minute rounds with a visible break after round 1: the break from t0+20m to t0+25m, round 2 to t0+45m, round 3 to t0+65m, then finished |
| RoundEngine.InvisibleBreakScenario | clock/bridge_clock_main.py:347-359 | the same game with invisible breaks: round 2 ends at t0+40m |
| RoundEngine.UnscheduledBreakScenario | clock/bridge_clock_main.py:616-634 | a requested invisible break adds five minutes; a second request is refused |
| RoundEngine.MinusMinuteScenario | clock/bridge_clock_main.py:608-614 | −1 minute with ten seconds left leaves five seconds |
| ClockMain.GameSettings.constructor | clock/bridge_clock_main.py:17-33 | the dataclass defaults |
| ClockMain.GameSettings.FromDict | clock/bridge_clock_main.py:36-42 | raises exactly on a read-only name; otherwise the defaults merged with the dictionary, with the unscheduled breaks cleared |
| ClockMain.GameSettings.SetAttr | clock/bridge_clock_main.py:84 | the record after `setattr` is the assignment applied to it |
| ClockMain.GameSettings.UpdateFromDict | clock/bridge_clock_main.py:79-86 | the loop leaves the record and the raised flag that `Merge` computes |
| ClockMain.GameSettings.AddUnscheduledBreak | clock/bridge_clock_main.py:620 | appends the round to the unscheduled breaks and changes nothing else |
| ClockMain.BridgeTimer.constructor | clock/bridge_clock_main.py:127-152 | the first clock is `InitialClock` and keeps the invariant |
| ClockMain.BridgeTimer.PauseGame | clock/bridge_clock_main.py:229-234 | stops the timer and keeps the time left |
| ClockMain.BridgeTimer.ResetClock | clock/bridge_clock_main.py:287-293 | the deadline is a full phase from now |
| ClockMain.BridgeTimer.Round1 | clock/bridge_clock_main.py:271-274 | the round is 1 |
| ClockMain.BridgeTimer.InitializeGame | clock/bridge_clock_main.py:219-227 | leaves `InitializeGame`'s clock and the invariant |
| ClockMain.BridgeTimer.GoToBreak | clock/bridge_clock_main.py:363-372 | a visible break of `break_length` minutes from now |
| ClockMain.BridgeTimer.GameOver | clock/bridge_clock_main.py:374-382 | the game is finished |
| ClockMain.BridgeTimer.NextRound | clock/bridge_clock_main.py:326-361 | leaves `NextRound`'s clock and keeps the invariant |
| ClockMain.BridgeTimer.NewRound | clock/bridge_clock_main.py:347-359 | leaves `NewRound`'s clock |
| ClockMain.BridgeTimer.OnButtonStart | clock/bridge_clock_main.py:569-595 | leaves `OnButtonStart`'s clock and keeps the invariant |
| ClockMain.BridgeTimer.OnButtonReset | clock/bridge_clock_main.py:597-600 | leaves `ResetClock`'s clock and keeps the invariant |
| ClockMain.BridgeTimer.OnButtonClockPlus | clock/bridge_clock_main.py:602-606 | the deadline is one minute later; keeps the invariant |
| ClockMain.BridgeTimer.OnButtonClockMinus | clock/bridge_clock_main.py:608-614 | leaves `ClockMinus`'s clock, whose deadline is after now; keeps the invariant |
| ClockMain.BridgeTimer.OnGotoBreak | clock/bridge_clock_main.py:616-634 | leaves the clock, settings and notice that `GotoBreak` computes; keeps the invariant |
| ClockMain.BridgeTimer.OnButtonEndRound | clock/bridge_clock_main.py:636-640 | the deadline is two seconds from now; keeps the invariant |
| ClockMain.BridgeTimer.OnButtonRoundPlus | clock/bridge_clock_main.py:642-647 | leaves `RoundPlus`'s clock and keeps the invariant |
| ClockMain.BridgeTimer.OnButtonRoundMinus | clock/bridge_clock_main.py:649-654 | leaves `RoundMinus`'s clock and keeps the invariant |
| ClockMain.BridgeTimer.OnClockTick | clock/bridge_clock_main.py:656-670 | a passed deadline runs `_next_round` unless the game is finished; keeps the invariant |
| ClockMain.BridgeTimer.OnMenuSettingsCustomize | clock/bridge_clock_main.py:418-430 | leaves the session and raised flag that `OnSettingsCustomize` computes; keeps the invariant |
| LegacyRoundEngine.Merge | bridge_clock_main.py:84-92 | the older update never sets a description (the record has none) |
| LegacyRoundEngine.MergeSkipsUnassignable | bridge_clock_main.py:84-92 | items the record cannot assign leave it as it was |
| LegacyRoundEngine.MergeAgrees | bridge_clock_main.py:84-92 | with no read-only name and no description, both revisions' updates give the same record |
| LegacyRoundEngine.MergeGoesPastReadOnly | bridge_clock_main.py:89-92 | after a read-only name the older update goes on, while the newer one stops and raises |
| LegacyRoundEngine.MergeAppend | bridge_clock_main.py:84-92 | updating with two dictionaries in turn is updating with both, for every pair: nothing stops the older loop |
| LegacyRoundEngine.MergeSkipsItem | bridge_clock_main.py:88-92 | an item the record cannot assign (blank, read-only, unknown or a description) may be removed from anywhere in the dictionary without changing the result |
| LegacyRoundEngine.GameOver | bridge_clock_main.py:347-355 | the older `_game_over`, which pauses first; `LegacyRoundEngine.LastRoundPausesGame` states the result |
| LegacyRoundEngine.NextRound | bridge_clock_main.py:298-333 | the older `_next_round`; `LegacyRoundEngine.RevisionsAgreeBeforeLastRound` and `LegacyRoundEngine.LastRoundPausesGame` state it |
| LegacyRoundEngine.OnClockTick | bridge_clock_main.py:569-584 | the older `on_clock_tick`, with no finished guard; `LegacyRoundEngine.DeclinedRestartRerunsGameOver` shows the consequence |
| LegacyRoundEngine.Step | bridge_clock_main.py:498-584 | one handler call of the older revision; `LegacyRoundEngine.StepKeepsInv` states what it keeps |
| LegacyRoundEngine.Run | bridge_clock_main.py:498-584 | a sequence of them; `LegacyRoundEngine.RunKeepsInv`, `LegacyRoundEngine.RunKeepsRoundInRange` and `LegacyRoundEngine.StoppedIgnoresTicks` state what it keeps |
| LegacyRoundEngine.OnSettingsCustomize | bridge_clock_main.py:387-397 | the settings are the merge; the game is re-initialized exactly when it was not started or a restart was asked for |
| LegacyRoundEngine.StepKeepsInv | bridge_clock_main.py:498-584 | every handler of the older revision keeps the invariant |
| LegacyRoundEngine.RunKeepsInv | bridge_clock_main.py:498-584 | so does every sequence of them |
| LegacyRoundEngine.RunKeepsRoundInRange | bridge_clock_main.py:557-584 | the round stays between 1 and the round count |
| LegacyRoundEngine.TicksNeverDecreaseRound | bridge_clock_main.py:569-584 | ticks never move the round back and never change the settings |
| LegacyRoundEngine.RevisionsAgreeBeforeLastRound | bridge_clock_main.py:311-330 | before the last round both revisions change rounds alike |
| LegacyRoundEngine.LastRoundPausesGame | bridge_clock_main.py:331-333 | after the last round the older revision finishes the game, stops the timer and keeps the time left |
| LegacyRoundEngine.StoppedIgnoresTicks | bridge_clock_main.py:569-584 | a stopped timer receives no ticks, so a finished game stays as it is |
| LegacyRoundEngine.DeclinedRestartRerunsGameOver | bridge_clock_main.py:498-584 | "No" to a restart resumes a finished game, and the next tick pauses it again; the newer revision's ticks change nothing |
| LegacyClockMain.GameSettings.constructor | bridge_clock_main.py:18-34 | the dataclass defaults |
| LegacyClockMain.GameSettings.FromDict | bridge_clock_main.py:36-43 | the defaults merged with the dictionary, with the unscheduled breaks cleared |
| LegacyClockMain.GameSettings.SetAttr | bridge_clock_main.py:90-92 | fails exactly for a description; otherwise applies the assignment |
| LegacyClockMain.GameSettings.UpdateFromDict | bridge_clock_main.py:84-92 | the loop leaves the record that the older `Merge` computes |
| LegacyClockMain.GameSettings.AddUnscheduledBreak | bridge_clock_main.py:546 | appends the round to the unscheduled breaks |
| LegacyClockMain.BridgeTimer.constructor | bridge_clock_main.py:124-201 | the first clock is `InitialClock` and keeps the invariant |
| LegacyClockMain.BridgeTimer.PauseGame | bridge_clock_main.py:239-245 | stops the timer and keeps the time left |
| LegacyClockMain.BridgeTimer.ResetClock | bridge_clock_main.py:266-273 | the deadline is a full phase from now |
| LegacyClockMain.BridgeTimer.Round1 | bridge_clock_main.py:247-251 | the round is 1 |
| LegacyClockMain.BridgeTimer.InitializeGame | bridge_clock_main.py:229-237 | leaves `InitializeGame`'s clock and the invariant |
| LegacyClockMain.BridgeTimer.GoToBreak | bridge_clock_main.py:335-345 | a visible break of `break_length` minutes from now |
| LegacyClockMain.BridgeTimer.GameOver | bridge_clock_main.py:347-355 | pauses, then marks the game finished |
| LegacyClockMain.BridgeTimer.NextRound | bridge_clock_main.py:298-333 | leaves the older `NextRound`'s clock and keeps the invariant |
| LegacyClockMain.BridgeTimer.NewRound | bridge_clock_main.py:319-330 | leaves `NewRound`'s clock |
| LegacyClockMain.BridgeTimer.OnButtonStart | bridge_clock_main.py:498-523 | leaves `OnButtonStart`'s clock and keeps the invariant |
| LegacyClockMain.BridgeTimer.OnButtonReset | bridge_clock_main.py:525-527 | leaves `ResetClock`'s clock and keeps the invariant |
| LegacyClockMain.BridgeTimer.OnButtonClockPlus | bridge_clock_main.py:529-532 | the deadline is one minute later |
| LegacyClockMain.BridgeTimer.OnButtonClockMinus | bridge_clock_main.py:534-539 | leaves `ClockMinus`'s clock, whose deadline is after now |
| LegacyClockMain.BridgeTimer.OnGotoBreak | bridge_clock_main.py:541-550 | leaves the clock and settings that `GotoBreak` computes; keeps the invariant |
| LegacyClockMain.BridgeTimer.OnButtonEndRound | bridge_clock_main.py:552-555 | the deadline is two seconds from now |
| LegacyClockMain.BridgeTimer.OnButtonRoundPlus | bridge_clock_main.py:557-561 | leaves `RoundPlus`'s clock |
| LegacyClockMain.BridgeTimer.OnButtonRoundMinus | bridge_clock_main.py:563-567 | leaves `RoundMinus`'s clock |
| LegacyClockMain.BridgeTimer.OnClockTick | bridge_clock_main.py:569-584 | a passed deadline always runs the older `_next_round` (no finished guard); keeps the invariant |
| LegacyClockMain.BridgeTimer.OnMenuSettingsCustomize | bridge_clock_main.py:387-397 | leaves the session that the older `OnSettingsCustomize` computes; keeps the invariant |

## Left out

- Display: the wx window, fonts, colours, the status-bar clock, `_update_clock` and the round/break labels. They only show the state.
- Sounds and logging (`bc_log`). They have no effect on the state.
- Saving and loading settings files (`load_from_file`, `save_to_file`, `load_last`, `NO_SAVE_SETTINGS`) and the exit handler. These are file I/O.
- `wx.Timer` scheduling: ticks are events in a sequence, and a stopped timer delivers none.
- `ctrl.SetValue(value)` in the newer break validator (clock/validators.py:194): writing the stripped text back into the dialog's field is display, so the model returns only the verdict.
- The dialogs themselves, including `PreferencesDialog` and the settings dialog's `load` and readout. Their answers and values are parameters.
- The sound validator and the dialogs' `on_char` key filters. They are user-interface code with no bearing on the clock.
- `ParseInt` and `Strip`: model only ASCII white space (space, tab, line feed, vertical tab, form feed, carriage return, and U+001C to U+001F) and ASCII digits. They leave out Python's underscores in numbers and its non-ASCII digits and white space.
- `setattr` with a value of the wrong type: the dialog always passes values of each attribute's type, so an `Assignment` carries a value of that type.
- `time_left_on_pause` truthiness: the model tests for the presence of a snapshot. A snapshot of exactly zero seconds, which Python treats as false, is treated as present.
- Reading the wall clock: each handler reads `now` once, where the source may read it more than once within one handler.
- ClockMain.BridgeTimer.OnClockTick: requires a running timer, because a stopped `wx.Timer` never calls it.
- LegacyClockMain.BridgeTimer.OnClockTick: requires a running timer, for the same reason.
- LegacyClockMain.GameSettings.Value: the older record has no description, so its value reports an empty one.
