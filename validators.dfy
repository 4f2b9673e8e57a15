/**
 * The settings-dialog field checks of the newer clock revision
 * (clock/validators.py): integer fields with inclusive limits and a
 * "confirm" threshold, and the comma-separated list of break rounds.
 */
module Validators {
  import opened Options
  import opened Text

  /** ValidatorLimits: reject below `min` or above `max`; ask for confirmation above `warn`. */
  datatype Limits = Limits(min: int, max: int, warn: int)

  /** ROUND_LIMITS, ROUND_LENGTH_LIMITS and BREAK_LENGTH_LIMITS. */
  const RoundLimits := Limits(1, 20, 14)
  const RoundLengthLimits := Limits(1, 210, 85)
  const BreakLengthLimits := Limits(0, 100, 7)

  /** Why `_validate` raised BridgeClockValidateError. */
  datatype Failure = NotAnInteger | OutOfRange

  /** What the dialog's `Validate` decides: reject with a message, or accept (after a notice when `confirm`). */
  datatype Verdict = Rejected(reason: Failure) | Accepted(confirm: bool)

  /**
   * BaseValidator._validate: `None` when it returns, `Some(f)` when it raises.
   * The source tests `count not in range(min, max + 1)`, that is, the
   * half-open Python range.
   */
  function CheckInt(limits: Limits, value: string): (r: Option<Failure>)
    ensures r == Some(NotAnInteger) <==> ParseInt(value).None?
    ensures r.None? <==> ParseInt(value).Some? && limits.min <= ParseInt(value).value <= limits.max
  {
    match ParseInt(value)
    case None => Some(NotAnInteger)
    case Some(count) => if !(limits.min <= count < limits.max + 1) then Some(OutOfRange) else None
  }

  /**
   * BaseValidator.Validate: accepts exactly the integers within the inclusive
   * limits; a value above a non-zero `warn` is still accepted, with a notice.
   */
  function Validate(limits: Limits, text: string): (v: Verdict)
    ensures v.Accepted? <==> ParseInt(text).Some? && limits.min <= ParseInt(text).value <= limits.max
    ensures v.Accepted? ==> (v.confirm <==> limits.warn != 0 && ParseInt(text).value > limits.warn)
    ensures v.Rejected? ==> (v.reason == NotAnInteger <==> ParseInt(text).None?)
  {
    match CheckInt(limits, text)
    case Some(failure) => Rejected(failure)
    case None => Accepted(limits.warn != 0 && ParseInt(text).value > limits.warn)
  }

  /** RoundCountValidator: a round count is an integer from 1 to 20; above 14 it is confirmed. */
  function RoundCountValidate(text: string): (v: Verdict)
    ensures v.Accepted? <==> ParseInt(text).Some? && 1 <= ParseInt(text).value <= 20
    ensures v.Accepted? ==> (v.confirm <==> ParseInt(text).value > 14)
  {
    Validate(RoundLimits, text)
  }

  /** RoundLengthValidator: a round length is an integer from 1 to 210 minutes; above 85 it is confirmed. */
  function RoundLengthValidate(text: string): (v: Verdict)
    ensures v.Accepted? <==> ParseInt(text).Some? && 1 <= ParseInt(text).value <= 210
    ensures v.Accepted? ==> (v.confirm <==> ParseInt(text).value > 85)
  {
    Validate(RoundLengthLimits, text)
  }

  /** BreakLengthValidator: a break length is an integer from 0 to 100 minutes; above 7 it is confirmed. */
  function BreakLengthValidate(text: string): (v: Verdict)
    ensures v.Accepted? <==> ParseInt(text).Some? && 0 <= ParseInt(text).value <= 100
    ensures v.Accepted? ==> (v.confirm <==> ParseInt(text).value > 7)
  {
    Validate(BreakLengthLimits, text)
  }

  /**
   * A number written as `str()` writes it is accepted exactly when it lies
   * within the inclusive limits, and confirmed exactly when it exceeds a
   * non-zero `warn`; anything else inside the limits is accepted silently.
   */
  lemma ValidateNumber(limits: Limits, n: int)
    ensures Validate(limits, ShowInt(n)) ==
      if limits.min <= n <= limits.max then Accepted(limits.warn != 0 && n > limits.warn)
      else Rejected(OutOfRange)
  {
    ParseShow(n);
  }

  /** Why BreakValidator._validate raised BridgeClockValidateError. */
  datatype BreakFailure = BreaksNotIntegers | BreaksOutOfRange(numRounds: int)

  /** Some piece is not an integer. */
  predicate SomePieceNotInteger(pieces: seq<string>) {
    exists i :: 0 <= i < |pieces| && ParseInt(pieces[i]).None?
  }

  /** `[int(x) for x in pieces]`: `None` when some piece is not an integer (the comprehension raises). */
  function ParseAll(pieces: seq<string>): (r: Option<seq<int>>)
    ensures r.None? <==> SomePieceNotInteger(pieces)
    ensures r.Some? ==> |r.value| == |pieces| && forall i :: 0 <= i < |pieces| ==> r.value[i] == ParseInt(pieces[i]).value
  {
    if forall i :: 0 <= i < |pieces| ==> ParseInt(pieces[i]).Some? then
      Some(seq(|pieces|, i requires 0 <= i < |pieces| => ParseInt(pieces[i]).value))
    else
      None
  }

  /** The round count the break check uses: the round-count text's integer, or 1 when it has none. */
  function NumRounds(roundCountText: string): (n: int)
    ensures ParseInt(roundCountText).Some? ==> n == ParseInt(roundCountText).value
    ensures ParseInt(roundCountText).None? ==> n == 1
  {
    ParseInt(roundCountText).GetOr(1)
  }

  /** Every piece is an integer from 1 to one less than `numRounds`. */
  predicate BreaksInRange(pieces: seq<string>, numRounds: int) {
    forall i :: 0 <= i < |pieces| ==>
      ParseInt(pieces[i]).Some? && 1 <= ParseInt(pieces[i]).value <= numRounds - 1
  }

  /** The list comprehension and the range test of BreakValidator._validate, on the split pieces. */
  function CheckPieces(pieces: seq<string>, numRounds: int): (r: Option<BreakFailure>)
    ensures r.None? <==> BreaksInRange(pieces, numRounds)
    ensures r == Some(BreaksNotIntegers) <==> SomePieceNotInteger(pieces)
  {
    match ParseAll(pieces)
    case None => Some(BreaksNotIntegers)
    case Some(breaks) =>
      if forall i :: 0 <= i < |breaks| ==> 1 <= breaks[i] < numRounds then None
      else Some(BreaksOutOfRange(numRounds))
  }

  /**
   * BreakValidator._validate: empty text means "no breaks"; otherwise every
   * comma-separated piece must be an integer from 1 to one less than the
   * round count (`range(1, num_rounds)` in the source), and a piece that is
   * not an integer is reported as such.
   */
  function CheckBreaks(value: string, roundCountText: string): (r: Option<BreakFailure>)
    ensures r.None? <==> value == [] || BreaksInRange(Split(value, ','), NumRounds(roundCountText))
    ensures r == Some(BreaksNotIntegers) <==> value != [] && SomePieceNotInteger(Split(value, ','))
  {
    if value == [] then None
    else CheckPieces(Split(value, ','), NumRounds(roundCountText))
  }

  /** BreakValidator.Validate: the field's text, stripped of surrounding white space, passes the check. */
  function BreakValidate(text: string, roundCountText: string): (ok: bool)
    ensures ok <==> (AllSpace(text) ||
      BreaksInRange(Split(Strip(text), ','), NumRounds(roundCountText)))
  {
    StripBlank(text);
    CheckBreaks(Strip(text), roundCountText).None?
  }

  /** White space around the break list never changes the verdict. */
  lemma BreakValidatePadding(pre: string, text: string, post: string, roundCountText: string)
    requires AllSpace(pre) && AllSpace(post)
    ensures BreakValidate(pre + text + post, roundCountText) == BreakValidate(text, roundCountText)
  {
    StripPadding(pre, text, post);
  }

  /** Blank break text (nothing, or only white space) means "no breaks" and is accepted. */
  lemma BlankBreaksAccepted(text: string, roundCountText: string)
    requires AllSpace(text)
    ensures BreakValidate(text, roundCountText)
  {
    assert Strip(text) == [] by {
      StripPadding(text, "", "");
      assert text + "" + "" == text;
    }
  }

  /**
   * When the round count does not parse, the check falls back to one round,
   * so every non-blank break list is rejected.
   */
  lemma UnparsableRoundCountRejects(text: string, roundCountText: string)
    requires ParseInt(roundCountText).None?
    requires !AllSpace(text)
    ensures !BreakValidate(text, roundCountText)
  {
    var value := Strip(text);
    StripSlice(text);
    assert value != [];
    var pieces := Split(value, ',');
    assert !(ParseInt(pieces[0]).Some? && 1 <= ParseInt(pieces[0]).value <= 0);
  }

  /** The dialog's text for a list of break rounds: `",".join(map(str, breaks))`. */
  function BreaksText(breaks: seq<int>): string {
    Join(ShowAll(breaks), ',')
  }

  lemma ShowIntShape(n: int)
    ensures ShowInt(n) != [] && ',' !in ShowInt(n)
    ensures !IsSpace(ShowInt(n)[0]) && !IsSpace(ShowInt(n)[|ShowInt(n)| - 1])
  {
    var d := ShowNat(if n < 0 then -n else n);
    assert IsDigit(d[|d| - 1]);
    if n < 0 {
      assert ShowInt(n) == ['-'] + d;
      assert forall k :: 1 <= k < |ShowInt(n)| ==> ShowInt(n)[k] == d[k - 1];
    } else {
      assert IsDigit(d[0]);
    }
  }

  lemma {:induction false} JoinEnds(pieces: seq<string>, sep: char)
    requires |pieces| >= 1 && forall i :: 0 <= i < |pieces| ==> pieces[i] != []
    ensures var s := Join(pieces, sep);
      s != [] && s[0] == pieces[0][0] && s[|s| - 1] == pieces[|pieces| - 1][|pieces[|pieces| - 1]| - 1]
    decreases |pieces|
  {
    if |pieces| > 1 {
      JoinEnds(pieces[1..], sep);
    }
  }

  /** The pieces the dialog writes: `map(str, breaks)`. */
  function ShowAll(breaks: seq<int>): (pieces: seq<string>)
    ensures |pieces| == |breaks|
  {
    seq(|breaks|, i requires 0 <= i < |breaks| => ShowInt(breaks[i]))
  }

  lemma ParseAllShown(breaks: seq<int>)
    ensures ParseAll(ShowAll(breaks)) == Some(breaks)
  {
    var pieces := ShowAll(breaks);
    forall i | 0 <= i < |breaks| ensures ParseInt(pieces[i]) == Some(breaks[i]) {
      ParseShow(breaks[i]);
    }
    assert forall i :: 0 <= i < |pieces| ==> ParseInt(pieces[i]).Some?;
    var parsed := seq(|pieces|, i requires 0 <= i < |pieces| => ParseInt(pieces[i]).value);
    assert parsed == breaks;
  }

  /** The dialog's text is its own strip() and splits back into the written pieces. */
  lemma BreaksTextSplits(breaks: seq<int>)
    requires breaks != []
    ensures Strip(BreaksText(breaks)) == BreaksText(breaks)
    ensures Split(BreaksText(breaks), ',') == ShowAll(breaks)
  {
    var pieces := ShowAll(breaks);
    forall i | 0 <= i < |breaks| ensures pieces[i] != [] && ',' !in pieces[i] {
      ShowIntShape(breaks[i]);
    }
    ShowIntShape(breaks[0]);
    ShowIntShape(breaks[|breaks| - 1]);
    JoinEnds(pieces, ',');
    StripTrimmed(BreaksText(breaks));
    SplitJoin(pieces, ',');
  }

  /**
   * A break list written the way the dialog writes it is accepted exactly
   * when every break lies between 1 and one less than the round count.
   */
  lemma BreaksTextAccepted(breaks: seq<int>, rounds: int)
    ensures BreakValidate(BreaksText(breaks), ShowInt(rounds)) <==>
      forall i :: 0 <= i < |breaks| ==> 1 <= breaks[i] <= rounds - 1
  {
    ParseShow(rounds);
    var text := BreaksText(breaks);
    if breaks == [] {
      assert text == [];
      StripTrimmed(text);
    } else {
      BreaksTextSplits(breaks);
      ParseAllShown(breaks);
      assert CheckBreaks(text, ShowInt(rounds)).None? <==>
        forall i :: 0 <= i < |breaks| ==> 1 <= breaks[i] < rounds;
    }
  }
}
