/**
 * The settings-dialog field checks of the older clock revision
 * (validators.py): each check is written out inline, the confirmation
 * threshold for round length is 80 minutes, the break text is not stripped,
 * and a round count that is not an integer makes the break check raise.
 */
module LegacyValidators {
  import opened Options
  import opened Text
  import Validators

  /** MIN_/MAX_/WARN_ constants of validators.py. */
  const MinRounds := 1
  const MaxRounds := 20
  const WarnRounds := 14
  const MinLength := 1
  const MaxLength := 210
  const WarnLength := 80
  const MinBreakLength := 0
  const MaxBreakLength := 100
  const WarnBreakLength := 7

  /**
   * What a `Validate` call does: return True (after a "Confirming" message
   * when `notice`), return False after an error message, or let a
   * ValueError escape.
   */
  datatype Outcome = Accepted(notice: bool) | Rejected | Raised

  /**
   * The body shared by the three integer validators: `int()` of the text,
   * the half-open `range(lo, hi + 1)` test, then the warning threshold.
   */
  function IntValidate(lo: int, hi: int, warn: int, text: string): (o: Outcome)
    ensures !o.Raised?
    ensures o.Accepted? <==> ParseInt(text).Some? && lo <= ParseInt(text).value <= hi
    ensures o.Accepted? ==> (o.notice <==> ParseInt(text).value > warn)
  {
    match ParseInt(text)
    case None => Rejected
    case Some(count) =>
      if !(lo <= count < hi + 1) then Rejected
      else Accepted(count > warn)
  }

  /** RoundCountValidator.Validate: an integer from 1 to 20, with a message above 14. */
  function RoundCountValidate(text: string): (o: Outcome)
    ensures o.Accepted? <==> ParseInt(text).Some? && 1 <= ParseInt(text).value <= 20
    ensures o.Accepted? ==> (o.notice <==> ParseInt(text).value > 14)
  {
    IntValidate(MinRounds, MaxRounds, WarnRounds, text)
  }

  /** RoundLengthValidator.Validate: an integer from 1 to 210, with a message above 80. */
  function RoundLengthValidate(text: string): (o: Outcome)
    ensures o.Accepted? <==> ParseInt(text).Some? && 1 <= ParseInt(text).value <= 210
    ensures o.Accepted? ==> (o.notice <==> ParseInt(text).value > 80)
  {
    IntValidate(MinLength, MaxLength, WarnLength, text)
  }

  /** BreakLengthValidator.Validate: an integer from 0 to 100, with a message above 7. */
  function BreakLengthValidate(text: string): (o: Outcome)
    ensures o.Accepted? <==> ParseInt(text).Some? && 0 <= ParseInt(text).value <= 100
    ensures o.Accepted? ==> (o.notice <==> ParseInt(text).value > 7)
  {
    IntValidate(MinBreakLength, MaxBreakLength, WarnBreakLength, text)
  }

  /**
   * BreakValidator.Validate: empty text is accepted; otherwise every
   * comma-separated piece must be an integer (else rejected), then the round
   * count is read with an unguarded `int()` (so it raises when that text is
   * not an integer), and every break must lie in `range(1, num_rounds)`.
   */
  function BreakValidate(value: string, roundCountText: string): (o: Outcome)
    ensures o.Accepted? <==> (value == [] ||
      (ParseInt(roundCountText).Some? &&
       Validators.BreaksInRange(Split(value, ','), ParseInt(roundCountText).value)))
    ensures o.Raised? <==> (value != [] && !Validators.SomePieceNotInteger(Split(value, ',')) &&
      ParseInt(roundCountText).None?)
    ensures o.Accepted? ==> !o.notice
  {
    if value == [] then Accepted(false)
    else
      var pieces := Split(value, ',');
      if Validators.ParseAll(pieces).None? then Rejected
      else
        match ParseInt(roundCountText)
        case None => Raised
        case Some(numRounds) =>
          if Validators.CheckPieces(pieces, numRounds).None? then Accepted(false) else Rejected
  }

  /** A number written by `str()` is accepted exactly within the limits, with a message exactly above `warn`. */
  lemma IntValidateNumber(lo: int, hi: int, warn: int, n: int)
    ensures IntValidate(lo, hi, warn, ShowInt(n)) ==
      if lo <= n <= hi then Accepted(n > warn) else Rejected
  {
    ParseShow(n);
  }

  /**
   * Where the two revisions agree: on break text without surrounding white
   * space and with a round count that is an integer, the older check accepts
   * exactly what the newer one accepts.
   */
  lemma BreakRevisionsAgree(value: string, roundCountText: string)
    requires Strip(value) == value
    requires ParseInt(roundCountText).Some?
    ensures BreakValidate(value, roundCountText).Accepted? <==> Validators.BreakValidate(value, roundCountText)
  {
  }

  /**
   * Where they differ on white space: a blank but non-empty break text is
   * rejected by the older check (the lone piece is not an integer) and
   * accepted by the newer one, which strips it first.
   */
  lemma BlankBreaksDiffer(roundCountText: string)
    ensures BreakValidate(" ", roundCountText) == Rejected
    ensures Validators.BreakValidate(" ", roundCountText)
  {
    assert Strip(" ") == [];
    assert Split(" ", ',') == [" "];
    assert ParseInt(" ").None?;
    assert Validators.SomePieceNotInteger(Split(" ", ','));
  }

  /**
   * Where they differ on an unreadable round count: the older check raises
   * for any break list of integers, the newer one rejects it.
   */
  lemma UnreadableRoundCountDiffers(b: int, roundCountText: string)
    requires ParseInt(roundCountText).None?
    ensures BreakValidate(ShowInt(b), roundCountText) == Raised
    ensures !Validators.BreakValidate(ShowInt(b), roundCountText)
  {
    ParseShow(b);
    Validators.ShowIntShape(b);
    SplitPiece(ShowInt(b), ',');
    StripTrimmed(ShowInt(b));
    assert Split(ShowInt(b), ',') == [ShowInt(b)];
    assert !Validators.SomePieceNotInteger([ShowInt(b)]);
  }

  /** Round lengths of 81 to 85 minutes get a message in the older revision and none in the newer. */
  lemma RoundLengthWarnDiffers(n: int)
    requires 80 < n <= 85
    ensures RoundLengthValidate(ShowInt(n)) == Accepted(true)
    ensures Validators.RoundLengthValidate(ShowInt(n)) == Validators.Accepted(false)
  {
    ParseShow(n);
  }
}
