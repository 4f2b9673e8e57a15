/**
 * Text operations the settings validators rely on: Python's `str.strip()`,
 * `str.split(",")` and `",".join(...)`, and an abstract signed-decimal model
 * of Python's `int()` applied to a string.
 */
module Text {
  import opened Options

  /**
   * The white-space characters `str.strip()` and `int()` discard (their ASCII
   * subset): space, tab, line feed, vertical tab, form feed, carriage return,
   * and the file, group, record and unit separators U+001C to U+001F.
   */
  predicate IsSpace(c: char) {
    c == ' ' || c == '\t' || c == '\n' || c == '\r' || c == '\U{B}' || c == '\U{C}' ||
    ('\U{1C}' <= c <= '\U{1F}')
  }

  predicate AllSpace(s: string) {
    forall i :: 0 <= i < |s| ==> IsSpace(s[i])
  }

  /** `s.lstrip()`. */
  function StripStart(s: string): string {
    if |s| > 0 && IsSpace(s[0]) then StripStart(s[1..]) else s
  }

  /** `s.rstrip()`. */
  function StripEnd(s: string): string {
    if |s| > 0 && IsSpace(s[|s| - 1]) then StripEnd(s[..|s| - 1]) else s
  }

  /** `lstrip()` keeps a suffix, drops only white space, and leaves no white space in front. */
  lemma {:induction false} StripStartShape(s: string)
    ensures var r := StripStart(s);
      |r| <= |s| && r == s[|s| - |r|..] && AllSpace(s[..|s| - |r|]) && (r != [] ==> !IsSpace(r[0]))
    decreases |s|
  {
    if |s| > 0 && IsSpace(s[0]) {
      StripStartShape(s[1..]);
      var r := StripStart(s);
      assert s[..|s| - |r|] == [s[0]] + s[1..][..|s| - 1 - |r|];
    }
  }

  /** `rstrip()` keeps a prefix, drops only white space, and leaves no white space at the end. */
  lemma {:induction false} StripEndShape(s: string)
    ensures var r := StripEnd(s);
      |r| <= |s| && r == s[..|r|] && AllSpace(s[|r|..]) && (r != [] ==> !IsSpace(r[|r| - 1]))
    decreases |s|
  {
    if |s| > 0 && IsSpace(s[|s| - 1]) {
      StripEndShape(s[..|s| - 1]);
      var r := StripEnd(s);
      assert s[|r|..] == s[..|s| - 1][|r|..] + [s[|s| - 1]];
    }
  }

  /** `s.strip()`: neither starts nor ends with white space. */
  function Strip(s: string): (r: string)
    ensures r == [] || (!IsSpace(r[0]) && !IsSpace(r[|r| - 1]))
  {
    StripStartShape(s);
    StripEndShape(StripStart(s));
    StripEnd(StripStart(s))
  }

  /** What `strip()` removes is white space on either side of what it keeps. */
  lemma StripSlice(s: string)
    ensures |StripStart(s)| <= |s|
    ensures var i, r := |s| - |StripStart(s)|, Strip(s);
      i + |r| <= |s| && r == s[i..i + |r|] && AllSpace(s[..i]) && AllSpace(s[i + |r|..])
  {
    var t := StripStart(s);
    StripStartShape(s);
    StripEndShape(t);
    var r := StripEnd(t);
    var i := |s| - |t|;
    assert s[i + |r|..] == t[|r|..];
  }

  /** `strip()` leaves nothing exactly when the text is all white space. */
  lemma StripBlank(s: string)
    ensures Strip(s) == [] <==> AllSpace(s)
  {
    StripSlice(s);
    var i := |s| - |StripStart(s)|;
    if Strip(s) == [] {
      assert s == s[..i] + s[i..];
      assert forall k :: 0 <= k < |s| ==> IsSpace(s[k]) by {
        forall k | 0 <= k < |s| ensures IsSpace(s[k]) {
          if k < i { assert s[k] == s[..i][k]; } else { assert s[k] == s[i..][k - i]; }
        }
      }
    } else {
      assert !IsSpace(Strip(s)[0]) && Strip(s)[0] == s[i];
    }
  }

  lemma {:induction false} StripStartSpaces(pre: string, x: string)
    requires AllSpace(pre)
    ensures StripStart(pre + x) == StripStart(x)
    decreases |pre|
  {
    if pre != [] {
      assert (pre + x)[1..] == pre[1..] + x;
      StripStartSpaces(pre[1..], x);
    } else {
      assert pre + x == x;
    }
  }

  lemma {:induction false} StripEndSpaces(x: string, post: string)
    requires AllSpace(post)
    ensures StripEnd(x + post) == StripEnd(x)
    decreases |post|
  {
    if post != [] {
      var p := post[..|post| - 1];
      assert (x + post)[..|x + post| - 1] == x + p;
      StripEndSpaces(x, p);
    } else {
      assert x + post == x;
    }
  }

  lemma {:induction false} StripStartAppend(x: string, y: string)
    requires StripStart(x) != []
    ensures StripStart(x + y) == StripStart(x) + y
    decreases |x|
  {
    assert x != [];
    if IsSpace(x[0]) {
      assert (x + y)[1..] == x[1..] + y;
      StripStartAppend(x[1..], y);
    }
  }

  /** Surrounding white space never changes what `strip()` returns. */
  lemma StripPadding(pre: string, t: string, post: string)
    requires AllSpace(pre) && AllSpace(post)
    ensures Strip(pre + t + post) == Strip(t)
  {
    assert pre + t + post == pre + (t + post);
    StripStartSpaces(pre, t + post);
    if StripStart(t) != [] {
      StripStartAppend(t, post);
      StripEndSpaces(StripStart(t), post);
    } else {
      StripStartShape(t);
      assert AllSpace(t);
      assert AllSpace(t + post);
      AllSpaceStrips(t + post);
    }
  }

  lemma {:induction false} AllSpaceStrips(s: string)
    requires AllSpace(s)
    ensures StripStart(s) == []
    decreases |s|
  {
    if s != [] {
      AllSpaceStrips(s[1..]);
    }
  }

  /** Text without white space at either end is its own `strip()`. */
  lemma StripTrimmed(t: string)
    requires t == [] || (!IsSpace(t[0]) && !IsSpace(t[|t| - 1]))
    ensures Strip(t) == t
  {
  }

  lemma StripIdempotent(s: string)
    ensures Strip(Strip(s)) == Strip(s)
  {
    StripTrimmed(Strip(s));
  }

  predicate IsDigit(c: char) {
    '0' <= c <= '9'
  }

  predicate AllDigits(s: string) {
    forall i :: 0 <= i < |s| ==> IsDigit(s[i])
  }

  function DigitValue(c: char): nat
    requires IsDigit(c)
  {
    c as int - '0' as int
  }

  function DigitChar(d: nat): char
    requires d < 10
  {
    ('0' as int + d) as char
  }

  /** The value of a string of decimal digits, most significant first. */
  function DigitsValue(s: string): nat
    requires AllDigits(s)
    decreases |s|
  {
    if s == [] then 0 else 10 * DigitsValue(s[..|s| - 1]) + DigitValue(s[|s| - 1])
  }

  /**
   * Python's `int(text)` for base-10 text, abstracted: surrounding white
   * space, then an optional `+` or `-`, then one or more ASCII digits.
   * `None` stands for the `ValueError` that `int()` raises.
   */
  function ParseInt(text: string): Option<int> {
    var t := Strip(text);
    if |t| > 0 && (t[0] == '+' || t[0] == '-') then
      var d := t[1..];
      if d != [] && AllDigits(d) then
        var v: int := DigitsValue(d);
        Some(if t[0] == '-' then -v else v)
      else
        None
    else if t != [] && AllDigits(t) then
      Some(DigitsValue(t))
    else
      None
  }

  /** Python's `str(n)` for a natural number: no leading zero except for 0 itself. */
  function ShowNat(n: nat): (r: string)
    ensures r != [] && AllDigits(r) && DigitsValue(r) == n
    ensures n == 0 || r[0] != '0'
  {
    if n < 10 then
      [DigitChar(n)]
    else
      var r := ShowNat(n / 10) + [DigitChar(n % 10)];
      assert r[..|r| - 1] == ShowNat(n / 10);
      r
  }

  /** Python's `str(n)` for an integer. */
  function ShowInt(n: int): string {
    if n < 0 then "-" + ShowNat(-n) else ShowNat(n)
  }

  /** Reading back what `str()` wrote gives the same integer. */
  lemma ParseShow(n: int)
    ensures ParseInt(ShowInt(n)) == Some(n)
  {
    if n < 0 {
      ParseNegative(ShowNat(-n));
    } else {
      ParseUnsigned(ShowNat(n));
    }
  }

  lemma ParseUnsigned(d: string)
    requires d != [] && AllDigits(d)
    ensures ParseInt(d) == Some(DigitsValue(d))
  {
    assert IsDigit(d[0]) && IsDigit(d[|d| - 1]);
    StripTrimmed(d);
  }

  lemma ParsePositive(d: string)
    requires d != [] && AllDigits(d)
    ensures ParseInt("+" + d) == Some(DigitsValue(d))
  {
    var t := "+" + d;
    assert t[0] == '+' && t[1..] == d;
    assert IsDigit(t[|t| - 1]);
    StripTrimmed(t);
  }

  lemma ParseNegative(d: string)
    requires d != [] && AllDigits(d)
    ensures ParseInt("-" + d) == Some(0 - DigitsValue(d))
  {
    var t := "-" + d;
    assert t[0] == '-' && t[1..] == d;
    assert IsDigit(t[|t| - 1]);
    StripTrimmed(t);
  }

  /** An optional sign: what `int()` accepts in front of the digits. */
  predicate IsSign(s: string) {
    s == "" || s == "+" || s == "-"
  }

  /**
   * Text that `int()` reads as a base-10 integer: white space, an optional
   * sign, one or more digits, white space.
   */
  predicate IntegerText(t: string) {
    exists i, j, k :: 0 <= i <= j < k <= |t| &&
      AllSpace(t[..i]) && IsSign(t[i..j]) && AllDigits(t[j..k]) && AllSpace(t[k..])
  }

  /** `int()` succeeds exactly on integer text; everything else raises ValueError. */
  lemma ParseIntShape(t: string)
    ensures ParseInt(t).Some? <==> IntegerText(t)
  {
    if ParseInt(t).Some? {
      ParsedIsIntegerText(t);
    }
    if IntegerText(t) {
      var i, j, k :| 0 <= i <= j < k <= |t| &&
        AllSpace(t[..i]) && IsSign(t[i..j]) && AllDigits(t[j..k]) && AllSpace(t[k..]);
      IntegerTextParses(t, i, j, k);
    }
  }

  lemma ParsedIsIntegerText(t: string)
    requires ParseInt(t).Some?
    ensures IntegerText(t)
  {
    StripSlice(t);
    var i := |t| - |StripStart(t)|;
    var r := Strip(t);
    var k := i + |r|;
    var j := if r[0] == '+' || r[0] == '-' then i + 1 else i;
    assert t[i..k] == r;
    assert t[i..j] == r[..j - i];
    assert t[j..k] == r[j - i..];
    assert AllDigits(r[j - i..]);
    assert IsSign(t[i..j]);
  }

  lemma IntegerTextParses(t: string, i: int, j: int, k: int)
    requires 0 <= i <= j < k <= |t|
    requires AllSpace(t[..i]) && IsSign(t[i..j]) && AllDigits(t[j..k]) && AllSpace(t[k..])
    ensures ParseInt(t).Some?
  {
    var pre, sg, d, post := t[..i], t[i..j], t[j..k], t[k..];
    assert t == pre + (sg + d) + post;
    ParsePadding(pre, sg + d, post);
    if sg == "" {
      assert sg + d == d;
      ParseUnsigned(d);
    } else if sg == "-" {
      ParseNegative(d);
    } else {
      ParsePositive(d);
    }
  }

  /** `int()` ignores the white space around the number. */
  lemma ParsePadding(pre: string, text: string, post: string)
    requires AllSpace(pre) && AllSpace(post)
    ensures ParseInt(pre + text + post) == ParseInt(text)
  {
    StripPadding(pre, text, post);
  }

  /** Python's `s.split(sep)` for a one-character separator. */
  function Split(s: string, sep: char): (r: seq<string>)
    ensures |r| >= 1
    ensures forall i :: 0 <= i < |r| ==> sep !in r[i]
    ensures Join(r, sep) == s
    decreases |s|
  {
    if s == [] then
      [""]
    else
      var rest := Split(s[1..], sep);
      if s[0] == sep then
        assert [s[0]] + s[1..] == s;
        [""] + rest
      else
        var r := [[s[0]] + rest[0]] + rest[1..];
        assert r[1..] == rest[1..];
        assert Join(r, sep) == [s[0]] + Join(rest, sep);
        assert [s[0]] + s[1..] == s;
        r
  }

  /** Python's `sep.join(pieces)`. */
  function Join(pieces: seq<string>, sep: char): string
    decreases |pieces|
  {
    if |pieces| == 0 then ""
    else if |pieces| == 1 then pieces[0]
    else pieces[0] + [sep] + Join(pieces[1..], sep)
  }

  lemma {:induction false} SplitPiece(p: string, sep: char)
    requires sep !in p
    ensures Split(p, sep) == [p]
    decreases |p|
  {
    if p != [] {
      SplitPiece(p[1..], sep);
      assert [p[0]] + p[1..] == p;
    }
  }

  lemma {:induction false} SplitAfterPiece(p: string, t: string, sep: char)
    requires sep !in p
    ensures Split(p + [sep] + t, sep) == [p] + Split(t, sep)
    decreases |p|
  {
    var s := p + [sep] + t;
    if p == [] {
      assert s[0] == sep && s[1..] == t;
    } else {
      assert s[0] == p[0] && s[1..] == p[1..] + [sep] + t;
      SplitAfterPiece(p[1..], t, sep);
      assert [p[0]] + p[1..] == p;
    }
  }

  /** Splitting what `join` wrote gives back the pieces, when none holds the separator. */
  lemma {:induction false} SplitJoin(pieces: seq<string>, sep: char)
    requires |pieces| >= 1
    requires forall i :: 0 <= i < |pieces| ==> sep !in pieces[i]
    ensures Split(Join(pieces, sep), sep) == pieces
    decreases |pieces|
  {
    if |pieces| == 1 {
      SplitPiece(pieces[0], sep);
    } else {
      SplitJoin(pieces[1..], sep);
      SplitAfterPiece(pieces[0], Join(pieces[1..], sep), sep);
      assert [pieces[0]] + pieces[1..] == pieces;
    }
  }
}
