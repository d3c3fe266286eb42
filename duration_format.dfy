/** `formatDuration(seconds)` of the browser scripts (public/app.js and
    public/all-history.js carry the same function): a duration in seconds
    rendered as "Xm Ys", or "Ys" under a minute, and "0s" when the value is
    zero or missing. JavaScript's `Math.floor(seconds / 60)` is floor
    division and `seconds % 60` keeps the sign of `seconds`. */
module DurationFormat {
  import opened Common

  predicate IsDigit(c: char) {
    '0' <= c <= '9'
  }

  predicate AllDigits(s: string) {
    forall i :: 0 <= i < |s| ==> IsDigit(s[i])
  }

  function DigitChar(d: nat): (c: char)
    requires d < 10
    ensures IsDigit(c) && c as int - '0' as int == d
  {
    (d + '0' as int) as char
  }

  function DigitValue(c: char): nat
    requires IsDigit(c)
  {
    c as int - '0' as int
  }

  /** Decimal text of a non-negative integer, as template literals print it. */
  function NatToString(n: nat): (r: string)
    ensures r != [] && AllDigits(r)
  {
    if n < 10 then [DigitChar(n)] else NatToString(n / 10) + [DigitChar(n % 10)]
  }

  /** Decimal text of any integer: a minus sign before the magnitude. */
  function IntToString(x: int): (r: string)
    ensures r != [] && (r[0] == '-' <==> x < 0)
    ensures AllDigits(if x < 0 then r[1..] else r)
  {
    if x >= 0 then NatToString(x) else "-" + NatToString(-x)
  }

  /** Reads an optional minus sign and a non-empty string of digits. */
  function ParseInt(s: string): Option<int> {
    if s != [] && s[0] == '-' then
      if |s| > 1 && AllDigits(s[1..]) then Some(-(ParseNat(s[1..]) as int)) else None
    else if s != [] && AllDigits(s) then Some(ParseNat(s))
    else None
  }

  /** Every integer, negative ones included, reads back from its text. */
  lemma ParseIntToString(x: int)
    ensures ParseInt(IntToString(x)) == Some(x)
  {
    if x >= 0 {
      ParseNatToString(x);
    } else {
      var r := IntToString(x);
      assert r[1..] == NatToString(-x);
      ParseNatToString(-x);
    }
  }

  /** Reads a non-empty string of decimal digits. */
  function ParseNat(s: string): nat
    requires s != [] && AllDigits(s)
  {
    if |s| == 1 then DigitValue(s[0])
    else 10 * ParseNat(s[..|s| - 1]) + DigitValue(s[|s| - 1])
  }

  lemma {:induction false} ParseNatToString(n: nat)
    ensures ParseNat(NatToString(n)) == n
  {
    if n >= 10 {
      var s := NatToString(n);
      assert s[..|s| - 1] == NatToString(n / 10);
      ParseNatToString(n / 10);
    }
  }

  /** JavaScript `a % b` for `b > 0`: truncated toward zero, so the result
      takes the sign of `a`. */
  function JsRem(a: int, b: int): (r: int)
    requires b > 0
    ensures a >= 0 ==> 0 <= r < b && r == a % b
    ensures a < 0 ==> -b < r <= 0 && r == -((-a) % b)
  {
    if a >= 0 then a % b else -((-a) % b)
  }

  /** `formatDuration(seconds)`; `None` is `undefined` or `null`. */
  function FormatDuration(seconds: Option<int>): (r: string)
    ensures |r| >= 2 && r[|r| - 1] == 's'
    ensures seconds.None? || seconds == Some(0) ==> r == "0s"
    ensures 'm' in r <==> seconds.Some? && seconds.value >= 60
  {
    match seconds
    case None => "0s"
    case Some(x) =>
      if x == 0 then "0s"
      else
        var minutes := x / 60;
        var remaining := JsRem(x, 60);
        if minutes > 0 then
          var r := IntToString(minutes) + "m " + IntToString(remaining) + "s";
          assert r[|IntToString(minutes)|] == 'm';
          r
        else
          NoLetterInNumber(remaining);
          IntToString(remaining) + "s"
  }

  /** The decimal text of an integer holds no unit letter. */
  lemma NoLetterInNumber(x: int)
    ensures 'm' !in IntToString(x)
  {
    var r := IntToString(x);
    if x < 0 {
      assert forall i :: 1 <= i < |r| ==> r[i] == r[1..][i - 1];
    }
  }

  /** The first position of `c` in `s`, or -1. */
  function IndexOfChar(s: string, c: char): (r: int)
    ensures -1 <= r < |s|
    ensures r == -1 <==> c !in s
    ensures r >= 0 ==> s[r] == c && c !in s[..r]
  {
    if s == [] then -1
    else if s[0] == c then 0
    else
      var k := IndexOfChar(s[1..], c);
      assert k >= 0 ==> s[..k + 1] == [s[0]] + s[1..][..k];
      if k < 0 then -1 else k + 1
  }

  /** Reads back a non-negative duration from "Xm Ys" or "Ys". */
  function ParseDuration(s: string): Option<int> {
    if |s| < 2 || s[|s| - 1] != 's' then None else ParseAmount(s[..|s| - 1])
  }

  /** "X" or "Xm Y" with X and Y decimal numbers. */
  function ParseAmount(body: string): Option<int> {
    ParseAt(body, IndexOfChar(body, 'm'))
  }

  /** `ParseAmount` once the position of the first 'm' (or -1) is known. */
  function ParseAt(body: string, i: int): Option<int> {
    if i < 0 then
      if body != [] && AllDigits(body) then Some(ParseNat(body)) else None
    else if 0 < i && i + 2 < |body| && body[i + 1] == ' '
            && AllDigits(body[..i]) && AllDigits(body[i + 2..]) then
      Some(60 * ParseNat(body[..i]) + ParseNat(body[i + 2..]))
    else None
  }

  /** A duration of at least a minute is split into whole minutes and the
      seconds left over, the latter under 60. */
  lemma MinutesAndSeconds(x: int)
    requires x >= 60
    ensures FormatDuration(Some(x)) ==
      NatToString(x / 60) + "m " + NatToString(x % 60) + "s"
    ensures x == 60 * (x / 60) + x % 60 && 0 <= x % 60 < 60
  {
    assert x / 60 >= 1;
  }

  /** Under a minute only the seconds are shown; zero is "0s". */
  lemma SecondsOnly(x: int)
    requires 0 <= x < 60
    ensures FormatDuration(Some(x)) == NatToString(x) + "s"
  {
    assert x / 60 == 0;
  }

  /** Every non-negative duration can be read back from its text, so two
      different durations never look the same. */
  lemma FormatThenParse(x: int)
    requires x >= 0
    ensures ParseDuration(FormatDuration(Some(x))) == Some(x)
  {
    if x < 60 {
      SecondsOnly(x);
      ParseSeconds(x);
    } else {
      MinutesAndSeconds(x);
      ParseMinutes(x / 60, x % 60);
    }
  }

  lemma NoLetterInDigits(d: string)
    requires AllDigits(d)
    ensures 'm' !in d
  {
  }

  lemma ParseSeconds(x: nat)
    ensures ParseDuration(NatToString(x) + "s") == Some(x)
  {
    var d := NatToString(x);
    ParseWithUnit(d);
    NoLetterInDigits(d);
    ParseNatToString(x);
  }

  /** The trailing "s" is checked and dropped before the amount is read. */
  lemma ParseWithUnit(body: string)
    requires body != []
    ensures ParseDuration(body + "s") == ParseAmount(body)
  {
    var s := body + "s";
    assert s[..|s| - 1] == body;
  }

  lemma ParseMinutes(m: nat, r: nat)
    ensures ParseDuration(NatToString(m) + "m " + NatToString(r) + "s") == Some(60 * m + r)
  {
    var a := NatToString(m);
    var b := NatToString(r);
    ParseWithUnit(a + "m " + b);
    ParseMinutesAmount(a, b);
    ParseNatToString(m);
    ParseNatToString(r);
  }

  lemma ParseMinutesAmount(a: string, b: string)
    requires a != [] && AllDigits(a) && b != [] && AllDigits(b)
    ensures ParseAmount(a + "m " + b) == Some(60 * ParseNat(a) + ParseNat(b))
  {
    var body := a + "m " + b;
    NoLetterInDigits(a);
    assert body == a + ("m " + b);
    IndexAfterDigits(a, "m " + b);
    MinutesBodySlices(a, b);
    ParseAtMinutes(body, |a|, a, b);
  }

  lemma MinutesBodySlices(a: string, b: string)
    ensures var body := a + "m " + b;
      && |body| == |a| + 2 + |b| && body[|a| + 1] == ' '
      && body[..|a|] == a && body[|a| + 2..] == b
  {
    var body := a + "m " + b;
    assert body[..|a|] == a;
    assert body[|a| + 2..] == b;
  }

  lemma ParseAtMinutes(body: string, i: int, a: string, b: string)
    requires a != [] && AllDigits(a) && b != [] && AllDigits(b)
    requires 0 < i && i + 2 < |body| && body[i + 1] == ' ' && body[..i] == a && body[i + 2..] == b
    ensures ParseAt(body, i) == Some(60 * ParseNat(a) + ParseNat(b))
  {
  }

  lemma IndexAfterDigits(a: string, rest: string)
    requires 'm' !in a && rest != [] && rest[0] == 'm'
    ensures IndexOfChar(a + rest, 'm') == |a|
  {
    var s := a + rest;
    assert s[|a|] == 'm';
    assert s[..|a|] == a;
    assert s[..|a| + 1] == a + ['m'];
  }

  lemma FormatIsInjective(x: int, y: int)
    requires x >= 0 && y >= 0
    requires FormatDuration(Some(x)) == FormatDuration(Some(y))
    ensures x == y
  {
    FormatThenParse(x);
    FormatThenParse(y);
  }

  /** A missing duration and a zero one look the same. */
  lemma MissingIsZero()
    ensures FormatDuration(None) == FormatDuration(Some(0)) == "0s"
  {
  }

  /** Below zero, `minutes` is negative, so the minutes are dropped and only
      the truncated remainder is shown: -65 s reads like -5 s. */
  lemma NegativeDropsMinutes(x: int)
    requires x < 0
    ensures (-x) % 60 != 0 ==> FormatDuration(Some(x)) == "-" + NatToString((-x) % 60) + "s"
    ensures (-x) % 60 == 0 ==> FormatDuration(Some(x)) == "0s"
  {
    assert x / 60 < 0;
  }

  lemma NegativeMinuteLost()
    ensures FormatDuration(Some(-65)) == FormatDuration(Some(-5)) == "-5s"
  {
    assert -65 / 60 == -2;
    assert -5 / 60 == -1;
  }
}
