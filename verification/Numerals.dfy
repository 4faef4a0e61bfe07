/** Whole numbers as ASCII text: Python's `str(n)` and `int(s)`. */
module Numerals {
  import opened Basics

  predicate IsDigit(c: char) {
    '0' <= c <= '9'
  }

  predicate AllDigits(s: string) {
    forall i :: 0 <= i < |s| ==> IsDigit(s[i])
  }

  // ---- the meaning of a numeral ----

  function Pow10(k: nat): nat {
    if k == 0 then 1 else 10 * Pow10(k - 1)
  }

  /** The number that digits stand for, each by its distance from the end. */
  ghost function Positional(s: string): int {
    if s == "" then 0 else (s[0] as int - 48) * Pow10(|s| - 1) + Positional(s[1..])
  }

  lemma {:induction false} PositionalSnoc(s: string, c: char)
    ensures Positional(s + [c]) == 10 * Positional(s) + (c as int - 48)
  {
    if s == "" {
      assert Positional([c]) == (c as int - 48) * Pow10(0) + Positional([]);
    } else {
      PositionalSnoc(s[1..], c);
      assert (s + [c])[1..] == s[1..] + [c];
      assert Pow10(|s|) == 10 * Pow10(|s| - 1);
      var d := s[0] as int - 48;
      assert d * (10 * Pow10(|s| - 1)) == 10 * (d * Pow10(|s| - 1));
    }
  }

  // ---- writing ----

  function Decimal(n: int): string
    decreases if n < 0 then 1 - n else n
  {
    if n < 0 then "-" + Decimal(-n)
    else if n < 10 then ['0' + n as char]
    else Decimal(n / 10) + ['0' + (n % 10) as char]
  }

  /** The text of a number: its digits without leading zeros, and a minus before those of a negative one. */
  lemma {:induction false} DecimalIs(n: int)
    ensures n < 0 ==> Decimal(n) == ['-'] + Decimal(-n)
    ensures n >= 0 ==> var s := Decimal(n);
      AllDigits(s) && s != "" && Positional(s) == n && (s[0] == '0' ==> s == "0")
    decreases if n < 0 then 1 - n else n
  {
    if n >= 10 {
      DecimalIs(n / 10);
      PositionalSnoc(Decimal(n / 10), '0' + (n % 10) as char);
    } else if n >= 0 {
      PositionalSnoc("", '0' + n as char);
      assert "" + ['0' + n as char] == Decimal(n);
    }
  }

  // ---- reading ----

  /** Digits, with single underscores between them. */
  function Digits(s: string): Option<nat> {
    if s == [] || !IsDigit(s[|s| - 1]) then None
    else
      var d := s[|s| - 1] as int - '0' as int;
      if |s| == 1 then Some(d)
      else match Digits(if s[|s| - 2] == '_' then s[..|s| - 2] else s[..|s| - 1])
        case None => None
        case Some(v) => Some(v * 10 + d)
  }

  /** `int(s)` of a word */
  function ParseInt(s: string): Result<int> {
    if s == [] then Failure(ValueError)
    else
      var v := Digits(if s[0] == '+' || s[0] == '-' then s[1..] else s);
      if v.None? then Failure(ValueError)
      else
        var n: int := v.value;
        Success(if s[0] == '-' then -n else n)
  }

  /** Every character is a digit or an underscore between two digits. */
  ghost predicate IsNumeral(s: string) {
    && s != "" && IsDigit(s[0]) && IsDigit(s[|s| - 1])
    && forall i :: 0 <= i < |s| ==> NumeralAt(s, i)
  }

  ghost predicate NumeralAt(s: string, i: int)
    requires 0 <= i < |s|
  {
    IsDigit(s[i]) || (s[i] == '_' && 0 < i < |s| - 1 && IsDigit(s[i - 1]) && IsDigit(s[i + 1]))
  }

  /** The text without its underscores. */
  function Plain(s: string): string {
    if s == "" then "" else Plain(s[..|s| - 1]) + if s[|s| - 1] == '_' then "" else [s[|s| - 1]]
  }

  /** A text reads as a number exactly when it is a numeral, and then as the one its digits stand for. */
  lemma {:induction false} DigitsIff(s: string)
    ensures Digits(s).Some? <==> IsNumeral(s)
    ensures IsNumeral(s) ==> Digits(s).value == Positional(Plain(s))
    decreases |s|
  {
    if s != "" && IsDigit(s[|s| - 1]) {
      var n := |s| - 1;
      PositionalSnoc(Plain(s[..n]), s[n]);
      if n == 0 {
        assert Plain(s[..0]) == "";
      } else {
        var front := if s[n - 1] == '_' then s[..n - 1] else s[..n];
        DigitsIff(front);
        FrontIsNumeral(s, front);
        PlainFront(s, front);
      }
    }
  }

  lemma PlainFront(s: string, front: string)
    requires |s| >= 2 && front == if s[|s| - 2] == '_' then s[..|s| - 2] else s[..|s| - 1]
    ensures Plain(s[..|s| - 1]) == Plain(front)
  {
    assert s[..|s| - 1][..|s| - 2] == s[..|s| - 2];
  }

  lemma FrontIsNumeral(s: string, front: string)
    requires |s| >= 2 && IsDigit(s[|s| - 1])
    requires front == if s[|s| - 2] == '_' then s[..|s| - 2] else s[..|s| - 1]
    ensures IsNumeral(front) <==> IsNumeral(s)
  {
    var n := |s| - 1;
    if IsNumeral(front) {
      forall i | 0 <= i < |s|
        ensures NumeralAt(s, i)
      {
        if i < |front| {
          assert NumeralAt(front, i);
        }
      }
    }
    if IsNumeral(s) {
      assert NumeralAt(s, n - 1);
      forall i | 0 <= i < |front|
        ensures NumeralAt(front, i)
      {
        assert NumeralAt(s, i);
      }
    }
  }

  lemma {:induction false} PlainDigits(s: string)
    requires AllDigits(s)
    ensures Plain(s) == s
  {
    if s != "" {
      PlainDigits(s[..|s| - 1]);
    }
  }

  /** The text after a sign. */
  ghost function Unsigned(w: string): string {
    if w != "" && (w[0] == '+' || w[0] == '-') then w[1..] else w
  }

  /** When and as what a word reads, with its sign. */
  lemma ParseIntIff(w: string)
    ensures var s := Unsigned(w);
      ParseInt(w) == if !IsNumeral(s) then Failure(ValueError)
                     else Success(if w[0] == '-' then -Positional(Plain(s)) else Positional(Plain(s)))
  {
    DigitsIff(Unsigned(w));
  }

  lemma DecimalIsNumeral(n: nat)
    ensures IsNumeral(Decimal(n)) && Positional(Plain(Decimal(n))) == n
    ensures Unsigned(Decimal(n)) == Decimal(n) && Decimal(n)[0] != '-'
  {
    var s := Decimal(n);
    DecimalIs(n);
    PlainDigits(s);
    assert forall i :: 0 <= i < |s| ==> NumeralAt(s, i);
  }

  lemma MinusReads(s: string)
    requires IsNumeral(s)
    ensures ParseInt(['-'] + s) == Success(-Positional(Plain(s)))
  {
    var w := ['-'] + s;
    assert w[1..] == s;
    ParseIntIff(w);
  }

  /** The text of every number reads as that number. */
  lemma DecimalReadsBack(n: int)
    ensures ParseInt(Decimal(n)) == Success(n)
  {
    var m := if n < 0 then -n else n;
    DecimalIsNumeral(m);
    if n < 0 {
      DecimalIs(n);
      MinusReads(Decimal(m));
    } else {
      ParseIntIff(Decimal(m));
    }
  }
}
