/** Decimal integers as the pipeline reads them with Python's `int`,
    restricted to non-empty runs of ASCII digits. */
module Digits {
  import opened Results

  predicate IsDigit(c: char) {
    '0' <= c <= '9'
  }

  predicate AllDigits(s: string) {
    forall i :: 0 <= i < |s| ==> IsDigit(s[i])
  }

  predicate IsDigitString(s: string) {
    |s| > 0 && AllDigits(s)
  }

  function DigitValue(c: char): nat
    requires IsDigit(c)
  {
    (c as int) - ('0' as int)
  }

  /** The value of a digit run, most significant digit first. */
  function Value(s: string): nat
    requires AllDigits(s)
  {
    if |s| == 0 then 0 else 10 * Value(s[..|s| - 1]) + DigitValue(s[|s| - 1])
  }

  /** `int(s)` for the texts this model admits: defined exactly on
      non-empty digit strings. */
  function ParseNat(s: string): (r: Option<nat>)
    ensures r.Some? <==> IsDigitString(s)
    ensures r.Some? ==> r.value == Value(s)
  {
    if IsDigitString(s) then Some(Value(s)) else None
  }

  function DigitChar(d: nat): (c: char)
    requires d < 10
    ensures IsDigit(c) && DigitValue(c) == d
  {
    ('0' as int + d) as char
  }

  /** The shortest decimal rendering of `n` (Python's `str(n)`). */
  function ShowNat(n: nat): (s: string)
    ensures IsDigitString(s)
  {
    if n < 10 then [DigitChar(n)] else ShowNat(n / 10) + [DigitChar(n % 10)]
  }

  lemma {:induction false} ValueOfShowNat(n: nat)
    ensures Value(ShowNat(n)) == n
  {
    if n >= 10 {
      var s := ShowNat(n);
      assert s[..|s| - 1] == ShowNat(n / 10);
      ValueOfShowNat(n / 10);
    }
  }

  /** A digit run that does not start with `0` has a positive value. */
  lemma {:induction false} ValuePositive(s: string)
    requires IsDigitString(s) && s[0] != '0'
    ensures Value(s) > 0
  {
    if |s| > 1 {
      var p := s[..|s| - 1];
      assert p[0] == s[0];
      ValuePositive(p);
    }
  }

  /** Rendering the value of a canonical digit string (no leading zero,
      unless it is `0` itself) gives back the string: `str(int(s)) == s`. */
  lemma {:induction false} ShowValue(s: string)
    requires IsDigitString(s) && (s[0] != '0' || |s| == 1)
    ensures ShowNat(Value(s)) == s
  {
    var last := s[|s| - 1];
    if |s| == 1 {
      assert s == [last];
    } else {
      var p := s[..|s| - 1];
      assert p[0] == s[0];
      ValuePositive(p);
      var v := Value(s);
      assert v / 10 == Value(p) && v % 10 == DigitValue(last);
      ShowValue(p);
      assert s == p + [last];
    }
  }

  /** Reading back a rendered number gives the number. */
  lemma ParseShowNat(n: nat)
    ensures ParseNat(ShowNat(n)) == Some(n)
  {
    ValueOfShowNat(n);
  }
}
