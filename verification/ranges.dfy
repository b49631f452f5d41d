/** `parse_range`: the "start-end" texts of the Years and Weeks fields. */
module Ranges {
  import opened Results
  import opened Digits

  /** An inclusive pair of bounds, as `parse_range` returns it. Nothing
      orders the two: a reversed pair is kept as it is. */
  datatype Bounds = Bounds(lo: int, hi: int)

  /** `text.split('-')`: the pieces between hyphens, at least one. */
  function Split(text: string): (parts: seq<string>)
    ensures |parts| >= 1
    ensures forall i :: 0 <= i < |parts| ==> '-' !in parts[i]
  {
    if |text| == 0 then [""]
    else
      var rest := Split(text[1..]);
      if text[0] == '-' then [""] + rest
      else [[text[0]] + rest[0]] + rest[1..]
  }

  /** `'-'.join(parts)`. */
  function Join(parts: seq<string>): string
    requires |parts| >= 1
  {
    if |parts| == 1 then parts[0] else parts[0] + "-" + Join(parts[1..])
  }

  /** Joining the pieces of a split restores the text. */
  lemma {:induction false} JoinSplit(text: string)
    ensures Join(Split(text)) == text
  {
    if |text| > 0 {
      var rest := Split(text[1..]);
      JoinSplit(text[1..]);
      if text[0] == '-' {
        assert Split(text) == [""] + rest;
        assert ([""] + rest)[1..] == rest;
      } else {
        var parts := Split(text);
        assert parts == [[text[0]] + rest[0]] + rest[1..];
        if |rest| == 1 {
          assert Join(parts) == [text[0]] + rest[0];
        } else {
          assert parts[1..] == rest[1..];
          assert Join(parts) == [text[0]] + rest[0] + "-" + Join(rest[1..]);
        }
        assert text == [text[0]] + text[1..];
      }
    }
  }

  /** A hyphen-free prefix is carried into the first piece. */
  lemma {:induction false} SplitPrefix(a: string, t: string)
    requires '-' !in a
    ensures Split(a + t) == [a + Split(t)[0]] + Split(t)[1..]
  {
    if |a| > 0 {
      assert (a + t)[1..] == a[1..] + t;
      assert (a + t)[0] == a[0];
      SplitPrefix(a[1..], t);
      assert [a[0]] + (a[1..] + Split(t)[0]) == a + Split(t)[0];
    } else {
      var s := Split(t);
      assert a + t == t;
      assert a + s[0] == s[0];
      assert s == [s[0]] + s[1..];
    }
  }

  /** Splitting a join of hyphen-free pieces gives the pieces back. */
  lemma {:induction false} SplitJoin(parts: seq<string>)
    requires |parts| >= 1
    requires forall i :: 0 <= i < |parts| ==> '-' !in parts[i]
    ensures Split(Join(parts)) == parts
  {
    if |parts| == 1 {
      SplitPrefix(parts[0], "");
      assert parts[0] + "" == parts[0];
    } else {
      var tail := Join(parts[1..]);
      SplitJoin(parts[1..]);
      assert ("-" + tail)[1..] == tail;
      assert Split("-" + tail) == [""] + Split(tail);
      SplitPrefix(parts[0], "-" + tail);
      assert Join(parts) == parts[0] + ("-" + tail);
      assert parts[0] + "" == parts[0];
      assert Split(Join(parts)) == [parts[0]] + Split(tail);
      assert parts == [parts[0]] + parts[1..];
    }
  }

  /** `start, end = map(int, text.split('-'))`: exactly two pieces, each
      converted with `int`. */
  function ParseRange(text: string): (r: Result<Bounds>)
    ensures r.Err? ==> r.error == BadRange(text)
  {
    var parts := Split(text);
    if |parts| != 2 then Err(BadRange(text))
    else
      match (ParseNat(parts[0]), ParseNat(parts[1]))
      case (Some(a), Some(b)) => Ok(Bounds(a, b))
      case _ => Err(BadRange(text))
  }

  lemma NoHyphenInDigits(s: string)
    requires AllDigits(s)
    ensures '-' !in s
  {
  }

  /** Two digit strings around one hyphen parse to their values. */
  lemma ParseRangeOfDigits(a: string, b: string)
    requires IsDigitString(a) && IsDigitString(b)
    ensures ParseRange(a + "-" + b) == Ok(Bounds(Value(a), Value(b)))
  {
    NoHyphenInDigits(a);
    NoHyphenInDigits(b);
    assert Join([a, b]) == a + "-" + b;
    SplitJoin([a, b]);
  }

  /** Every accepted text is two digit strings around one hyphen, and the
      bounds are their values. */
  lemma ParseRangeSound(text: string)
    requires ParseRange(text).Ok?
    ensures exists a, b :: IsDigitString(a) && IsDigitString(b) && text == a + "-" + b &&
                           ParseRange(text).value == Bounds(Value(a), Value(b))
  {
    var parts := Split(text);
    JoinSplit(text);
    assert Join(parts) == parts[0] + "-" + parts[1];
    assert IsDigitString(parts[0]) && IsDigitString(parts[1]);
  }

  /** Rendering two numbers as "lo-hi" and parsing gives them back. */
  lemma ParseRangeShow(lo: nat, hi: nat)
    ensures ParseRange(ShowNat(lo) + "-" + ShowNat(hi)) == Ok(Bounds(lo, hi))
  {
    ParseRangeOfDigits(ShowNat(lo), ShowNat(hi));
    ValueOfShowNat(lo);
    ValueOfShowNat(hi);
  }

  /** A text that starts with a hyphen, such as a negative lower bound
      "-5-3", is rejected. */
  lemma LeadingHyphenRejected(text: string)
    requires |text| > 0 && text[0] == '-'
    ensures ParseRange(text) == Err(BadRange(text))
  {
    assert Split(text)[0] == "";
  }

  /** A reversed range is accepted as written. */
  lemma ReversedRangeAccepted(lo: nat, hi: nat)
    requires lo > hi
    ensures ParseRange(ShowNat(lo) + "-" + ShowNat(hi)) == Ok(Bounds(lo, hi))
  {
    ParseRangeShow(lo, hi);
  }
}
