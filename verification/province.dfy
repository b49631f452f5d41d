/** Recognising the source province of a file and renumbering it into the
    application's region numbering. */
module Province {
  import opened Results
  import opened Digits

  const Keyword: string := "Province"

  /** The ASCII characters `\s` matches in a string pattern: those for
      which `str.isspace()` holds, which includes the four separators
      U+001C to U+001F. */
  predicate IsSpace(c: char) {
    c == ' ' || c == '\t' || c == '\n' || c == '\r' || c == '\U{000B}' || c == '\U{000C}' ||
    ('\U{001C}' <= c <= '\U{001F}')
  }

  /** The text after its leading whitespace. */
  function SkipSpaces(s: string): (r: string)
    ensures |r| <= |s|
  {
    if |s| > 0 && IsSpace(s[0]) then SkipSpaces(s[1..]) else s
  }

  /** The length of the leading run of digits. */
  function DigitRun(s: string): (n: nat)
    ensures n <= |s| && AllDigits(s[..n])
    ensures n == |s| || !IsDigit(s[n])
  {
    if |s| > 0 && IsDigit(s[0]) then 1 + DigitRun(s[1..]) else 0
  }

  /** The pattern `Province\s*=\s*(\d+)` tried at the start of `s`: the
      value of the captured digits, or None when it does not match there.
      Both `\s*` and `\d+` are greedy, and no backtracking can find another
      match, since `=` and the digits are not whitespace. */
  function MatchPrefix(s: string): Option<nat>
  {
    if |s| >= |Keyword| && s[..|Keyword|] == Keyword then
      var a := SkipSpaces(s[|Keyword|..]);
      if |a| > 0 && a[0] == '=' then
        var b := SkipSpaces(a[1..]);
        var n := DigitRun(b);
        if n > 0 then Some(Value(b[..n])) else None
      else None
    else None
  }

  /** The pattern tried at position `p` of `line`. */
  function MatchAt(line: string, p: nat): Option<nat>
  {
    if p <= |line| then MatchPrefix(line[p..]) else None
  }

  /** The leftmost match at or after position `i`. */
  function SearchFrom(line: string, i: nat): (r: Option<nat>)
    requires i <= |line|
    ensures r.Some? ==> exists p :: i <= p < |line| && MatchAt(line, p) == r &&
                                    forall q :: i <= q < p ==> MatchAt(line, q).None?
    ensures r.None? ==> forall p :: i <= p < |line| ==> MatchAt(line, p).None?
    decreases |line| - i
  {
    if i == |line| then None
    else if MatchAt(line, i).Some? then MatchAt(line, i)
    else SearchFrom(line, i + 1)
  }

  /** `find_province_id`: the captured group of the leftmost match of
      `Province\s*=\s*(\d+)` in the first line of a file, as an integer. */
  function FindProvinceId(line: string): (r: Result<nat>)
    ensures r.Ok? ==> exists p: nat :: MatchAt(line, p) == Some(r.value) &&
                                       forall q :: 0 <= q < p ==> MatchAt(line, q).None?
    ensures r.Err? <==> forall p: nat :: MatchAt(line, p).None?
    ensures r.Err? ==> r.error == NoProvince
  {
    match SearchFrom(line, 0)
    case Some(n) => Ok(n)
    case None => Err(NoProvince)
  }

  lemma {:induction false} SkipSpacesOver(ws: string, t: string)
    requires forall i :: 0 <= i < |ws| ==> IsSpace(ws[i])
    requires |t| == 0 || !IsSpace(t[0])
    ensures SkipSpaces(ws + t) == t
  {
    if |ws| > 0 {
      assert (ws + t)[1..] == ws[1..] + t;
      SkipSpacesOver(ws[1..], t);
    }
  }

  lemma {:induction false} DigitRunOver(digits: string, t: string)
    requires AllDigits(digits)
    requires |t| == 0 || !IsDigit(t[0])
    ensures DigitRun(digits + t) == |digits|
  {
    if |digits| > 0 {
      assert (digits + t)[1..] == digits[1..] + t;
      DigitRunOver(digits[1..], t);
    }
  }

  /** The keyword, whitespace, `=`, whitespace and a maximal digit run
      match with the digits' value. */
  lemma MatchPlanted(ws1: string, ws2: string, digits: string, rest: string)
    requires forall i :: 0 <= i < |ws1| ==> IsSpace(ws1[i])
    requires forall i :: 0 <= i < |ws2| ==> IsSpace(ws2[i])
    requires IsDigitString(digits)
    requires |rest| == 0 || !IsDigit(rest[0])
    ensures MatchPrefix(Keyword + (ws1 + ("=" + (ws2 + (digits + rest))))) == Some(Value(digits))
  {
    var t3 := ws2 + (digits + rest);
    var t1 := ws1 + ("=" + t3);
    var s := Keyword + t1;
    assert s[..|Keyword|] == Keyword && s[|Keyword|..] == t1;
    SkipSpacesOver(ws1, "=" + t3);
    assert ("=" + t3)[1..] == t3;
    SkipSpacesOver(ws2, digits + rest);
    DigitRunOver(digits, rest);
    assert (digits + rest)[..|digits|] == digits;
  }

  /** `SkipSpaces` removes a leading run of whitespace and stops at a
      character that is not whitespace. */
  lemma {:induction false} SkipSpacesSplit(t: string) returns (ws: string)
    ensures forall i :: 0 <= i < |ws| ==> IsSpace(ws[i])
    ensures t == ws + SkipSpaces(t)
    ensures |SkipSpaces(t)| == 0 || !IsSpace(SkipSpaces(t)[0])
  {
    if |t| > 0 && IsSpace(t[0]) {
      var ws' := SkipSpacesSplit(t[1..]);
      ws := [t[0]] + ws';
      assert t == [t[0]] + t[1..];
    } else {
      ws := [];
    }
  }

  /** The leading digit run and what follows it. */
  lemma DigitRunSplit(b: string) returns (digits: string, rest: string)
    requires DigitRun(b) > 0
    ensures IsDigitString(digits) && (|rest| == 0 || !IsDigit(rest[0]))
    ensures b == digits + rest
  {
    var n := DigitRun(b);
    digits, rest := b[..n], b[n..];
    assert b == digits + rest;
  }

  /** `s` is the keyword, whitespace, `=`, whitespace, a maximal digit run
      and the rest. */
  predicate Planted(s: string, ws1: string, ws2: string, digits: string, rest: string) {
    (forall i :: 0 <= i < |ws1| ==> IsSpace(ws1[i])) &&
    (forall i :: 0 <= i < |ws2| ==> IsSpace(ws2[i])) &&
    IsDigitString(digits) && (|rest| == 0 || !IsDigit(rest[0])) &&
    s == Keyword + (ws1 + ("=" + (ws2 + (digits + rest))))
  }

  /** The pieces of a text the pattern matches at its start. */
  lemma MatchParts(s: string) returns (ws1: string, ws2: string, digits: string, rest: string)
    requires MatchPrefix(s).Some?
    ensures Planted(s, ws1, ws2, digits, rest)
    ensures MatchPrefix(s) == Some(Value(digits))
  {
    var t1 := s[|Keyword|..];
    ws1 := SkipSpacesSplit(t1);
    var a := SkipSpaces(t1);
    var t2 := a[1..];
    ws2 := SkipSpacesSplit(t2);
    digits, rest := DigitRunSplit(SkipSpaces(t2));
    assert a == "=" + t2;
    assert s == Keyword + t1;
    MatchPlanted(ws1, ws2, digits, rest);
  }

  /** The converse of `MatchPlanted`: a text the pattern matches at its
      start has that shape, and the match is the digits' value. */
  lemma MatchShape(s: string)
    requires MatchPrefix(s).Some?
    ensures exists ws1, ws2, digits, rest :: Planted(s, ws1, ws2, digits, rest) &&
                                            MatchPrefix(s) == Some(Value(digits))
  {
    var ws1, ws2, digits, rest := MatchParts(s);
  }

  lemma KeywordStartsWithP(s: string)
    ensures MatchPrefix(s).Some? ==> |s| > 0 && s[0] == 'P'
  {
    if |s| >= |Keyword| && s[..|Keyword|] == Keyword {
      assert s[0] == s[..|Keyword|][0];
    }
  }

  /** No match can start inside a text without `P`. */
  lemma NoMatchBefore(pre: string, t: string)
    requires 'P' !in pre
    ensures forall q :: 0 <= q < |pre| ==> MatchAt(pre + t, q).None?
  {
    forall q | 0 <= q < |pre|
      ensures MatchAt(pre + t, q).None?
    {
      KeywordStartsWithP((pre + t)[q..]);
      assert (pre + t)[q..][0] == pre[q];
    }
  }

  /** A match with no match before it is what the search returns. */
  lemma LeftmostMatchFound(line: string, i: nat, v: nat)
    requires MatchAt(line, i) == Some(v)
    requires forall q :: 0 <= q < i ==> MatchAt(line, q).None?
    ensures FindProvinceId(line) == Ok(v)
  {
    var r := FindProvinceId(line);
    if r.Ok? {
      var p: nat :| MatchAt(line, p) == Some(r.value) && forall q :: 0 <= q < p ==> MatchAt(line, q).None?;
      assert MatchAt(line, p).Some? && MatchAt(line, i).Some?;
      assert p == i;
    }
  }

  /** A line made of a text without `P`, the keyword, whitespace, `=`,
      whitespace and a digit run that is not followed by another digit
      yields exactly the value of that digit run. */
  lemma FindsPlantedId(pre: string, ws1: string, ws2: string, digits: string, rest: string)
    requires 'P' !in pre
    requires forall i :: 0 <= i < |ws1| ==> IsSpace(ws1[i])
    requires forall i :: 0 <= i < |ws2| ==> IsSpace(ws2[i])
    requires IsDigitString(digits)
    requires |rest| == 0 || !IsDigit(rest[0])
    ensures FindProvinceId(pre + Keyword + ws1 + "=" + ws2 + digits + rest) == Ok(Value(digits))
  {
    var t0 := Keyword + (ws1 + ("=" + (ws2 + (digits + rest))));
    var line := pre + t0;
    assert line == pre + Keyword + ws1 + "=" + ws2 + digits + rest;
    assert line[|pre|..] == t0;
    MatchPlanted(ws1, ws2, digits, rest);
    NoMatchBefore(pre, t0);
    LeftmostMatchFound(line, |pre|, Value(digits));
  }

  /** A first line without the letter `P` names no province. */
  lemma NoKeywordNoProvince(line: string)
    requires 'P' !in line
    ensures FindProvinceId(line) == Err(NoProvince)
  {
    NoMatchBefore(line, "");
    assert line + "" == line;
  }

  /** `replacements_dict`: source province id to application region id. */
  const Replacements: map<int, int> :=
    map[1 := 22, 2 := 24, 3 := 23, 4 := 25, 5 := 3, 6 := 4, 7 := 8, 8 := 19, 9 := 20,
        10 := 21, 11 := 9, 12 := 9, 13 := 10, 14 := 11, 15 := 12, 16 := 13, 17 := 14,
        18 := 15, 19 := 16, 20 := 25, 21 := 17, 22 := 18, 23 := 6, 24 := 1, 25 := 2,
        26 := 7, 27 := 5]

  /** `replacements_dict[id]` as the dataset assembly evaluates it. */
  function NormalizeProvince(id: int): (r: Result<int>)
    ensures r.Ok? <==> 1 <= id <= 27
    ensures r.Ok? ==> 1 <= r.value <= 25
    ensures r.Err? ==> r.error == UnknownProvince(id)
  {
    if id in Replacements then Ok(Replacements[id]) else Err(UnknownProvince(id))
  }

  /** The table is defined exactly on 1..27. */
  lemma ReplacementsDomain()
    ensures forall k :: k in Replacements <==> 1 <= k <= 27
  {
  }

  /** Every value of the table lies in 1..25. */
  lemma ReplacementsBounded()
    ensures forall k :: k in Replacements ==> 1 <= Replacements[k] <= 25
  {
  }

  /** Every region from 1 to 25 is the image of some source province. */
  lemma ReplacementsCoverRegions()
    ensures forall v :: 1 <= v <= 25 ==> v in Replacements.Values
  {
    var inverse := [0, 24, 25, 5, 6, 27, 23, 26, 7, 11, 13, 14, 15, 16, 17, 18,
                    19, 21, 22, 8, 9, 10, 1, 3, 2, 4];
    forall v | 1 <= v <= 25
      ensures v in Replacements.Values
    {
      var k := inverse[v];
      assert k in Replacements && Replacements[k] == v;
    }
  }

  /** Its values are exactly 1..25: every region up to 25 is reached, and
      the city regions 26 and 27 are never reached. */
  lemma ReplacementsRange()
    ensures forall v :: v in Replacements.Values <==> 1 <= v <= 25
  {
    ReplacementsBounded();
    ReplacementsCoverRegions();
  }

  /** The table is not injective: two pairs of source provinces share a region. */
  lemma ReplacementsNotInjective()
    ensures Replacements[11] == Replacements[12] == 9
    ensures Replacements[4] == Replacements[20] == 25
    ensures exists a, b :: a in Replacements && b in Replacements && a != b && Replacements[a] == Replacements[b]
  {
    assert Replacements[11] == Replacements[12];
  }
}
