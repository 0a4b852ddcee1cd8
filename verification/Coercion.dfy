/** Reading one extracted value as the type its form field has: text is stripped, numbers are searched in it. */
module Coercion {
  import opened Options

  /** A number keeps the text it would print as; every other value that is not null is its text. */
  datatype Value = Null | Number(number: real, text: string) | Text(text: string)

  /** A value of a field of kind str, int or float. */
  datatype Reading = Words(text: string) | Whole(n: int) | Amount(x: real)

  predicate IsSpace(c: char) { c == ' ' || c == '\t' || c == '\n' || c == '\r' }

  predicate IsDigit(c: char) { '0' <= c <= '9' }

  predicate AllDigits(s: string) { forall i | 0 <= i < |s| :: IsDigit(s[i]) }

  predicate AllSpace(s: string) { forall i | 0 <= i < |s| :: IsSpace(s[i]) }

  /** Blanks are space, tab, line feed and carriage return; digits are the ten of ASCII. */
  lemma CharactersExactly(c: char)
    ensures IsSpace(c) <==> c in " \t\n\r"
    ensures IsDigit(c) <==> c in "0123456789"
  {
  }

  function Strip(s: string): string {
    if s == "" then ""
    else if IsSpace(s[0]) then Strip(s[1..])
    else if IsSpace(s[|s| - 1]) then Strip(s[..|s| - 1])
    else s
  }

  /** s is m with blanks around it. */
  ghost predicate Framed(s: string, before: string, m: string, after: string) {
    s == before + m + after && AllSpace(before) && AllSpace(after)
  }

  lemma FramedLeft(s: string, before: string, m: string, after: string)
    requires s != "" && IsSpace(s[0]) && Framed(s[1..], before, m, after)
    ensures Framed(s, [s[0]] + before, m, after)
  {
    assert s == [s[0]] + s[1..];
  }

  lemma FramedRight(s: string, before: string, m: string, after: string)
    requires s != "" && IsSpace(s[|s| - 1]) && Framed(s[..|s| - 1], before, m, after)
    ensures Framed(s, before, m, after + [s[|s| - 1]])
  {
    assert s == s[..|s| - 1] + [s[|s| - 1]];
  }

  /** Only spaces go, all of them at both ends, and nothing else. */
  lemma {:induction false} StripExactly(s: string) returns (before: string, after: string)
    ensures Framed(s, before, Strip(s), after)
    ensures Strip(s) != "" ==> !IsSpace(Strip(s)[0]) && !IsSpace(Strip(s)[|Strip(s)| - 1])
  {
    before, after := StripFramed(s);
    StripLeavesNoSpace(s);
  }

  lemma {:induction false} StripFramed(s: string) returns (before: string, after: string)
    ensures Framed(s, before, Strip(s), after)
  {
    if s == "" {
      before, after := "", "";
    } else if IsSpace(s[0]) {
      before, after := StripFramed(s[1..]);
      FramedLeft(s, before, Strip(s[1..]), after);
      before := [s[0]] + before;
    } else if IsSpace(s[|s| - 1]) {
      before, after := StripFramed(s[..|s| - 1]);
      FramedRight(s, before, Strip(s[..|s| - 1]), after);
      after := after + [s[|s| - 1]];
    } else {
      before, after := "", "";
    }
  }

  lemma {:induction false} StripLeavesNoSpace(s: string)
    ensures Strip(s) != "" ==> !IsSpace(Strip(s)[0]) && !IsSpace(Strip(s)[|Strip(s)| - 1])
  {
    if s == "" {
    } else if IsSpace(s[0]) {
      StripLeavesNoSpace(s[1..]);
    } else if IsSpace(s[|s| - 1]) {
      StripLeavesNoSpace(s[..|s| - 1]);
    }
  }

  // ---------------------------------------------------------------------
  // The number search: an optional minus, digits, and an optional point with digits.
  // ---------------------------------------------------------------------

  predicate HasParts(m: string, sign: string, whole: string, fraction: string) {
    && m == sign + whole + fraction && (sign == "" || sign == "-")
    && whole != "" && AllDigits(whole)
    && (fraction == "" || (|fraction| > 1 && fraction[0] == '.' && AllDigits(fraction[1..])))
  }

  /** The pattern's language. */
  ghost predicate IsNumeral(m: string) {
    exists sign, whole, fraction :: HasParts(m, sign, whole, fraction)
  }

  /** The end of the run of digits from i. */
  function RunEnd(s: string, i: nat): (j: nat)
    requires i <= |s|
    ensures i <= j <= |s|
    decreases |s| - i
  {
    if i < |s| && IsDigit(s[i]) then RunEnd(s, i + 1) else i
  }

  /** Where a match starting at i ends. */
  function MatchEnd(s: string, i: nat): (r: Option<nat>)
    requires i <= |s|
    ensures r.Some? ==> i < r.value <= |s|
  {
    var j := if i < |s| && s[i] == '-' then i + 1 else i;
    var k := RunEnd(s, j);
    if k == j then None
    else if k + 1 < |s| && s[k] == '.' && IsDigit(s[k + 1]) then Some(RunEnd(s, k + 1))
    else Some(k)
  }

  method Search(s: string) returns (r: Option<(nat, nat)>)
    ensures r == FirstMatch(s, 0)
  {
    for i := 0 to |s|
      invariant FirstMatch(s, 0) == FirstMatch(s, i)
    {
      var end := MatchEnd(s, i);
      if end.Some? {
        return Some((i, end.value));
      }
    }
    r := None;
  }

  function FirstMatch(s: string, i: nat): (r: Option<(nat, nat)>)
    requires i <= |s|
    ensures r.Some? ==> i <= r.value.0 < r.value.1 <= |s|
    decreases |s| - i
  {
    if i == |s| then None
    else if MatchEnd(s, i).Some? then Some((i, MatchEnd(s, i).value))
    else FirstMatch(s, i + 1)
  }

  lemma {:induction false} RunIsMaximal(s: string, i: nat)
    requires i <= |s|
    ensures AllDigits(s[i..RunEnd(s, i)]) && (RunEnd(s, i) < |s| ==> !IsDigit(s[RunEnd(s, i)]))
    decreases |s| - i
  {
    if i == |s| || !IsDigit(s[i]) {
    } else {
      RunIsMaximal(s, i + 1);
      assert s[i..RunEnd(s, i)] == [s[i]] + s[i + 1..RunEnd(s, i)];
    }
  }

  /** From the characters at the indices to the parts of the slice. */
  lemma PartsOfSlice(s: string, i: nat, j: nat, k: nat, end: nat)
    requires i <= j < k <= end <= |s| && (j == i || (j == i + 1 && s[i] == '-'))
    requires AllDigits(s[j..k])
    requires end == k || (k + 1 < end && s[k] == '.' && AllDigits(s[k + 1..end]))
    ensures HasParts(s[i..end], s[i..j], s[j..k], s[k..end])
  {
    assert s[i..k] == s[i..j] + s[j..k];
    assert s[i..end] == s[i..k] + s[k..end];
    assert end > k ==> s[k..end][1..] == s[k + 1..end];
  }

  lemma MatchIndices(s: string, i: nat, j: nat, k: nat, end: nat)
    requires i <= |s| && MatchEnd(s, i) == Some(end)
    requires j == (if s[i] == '-' then i + 1 else i) && k == RunEnd(s, j)
    ensures j < k <= end && AllDigits(s[j..k])
    ensures end == k || (k + 1 < end && s[k] == '.' && AllDigits(s[k + 1..end]))
  {
    RunIsMaximal(s, j);
    if end != k {
      RunIsMaximal(s, k + 1);
      RunCovers(s, k + 1, k + 2);
    }
  }

  lemma MatchHasParts(s: string, i: nat, j: nat, k: nat, end: nat)
    requires i <= |s| && MatchEnd(s, i) == Some(end)
    requires j == (if s[i] == '-' then i + 1 else i) && k == RunEnd(s, j)
    ensures k <= end && HasParts(s[i..end], s[i..j], s[j..k], s[k..end])
  {
    MatchIndices(s, i, j, k, end);
    PartsOfSlice(s, i, j, k, end);
  }

  lemma MatchIsNumeral(s: string, i: nat)
    requires i <= |s| && MatchEnd(s, i).Some?
    ensures IsNumeral(s[i..MatchEnd(s, i).value])
  {
    var j := if s[i] == '-' then i + 1 else i;
    MatchHasParts(s, i, j, RunEnd(s, j), MatchEnd(s, i).value);
  }

  lemma NumeralAt(s: string, i: nat, n: nat, sign: string, whole: string, fraction: string)
    requires i <= n <= |s| && HasParts(s[i..n], sign, whole, fraction)
    ensures var j := i + |sign|; var w := j + |whole|;
            && (s[i] == '-' <==> sign == "-") && (forall x | j <= x < w :: IsDigit(s[x]))
            && n == w + |fraction|
            && (fraction != "" ==> w < n && s[w] == '.' && forall x | w + 1 <= x < n :: IsDigit(s[x]))
  {
    var m, j := s[i..n], i + |sign|;
    var w := j + |whole|;
    forall x | j <= x < w ensures IsDigit(s[x]) {
      assert s[x] == m[x - i] == whole[x - j];
    }
    assert s[i] == m[0];
    if fraction != "" {
      assert s[w] == m[w - i] == fraction[0];
      forall x | w + 1 <= x < n ensures IsDigit(s[x]) {
        assert s[x] == m[x - i] == fraction[x - w] == fraction[1..][x - w - 1];
      }
    }
  }

  /** No numeral starting at i is longer than the match, and without a match there is none. */
  lemma MatchIsLongest(s: string, i: nat, n: nat)
    requires i <= n <= |s| && IsNumeral(s[i..n])
    ensures MatchEnd(s, i).Some? && n <= MatchEnd(s, i).value
  {
    var sign, whole, fraction :| HasParts(s[i..n], sign, whole, fraction);
    NumeralAt(s, i, n, sign, whole, fraction);
    var j := i + |sign|;
    var w := j + |whole|;
    RunCovers(s, j, w);
    if fraction != "" {
      RunStops(s, j, w);
      RunCovers(s, w + 1, n);
    }
  }

  lemma {:induction false} RunCovers(s: string, i: nat, n: nat)
    requires i <= n <= |s| && forall x | i <= x < n :: IsDigit(s[x])
    ensures n <= RunEnd(s, i)
    decreases n - i
  {
    if i == n {
    } else {
      RunCovers(s, i + 1, n);
    }
  }

  lemma {:induction false} RunStops(s: string, i: nat, n: nat)
    requires i <= n < |s| && (forall x | i <= x < n :: IsDigit(s[x])) && !IsDigit(s[n])
    ensures RunEnd(s, i) == n
    decreases n - i
  {
    if i == n {
    } else {
      RunStops(s, i + 1, n);
    }
  }

  /** The search finds the leftmost numeral, as long as possible, and fails only when the text contains none. */
  lemma {:induction false} SearchIsLeftmostLongest(s: string, i: nat, a: nat, b: nat)
    requires i <= a <= b <= |s| && IsNumeral(s[a..b])
    ensures FirstMatch(s, i).Some?
    ensures var (x, y) := FirstMatch(s, i).value; IsNumeral(s[x..y]) && x <= a && (x == a ==> b <= y)
    decreases |s| - i
  {
    var sign, whole, fraction :| HasParts(s[a..b], sign, whole, fraction);
    if MatchEnd(s, i).Some? {
      MatchIsNumeral(s, i);
      if i == a {
        MatchIsLongest(s, a, b);
      }
    } else {
      if i == a {
        MatchIsLongest(s, a, b);
      } else {
        SearchIsLeftmostLongest(s, i + 1, a, b);
      }
    }
  }

  /** A number is found exactly in a text with a digit. */
  lemma {:induction false} FoundIffDigit(s: string, i: nat)
    requires i <= |s|
    ensures FirstMatch(s, i).Some? <==> exists x :: i <= x < |s| && IsDigit(s[x])
    decreases |s| - i
  {
    if i == |s| {
    } else {
      FoundIffDigit(s, i + 1);
      if MatchEnd(s, i).Some? {
        var j := if s[i] == '-' then i + 1 else i;
        assert j < |s| && IsDigit(s[j]);
      } else {
        assert !IsDigit(s[i]);
      }
    }
  }

  // ---------------------------------------------------------------------
  // The value of a numeral.
  // ---------------------------------------------------------------------

  function Digits(s: string): nat
    requires AllDigits(s)
  {
    if s == "" then 0 else 10 * Digits(s[..|s| - 1]) + (s[|s| - 1] as int - '0' as int)
  }

  /** The usual decimal notation. */
  function Decimal(n: nat): (s: string)
    ensures s != "" && AllDigits(s)
  {
    var last := ('0' as int + n % 10) as char;
    if n < 10 then [last] else Decimal(n / 10) + [last]
  }

  /** Digits reads the notation back. */
  lemma {:induction false} DigitsReadBack(n: nat)
    ensures Digits(Decimal(n)) == n
  {
    var s := Decimal(n);
    if n < 10 {
      assert s[..|s| - 1] == "";
    } else {
      DigitsReadBack(n / 10);
      assert s[..|s| - 1] == Decimal(n / 10);
    }
  }

  function Scale(n: nat): (r: real)
    ensures r > 0.0
  {
    if n == 0 then 1.0 else 10.0 * Scale(n - 1)
  }

  /** What the digits after the point are worth. */
  function Share(f: string): real
    requires AllDigits(f)
  {
    Digits(f) as real / Scale(|f|)
  }

  /** The number written with these parts. */
  function Worth(sign: string, whole: string, fraction: string): real
    requires AllDigits(whole) && (fraction == "" || AllDigits(fraction[1..]))
  {
    var size := Digits(whole) as real
                + if fraction == "" then 0.0 else Share(fraction[1..]);
    if sign == "-" then -size else size
  }

  /** What a numeral is worth, by its laws: whole notation reads back, a minus negates, and moving the point one place
      multiplies by ten. */
  lemma WholeReadsBack(n: nat)
    ensures Worth("", Decimal(n), "") == n as real
  {
    DigitsReadBack(n);
  }

  lemma MinusNegates(whole: string, fraction: string)
    requires AllDigits(whole) && (fraction == "" || AllDigits(fraction[1..]))
    ensures Worth("-", whole, fraction) == -Worth("", whole, fraction)
  {
  }

  /** A fraction with its point. */
  function Fraction(digits: string): string { if digits == "" then "" else "." + digits }

  function DigitValue(c: char): real { (c as int - '0' as int) as real }

  lemma LastDigit(s: string, last: char)
    requires s != "" && AllDigits(s) && last == s[|s| - 1]
    ensures Digits(s) as real == 10.0 * Digits(s[..|s| - 1]) as real + DigitValue(last)
  {
  }

  lemma OneMoreDigit(c: char, f: string)
    requires IsDigit(c) && AllDigits(f)
    ensures AllDigits([c] + f) && AllDigits(f + [c]) && (f + [c])[..|f|] == f
    ensures f != "" ==> ([c] + f)[..|f|] == [c] + f[..|f| - 1] && ([c] + f)[|f|] == f[|f| - 1]
  {
  }

  /** A digit's value n places up. */
  function Place(d: real, n: nat): real { if n == 0 then d else 10.0 * Place(d, n - 1) }

  lemma {:induction false} LeadingDigit(c: char, f: string)
    requires IsDigit(c) && AllDigits(f) && AllDigits([c] + f)
    ensures Digits([c] + f) as real == Place(DigitValue(c), |f|) + Digits(f) as real
  {
    OneMoreDigit(c, f);
    if f == "" {
      LastDigit([c] + f, c);
      assert ([c] + f)[..0] == "";
    } else {
      var front, last := f[..|f| - 1], f[|f| - 1];
      OneMoreDigit(c, front);
      LeadingDigit(c, front);
      LastDigit([c] + f, last);
      LastDigit(f, last);
    }
  }

  lemma {:induction false} PlaceIsScaled(d: real, n: nat)
    ensures Place(d, n) == d * Scale(n)
  {
    if n == 0 {
    } else {
      PlaceIsScaled(d, n - 1);
      TenTimes(d, Scale(n - 1));
    }
  }

  lemma TenTimes(d: real, z: real)
    ensures 10.0 * (d * z) == d * (10.0 * z)
  {
  }

  lemma FractionIsDigits(f: string)
    requires AllDigits(f)
    ensures Fraction(f) == "" || (Fraction(f)[1..] == f && |Fraction(f)| - 1 == |f|)
    ensures Fraction(f) == "" <==> f == ""
  {
  }

  lemma WorthOf(sign: string, whole: string, f: string)
    requires AllDigits(whole) && AllDigits(f)
    ensures Fraction(f) == "" || AllDigits(Fraction(f)[1..])
    ensures var size := Digits(whole) as real + Share(f);
            Worth(sign, whole, Fraction(f)) == if sign == "-" then -size else size
  {
    FractionIsDigits(f);
    NoShare();
  }

  lemma NoShare()
    ensures Share("") == 0.0
  {
    assert Digits("") == 0 && Scale(0) == 1.0;
  }

  lemma PointMovesTenfold(sign: string, whole: string, c: char, f: string)
    requires AllDigits(whole) && IsDigit(c) && AllDigits(f) && AllDigits(whole + [c]) && AllDigits([c] + f)
    ensures Fraction(f) == "" || AllDigits(Fraction(f)[1..])
    ensures Fraction([c] + f) == "" || AllDigits(Fraction([c] + f)[1..])
    ensures Worth(sign, whole + [c], Fraction(f)) == 10.0 * Worth(sign, whole, Fraction([c] + f))
  {
    WorthOf(sign, whole + [c], f);
    WorthOf(sign, whole, [c] + f);
    OneMoreDigit(c, whole);
    LastDigit(whole + [c], c);
    LeadingDigit(c, f);
    Tenfold(DigitValue(c), Digits(f) as real, |f|);
  }

  lemma Tenfold(d: real, v: real, n: nat)
    ensures d + v / Scale(n) == 10.0 * ((Place(d, n) + v) / Scale(n + 1))
  {
    PlaceIsScaled(d, n);
    Quotients(d, v, Scale(n));
  }

  lemma Quotients(d: real, v: real, z: real)
    requires z > 0.0
    ensures d + v / z == 10.0 * ((d * z + v) / (10.0 * z))
  {
    var q := (d * z + v) / (10.0 * z);
    assert q * (10.0 * z) == d * z + v;
    assert (v / z) * z == v;
    SameFactor(10.0 * q, d + v / z, z);
  }

  lemma SameFactor(a: real, b: real, z: real)
    requires z > 0.0 && a * z == b * z
    ensures a == b
  {
    assert (a - b) * z == 0.0;
  }

  ghost predicate Denotes(m: string, x: real) {
    exists sign, whole, fraction :: HasParts(m, sign, whole, fraction) && x == Worth(sign, whole, fraction)
  }

  /** A numeral can be taken apart in one way only, so it denotes one number. */
  lemma PartsAreUnique(m: string, sign: string, whole: string, fraction: string,
                       sign': string, whole': string, fraction': string)
    requires HasParts(m, sign, whole, fraction) && HasParts(m, sign', whole', fraction')
    ensures sign == sign' && whole == whole' && fraction == fraction'
  {
    assert m[0..|m|] == m;
    NumeralAt(m, 0, |m|, sign, whole, fraction);
    NumeralAt(m, 0, |m|, sign', whole', fraction');
    var j := |sign|;
    assert sign == sign';
    assert m[j + |whole|..] == fraction && m[j + |whole'|..] == fraction';
    assert m[j..j + |whole|] == whole && m[j..j + |whole'|] == whole';
    assert |whole| == |whole'|;
  }

  function NumeralValue(s: string, i: nat, j: nat): real
    requires i < j <= |s| && MatchEnd(s, i) == Some(j)
  {
    var a := if s[i] == '-' then i + 1 else i;
    var k := RunEnd(s, a);
    MatchHasParts(s, i, a, k, j);
    Worth(s[i..a], s[a..k], s[k..j])
  }

  /** Toward zero. */
  function Truncated(x: real): int { if x >= 0.0 then x.Floor else -((-x).Floor) }

  lemma TruncatedTowardZero(x: real)
    ensures x >= 0.0 ==> Truncated(x) as real <= x < Truncated(x) as real + 1.0
    ensures x <= 0.0 ==> Truncated(x) as real - 1.0 < x <= Truncated(x) as real
  {
  }

  lemma FirstMatchEnds(s: string, i: nat)
    requires i <= |s| && FirstMatch(s, i).Some?
    ensures MatchEnd(s, FirstMatch(s, i).value.0) == Some(FirstMatch(s, i).value.1)
    decreases |s| - i
  {
    if MatchEnd(s, i).Some? {
    } else {
      FirstMatchEnds(s, i + 1);
    }
  }

  function NumberIn(s: string): Option<real> {
    var m := FirstMatch(s, 0);
    if m.None? then None else (FirstMatchEnds(s, 0); Some(NumeralValue(s, m.value.0, m.value.1)))
  }

  // ---------------------------------------------------------------------
  // What a reading must be, without saying how it is found.
  // ---------------------------------------------------------------------

  predicate HasDigit(s: string) { exists i :: 0 <= i < |s| && IsDigit(s[i]) }

  /** w is s without the blanks around it, and something is left. */
  ghost predicate IsTrimmed(s: string, w: string) {
    && w != "" && !IsSpace(w[0]) && !IsSpace(w[|w| - 1])
    && exists before, after :: Framed(s, before, w, after)
  }

  /** The leftmost numeral of s, as long as possible. */
  ghost predicate IsFirstNumeral(s: string, a: nat, b: nat) {
    && a < b <= |s| && IsNumeral(s[a..b])
    && forall c: nat, d: nat | c <= d <= |s| && IsNumeral(s[c..d]) :: a <= c && (c == a ==> d <= b)
  }

  /** A number is itself; a text is the number its first numeral denotes. */
  ghost predicate IsNumber(v: Value, x: real) {
    match v
    case Null => false
    case Number(y, _) => x == y
    case Text(s) => exists a: nat, b: nat :: IsFirstNumeral(s, a, b) && Denotes(s[a..b], x)
  }

  predicate IsTruncation(x: real, n: int) {
    (x >= 0.0 ==> n as real <= x < n as real + 1.0) && (x <= 0.0 ==> n as real - 1.0 < x <= n as real)
  }

  ghost predicate IsCut(v: Value, n: int) { exists x :: IsNumber(v, x) && IsTruncation(x, n) }

  ghost predicate IsReading(v: Value, kind: string, r: Option<Reading>) {
    match r
    case None => v.Null? || (if kind == "str" then AllSpace(v.text) else v.Text? && !HasDigit(v.text))
    case Some(Words(w)) => !v.Null? && kind == "str" && IsTrimmed(v.text, w)
    case Some(Whole(n)) => kind == "int" && IsCut(v, n)
    case Some(Amount(x)) => kind != "str" && kind != "int" && IsNumber(v, x)
  }

  lemma SearchFindsFirst(s: string)
    ensures FirstMatch(s, 0).Some? <==> HasDigit(s)
    ensures FirstMatch(s, 0).Some? ==>
              var (a, b) := FirstMatch(s, 0).value;
              IsFirstNumeral(s, a, b) && MatchEnd(s, a) == Some(b) && Denotes(s[a..b], NumeralValue(s, a, b))
  {
    FoundIffDigit(s, 0);
    if FirstMatch(s, 0).Some? {
      var (a, b) := FirstMatch(s, 0).value;
      FirstMatchEnds(s, 0);
      var j := if s[a] == '-' then a + 1 else a;
      MatchHasParts(s, a, j, RunEnd(s, j), b);
      forall c: nat, d: nat | c <= d <= |s| && IsNumeral(s[c..d]) ensures a <= c && (c == a ==> d <= b) {
        SearchIsLeftmostLongest(s, 0, c, d);
      }
    }
  }

  lemma StripTrims(s: string)
    ensures if Strip(s) == "" then AllSpace(s) else IsTrimmed(s, Strip(s))
  {
    var before, after := StripExactly(s);
  }

  /** A field of kind str, int or float; anything but str and int is read as float. */
  method Coerce(v: Value, kind: string) returns (r: Option<Reading>)
    ensures IsReading(v, kind, r)
  {
    if v.Null? {
      return None;
    }
    if kind == "str" {
      var s := Strip(v.text);
      StripTrims(v.text);
      return if s == "" then None else Some(Words(s));
    }
    var x: real;
    if v.Number? {
      x := v.number;
    } else {
      var m := Search(v.text);
      SearchFindsFirst(v.text);
      if m.None? {
        return None;
      }
      x := NumeralValue(v.text, m.value.0, m.value.1);
    }
    TruncatedTowardZero(x);
    assert IsNumber(v, x) && IsTruncation(x, Truncated(x));
    r := Some(if kind == "int" then Whole(Truncated(x)) else Amount(x));
  }

  function Coerced(v: Value, kind: string): Option<Reading> {
    if v.Null? then None
    else if kind == "str" then (if Strip(v.text) == "" then None else Some(Words(Strip(v.text))))
    else
      var x := if v.Number? then Some(v.number) else NumberIn(v.text);
      if x.None? then None else Some(if kind == "int" then Whole(Truncated(x.value)) else Amount(x.value))
  }

  lemma CoercedIsReading(v: Value, kind: string)
    ensures IsReading(v, kind, Coerced(v, kind))
  {
    if !v.Null? && kind == "str" {
      StripTrims(v.text);
    } else if !v.Null? {
      if v.Text? {
        SearchFindsFirst(v.text);
      }
      var x := if v.Number? then Some(v.number) else NumberIn(v.text);
      if x.Some? {
        TruncatedTowardZero(x.value);
        assert IsNumber(v, x.value) && IsTruncation(x.value, Truncated(x.value));
      }
    }
  }

  lemma TrimmedIsUnique(s: string, w: string, w': string)
    requires IsTrimmed(s, w) && IsTrimmed(s, w')
    ensures w == w'
  {
    var b, a :| Framed(s, b, w, a);
    var b', a' :| Framed(s, b', w', a');
    SameStart(s, b, w, a, b', w', a');
    SameStart(s, b', w', a', b, w, a);
    assert w == s[|b|..|s| - |a|] && w' == s[|b'|..|s| - |a'|];
  }

  lemma SameStart(s: string, b: string, w: string, a: string, b': string, w': string, a': string)
    requires s == b + w + a == b' + w' + a' && AllSpace(b') && AllSpace(a')
    requires w != "" && !IsSpace(w[0]) && !IsSpace(w[|w| - 1]) && w' != ""
    ensures |b'| <= |b| && |a'| <= |a|
  {
    assert s[|b|] == w[0] && s[|s| - |a| - 1] == w[|w| - 1];
    assert forall i | 0 <= i < |b'| :: s[i] == b'[i];
    assert forall i | |s| - |a'| <= i < |s| :: s[i] == a'[i - (|s| - |a'|)];
  }

  lemma NumberIsUnique(v: Value, x: real, y: real)
    requires IsNumber(v, x) && IsNumber(v, y)
    ensures x == y
  {
    if v.Text? {
      var a: nat, b: nat :| IsFirstNumeral(v.text, a, b) && Denotes(v.text[a..b], x);
      var c: nat, d: nat :| IsFirstNumeral(v.text, c, d) && Denotes(v.text[c..d], y);
      assert a == c && b == d;
      var m := v.text[a..b];
      var s, w, f :| HasParts(m, s, w, f) && x == Worth(s, w, f);
      var s', w', f' :| HasParts(m, s', w', f') && y == Worth(s', w', f');
      PartsAreUnique(m, s, w, f, s', w', f');
    }
  }

  lemma NumberHasDigit(v: Value, x: real)
    requires v.Text? && IsNumber(v, x)
    ensures HasDigit(v.text)
  {
    var a: nat, b: nat :| IsFirstNumeral(v.text, a, b) && Denotes(v.text[a..b], x);
    var s, w, f :| HasParts(v.text[a..b], s, w, f);
    NumeralAt(v.text, a, b, s, w, f);
    assert IsDigit(v.text[a + |s|]);
  }

  lemma TrimmedIsNotBlank(s: string, w: string)
    requires IsTrimmed(s, w)
    ensures !AllSpace(s)
  {
    var b, a :| Framed(s, b, w, a);
    assert s[|b|] == w[0];
  }

  lemma CutIsUnique(v: Value, n: int, m: int)
    requires IsCut(v, n) && IsCut(v, m)
    ensures n == m
  {
    var x :| IsNumber(v, x) && IsTruncation(x, n);
    var y :| IsNumber(v, y) && IsTruncation(y, m);
    NumberIsUnique(v, x, y);
  }

  /** A value has one reading of a kind, so what Coerce returns is settled by what it must be. */
  lemma ReadingIsUnique(v: Value, kind: string, r: Option<Reading>, q: Option<Reading>)
    requires IsReading(v, kind, r) && IsReading(v, kind, q)
    ensures r == q
  {
    if r.None? != q.None? {
      SomeIsReadable(v, kind, if r.Some? then r.value else q.value);
    } else if r.Some? {
      match r.value
      case Words(w) => TrimmedIsUnique(v.text, w, q.value.text);
      case Amount(x) => NumberIsUnique(v, x, q.value.x);
      case Whole(n) => CutIsUnique(v, n, q.value.n);
    }
  }

  lemma SomeIsReadable(v: Value, kind: string, reading: Reading)
    requires IsReading(v, kind, Some(reading))
    ensures !IsReading(v, kind, None)
  {
    match reading
    case Words(w) => TrimmedIsNotBlank(v.text, w);
    case Amount(x) =>
      if v.Text? {
        NumberHasDigit(v, x);
      }
    case Whole(n) =>
      var x :| IsNumber(v, x) && IsTruncation(x, n);
      if v.Text? {
        NumberHasDigit(v, x);
      }
  }

  /** What cannot be read: null, blank text for a text field, text without a digit for a number field. */
  lemma UnreadableIff(v: Value, kind: string)
    ensures Coerced(v, kind).None? <==>
            || v.Null?
            || (kind == "str" && AllSpace(v.text))
            || (kind != "str" && v.Text? && !HasDigit(v.text))
  {
    CoercedIsReading(v, kind);
    if Coerced(v, kind).Some? {
      SomeIsReadable(v, kind, Coerced(v, kind).value);
    }
  }
}
