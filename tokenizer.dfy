/** The number tokenizer of the financial extractor: every maximal match of
    the pattern `[\d,]+(\.\d+)?` in a line, scanned left to right, with the
    commas of each match dropped before it is parsed as a decimal number. */
module NumberTokenizer {
  import opened Wrappers

  predicate IsDigit(c: char) { '0' <= c <= '9' }

  /** A character of the class `[\d,]`. */
  predicate IsNumChar(c: char) { IsDigit(c) || c == ',' }

  predicate AllNumChars(t: string) { forall i :: 0 <= i < |t| ==> IsNumChar(t[i]) }

  predicate AllDigits(t: string) { forall i :: 0 <= i < |t| ==> IsDigit(t[i]) }

  /** `t` reads `[\d,]+` up to position `k`, then `.`, then `\d+`. */
  ghost predicate SplitsAt(t: string, k: int) {
    0 < k < |t| - 1 && t[k] == '.' && AllNumChars(t[..k]) && AllDigits(t[k + 1..])
  }

  /** `t` is a whole match of `[\d,]+(\.\d+)?`. */
  ghost predicate IsNumberToken(t: string) {
    (|t| > 0 && AllNumChars(t)) || exists k :: SplitsAt(t, k)
  }

  /** The pattern matches `s[a..e]`. */
  ghost predicate MatchAt(s: string, a: int, e: int) {
    0 <= a <= e <= |s| && IsNumberToken(s[a..e])
  }

  /** `s[a..b]` is a match and no longer match starts at `a`. */
  ghost predicate LongestMatchAt(s: string, a: int, b: int) {
    MatchAt(s, a, b) && forall e :: b < e <= |s| ==> !MatchAt(s, a, e)
  }

  /** Position `p` lies inside one of the spans. */
  ghost predicate Covered(spans: seq<(nat, nat)>, p: int) {
    exists k :: 0 <= k < |spans| && spans[k].0 <= p < spans[k].1
  }

  /** End of the run of `[\d,]` characters that starts at `i`. */
  function RunEnd(s: string, i: nat): (e: nat)
    requires i <= |s|
    ensures i <= e <= |s|
    ensures forall p :: i <= p < e ==> IsNumChar(s[p])
    ensures e == |s| || !IsNumChar(s[e])
    decreases |s| - i
  {
    if i < |s| && IsNumChar(s[i]) then RunEnd(s, i + 1) else i
  }

  /** End of the run of digits that starts at `i`. */
  function DigitsEnd(s: string, i: nat): (e: nat)
    requires i <= |s|
    ensures i <= e <= |s|
    ensures forall p :: i <= p < e ==> IsDigit(s[p])
    ensures e == |s| || !IsDigit(s[e])
    decreases |s| - i
  {
    if i < |s| && IsDigit(s[i]) then DigitsEnd(s, i + 1) else i
  }

  /** End of the greedy match that starts at `a`: the whole `[\d,]` run, then
      a `.` and the digits after it when a digit follows the `.`. */
  function MatchEnd(s: string, a: nat): (b: nat)
    requires a < |s| && IsNumChar(s[a])
    ensures a < b <= |s|
  {
    var r := RunEnd(s, a);
    if r + 1 < |s| && s[r] == '.' && IsDigit(s[r + 1]) then DigitsEnd(s, r + 1) else r
  }

  /** The greedy match is a match, and it is the longest one starting there. */
  lemma MatchEndIsLongest(s: string, a: nat)
    requires a < |s| && IsNumChar(s[a])
    ensures LongestMatchAt(s, a, MatchEnd(s, a))
  {
    var r := RunEnd(s, a);
    var b := MatchEnd(s, a);
    if r + 1 < |s| && s[r] == '.' && IsDigit(s[r + 1]) {
      assert SplitsAt(s[a..b], r - a);
      forall e | b < e <= |s|
        ensures !MatchAt(s, a, e)
      {
        var t := s[a..e];
        assert t[b - a] == s[b];
        assert !AllNumChars(t) by { assert t[r - a] == '.'; }
      }
    } else {
      assert AllNumChars(s[a..b]);
      forall e | b < e <= |s|
        ensures !MatchAt(s, a, e)
      {
        var t := s[a..e];
        assert t[b - a] == s[b];
      }
    }
  }

  /** The spans `[start, end)` that `findall` reports, scanning from `i`, in
      left-to-right order and without overlap. */
  function Spans(s: string, i: nat): (r: seq<(nat, nat)>)
    requires i <= |s|
    ensures forall k :: 0 <= k < |r| ==> i <= r[k].0 < r[k].1 <= |s|
    ensures forall k :: 0 <= k < |r| - 1 ==> r[k].1 <= r[k + 1].0
    decreases |s| - i
  {
    if i == |s| then []
    else if IsNumChar(s[i]) then [(i, MatchEnd(s, i))] + Spans(s, MatchEnd(s, i))
    else Spans(s, i + 1)
  }

  /** Each span is the longest match at its start. */
  lemma {:induction false} SpansAreLongestMatches(s: string, i: nat)
    requires i <= |s|
    ensures forall k :: 0 <= k < |Spans(s, i)| ==> LongestMatchAt(s, Spans(s, i)[k].0, Spans(s, i)[k].1)
    decreases |s| - i
  {
    if i == |s| {
    } else if IsNumChar(s[i]) {
      var b := MatchEnd(s, i);
      MatchEndIsLongest(s, i);
      SpansAreLongestMatches(s, b);
      var rest := Spans(s, b);
      var r := Spans(s, i);
      assert r == [(i, b)] + rest;
      forall k | 0 <= k < |r|
        ensures LongestMatchAt(s, r[k].0, r[k].1)
      {
        if k > 0 { assert r[k] == rest[k - 1]; }
      }
    } else {
      assert Spans(s, i) == Spans(s, i + 1);
      SpansAreLongestMatches(s, i + 1);
    }
  }

  /** Prepending a span keeps every covered position covered and covers the
      new span's own positions. */
  lemma CoveredPrepend(head: (nat, nat), rest: seq<(nat, nat)>, p: int)
    requires Covered(rest, p) || head.0 <= p < head.1
    ensures Covered([head] + rest, p)
  {
    var r := [head] + rest;
    if head.0 <= p < head.1 {
      assert r[0] == head;
    } else {
      var k :| 0 <= k < |rest| && rest[k].0 <= p < rest[k].1;
      assert r[k + 1] == rest[k];
    }
  }

  /** Every digit and comma from `i` on lies in a span: between two spans no
      match can start. */
  lemma {:induction false} SpansCoverNumChars(s: string, i: nat)
    requires i <= |s|
    ensures forall p :: i <= p < |s| && IsNumChar(s[p]) ==> Covered(Spans(s, i), p)
    decreases |s| - i
  {
    if i == |s| {
    } else if IsNumChar(s[i]) {
      var b := MatchEnd(s, i);
      SpansCoverNumChars(s, b);
      assert Spans(s, i) == [(i, b)] + Spans(s, b);
      forall p | i <= p < |s| && IsNumChar(s[p])
        ensures Covered(Spans(s, i), p)
      {
        CoveredPrepend((i, b), Spans(s, b), p);
      }
    } else {
      assert Spans(s, i) == Spans(s, i + 1);
      SpansCoverNumChars(s, i + 1);
    }
  }

  /** The matched texts, as `number_re.findall(line)` returns them. */
  function FindAll(line: string): (m: seq<string>)
    ensures |m| == |Spans(line, 0)|
  {
    var sp := Spans(line, 0);
    seq(|sp|, k requires 0 <= k < |sp| => line[sp[k].0..sp[k].1])
  }

  /** Every text `findall` returns is a whole match of the pattern, and there
      is none exactly when the line holds no digit and no comma. */
  lemma FindAllMatches(line: string)
    ensures forall k :: 0 <= k < |FindAll(line)| ==> IsNumberToken(FindAll(line)[k])
    ensures |FindAll(line)| == 0 <==> forall p :: 0 <= p < |line| ==> !IsNumChar(line[p])
  {
    var m := FindAll(line);
    var sp := Spans(line, 0);
    SpansAreLongestMatches(line, 0);
    SpansCoverNumChars(line, 0);
    assert forall k :: 0 <= k < |m| ==> m[k] == line[sp[k].0..sp[k].1];
    if |m| > 0 {
      assert IsNumberToken(m[0]);
      assert m[0][0] == line[sp[0].0];
      if |m[0]| > 0 && AllNumChars(m[0]) {
      } else {
        var k :| SplitsAt(m[0], k);
        assert m[0][..k][0] == m[0][0];
      }
    }
  }

  /** The text with every comma removed. */
  function RemoveCommas(t: string): (u: string)
    ensures |u| <= |t|
  {
    if t == [] then []
    else if t[0] == ',' then RemoveCommas(t[1..])
    else [t[0]] + RemoveCommas(t[1..])
  }

  lemma {:induction false} RemoveCommasAppend(a: string, b: string)
    ensures RemoveCommas(a + b) == RemoveCommas(a) + RemoveCommas(b)
  {
    if a != [] {
      assert (a + b)[0] == a[0];
      assert (a + b)[1..] == a[1..] + b;
      RemoveCommasAppend(a[1..], b);
    } else {
      assert a + b == b;
    }
  }

  lemma {:induction false} RemoveCommasOfNumChars(t: string)
    requires AllNumChars(t)
    ensures AllDigits(RemoveCommas(t))
    ensures RemoveCommas(t) == [] <==> forall i :: 0 <= i < |t| ==> t[i] == ','
  {
    if t != [] {
      RemoveCommasOfNumChars(t[1..]);
      if t[0] != ',' {
        assert RemoveCommas(t)[0] == t[0];
      } else {
        assert forall i :: 1 <= i < |t| ==> t[i] == t[1..][i - 1];
      }
    }
  }

  lemma {:induction false} RemoveCommasNoComma(t: string)
    requires forall i :: 0 <= i < |t| ==> t[i] != ','
    ensures RemoveCommas(t) == t
  {
    if t != [] {
      RemoveCommasNoComma(t[1..]);
    }
  }

  /** `u` reads `\d*` or `\d*\.\d+`: what is left of a match once its commas are gone. */
  ghost predicate IsDecimalText(u: string) {
    AllDigits(u) || exists k :: 0 <= k < |u| - 1 && u[k] == '.' && AllDigits(u[..k]) && AllDigits(u[k + 1..])
  }

  /** Index of the first `.` in `u`, or `|u|` when there is none. */
  function DotIndex(u: string): (k: nat)
    ensures k <= |u|
    ensures forall j :: 0 <= j < k ==> u[j] != '.'
    ensures k < |u| ==> u[k] == '.'
  {
    if u == [] then 0
    else if u[0] == '.' then 0
    else 1 + DotIndex(u[1..])
  }

  /** The value of a run of decimal digits. */
  function DigitsValue(d: string): nat
    requires AllDigits(d)
  {
    if d == [] then 0
    else DigitsValue(d[..|d| - 1]) * 10 + (d[|d| - 1] as int - '0' as int)
  }

  function Pow10(n: nat): (p: nat)
    ensures p > 0
  {
    if n == 0 then 1 else 10 * Pow10(n - 1)
  }

  lemma NoDotAmongDigits(u: string, j: nat)
    requires j <= |u| && AllDigits(u[..j])
    ensures forall i :: 0 <= i < j ==> u[i] != '.'
  {
    forall i | 0 <= i < j
      ensures u[i] != '.'
    {
      assert u[..j][i] == u[i];
    }
  }

  /** Split at its first `.`, a decimal text is digits, then (when there is a
      `.`) at least one more digit after it. */
  lemma DecimalParts(u: string)
    requires IsDecimalText(u)
    ensures var k := DotIndex(u);
      && AllDigits(u[..k])
      && (k < |u| ==> k < |u| - 1 && AllDigits(u[k + 1..]))
  {
    var k := DotIndex(u);
    if k < |u| {
      assert !AllDigits(u) by { assert !IsDigit(u[k]); }
      var k0 :| 0 <= k0 < |u| - 1 && u[k0] == '.' && AllDigits(u[..k0]) && AllDigits(u[k0 + 1..]);
      NoDotAmongDigits(u, k0);
    } else {
      assert u[..k] == u;
    }
  }

  /** Python's `float(u)` on the texts it can be given here: `None` where
      `float` raises (the empty text), the decimal value otherwise. */
  function ParseDecimal(u: string): (r: Option<real>)
    requires IsDecimalText(u)
    ensures r.None? <==> u == []
    ensures r.Some? ==> r.value >= 0.0
  {
    var k := DotIndex(u);
    DecimalParts(u);
    if k == |u| then
      if u == [] then None else Some(DigitsValue(u[..k]) as real)
    else
      Some(DigitsValue(u[..k]) as real + DigitsValue(u[k + 1..]) as real / Pow10(|u| - k - 1) as real)
  }

  /** `n` digits stand for a number below `10^n`. */
  lemma {:induction false} DigitsValueBelow(d: string)
    requires AllDigits(d)
    ensures DigitsValue(d) < Pow10(|d|)
  {
    if d != [] {
      var init := d[..|d| - 1];
      DigitsValueBelow(init);
      assert DigitsValue(d) <= (Pow10(|init|) - 1) * 10 + 9;
    }
  }

  /** The digits before the `.` are the whole part of the value: the digits
      after it add a fraction in `[0, 1)`. */
  lemma WholePartBeforeDot(u: string)
    requires IsDecimalText(u) && u != []
    ensures var k := DotIndex(u); var r := ParseDecimal(u);
      && AllDigits(u[..k])
      && DigitsValue(u[..k]) as real <= r.value < DigitsValue(u[..k]) as real + 1.0
  {
    var k := DotIndex(u);
    DecimalParts(u);
    if k < |u| {
      var tail := u[k + 1..];
      DigitsValueBelow(tail);
      FractionBelowOne(DigitsValue(tail), Pow10(|tail|));
    }
  }

  lemma FractionBelowOne(x: nat, y: nat)
    requires x < y
    ensures 0.0 <= x as real / y as real < 1.0
  {
    var q := x as real / y as real;
    assert q * y as real == x as real;
  }

  /** Digits written one after the other: the first run shifted left by the
      length of the second. */
  lemma {:induction false} DigitsValueAppend(a: string, b: string)
    requires AllDigits(a) && AllDigits(b)
    ensures AllDigits(a + b)
    ensures DigitsValue(a + b) == DigitsValue(a) * Pow10(|b|) + DigitsValue(b)
  {
    if b == [] {
      assert a + b == a;
    } else {
      var init, d := b[..|b| - 1], b[|b| - 1] as int - '0' as int;
      DigitsValueAppend(a, init);
      assert (a + b)[..|a + b| - 1] == a + init;
      assert DigitsValue(a + b) == DigitsValue(a + init) * 10 + d;
      assert DigitsValue(b) == DigitsValue(init) * 10 + d;
      assert Pow10(|b|) == 10 * Pow10(|init|);
      ShiftDigit(DigitsValue(a), Pow10(|init|), DigitsValue(init), d);
    }
  }

  lemma ShiftDigit(x: int, p: int, y: int, d: int)
    ensures (x * p + y) * 10 + d == x * (10 * p) + (y * 10 + d)
  {
  }

  /** The digits of `u` with its `.` (if any) taken out. */
  function WithoutDot(u: string): (d: string)
    requires IsDecimalText(u)
    ensures AllDigits(d) && |d| == |u| - (if DotIndex(u) < |u| then 1 else 0)
  {
    var k := DotIndex(u);
    DecimalParts(u);
    if k < |u| then
      DigitsValueAppend(u[..k], u[k + 1..]);
      u[..k] + u[k + 1..]
    else
      assert u[..k] == u;
      u
  }

  /** The number of digits after the `.` of `u`. */
  function FractionDigits(u: string): nat {
    var k := DotIndex(u);
    if k < |u| then |u| - k - 1 else 0
  }

  /** The parsed value is the digit string read without its dot, divided by
      ten for every digit after the dot: `12.5` is `125 / 10`. */
  lemma ParseDecimalValue(u: string)
    requires IsDecimalText(u) && u != []
    ensures ParseDecimal(u).value == DigitsValue(WithoutDot(u)) as real / Pow10(FractionDigits(u)) as real
  {
    if DotIndex(u) < |u| {
      FractionValue(u);
    } else {
      assert u[..|u|] == u;
    }
  }

  lemma FractionValue(u: string)
    requires IsDecimalText(u) && DotIndex(u) < |u|
    ensures ParseDecimal(u).value == DigitsValue(WithoutDot(u)) as real / Pow10(FractionDigits(u)) as real
  {
    var k := DotIndex(u);
    DecimalParts(u);
    WithoutDotValue(u);
    ShiftFraction(ParseDecimal(u).value, DigitsValue(u[..k]), DigitsValue(u[k + 1..]), Pow10(FractionDigits(u)), DigitsValue(WithoutDot(u)));
  }

  lemma WithoutDotValue(u: string)
    requires IsDecimalText(u) && DotIndex(u) < |u|
    ensures var k := DotIndex(u);
      && AllDigits(u[..k]) && AllDigits(u[k + 1..])
      && FractionDigits(u) == |u[k + 1..]|
      && DigitsValue(WithoutDot(u)) == DigitsValue(u[..k]) * Pow10(FractionDigits(u)) + DigitsValue(u[k + 1..])
  {
    var k := DotIndex(u);
    DecimalParts(u);
    DigitsValueAppend(u[..k], u[k + 1..]);
  }

  lemma ShiftFraction(v: real, w: nat, f: nat, p: nat, n: nat)
    requires p > 0 && v == w as real + f as real / p as real && n == w * p + f
    ensures v == n as real / p as real
  {
    assert (w * p) as real / p as real == w as real;
  }

  /** A match with a fractional part loses commas only before its dot. */
  lemma SplitMatchWithoutCommas(t: string, k: int)
    requires SplitsAt(t, k)
    ensures AllDigits(RemoveCommas(t[..k]))
    ensures RemoveCommas(t) == RemoveCommas(t[..k]) + t[k..]
  {
    assert t == t[..k] + t[k..];
    RemoveCommasAppend(t[..k], t[k..]);
    RemoveCommasOfNumChars(t[..k]);
    var tail := t[k..];
    assert forall i :: 0 <= i < |tail| ==> tail[i] != ',' by {
      forall i | 0 <= i < |tail| ensures tail[i] != ',' {
        if i > 0 { assert tail[i] == t[k + 1..][i - 1]; }
      }
    }
    RemoveCommasNoComma(tail);
  }

  lemma MatchWithoutCommasIsDecimal(t: string)
    requires IsNumberToken(t)
    ensures IsDecimalText(RemoveCommas(t))
    ensures RemoveCommas(t) == [] <==> forall i :: 0 <= i < |t| ==> t[i] == ','
  {
    if |t| > 0 && AllNumChars(t) {
      RemoveCommasOfNumChars(t);
    } else {
      var k :| SplitsAt(t, k);
      SplitMatchWithoutCommas(t, k);
      var head := RemoveCommas(t[..k]);
      var u := head + t[k..];
      assert u[..|head|] == head;
      assert u[|head| + 1..] == t[k + 1..];
      assert u[|head|] == '.';
      assert t[k] != ',';
    }
  }

  /** `_clean_num`: drop the commas of a match, then parse what is left. */
  function CleanNum(t: string): (r: Option<real>)
    requires IsNumberToken(t)
    ensures r.None? <==> forall i :: 0 <= i < |t| ==> t[i] == ','
    ensures r.Some? ==> r.value >= 0.0
  {
    MatchWithoutCommasIsDecimal(t);
    ParseDecimal(RemoveCommas(t))
  }

  /** `extract_numbers_from_line`: one parsed value per match, left to right. */
  function Tokenize(line: string): (r: seq<Option<real>>)
    ensures |r| == |FindAll(line)|
  {
    var m := FindAll(line);
    FindAllMatches(line);
    seq(|m|, k requires 0 <= k < |m| => CleanNum(m[k]))
  }

  /** The tokens of a line: none exactly when the line has no digit and no
      comma; each is the parse of the match at its position, absent exactly
      when that match is all commas, and never negative. */
  lemma TokenizeSpec(line: string)
    ensures |Tokenize(line)| == 0 <==> forall p :: 0 <= p < |line| ==> !IsNumChar(line[p])
    ensures forall k :: 0 <= k < |Tokenize(line)| ==>
      && IsNumberToken(FindAll(line)[k])
      && Tokenize(line)[k] == CleanNum(FindAll(line)[k])
      && (Tokenize(line)[k].None? <==> forall i :: 0 <= i < |FindAll(line)[k]| ==> FindAll(line)[k][i] == ',')
      && (Tokenize(line)[k].Some? ==> Tokenize(line)[k].value >= 0.0)
  {
    FindAllMatches(line);
  }

  /** A character the pattern can match: a digit, a comma or a dot. */
  predicate IsPatternChar(c: char) { IsNumChar(c) || c == '.' }

  /** `s` and `t` have the same length and differ only in characters the
      pattern cannot match. */
  predicate AgreeOnPatternChars(s: string, t: string) {
    |s| == |t| && forall i :: 0 <= i < |s| && (IsPatternChar(s[i]) || IsPatternChar(t[i])) ==> s[i] == t[i]
  }

  lemma {:induction false} RunEndsAgree(s: string, t: string, i: nat)
    requires AgreeOnPatternChars(s, t) && i <= |s|
    ensures RunEnd(s, i) == RunEnd(t, i) && DigitsEnd(s, i) == DigitsEnd(t, i)
    decreases |s| - i
  {
    if i < |s| {
      RunEndsAgree(s, t, i + 1);
    }
  }

  lemma MatchEndsAgree(s: string, t: string, i: nat)
    requires AgreeOnPatternChars(s, t) && i < |s| && IsNumChar(s[i])
    ensures IsNumChar(t[i]) && MatchEnd(s, i) == MatchEnd(t, i)
  {
    RunEndsAgree(s, t, i);
    var r := RunEnd(s, i);
    if r + 1 < |s| {
      RunEndsAgree(s, t, r + 1);
    }
  }

  lemma {:induction false} SpansAgree(s: string, t: string, i: nat)
    requires AgreeOnPatternChars(s, t) && i <= |s|
    ensures Spans(s, i) == Spans(t, i)
    decreases |s| - i
  {
    if i < |s| {
      if IsNumChar(s[i]) {
        MatchEndsAgree(s, t, i);
        SpansAgree(s, t, MatchEnd(s, i));
      } else {
        SpansAgree(s, t, i + 1);
      }
    }
  }

  /** Every character of a match is one the pattern can match. */
  lemma TokenChars(t: string)
    requires IsNumberToken(t)
    ensures forall i :: 0 <= i < |t| ==> IsPatternChar(t[i])
  {
    if !(|t| > 0 && AllNumChars(t)) {
      var k :| SplitsAt(t, k);
      forall i | 0 <= i < |t|
        ensures IsPatternChar(t[i])
      {
        if i < k {
          assert t[..k][i] == t[i];
        } else if i > k {
          assert t[k + 1..][i - k - 1] == t[i];
        }
      }
    }
  }

  /** Only digits, commas and dots matter to the tokenizer: two lines that
      agree on them give the same numbers. */
  lemma TokenizeSeesOnlyPatternChars(s: string, t: string)
    requires AgreeOnPatternChars(s, t)
    ensures FindAll(s) == FindAll(t)
    ensures Tokenize(s) == Tokenize(t)
  {
    SpansAgree(s, t, 0);
    SpansAreLongestMatches(s, 0);
    var sp := Spans(s, 0);
    forall k | 0 <= k < |sp|
      ensures s[sp[k].0..sp[k].1] == t[sp[k].0..sp[k].1]
    {
      var a := sp[k].0;
      var b := sp[k].1;
      TokenChars(s[a..b]);
      forall p | a <= p < b
        ensures s[p] == t[p]
      {
        assert s[a..b][p - a] == s[p];
      }
    }
  }

  /** Commas are dropped before parsing: two matches that agree once their
      commas are gone parse to the same value. */
  lemma CommasDoNotMatter(t1: string, t2: string)
    requires IsNumberToken(t1) && IsNumberToken(t2)
    requires RemoveCommas(t1) == RemoveCommas(t2)
    ensures CleanNum(t1) == CleanNum(t2)
  {
  }

  lemma ParseExampleInteger()
    ensures CleanNum("12,345") == Some(12345.0)
  {
    assert AllNumChars("12,345");
    assert RemoveCommas("12,345") == "12345";
    DigitsExample();
    assert "12345"[..5] == "12345";
  }

  lemma DigitsExample()
    ensures DotIndex("12345") == 5
    ensures DigitsValue("12345") == 12345
  {
    assert "12345"[..4] == "1234" && "1234"[..3] == "123" && "123"[..2] == "12" && "12"[..1] == "1";
    assert "1"[..0] == "";
    assert DigitsValue("12") == 12;
    assert DigitsValue("123") == 123;
    assert DigitsValue("1234") == 1234;
  }

  /** `findall` on "EPS 12.5, 7": the decimal, the lone comma after it, the 7. */
  lemma SpansExample()
    ensures Spans("EPS 12.5, 7", 0) == [(4, 8), (8, 9), (10, 11)]
  {
    var s := "EPS 12.5, 7";
    assert MatchEnd(s, 4) == 8 by {
      assert RunEnd(s, 4) == 6;
      assert DigitsEnd(s, 7) == 8;
    }
    assert MatchEnd(s, 8) == 9;
    assert MatchEnd(s, 10) == 11;
    assert Spans(s, 10) == [(10, 11)];
    assert Spans(s, 9) == [(10, 11)];
    assert Spans(s, 4) == [(4, 8), (8, 9), (10, 11)];
    assert Spans(s, 3) == Spans(s, 4);
    assert Spans(s, 2) == Spans(s, 3);
    assert Spans(s, 1) == Spans(s, 2);
  }

  lemma FindAllExample()
    ensures FindAll("EPS 12.5, 7") == ["12.5", ",", "7"]
  {
    var s := "EPS 12.5, 7";
    SpansExample();
    var m := FindAll(s);
    assert m[0] == s[4..8] == "12.5";
    assert m[1] == s[8..9] == ",";
    assert m[2] == s[10..11] == "7";
  }

  lemma ParseExampleDecimal()
    ensures SplitsAt("12.5", 2)
    ensures CleanNum("12.5") == Some(12.5)
  {
    assert SplitsAt("12.5", 2) by { assert "12.5"[..2] == "12" && "12.5"[3..] == "5"; }
    DecimalExample();
  }

  lemma DecimalExample()
    ensures RemoveCommas("12.5") == "12.5"
    ensures DotIndex("12.5") == 2
    ensures DigitsValue("12.5"[..2]) == 12 && DigitsValue("12.5"[3..]) == 5
  {
    assert "12.5"[..2] == "12" && "12"[..1] == "1" && "1"[..0] == "";
    assert "12.5"[3..] == "5" && "5"[..0] == "";
  }

  lemma ParseExampleCommaAndDigit()
    ensures CleanNum(",") == None
    ensures CleanNum("7") == Some(7.0)
  {
    assert AllNumChars(",") && AllNumChars("7");
    assert RemoveCommas("7") == "7" && "7"[..0] == "";
  }

  /** The lone comma parses to nothing; the other two matches to their values. */
  lemma TokenizeExample()
    ensures Tokenize("EPS 12.5, 7") == [Some(12.5), None, Some(7.0)]
  {
    FindAllExample();
    ParseExampleDecimal();
    ParseExampleCommaAndDigit();
  }
}
