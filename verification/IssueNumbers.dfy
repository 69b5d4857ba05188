/** The "calculated issue number": an issue such as "10b" becomes a decimal that sorts by number first and
    by suffix next. Values are exact decimals; Python's `float` is a parameter with the facts it needs. */
module IssueNumbers {
  import opened Basics
  import opened Characters

  datatype Calculated = Number(value: real) | NoNumber | ValueError

  predicate IsLetter(c: char) {
    'a' <= c <= 'z'
  }

  predicate AllLetters(s: string) {
    forall i :: 0 <= i < |s| ==> IsLetter(s[i])
  }

  const INFINITY := '\U{221E}'
  const HALF := '\U{00BD}'
  const QUARTER := '\U{00BC}'

  /** A letter's place in the alphabet, 1 to 26, and its two-digit code. */
  function Place(c: char): (r: nat)
    requires IsLetter(c)
    ensures 1 <= r <= 26
  {
    c as nat - 'a' as nat + 1
  }

  function Code(c: char): (r: string)
    requires IsLetter(c)
    ensures |r| == 2 && AllDigits(r)
  {
    [DigitChar(Place(c) / 10), DigitChar(Place(c) % 10)]
  }

  // ---------------------------------------------------------------- normalise_number

  predicate IsSpace(c: char) {
    c == ' ' || c == '\t' || c == '\n' || c == '\r'
  }

  function Replaced(s: string): (r: string)
    ensures |r| == |s|
    ensures forall i :: 0 <= i < |s| ==> r[i] == if s[i] == ',' then '.' else if s[i] == '?' then '0' else s[i]
  {
    seq(|s|, i requires 0 <= i < |s| => if s[i] == ',' then '.' else if s[i] == '?' then '0' else s[i])
  }

  function RStripDots(s: string): string {
    if s != [] && s[|s| - 1] == '.' then RStripDots(s[..|s| - 1]) else s
  }

  function LStrip(s: string): string {
    if s != [] && IsSpace(s[0]) then LStrip(s[1..]) else s
  }

  function RStrip(s: string): string {
    if s != [] && IsSpace(s[|s| - 1]) then RStrip(s[..|s| - 1]) else s
  }

  function Normalised(s: string): string {
    Lower(RStrip(LStrip(RStripDots(Replaced(s)))))
  }

  // ---------------------------------------------------------------- the conversion

  /** What one character adds to the text, given whether the decimal point is still to come. */
  function Added(c: char, dot: bool): string {
    if IsDigit(c) then [c]
    else if c == INFINITY then "9999999999999"
    else
      (if dot then "." else "")
      + (if c == HALF then "5" else if c == QUARTER then "3" else if IsLetter(c) then Code(c) else "")
  }

  predicate StillDot(c: char, dot: bool) {
    dot && (IsDigit(c) || c == INFINITY)
  }

  function Converted(s: string, dot: bool): string {
    if s == [] then [] else Added(s[0], dot) + Converted(s[1..], StillDot(s[0], dot))
  }

  predicate OnlyDots(s: string) {
    forall i :: 0 <= i < |s| ==> s[i] == '.'
  }

  function Calculation(s: string, floatOf: string -> Option<real>): Calculated {
    if floatOf(s).Some? then Number(floatOf(s).value)
    else
      var n := Normalised(s);
      var text := if n != [] && n[0] == '-' then ['-'] + Converted(n[1..], true) else Converted(n, true);
      if OnlyDots(text) then NoNumber
      else if floatOf(text).Some? then Number(floatOf(text).value) else ValueError
  }

  /** One turn of the conversion loop. */
  method AddChar(c: char, dot: bool) returns (added: string, stillDot: bool)
    ensures added == Added(c, dot) && stillDot == StillDot(c, dot)
  {
    added, stillDot := "", dot;
    if IsDigit(c) { return [c], dot; }
    if c == INFINITY {
      added := "9999999999999";
    } else if dot {
      added := ".";
      stillDot := false;
    }
    if c == HALF {
      added := added + "5";
    } else if c == QUARTER {
      added := added + "3";
    } else if IsLetter(c) {
      added := added + Code(c);
    }
  }

  lemma ConvertedStep(s: string, i: nat, dot: bool, text: string)
    requires i < |s|
    ensures text + Converted(s[i..], dot) == (text + Added(s[i], dot)) + Converted(s[i + 1..], StillDot(s[i], dot))
  {
    assert s[i..][0] == s[i] && s[i..][1..] == s[i + 1..];
  }

  method ConvertedText(s: string) returns (text: string)
    ensures text == Converted(s, true)
  {
    text := "";
    var dot := true;
    assert s[0..] == s;
    for i := 0 to |s|
      invariant text + Converted(s[i..], dot) == Converted(s, true)
    {
      ConvertedStep(s, i, dot, text);
      var added, stillDot := AddChar(s[i], dot);
      text, dot := text + added, stillDot;
    }
    assert s[|s|..] == [] && text + [] == text;
  }

  method CalculatedIssueNumber(s: string, floatOf: string -> Option<real>) returns (r: Calculated)
    ensures r == Calculation(s, floatOf)
  {
    var direct := floatOf(s);
    if direct.Some? { return Number(direct.value); }
    var n := Normalised(s);
    var negative := n != [] && n[0] == '-';
    var text := ConvertedText(if negative then n[1..] else n);
    if negative { text := ['-'] + text; }
    if OnlyDots(text) { return NoNumber; }
    var number := floatOf(text);
    return if number.Some? then Number(number.value) else ValueError;
  }

  // ---------------------------------------------------------------- values

  /** The digits after the point. */
  function Fraction(s: string): (r: real)
    requires AllDigits(s)
    ensures 0.0 <= r < 1.0
  {
    if s == [] then 0.0 else (DigitValue(s[0]) as real + Fraction(s[1..])) / 10.0
  }

  predicate ReadsWhole(floatOf: string -> Option<real>, d: string) {
    d != [] && AllDigits(d) ==>
      floatOf(d) == Some(Value(d) as real) && floatOf(['-'] + d) == Some(-(Value(d) as real))
  }

  predicate ReadsPoint(floatOf: string -> Option<real>, d: string, f: string) {
    d != [] && AllDigits(d) && AllDigits(f) ==>
      && floatOf(d + "." + f) == Some(Value(d) as real + Fraction(f))
      && floatOf(['-'] + (d + "." + f)) == Some(-(Value(d) as real + Fraction(f)))
  }

  predicate RefusesLetters(floatOf: string -> Option<real>, d: string, w: string) {
    d != [] && AllDigits(d) && w != [] && AllLetters(w) ==> floatOf(d + w).None? && floatOf(['-'] + (d + w)).None?
  }

  /** `float` reads plain decimals as their value, with either sign, and takes no digits followed by letters. */
  ghost predicate ReadsDecimals(floatOf: string -> Option<real>) {
    && (forall d: string :: ReadsWhole(floatOf, d))
    && (forall d: string, f: string :: ReadsPoint(floatOf, d, f))
    && (forall d: string, w: string :: RefusesLetters(floatOf, d, w))
  }

  /** Where the first point is. */
  function Point(s: string): (n: nat)
    ensures n <= |s| && (n < |s| ==> s[n] == '.') && forall i :: 0 <= i < n ==> s[i] != '.'
  {
    if s == [] || s[0] == '.' then 0 else 1 + Point(s[1..])
  }

  /** A reader of plain decimals: digits, and perhaps a point and more digits. */
  function ReadUnsigned(s: string): Option<real> {
    var n := Point(s);
    if n == 0 || !AllDigits(s[..n]) then None
    else if n == |s| then Some(Value(s) as real)
    else if AllDigits(s[n + 1..]) then Some(Value(s[..n]) as real + Fraction(s[n + 1..])) else None
  }

  function ReadPlain(s: string): Option<real> {
    if s == [] || s[0] != '-' then ReadUnsigned(s)
    else match ReadUnsigned(s[1..])
      case None => None
      case Some(x) => Some(-x)
  }

  lemma PointAt(d: string, f: string)
    requires AllDigits(d)
    ensures Point(d) == |d| && Point(d + "." + f) == |d|
  {
    var s := d + "." + f;
    assert forall i :: 0 <= i < |d| ==> s[i] == d[i] && IsDigit(s[i]);
    assert s[|d|] == '.';
  }

  lemma ReadsSigned(s: string)
    requires s != [] && IsDigit(s[0])
    ensures ReadPlain(s) == ReadUnsigned(s)
    ensures ReadPlain(['-'] + s) == match ReadUnsigned(s) case None => None case Some(x) => Some(-x)
  {
    assert (['-'] + s)[1..] == s;
  }

  lemma ReadsWholeNumber(d: string)
    requires d != [] && AllDigits(d)
    ensures ReadUnsigned(d) == Some(Value(d) as real)
  {
    PointAt(d, []);
    assert d[..|d|] == d;
  }

  /** A text split at its first point. */
  lemma ReadsSplit(s: string, n: nat, d: string, f: string)
    requires n == Point(s) && 0 < n < |s| && d == s[..n] && f == s[n + 1..] && AllDigits(d) && AllDigits(f)
    ensures ReadUnsigned(s) == Some(Value(d) as real + Fraction(f))
  {
    assert AllDigits(s[..n]) && AllDigits(s[n + 1..]);
    assert ReadUnsigned(s) == Some(Value(s[..n]) as real + Fraction(s[n + 1..]));
  }

  lemma ReadsDecimal(d: string, f: string)
    requires d != [] && AllDigits(d) && AllDigits(f)
    ensures ReadUnsigned(d + "." + f) == Some(Value(d) as real + Fraction(f))
  {
    PointAt(d, f);
    var s := d + "." + f;
    assert s[..|d|] == d && s[|d| + 1..] == f;
    ReadsSplit(s, |d|, d, f);
  }

  lemma RefusesItsLetters(d: string, w: string)
    requires d != [] && AllDigits(d) && w != [] && AllLetters(w)
    ensures ReadUnsigned(d + w).None?
  {
    var s := d + w;
    assert forall i :: 0 <= i < |s| ==> s[i] == if i < |d| then d[i] else w[i - |d|];
    assert !IsDigit(s[|d|]) && s[|d|] != '.';
    assert Point(s) == |s| && s[..|s|] == s;
  }

  /** What the theorems ask of `float` can be met: the plain reader meets it. */
  lemma PlainReaderReadsDecimals()
    ensures ReadsDecimals(ReadPlain)
  {
    forall d: string, f: string ensures ReadsWhole(ReadPlain, d) && ReadsPoint(ReadPlain, d, f) {
      if d != [] && AllDigits(d) {
        ReadsWholeNumber(d);
        ReadsSigned(d);
        if AllDigits(f) {
          ReadsDecimal(d, f);
          assert (d + "." + f)[0] == d[0];
          ReadsSigned(d + "." + f);
        }
      }
    }
    forall d: string, w: string ensures RefusesLetters(ReadPlain, d, w) {
      if d != [] && AllDigits(d) && w != [] && AllLetters(w) {
        RefusesItsLetters(d, w);
        assert (d + w)[0] == d[0];
        ReadsSigned(d + w);
      }
    }
  }

  function Codes(w: string): (r: string)
    requires AllLetters(w)
    ensures AllDigits(r)
  {
    if w == [] then [] else Code(w[0]) + Codes(w[1..])
  }

  /** The part a suffix adds, read two digits at a time. */
  function SuffixValue(w: string): (r: real)
    requires AllLetters(w)
    ensures 0.0 <= r < 1.0
    ensures w != [] ==> r > 0.0
  {
    if w == [] then 0.0 else (Place(w[0]) as real + SuffixValue(w[1..])) / 100.0
  }

  lemma TwoDigits(c: string, rest: string)
    requires |c| == 2 && AllDigits(c) && AllDigits(rest)
    ensures Fraction(c + rest) == ((10 * DigitValue(c[0]) + DigitValue(c[1])) as real + Fraction(rest)) / 100.0
  {
    var all, tail := c + rest, [c[1]] + rest;
    assert all[0] == c[0] && all[1..] == tail && tail[1..] == rest;
    assert Fraction(tail) == (DigitValue(c[1]) as real + Fraction(rest)) / 10.0;
    assert Fraction(all) == (DigitValue(c[0]) as real + Fraction(tail)) / 10.0;
  }

  lemma {:induction false} CodesAreTheSuffix(w: string)
    requires AllLetters(w)
    ensures Fraction(Codes(w)) == SuffixValue(w)
  {
    if w != [] {
      CodesAreTheSuffix(w[1..]);
      TwoDigits(Code(w[0]), Codes(w[1..]));
      assert Place(w[0]) == 10 * DigitValue(Code(w[0])[0]) + DigitValue(Code(w[0])[1]);
    }
  }

  // ---------------------------------------------------------------- what the calculation gives

  lemma OneMore(c: char, s: string, dot: bool)
    ensures Converted([c] + s, dot) == Added(c, dot) + Converted(s, StillDot(c, dot))
  {
    assert ([c] + s)[1..] == s;
  }

  lemma Grouped(a: string, b: string, c: string)
    ensures (a + b) + c == a + (b + c)
  {
  }

  lemma {:induction false} DigitsPass(d: string, s: string)
    requires AllDigits(d)
    ensures Converted(d + s, true) == d + Converted(s, true)
  {
    if d == [] {
      assert d + s == s;
    } else {
      var c, tail := d[0], d[1..];
      DigitsPass(tail, s);
      OneMore(c, tail + s, true);
      Grouped([c], tail, s);
      Grouped([c], tail, Converted(s, true));
      assert d == [c] + tail;
    }
  }

  lemma {:induction false} LettersBecomeCodes(w: string)
    requires AllLetters(w)
    ensures Converted(w, false) == Codes(w)
  {
    if w != [] {
      LettersBecomeCodes(w[1..]);
      assert Added(w[0], false) == Code(w[0]);
    }
  }

  lemma FirstLetterAddsPoint(w: string)
    requires AllLetters(w) && w != []
    ensures Converted(w, true) == "." + Codes(w)
  {
    var c, tail := w[0], w[1..];
    assert w == [c] + tail;
    LettersBecomeCodes(tail);
    OneMore(c, tail, true);
    assert Added(c, true) == "." + Code(c) && !StillDot(c, true);
    Grouped(".", Code(c), Codes(tail));
  }

  predicate IsPlain(c: char) {
    IsDigit(c) || IsLetter(c)
  }

  predicate Plain(s: string) {
    forall i :: 0 <= i < |s| ==> IsPlain(s[i])
  }

  lemma NormalAlready(s: string)
    requires s != [] && Plain(if s[0] == '-' then s[1..] else s) && IsPlain(s[|s| - 1])
    ensures Normalised(s) == s
  {
    forall i | 0 <= i < |s| ensures IsPlain(s[i]) || s[i] == '-' {
      if s[0] == '-' && i > 0 { assert IsPlain(s[1..][i - 1]); }
    }
    assert IsPlain(s[0]) || s[0] == '-';
    StaysNormal(s);
  }

  /** Digits followed by lower-case letters are already normal, also behind a minus sign. */
  lemma PlainIsNormal(s: string)
    requires Plain(s) && s != []
    ensures Normalised(s) == s && Normalised(['-'] + s) == ['-'] + s
  {
    var t := ['-'] + s;
    assert IsPlain(s[|s| - 1]) && t[|t| - 1] == s[|s| - 1] && t[1..] == s;
    NormalAlready(t);
    assert IsPlain(s[0]);
    NormalAlready(s);
  }

  lemma WholeIssue(d: string, floatOf: string -> Option<real>)
    requires ReadsWhole(floatOf, d) && d != [] && AllDigits(d)
    ensures Calculation(d, floatOf) == Number(Value(d) as real)
    ensures Calculation(['-'] + d, floatOf) == Number(-(Value(d) as real))
  {
  }

  lemma SuffixConverts(d: string, w: string)
    requires AllDigits(d) && w != [] && AllLetters(w)
    ensures Converted(d + w, true) == d + "." + Codes(w)
  {
    DigitsPass(d, w);
    FirstLetterAddsPoint(w);
    Grouped(d, ".", Codes(w));
  }

  lemma SuffixedText(d: string, w: string)
    requires d != [] && AllDigits(d) && w != [] && AllLetters(w)
    ensures Becomes(d + w, d + "." + Codes(w))
  {
    PlainIsNormal(d + w);
    SuffixConverts(d, w);
  }

  /** The second half of the calculation, for a normal text that `float` refuses. */
  lemma ConvertedIssue(s: string, body: string, text: string, x: real, floatOf: string -> Option<real>)
    requires floatOf(s).None? && Normalised(s) == s && Converted(body, true) == text && text != [] && IsDigit(text[0])
    requires body != [] && IsDigit(body[0])
    ensures s == body && floatOf(text) == Some(x) ==> Calculation(s, floatOf) == Number(x)
    ensures s == ['-'] + body && floatOf(['-'] + text) == Some(x) ==> Calculation(s, floatOf) == Number(x)
  {
    if s == ['-'] + body {
      assert s[0] == '-' && s[1..] == body;
      assert (['-'] + text)[0] == '-';
    }
  }

  lemma FloatFacts(d: string, w: string, floatOf: string -> Option<real>)
    requires RefusesLetters(floatOf, d, w) && AllLetters(w) && ReadsPoint(floatOf, d, Codes(w)) && d != [] && AllDigits(d) && w != [] && AllLetters(w)
    ensures ReadAs(floatOf, d + w, d + "." + Codes(w), Value(d) as real + SuffixValue(w))
  {
    CodesAreTheSuffix(w);
  }

  /** The text the conversion makes of a number with a suffix. */
  predicate Becomes(body: string, text: string) {
    && body != [] && text != [] && body[0] == text[0] && IsDigit(body[0])
    && Normalised(body) == body && Normalised(['-'] + body) == ['-'] + body
    && Converted(body, true) == text
  }

  predicate ReadAs(floatOf: string -> Option<real>, body: string, text: string, x: real) {
    && floatOf(body).None? && floatOf(['-'] + body).None?
    && floatOf(text) == Some(x) && floatOf(['-'] + text) == Some(-x)
  }

  lemma SuffixedIssue(body: string, text: string, x: real, floatOf: string -> Option<real>)
    requires Becomes(body, text) && ReadAs(floatOf, body, text, x)
    ensures Calculation(body, floatOf) == Number(x)
    ensures Calculation(['-'] + body, floatOf) == Number(-x)
  {
    ConvertedIssue(body, body, text, x, floatOf);
    ConvertedIssue(['-'] + body, body, text, -x, floatOf);
  }

  /** The issue is written as these digits followed by these letters. */
  predicate Spelled(issue: string, d: string, w: string) {
    && |issue| == |d| + |w|
    && (forall i :: 0 <= i < |d| ==> issue[i] == d[i])
    && (forall i :: 0 <= i < |w| ==> issue[|d| + i] == w[i])
  }

  lemma TextOf(issue: string, d: string, w: string, floatOf: string -> Option<real>) returns (text: string)
    requires ReadsDecimals(floatOf) && d != [] && AllDigits(d) && w != [] && AllLetters(w) && Spelled(issue, d, w)
    ensures Becomes(issue, text) && ReadAs(floatOf, issue, text, Value(d) as real + SuffixValue(w))
  {
    assert issue == d + w;
    assert RefusesLetters(floatOf, d, w);
    assert ReadsPoint(floatOf, d, Codes(w));
    text := d + "." + Codes(w);
    SuffixedText(d, w);
    FloatFacts(d, w, floatOf);
  }

  lemma WholeIssueRead(issue: string, d: string, floatOf: string -> Option<real>)
    requires ReadsDecimals(floatOf) && d != [] && AllDigits(d) && Spelled(issue, d, [])
    ensures Calculation(issue, floatOf) == Number(Value(d) as real)
    ensures Calculation(['-'] + issue, floatOf) == Number(-(Value(d) as real))
  {
    assert issue == d;
    assert ReadsWhole(floatOf, d);
    WholeIssue(d, floatOf);
  }

  lemma SuffixedIssueRead(issue: string, d: string, w: string, x: real, floatOf: string -> Option<real>)
    requires ReadsDecimals(floatOf) && d != [] && AllDigits(d) && w != [] && AllLetters(w) && Spelled(issue, d, w)
    requires x == Value(d) as real + SuffixValue(w)
    ensures Calculation(issue, floatOf) == Number(x)
    ensures Calculation(['-'] + issue, floatOf) == Number(-x)
  {
    var text := TextOf(issue, d, w, floatOf);
    SuffixedIssue(issue, text, x, floatOf);
  }

  /** An issue number is its digits plus what its suffix adds; a minus sign negates all of it. */
  lemma IssueValue(issue: string, d: string, w: string, floatOf: string -> Option<real>)
    requires ReadsDecimals(floatOf) && d != [] && AllDigits(d) && AllLetters(w) && Spelled(issue, d, w)
    ensures Calculation(issue, floatOf) == Number(Value(d) as real + SuffixValue(w))
    ensures Calculation(['-'] + issue, floatOf) == Number(-(Value(d) as real + SuffixValue(w)))
  {
    if w == [] {
      WholeIssueRead(issue, d, floatOf);
    } else {
      SuffixedIssueRead(issue, d, w, Value(d) as real + SuffixValue(w), floatOf);
    }
  }

  /** Dictionary order is the order of what the suffixes add. */
  lemma {:induction false} SuffixOrder(w: string, v: string)
    requires AllLetters(w) && AllLetters(v)
    ensures TextLess(w, v) <==> SuffixValue(w) < SuffixValue(v)
    ensures w == v <==> SuffixValue(w) == SuffixValue(v)
    decreases |w|
  {
    if w != [] && v != [] {
      SuffixOrder(w[1..], v[1..]);
      assert w == [w[0]] + w[1..] && v == [v[0]] + v[1..];
    }
  }

  /** The calculated numbers of issues compare as number first and suffix next, and determine both. */
  lemma StrictOrderEmbedding(n: nat, w: string, m: nat, v: string)
    requires AllLetters(w) && AllLetters(v)
    ensures n as real + SuffixValue(w) < m as real + SuffixValue(v) <==> n < m || (n == m && TextLess(w, v))
    ensures n as real + SuffixValue(w) == m as real + SuffixValue(v) <==> n == m && w == v
    ensures n as real <= n as real + SuffixValue(w) < (n + 1) as real
  {
    SuffixOrder(w, v);
    if n < m {
      assert n as real + 1.0 <= m as real;
    } else if m < n {
      assert m as real + 1.0 <= n as real;
    }
  }

  /** The order of the results of the calculation itself, for issues written as digits and letters. */
  lemma IssuesCompare(first: string, d: string, w: string, second: string, e: string, v: string,
                      floatOf: string -> Option<real>)
    requires ReadsDecimals(floatOf) && d != [] && AllDigits(d) && e != [] && AllDigits(e) && AllLetters(w) && AllLetters(v)
    requires Spelled(first, d, w) && Spelled(second, e, v)
    ensures Calculation(first, floatOf).Number? && Calculation(second, floatOf).Number?
    ensures var x, y := Calculation(first, floatOf).value, Calculation(second, floatOf).value;
      && (x < y <==> Value(d) < Value(e) || (Value(d) == Value(e) && TextLess(w, v)))
      && (x == y <==> Value(d) == Value(e) && w == v)
    ensures Calculation(['-'] + first, floatOf) == Number(-Calculation(first, floatOf).value)
  {
    IssueValue(first, d, w, floatOf);
    IssueValue(second, e, v, floatOf);
    StrictOrderEmbedding(Value(d), w, Value(e), v);
  }

  // ---------------------------------------------------------------- fractions, and other ways of writing an issue

  predicate AllSpaces(s: string) {
    forall i :: 0 <= i < |s| ==> IsSpace(s[i])
  }

  predicate AllDots(s: string) {
    forall i :: 0 <= i < |s| ==> s[i] == '.' || s[i] == ','
  }

  /** No blank at either end. */
  predicate Tight(s: string) {
    s != [] && !IsSpace(s[0]) && !IsSpace(s[|s| - 1])
  }

  lemma {:induction false} StripsDots(s: string, dots: string)
    requires s == [] || s[|s| - 1] != '.'
    requires OnlyDots(dots)
    ensures RStripDots(s + dots) == s
  {
    if dots == [] {
      assert s + dots == s;
    } else {
      var front := dots[..|dots| - 1];
      StripsDots(s, front);
      assert (s + dots)[..|s + dots| - 1] == s + front;
    }
  }

  lemma {:induction false} StripsRight(s: string, b: string)
    requires AllSpaces(b) && Tight(s)
    ensures RStrip(s + b) == s
  {
    if b == [] {
      assert s + b == s;
    } else {
      StripsRight(s, b[..|b| - 1]);
      assert (s + b)[..|s + b| - 1] == s + b[..|b| - 1];
    }
  }

  lemma ReplacedJoins(a: string, b: string)
    ensures Replaced(a + b) == Replaced(a) + Replaced(b)
  {
  }

  lemma NothingToReplace(a: string)
    requires AllSpaces(a)
    ensures Replaced(a) == a
  {
  }

  /** The normal form of an issue: blanks around it and points after it are dropped, commas read as points, question
      marks as zeros, and capitals as small letters. */
  lemma NormalForm(a: string, core: string, b: string, dots: string)
    requires AllSpaces(a) && AllSpaces(b) && AllDots(dots) && Tight(core)
    requires b == [] ==> core[|core| - 1] != '.' && core[|core| - 1] != ','
    ensures Normalised(((a + core) + b) + dots) == Lower(Replaced(core))
  {
    var inner := Replaced(core);
    ReplacedJoins((a + core) + b, dots);
    ReplacedJoins(a + core, b);
    ReplacedJoins(a, core);
    NothingToReplace(a);
    NothingToReplace(b);
    var listed := (a + inner) + b;
    assert listed[|listed| - 1] == if b == [] then inner[|inner| - 1] else b[|b| - 1];
    StripsDots(listed, Replaced(dots));
    Grouped(a, inner, b);
    StripsRight(inner, b);
    assert Tight(inner);
    if b == [] { assert inner + b == inner; }
    StripsAround(a, inner, b);
  }

  lemma StripsAround(a: string, s: string, b: string)
    requires AllSpaces(a) && AllSpaces(b) && Tight(s)
    ensures RStrip(LStrip((a + s) + b)) == s
  {
    Grouped(a, s, b);
    StripsLeftOf(a, s + b);
    StripsRight(s, b);
  }

  lemma {:induction false} StripsLeftOf(a: string, s: string)
    requires AllSpaces(a) && s != [] && !IsSpace(s[0])
    ensures LStrip(a + s) == s
  {
    if a == [] {
      assert a + s == s;
    } else {
      StripsLeftOf(a[1..], s);
      assert (a + s)[1..] == a[1..] + s;
    }
  }

  /** The characters that normalising leaves alone, and that do not end or begin an issue in a way it strips. */
  lemma StaysNormal(s: string)
    requires Tight(s) && s[|s| - 1] != '.'
    requires forall i :: 0 <= i < |s| ==> s[i] != ',' && s[i] != '?' && !('A' <= s[i] <= 'Z')
    ensures Normalised(s) == s
  {
    assert Replaced(s) == s;
    assert RStripDots(s) == s && LStrip(s) == s && RStrip(s) == s;
    assert Lower(s) == s;
  }

  /** So an issue counts the same in any such writing that `float` does not read at once. */
  lemma WritingsAgree(a: string, core: string, b: string, dots: string, floatOf: string -> Option<real>)
    requires AllSpaces(a) && AllSpaces(b) && AllDots(dots) && Tight(core)
    requires core[|core| - 1] != '.' && core[|core| - 1] != ','
    requires floatOf(((a + core) + b) + dots).None? && floatOf(Lower(Replaced(core))).None?
    ensures Calculation(((a + core) + b) + dots, floatOf) == Calculation(Lower(Replaced(core)), floatOf)
  {
    NormalForm(a, core, b, dots);
    StaysNormal(Lower(Replaced(core)));
  }

  /** A half is five tenths, a quarter three, with or without a blank before it. */
  lemma FractionConverts(gap: string, c: char)
    requires gap in {"", " "} && c in {HALF, QUARTER}
    ensures Converted(gap + [c], true) == "." + if c == HALF then "5" else "3"
  {
    var digit := if c == HALF then "5" else "3";
    assert [c][1..] == [] && Converted([c], false) == digit + [] && digit + [] == digit;
    if gap == "" {
      assert gap + [c] == [c];
      assert Converted([c], true) == Added(c, true) + [];
    } else {
      assert gap + [c] == [' '] + [c];
      OneMore(' ', [c], true);
      assert Added(' ', true) == "." && !StillDot(' ', true);
    }
  }

  /** "3½" and "3 ½" are three and a half; a quarter counts as three tenths. */
  lemma FractionIssue(d: string, gap: string, c: char, floatOf: string -> Option<real>)
    requires ReadsDecimals(floatOf) && d != [] && AllDigits(d) && gap in {"", " "} && c in {HALF, QUARTER}
    requires floatOf(d + (gap + [c])).None?
    ensures Calculation(d + (gap + [c]), floatOf) == Number(Value(d) as real + if c == HALF then 0.5 else 0.3)
  {
    var s, digit := d + (gap + [c]), if c == HALF then "5" else "3";
    assert s[|s| - 1] == c && s[0] == d[0];
    forall i | 0 <= i < |s| ensures s[i] != ',' && s[i] != '?' && !('A' <= s[i] <= 'Z') {
      assert s[i] == if i < |d| then d[i] else if i == |s| - 1 then c else ' ';
    }
    StaysNormal(s);
    DigitsPass(d, gap + [c]);
    FractionConverts(gap, c);
    Grouped(d, ".", digit);
    assert ReadsPoint(floatOf, d, digit);
    OneDigitFraction(digit);
    var text := d + "." + digit;
    assert text[0] == d[0] && !OnlyDots(text);
  }

  lemma OneDigitFraction(digit: string)
    requires |digit| == 1 && AllDigits(digit)
    ensures Fraction(digit) == DigitValue(digit[0]) as real / 10.0
  {
    assert digit[1..] == [];
  }

  function Pow10(n: nat): nat {
    if n == 0 then 1 else 10 * Pow10(n - 1)
  }

  lemma {:induction false} ValueBelow(d: string, n: nat)
    requires AllDigits(d) && |d| <= n
    ensures Value(d) < Pow10(n)
  {
    if d == [] {
      if n > 0 { ValueBelow(d, n - 1); }
    } else {
      ValueBelow(d[..|d| - 1], n - 1);
    }
  }

  lemma {:induction false} NinesAre(d: string)
    requires forall i :: 0 <= i < |d| ==> d[i] == '9'
    ensures AllDigits(d) && Value(d) + 1 == Pow10(|d|)
  {
    if d != [] { NinesAre(d[..|d| - 1]); }
  }

  /** An issue numbered infinity comes after every issue of at most twelve digits, whatever its suffix. */
  lemma InfinityIsLast(d: string, w: string, n: nat, floatOf: string -> Option<real>)
    requires ReadsDecimals(floatOf) && floatOf([INFINITY]).None?
    requires AllDigits(d) && |d| <= n && n == 12 && AllLetters(w)
    ensures Calculation([INFINITY], floatOf).Number?
    ensures Value(d) as real + SuffixValue(w) < Calculation([INFINITY], floatOf).value
  {
    var s, nines := [INFINITY], "9999999999999";
    StaysNormal(s);
    assert s[1..] == [] && Converted(s, true) == Added(INFINITY, true) + [] == nines;
    NinesAre(nines);
    assert ReadsWhole(floatOf, nines);
    assert nines[0] == '9' && !OnlyDots(nines);
    ValueBelow(d, n);
    assert |nines| == n + 1;
    assert Pow10(n + 1) == 10 * Pow10(n);
    StrictOrderEmbedding(Value(d), w, Value(nines), []);
  }
}
