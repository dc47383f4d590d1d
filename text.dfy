/**
 * The pieces of Rust's `str` API that the puzzle modules rely on, over
 * ASCII strings: `lines()`, `split_whitespace()`, `split(char)`, splitting
 * at non-digits, and integer parsing (without overflow: integers here are
 * unbounded).
 */
module Text {
  import opened Wrappers

  /** `char::is_whitespace`, restricted to ASCII. */
  predicate IsSpace(c: char) {
    c == ' ' || c == '\t' || c == '\n' || c == '\r' || c as int == 11 || c as int == 12
  }

  predicate NotSpace(c: char) { !IsSpace(c) }

  predicate IsDigit(c: char) { '0' <= c <= '9' }

  predicate AllDigits(s: string) {
    forall i | 0 <= i < |s| :: IsDigit(s[i])
  }

  function DigitValue(c: char): (d: nat)
    requires IsDigit(c)
    ensures d < 10
  {
    c as int - '0' as int
  }

  function DigitChar(d: nat): (c: char)
    requires d < 10
    ensures IsDigit(c) && DigitValue(c) == d
  {
    ('0' as int + d) as char
  }

  /** The number a string of decimal digits denotes, most significant digit first. */
  function DigitsValue(s: string): nat
    requires AllDigits(s)
  {
    if s == [] then 0 else 10 * DigitsValue(s[..|s| - 1]) + DigitValue(s[|s| - 1])
  }

  /** `usize::from_str`: an optional '+' followed by at least one digit. */
  function ParseNat(s: string): Option<nat> {
    if |s| > 0 && s[0] == '+' then
      if |s| > 1 && AllDigits(s[1..]) then Some(DigitsValue(s[1..])) else None
    else if |s| > 0 && AllDigits(s) then Some(DigitsValue(s))
    else None
  }

  /** `i32::from_str` / `i64::from_str`: an optional sign followed by at least one digit. */
  function ParseInt(s: string): Option<int> {
    if |s| > 0 && s[0] == '-' then
      if |s| > 1 && AllDigits(s[1..]) then Some(0 - DigitsValue(s[1..]) as int) else None
    else
      match ParseNat(s)
      case Some(n) => Some(n)
      case None => None
  }

  /** Decimal rendering of a natural number, without leading zeros. */
  function NatToString(n: nat): (s: string)
    ensures |s| > 0 && AllDigits(s)
  {
    if n < 10 then [DigitChar(n)] else NatToString(n / 10) + [DigitChar(n % 10)]
  }

  function IntToString(n: int): string {
    if n < 0 then "-" + NatToString(-n) else NatToString(n)
  }

  lemma {:induction false} DigitsValueOfNatToString(n: nat)
    ensures DigitsValue(NatToString(n)) == n
  {
    if n >= 10 {
      var s := NatToString(n);
      assert s[..|s| - 1] == NatToString(n / 10);
      DigitsValueOfNatToString(n / 10);
    }
  }

  /** Parsing a rendered natural number gives it back. */
  lemma ParseNatRoundTrip(n: nat)
    ensures ParseNat(NatToString(n)) == Some(n)
  {
    DigitsValueOfNatToString(n);
  }

  /** Parsing a rendered integer, negative ones included, gives it back. */
  lemma ParseIntRoundTrip(n: int)
    ensures ParseInt(IntToString(n)) == Some(n)
  {
    var s := IntToString(n);
    if n < 0 {
      assert s[0] == '-' && s[1..] == NatToString(-n);
      DigitsValueOfNatToString(-n);
    } else {
      assert s == NatToString(n) && IsDigit(s[0]);
      ParseNatRoundTrip(n);
    }
  }

  /** Length of the longest prefix of `s` whose characters all satisfy `p`. */
  function Span(s: string, p: char -> bool): (n: nat)
    ensures n <= |s|
    ensures forall i | 0 <= i < n :: p(s[i])
    ensures n < |s| ==> !p(s[n])
  {
    if s == [] || !p(s[0]) then 0 else 1 + Span(s[1..], p)
  }

  /**
   * The maximal non-empty runs of characters satisfying `p`, in order: what
   * `s.split(|c| !p(c)).filter(|r| !r.is_empty())` yields.
   */
  function Runs(s: string, p: char -> bool): (rs: seq<string>)
    ensures forall k | 0 <= k < |rs| :: |rs[k]| > 0 && forall i | 0 <= i < |rs[k]| :: p(rs[k][i])
  {
    if s == [] then []
    else if !p(s[0]) then Runs(s[1..], p)
    else
      var n := Span(s, p);
      [s[..n]] + Runs(s[n..], p)
  }

  /** `str::split_whitespace`. */
  function Words(s: string): seq<string> {
    Runs(s, NotSpace)
  }

  /** The maximal runs of digits, as `split(|c| !c.is_numeric())` without the empty pieces. */
  function DigitRuns(s: string): seq<string> {
    Runs(s, IsDigit)
  }

  predicate IsSep(sep: char, c: char) { c == sep }

  /** `str::split(sep)`: the pieces between separators, empty ones included. */
  function Split(s: string, sep: char): (ps: seq<string>)
    ensures |ps| >= 1
    ensures forall k | 0 <= k < |ps| :: sep !in ps[k]
  {
    var n := Span(s, c => c != sep);
    if n == |s| then [s] else [s[..n]] + Split(s[n + 1..], sep)
  }

  /** `str::lines()`: split at '\n', drop one '\r' before each '\n', no empty last line. */
  function Lines(s: string): (ls: seq<string>)
    ensures forall k | 0 <= k < |ls| :: '\n' !in ls[k]
  {
    if s == [] then []
    else
      var n := Span(s, c => c != '\n');
      if n == |s| then [s]
      else
        var line := s[..n];
        [if |line| > 0 && line[|line| - 1] == '\r' then line[..|line| - 1] else line] + Lines(s[n + 1..])
  }

  lemma {:induction false} SpanAll(s: string, p: char -> bool)
    requires forall i | 0 <= i < |s| :: p(s[i])
    ensures Span(s, p) == |s|
  {
    if s != [] {
      SpanAll(s[1..], p);
    }
  }

  lemma {:induction false} SpanStops(w: string, c: char, rest: string, p: char -> bool)
    requires forall i | 0 <= i < |w| :: p(w[i])
    requires !p(c)
    ensures Span(w + [c] + rest, p) == |w|
  {
    if w != [] {
      assert (w + [c] + rest)[1..] == w[1..] + [c] + rest;
      SpanStops(w[1..], c, rest, p);
    }
  }

  /** A run followed by a character outside the run comes out as one piece. */
  lemma RunsCons(w: string, c: char, rest: string, p: char -> bool)
    requires |w| > 0 && forall i | 0 <= i < |w| :: p(w[i])
    requires !p(c)
    ensures Runs(w + [c] + rest, p) == [w] + Runs(rest, p)
  {
    var s := w + [c] + rest;
    SpanStops(w, c, rest, p);
    assert s[..|w|] == w;
    assert s[|w|..] == [c] + rest;
    assert ([c] + rest)[1..] == rest;
  }

  /** A whole string that is one run comes out as that one piece. */
  lemma RunsSingle(w: string, p: char -> bool)
    requires |w| > 0 && forall i | 0 <= i < |w| :: p(w[i])
    ensures Runs(w, p) == [w]
  {
    SpanAll(w, p);
    assert w[..|w|] == w;
  }

  /** A string with the separator in front of the rest splits into that string and the rest's pieces. */
  lemma SplitCons(a: string, sep: char, rest: string)
    requires sep !in a
    ensures Split(a + [sep] + rest, sep) == [a] + Split(rest, sep)
  {
    var s := a + [sep] + rest;
    SpanStops(a, sep, rest, c => c != sep);
    assert s[..|a|] == a;
    assert s[|a| + 1..] == rest;
  }

  lemma SplitSingle(a: string, sep: char)
    requires sep !in a
    ensures Split(a, sep) == [a]
  {
    SpanAll(a, c => c != sep);
  }

  /** A rendered integer is one whitespace-free token. */
  lemma IntToStringNoSpace(n: int)
    ensures |IntToString(n)| > 0 && forall i | 0 <= i < |IntToString(n)| :: NotSpace(IntToString(n)[i])
  {
    var s := IntToString(n);
    if n < 0 {
      assert forall i | 1 <= i < |s| :: s[i] == NatToString(-n)[i - 1];
    }
  }

  /** Characters outside the runs in front of a string do not change its runs. */
  lemma {:induction false} RunsSkip(pre: string, rest: string, p: char -> bool)
    requires forall i | 0 <= i < |pre| :: !p(pre[i])
    ensures Runs(pre + rest, p) == Runs(rest, p)
  {
    if pre != [] {
      var s := pre + rest;
      assert s != [] && s[0] == pre[0] && !p(s[0]);
      assert s[1..] == pre[1..] + rest;
      RunsSkip(pre[1..], rest, p);
    } else {
      assert pre + rest == rest;
    }
  }

  /** Lines joined with '\n', the inverse of `Lines` on lines that hold no line break. */
  function JoinLines(ls: seq<string>): string {
    if ls == [] then "" else if |ls| == 1 then ls[0] else ls[0] + "\n" + JoinLines(ls[1..])
  }

  /** A line that `lines()` gives back unchanged: no '\n' in it and no '\r' at its end. */
  predicate PlainLine(l: string) {
    '\n' !in l && (l == [] || l[|l| - 1] != '\r')
  }

  /** Splitting joined lines gives them back, when the last one is not empty. */
  lemma {:induction false} LinesOfJoinLines(ls: seq<string>)
    requires forall k | 0 <= k < |ls| :: PlainLine(ls[k])
    requires ls != [] ==> ls[|ls| - 1] != []
    ensures Lines(JoinLines(ls)) == ls
  {
    if |ls| == 1 {
      SpanAll(ls[0], c => c != '\n');
    } else if |ls| > 1 {
      var rest := JoinLines(ls[1..]);
      SpanStops(ls[0], '\n', rest, c => c != '\n');
      var s := ls[0] + "\n" + rest;
      assert s[..|ls[0]|] == ls[0];
      assert s[|ls[0]| + 1..] == rest;
      assert PlainLine(ls[0]) && s[..|ls[0]|] == ls[0];
      assert Lines(s) == [ls[0]] + Lines(rest);
      assert ls[1..][|ls[1..]| - 1] == ls[|ls| - 1];
      LinesOfJoinLines(ls[1..]);
      assert ls == [ls[0]] + ls[1..];
    }
  }
}
