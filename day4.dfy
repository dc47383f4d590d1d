/**
 * Day 4: camp cleanup. Each line holds two section ranges "a-b,c-d"; the
 * answers count the pairs where one range contains the other, and the
 * pairs that overlap at all.
 */
module Day4 {
  import opened Wrappers
  import opened Text

  /** An inclusive range of section numbers. */
  datatype Range = Range(start: int, end: int) {

    predicate WellFormed() { start <= end }

    /** Section `p` lies in the range. */
    predicate Has(p: int) { start <= p <= end }

    /**
     * `Range::overlap` as written. The guard sends every pair with
     * `start < other.end` or `end > other.start` to `None`, so for
     * well-formed ranges only two copies of one single section get through.
     */
    function Overlap(other: Range): (r: Option<Range>)
      ensures WellFormed() && other.WellFormed() && r.Some? ==>
                this == other && start == end && r.value == this
    {
      if start < other.end || end > other.start then None
      else if start >= other.start && end <= other.end then Some(this)
      else if start <= other.start && end >= other.end then Some(other)
      else if start > other.start && end > other.end then Some(Range(start, other.end))
      else Some(Range(other.start, end))
    }

    /**
     * The intersection `overlap` evidently means to compute: the guard
     * turned around (`start > other.end` or `end < other.start` means the
     * ranges are apart), the four cases after it unchanged.
     */
    function Intersection(other: Range): (r: Option<Range>)
      ensures WellFormed() && other.WellFormed() ==> (r.Some? <==> Overlaps(other))
      ensures WellFormed() && other.WellFormed() && r.Some? ==>
                r.value.WellFormed() && forall p :: r.value.Has(p) <==> Has(p) && other.Has(p)
    {
      if start > other.end || end < other.start then None
      else if start >= other.start && end <= other.end then Some(this)
      else if start <= other.start && end >= other.end then Some(other)
      else if start > other.start && end > other.end then Some(Range(start, other.end))
      else Some(Range(other.start, end))
    }

    /** `Range::contains`. */
    predicate Contains(other: Range) {
      start <= other.start && end >= other.end
    }

    /** `Range::overlaps`. */
    predicate Overlaps(other: Range) {
      start <= other.end && end >= other.start
    }
  }

  /** `Range::from`: a range exactly when start <= end, holding the sections from start to end. */
  function From(start: int, end: int): (r: Option<Range>)
    ensures r.Some? <==> start <= end
    ensures r.Some? ==> r.value.WellFormed() && forall p :: r.value.Has(p) <==> start <= p <= end
  {
    if start <= end then Some(Range(start, end)) else None
  }

  /** [1,5] and [3,7] share sections 3 to 5, yet `overlap` as written answers `None`. */
  lemma OverlapMissesSharedSections()
    ensures Range(1, 5).Overlaps(Range(3, 7)) && Range(1, 5).Has(4) && Range(3, 7).Has(4)
    ensures Range(1, 5).Overlap(Range(3, 7)) == None
    ensures Range(1, 5).Intersection(Range(3, 7)) == Some(Range(3, 5))
  {
  }

  /** For well-formed ranges, containment is containment of every section. */
  lemma ContainsMeansSubset(a: Range, b: Range)
    requires a.WellFormed() && b.WellFormed()
    ensures a.Contains(b) <==> forall p :: b.Has(p) ==> a.Has(p)
  {
    if forall p :: b.Has(p) ==> a.Has(p) {
      assert b.Has(b.start) && b.Has(b.end);
    }
  }

  lemma ContainsReflexive(a: Range)
    ensures a.Contains(a)
  {
  }

  lemma ContainsTransitive(a: Range, b: Range, c: Range)
    requires a.Contains(b) && b.Contains(c)
    ensures a.Contains(c)
  {
  }

  /** For well-formed ranges, overlapping means sharing a section. */
  lemma OverlapsMeansSharedSection(a: Range, b: Range)
    requires a.WellFormed() && b.WellFormed()
    ensures a.Overlaps(b) <==> exists p :: a.Has(p) && b.Has(p)
  {
    if a.Overlaps(b) {
      var p := if a.start <= b.start then b.start else a.start;
      assert a.Has(p) && b.Has(p);
    }
  }

  lemma OverlapsSymmetric(a: Range, b: Range)
    ensures a.Overlaps(b) <==> b.Overlaps(a)
  {
  }

  /** `mutual_contains`: one of the two ranges contains the other. */
  predicate MutualContains(x: Range, y: Range) {
    x.Contains(y) || y.Contains(x)
  }

  /** Mutual containment is symmetric and, for well-formed ranges, a special case of overlapping. */
  lemma MutualContainsOverlaps(x: Range, y: Range)
    requires x.WellFormed() && y.WellFormed()
    ensures MutualContains(x, y) <==> MutualContains(y, x)
    ensures MutualContains(x, y) ==> x.Overlaps(y)
  {
  }

  /**
   * Reading "a-b": the first number is parsed (a panic if it is not one),
   * a missing second number gives `None`, the second is parsed (a panic if
   * it is not a number). `RangeParses` says no panic happens.
   */
  predicate RangeParses(part: string) {
    var ns := Split(part, '-');
    ParseInt(ns[0]).Some? && (|ns| >= 2 ==> ParseInt(ns[1]).Some?)
  }

  function ParseRange(part: string): (r: Option<Range>)
    requires RangeParses(part)
    ensures var ns := Split(part, '-');
            r.None? <==> |ns| < 2 || ParseInt(ns[0]).value > ParseInt(ns[1]).value
    ensures var ns := Split(part, '-');
            r.Some? ==> r.value == Range(ParseInt(ns[0]).value, ParseInt(ns[1]).value) && r.value.WellFormed()
  {
    var ns := Split(part, '-');
    if |ns| < 2 then None else From(ParseInt(ns[0]).value, ParseInt(ns[1]).value)
  }

  /**
   * `parse_line` panics when a number it reaches does not parse; it reaches
   * the second range's numbers only when the first range is well formed.
   */
  predicate LineParses(line: string) {
    var halves := Split(line, ',');
    |halves| >= 2 ==>
      RangeParses(halves[0]) && (ParseRange(halves[0]).Some? ==> RangeParses(halves[1]))
  }

  /**
   * `parse_line`: split at ',' and then at '-'. `None` when either half
   * or either bound is missing, or a range has its start after its end.
   */
  function ParseLine(line: string): (r: Option<(Range, Range)>)
    requires LineParses(line)
    ensures var halves := Split(line, ',');
            r.None? <==> |halves| < 2 || ParseRange(halves[0]).None? || ParseRange(halves[1]).None?
    ensures var halves := Split(line, ',');
            r.Some? ==> |halves| >= 2 && r.value == (ParseRange(halves[0]).value, ParseRange(halves[1]).value)
    ensures r.Some? ==> r.value.0.WellFormed() && r.value.1.WellFormed()
  {
    var halves := Split(line, ',');
    if |halves| < 2 then None
    else
      match ParseRange(halves[0])
      case None => None
      case Some(left) =>
        match ParseRange(halves[1])
        case None => None
        case Some(right) => Some((left, right))
  }

  function RangeText(r: Range): string
    requires 0 <= r.start && 0 <= r.end
  {
    NatToString(r.start) + "-" + NatToString(r.end)
  }

  lemma NoSeparatorInNumber(n: nat, sep: char)
    requires !IsDigit(sep)
    ensures sep !in NatToString(n)
  {
  }

  lemma {:induction false} RangeTextParses(r: Range)
    requires 0 <= r.start <= r.end
    ensures ',' !in RangeText(r)
    ensures RangeParses(RangeText(r)) && ParseRange(RangeText(r)) == Some(r)
  {
    var s, e := NatToString(r.start), NatToString(r.end);
    NoSeparatorInNumber(r.start, '-');
    NoSeparatorInNumber(r.end, '-');
    NoSeparatorInNumber(r.start, ',');
    NoSeparatorInNumber(r.end, ',');
    SplitCons(s, '-', e);
    SplitSingle(e, '-');
    ParseIntRoundTrip(r.start);
    ParseIntRoundTrip(r.end);
    assert IntToString(r.start) == s && IntToString(r.end) == e;
  }

  /** A line written as "a-b,c-d" from two well-formed non-negative ranges parses back to them. */
  lemma ParseLineRoundTrip(a: Range, b: Range)
    requires 0 <= a.start <= a.end && 0 <= b.start <= b.end
    ensures LineParses(RangeText(a) + "," + RangeText(b))
    ensures ParseLine(RangeText(a) + "," + RangeText(b)) == Some((a, b))
  {
    RangeTextParses(a);
    RangeTextParses(b);
    SplitCons(RangeText(a), ',', RangeText(b));
    SplitSingle(RangeText(b), ',');
  }
}
