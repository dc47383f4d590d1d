/**
 * Day 8: treetop tree house. A grid of tree heights is read from digit
 * lines; a tree is hidden in a line when taller-or-equal trees stand on
 * both sides, and its view in a line is how far it sees to each side.
 */
module Day8 {
  import opened Text
  import opened Seqs

  type Line = seq<nat>
  type Grid = seq<Line>

  // ----- vec_2d -----

  /** The values of the ASCII digits of a line, in order; other characters are skipped. */
  function Digits(line: string): (ds: Line)
    ensures |ds| <= |line|
    ensures forall k | 0 <= k < |ds| :: ds[k] < 10
  {
    if line == [] then []
    else (if IsDigit(line[0]) then [DigitValue(line[0])] else []) + Digits(line[1..])
  }

  /** A line made only of digits gives one height per character. */
  lemma {:induction false} DigitsOfDigitLine(line: string)
    requires AllDigits(line)
    ensures |Digits(line)| == |line|
    ensures forall k | 0 <= k < |line| :: Digits(line)[k] == DigitValue(line[k])
  {
    if line != [] {
      DigitsOfDigitLine(line[1..]);
      forall k | 0 < k < |line| ensures Digits(line)[k] == DigitValue(line[k]) {
        assert line[1..][k - 1] == line[k];
      }
    }
  }

  /** Non-digit characters contribute nothing. */
  lemma {:induction false} DigitsSkipsOthers(a: string, b: string)
    requires forall k | 0 <= k < |b| :: !IsDigit(b[k])
    ensures Digits(a + b) == Digits(a)
  {
    if a == [] {
      assert a + b == b;
      NoDigits(b);
    } else {
      assert (a + b)[1..] == a[1..] + b;
      DigitsSkipsOthers(a[1..], b);
    }
  }

  lemma {:induction false} NoDigits(b: string)
    requires forall k | 0 <= k < |b| :: !IsDigit(b[k])
    ensures Digits(b) == []
  {
    if b != [] {
      NoDigits(b[1..]);
    }
  }

  /** `vec_2d`: one row per line of the text, holding that line's digits. */
  method VecOf2d(text: string) returns (rows: Grid)
    ensures |rows| == |Lines(text)|
    ensures forall r | 0 <= r < |rows| :: rows[r] == Digits(Lines(text)[r])
  {
    var lines := Lines(text);
    rows := [];
    for r := 0 to |lines|
      invariant |rows| == r
      invariant forall k | 0 <= k < r :: rows[k] == Digits(lines[k])
    {
      rows := rows + [Digits(lines[r])];
    }
  }

  // ----- transpose -----

  /** No row is shorter than the first, which `transpose` indexes by. */
  predicate FirstShortest<T>(rect: seq<seq<T>>) {
    |rect| > 0 && forall j | 0 <= j < |rect| :: |rect[0]| <= |rect[j]|
  }

  /** Every row has the same, non-zero length. */
  predicate Rectangular<T>(rect: seq<seq<T>>) {
    |rect| > 0 && |rect[0]| > 0 && forall j | 0 <= j < |rect| :: |rect[j]| == |rect[0]|
  }

  /** `transpose`: column `i` of the rows becomes row `i`, for each index of the first row. */
  function Transpose<T>(rect: seq<seq<T>>): (t: seq<seq<T>>)
    requires FirstShortest(rect)
    ensures |t| == |rect[0]|
    ensures forall i | 0 <= i < |t| :: |t[i]| == |rect|
    ensures forall i, j | 0 <= i < |t| && 0 <= j < |rect| :: t[i][j] == rect[j][i]
  {
    seq(|rect[0]|, i requires 0 <= i < |rect[0]| => seq(|rect|, j requires 0 <= j < |rect| => rect[j][i]))
  }

  /** Transposing a rectangular grid twice gives it back. */
  lemma TransposeTwice<T>(rect: seq<seq<T>>)
    requires Rectangular(rect)
    ensures Rectangular(Transpose(rect))
    ensures Transpose(Transpose(rect)) == rect
  {
    var t := Transpose(rect);
    var tt := Transpose(t);
    forall j | 0 <= j < |rect| ensures tt[j] == rect[j] {
      assert |tt[j]| == |rect[j]|;
    }
  }

  // ----- reverse -----

  /** `reverse`: the elements pushed from last to first. */
  method Reverse<T>(v: seq<T>) returns (reversed: seq<T>)
    ensures reversed == Reversed(v)
  {
    reversed := [];
    for k := 0 to |v|
      invariant |reversed| == k
      invariant forall j | 0 <= j < k :: reversed[j] == v[|v| - 1 - j]
    {
      reversed := reversed + [v[|v| - 1 - k]];
    }
    forall j | 0 <= j < |v| ensures reversed[j] == Reversed(v)[j] {
      ReversedAt(v, j);
    }
  }

  // ----- directional_hidden / hidden -----

  /** Some tree before `i` is at least as tall. */
  predicate HiddenFromLeft(line: Line, i: nat)
    requires i < |line|
  {
    exists j | 0 <= j < i :: line[j] >= line[i]
  }

  /** Some tree after `i` is at least as tall. */
  predicate HiddenFromRight(line: Line, i: nat)
    requires i < |line|
  {
    exists j | i < j < |line| :: line[j] >= line[i]
  }

  /** What `directional_hidden` returns, as a value. */
  function LeftHidden(line: Line): (h: seq<bool>)
    requires |line| > 0
    ensures |h| == |line|
  {
    seq(|line|, i requires 0 <= i < |line| => HiddenFromLeft(line, i))
  }

  /**
   * `directional_hidden`: a running maximum; a tree is hidden when it is
   * no taller than the maximum of the trees before it.
   */
  method DirectionalHidden(line: Line) returns (out: seq<bool>)
    requires |line| > 0
    ensures |out| == |line|
    ensures forall i | 0 <= i < |line| :: out[i] == HiddenFromLeft(line, i)
    ensures !out[0]
  {
    out := [false];
    var max := line[0];
    for i := 1 to |line|
      invariant |out| == i
      invariant forall k | 0 <= k < i :: out[k] == HiddenFromLeft(line, k)
      invariant exists j | 0 <= j < i :: line[j] == max
      invariant forall j | 0 <= j < i :: line[j] <= max
    {
      var height := line[i];
      out := out + [height <= max];
      if height > max {
        max := height;
      }
    }
  }

  /** `hidden`: hidden from the left and, read on the reversed line and reversed back, from the right. */
  function Hidden(line: Line): (h: seq<bool>)
    requires |line| > 0
    ensures |h| == |line|
  {
    var left := LeftHidden(line);
    var right := Reversed(LeftHidden(Reversed(line)));
    seq(|line|, i requires 0 <= i < |line| => left[i] && right[i])
  }

  lemma ReversedAll<T>(line: seq<T>)
    ensures forall k | 0 <= k < |line| :: Reversed(line)[k] == line[|line| - 1 - k]
  {
    forall k | 0 <= k < |line| ensures Reversed(line)[k] == line[|line| - 1 - k] {
      ReversedAt(line, k);
    }
  }

  lemma LeftOfReversed(line: Line, i: nat)
    requires i < |line|
    ensures HiddenFromLeft(Reversed(line), |line| - 1 - i) <==> HiddenFromRight(line, i)
  {
    var n := |line|;
    var rev := Reversed(line);
    ReversedAll(line);
    if HiddenFromLeft(rev, n - 1 - i) {
      var j :| 0 <= j < n - 1 - i && rev[j] >= rev[n - 1 - i];
      assert line[n - 1 - j] >= line[i];
    }
    if HiddenFromRight(line, i) {
      var j :| i < j < n && line[j] >= line[i];
      assert rev[n - 1 - j] >= rev[n - 1 - i];
    }
  }

  /** Hidden from the left of the reversed line is hidden from the right. */
  lemma ReversedHidden(line: Line, i: nat)
    requires i < |line|
    ensures Reversed(LeftHidden(Reversed(line)))[i] == HiddenFromRight(line, i)
  {
    ReversedAt(LeftHidden(Reversed(line)), i);
    LeftOfReversed(line, i);
  }

  /** A tree is hidden in a line exactly when trees at least as tall stand on both sides. */
  lemma HiddenMeans(line: Line, i: nat)
    requires i < |line|
    ensures Hidden(line)[i] <==> HiddenFromLeft(line, i) && HiddenFromRight(line, i)
  {
    ReversedHidden(line, i);
  }

  /** The trees at both ends of a line are never hidden. */
  lemma HiddenEnds(line: Line)
    requires |line| > 0
    ensures !Hidden(line)[0] && !Hidden(line)[|line| - 1]
  {
    HiddenMeans(line, 0);
    HiddenMeans(line, |line| - 1);
  }

  // ----- directional_view / view -----

  /** Scanning down from `j`, the first index at or above 1 whose tree is at least as tall as tree `i`, or 0. */
  function BlockerFrom(line: Line, i: nat, j: nat): (b: nat)
    requires j < i < |line|
    ensures b <= j
    ensures b > 0 ==> line[b] >= line[i]
    ensures forall k | b < k <= j :: line[k] < line[i]
  {
    if j == 0 then 0
    else if line[j] >= line[i] then j
    else BlockerFrom(line, i, j - 1)
  }

  /** The nearest tree before `i` (the first one excepted) at least as tall as tree `i`, or index 0. */
  function Blocker(line: Line, i: nat): (b: nat)
    requires 0 < i < |line|
    ensures b < i
    ensures b > 0 ==> line[b] >= line[i]
    ensures forall k | b < k < i :: line[k] < line[i]
  {
    BlockerFrom(line, i, i - 1)
  }

  /** The blocker is the only index with its two properties. */
  lemma BlockerUnique(line: Line, i: nat, b: nat)
    requires 0 < i < |line| && b < i
    requires b > 0 ==> line[b] >= line[i]
    requires forall k | b < k < i :: line[k] < line[i]
    ensures b == Blocker(line, i)
  {
  }

  /** How far tree `i` sees to the left: 0 at the edge, else the distance to its blocker. */
  function LeftView(line: Line): (v: seq<int>)
    requires |line| > 0
    ensures |v| == |line|
  {
    seq(|line|, i requires 0 <= i < |line| => if i == 0 then 0 else i - Blocker(line, i))
  }

  /**
   * `directional_view`: for each tree after the first, one more than the
   * number of trees shorter than it, counted back from its left neighbour
   * down to (not including) the first tree.
   */
  method DirectionalView(line: Line) returns (out: seq<int>)
    requires |line| > 0
    ensures |out| == |line| && out[0] == 0
    ensures forall i | 0 < i < |line| :: out[i] == i - Blocker(line, i) && 1 <= out[i] <= i
  {
    out := [0];
    for i := 1 to |line|
      invariant |out| == i && out[0] == 0
      invariant forall k | 0 < k < i :: out[k] == k - Blocker(line, k)
    {
      var count := 0;
      var j := i - 1;
      while j >= 1 && line[j] < line[i]
        invariant 0 <= j < i && count == i - 1 - j
        invariant forall k | j < k < i :: line[k] < line[i]
      {
        count := count + 1;
        j := j - 1;
      }
      BlockerUnique(line, i, j);
      out := out + [count + 1];
    }
  }

  /** The nearest tree after `i` (the last one excepted) at least as tall as tree `i`, or the last index. */
  function RightBlockerFrom(line: Line, i: nat, j: nat): (b: nat)
    requires i < j < |line|
    ensures j <= b < |line|
    ensures b < |line| - 1 ==> line[b] >= line[i]
    ensures forall k | j <= k < b :: line[k] < line[i]
    decreases |line| - j
  {
    if j == |line| - 1 then j
    else if line[j] >= line[i] then j
    else RightBlockerFrom(line, i, j + 1)
  }

  function RightBlocker(line: Line, i: nat): (b: nat)
    requires i < |line| - 1
    ensures i < b < |line|
    ensures b < |line| - 1 ==> line[b] >= line[i]
    ensures forall k | i < k < b :: line[k] < line[i]
  {
    RightBlockerFrom(line, i, i + 1)
  }

  lemma RightBlockerUnique(line: Line, i: nat, b: nat)
    requires i < b < |line|
    requires b < |line| - 1 ==> line[b] >= line[i]
    requires forall k | i < k < b :: line[k] < line[i]
    ensures b == RightBlocker(line, i)
  {
  }

  /** Seen from the reversed line, the left view is the distance to the right blocker. */
  lemma ReversedView(line: Line, i: nat)
    requires i < |line|
    ensures Reversed(LeftView(Reversed(line)))[i] == if i == |line| - 1 then 0 else RightBlocker(line, i) - i
  {
    var n := |line|;
    var rev := Reversed(line);
    ReversedAt(LeftView(rev), i);
    if i < n - 1 {
      RightOfReversed(line, i);
    }
  }

  lemma RightOfReversed(line: Line, i: nat)
    requires i < |line| - 1
    ensures Blocker(Reversed(line), |line| - 1 - i) == |line| - 1 - RightBlocker(line, i)
  {
    var n := |line|;
    var rev := Reversed(line);
    var b := Blocker(rev, n - 1 - i);
    ReversedAll(line);
    assert forall k | i < k < n - 1 - b :: line[k] < line[i] by {
      forall k | i < k < n - 1 - b ensures line[k] < line[i] {
        assert rev[n - 1 - k] < rev[n - 1 - i];
      }
    }
    RightBlockerUnique(line, i, n - 1 - b);
  }

  /** `view`: the left view times the right view, read on the reversed line and reversed back. */
  function View(line: Line): (v: seq<int>)
    requires |line| > 0
    ensures |v| == |line|
  {
    var left := LeftView(line);
    var right := Reversed(LeftView(Reversed(line)));
    seq(|line|, i requires 0 <= i < |line| => left[i] * right[i])
  }

  /**
   * A tree's scenic score along a line is the product of its distances to
   * the nearest tree at least as tall on each side (or to the edge); the
   * trees at the ends score 0.
   */
  lemma ViewMeans(line: Line, i: nat)
    requires i < |line|
    ensures 0 < i < |line| - 1 ==> View(line)[i] == (i - Blocker(line, i)) * (RightBlocker(line, i) - i)
    ensures i == 0 || i == |line| - 1 ==> View(line)[i] == 0
  {
    ReversedView(line, i);
  }

  // ----- puzzle1 / puzzle2 -----

  /** The input `puzzle1` and `puzzle2` can take: a non-empty first row no longer than any other. */
  predicate Shaped(grid: Grid) {
    FirstShortest(grid) && |grid[0]| > 0
  }

  /** The tree at row `r`, column `c` is visible from some edge of its row or of its column. */
  predicate Visible(grid: Grid, r: nat, c: nat)
    requires Shaped(grid) && r < |grid| && c < |grid[0]|
  {
    !(Hidden(grid[r])[c] && Hidden(Transpose(grid)[c])[r])
  }

  /** How many of the flags are false in both lines, over their common length. */
  function CountVisible(rows: seq<bool>, cols: seq<bool>): (n: nat)
    ensures n <= |rows| && n <= |cols|
  {
    if rows == [] || cols == [] then 0
    else (if !(rows[0] && cols[0]) then 1 else 0) + CountVisible(rows[1..], cols[1..])
  }

  /** The columns' hidden flags, transposed back into rows as `puzzle1` does. */
  function ColumnsHidden(grid: Grid): (t: seq<seq<bool>>)
    requires Shaped(grid)
    ensures |t| == |grid| && forall r | 0 <= r < |grid| :: |t[r]| == |grid[0]|
    ensures forall r, c | 0 <= r < |grid| && 0 <= c < |grid[0]| :: t[r][c] == Hidden(Transpose(grid)[c])[r]
  {
    var cols := Transpose(grid);
    Transpose(seq(|cols|, c requires 0 <= c < |cols| => Hidden(cols[c])))
  }

  function SumVisibleFrom(grid: Grid, r: nat): nat
    requires Shaped(grid) && r <= |grid|
    decreases |grid| - r
  {
    if r == |grid| then 0
    else CountVisible(Hidden(grid[r]), ColumnsHidden(grid)[r]) + SumVisibleFrom(grid, r + 1)
  }

  /** `puzzle1`'s count over the grid: the cells of each row not hidden both in the row and in the column. */
  function VisibleCount(grid: Grid): nat
    requires Shaped(grid)
  {
    SumVisibleFrom(grid, 0)
  }

  /** Cells visible in a row from column `c` on, counted by the definition. */
  function VisibleInRowFrom(grid: Grid, r: nat, c: nat): nat
    requires Shaped(grid) && r < |grid| && c <= |grid[0]|
    decreases |grid[0]| - c
  {
    if c == |grid[0]| then 0
    else (if Visible(grid, r, c) then 1 else 0) + VisibleInRowFrom(grid, r, c + 1)
  }

  lemma {:induction false} CountVisibleRow(grid: Grid, r: nat, c: nat)
    requires Shaped(grid) && r < |grid| && c <= |grid[0]|
    ensures CountVisible(Hidden(grid[r])[c..], ColumnsHidden(grid)[r][c..]) == VisibleInRowFrom(grid, r, c)
    decreases |grid[0]| - c
  {
    var rows := Hidden(grid[r])[c..];
    var cols := ColumnsHidden(grid)[r][c..];
    if c < |grid[0]| {
      CountVisibleRow(grid, r, c + 1);
      assert rows[1..] == Hidden(grid[r])[c + 1..];
      assert cols[1..] == ColumnsHidden(grid)[r][c + 1..];
    }
  }

  /** The first tree of a row is always visible, so every row counts at least one. */
  lemma {:induction false} VisibleInRowBounds(grid: Grid, r: nat, c: nat)
    requires Shaped(grid) && r < |grid| && c <= |grid[0]|
    ensures VisibleInRowFrom(grid, r, c) <= |grid[0]| - c
    ensures c == 0 ==> VisibleInRowFrom(grid, r, c) >= 1
    decreases |grid[0]| - c
  {
    if c < |grid[0]| {
      VisibleInRowBounds(grid, r, c + 1);
      if c == 0 {
        FirstVisible(grid, r);
      }
    }
  }

  /** The first tree of a row is on the edge, so it is visible. */
  lemma FirstVisible(grid: Grid, r: nat)
    requires Shaped(grid) && r < |grid|
    ensures Visible(grid, r, 0)
  {
    assert |grid[r]| >= |grid[0]|;
    HiddenEnds(grid[r]);
  }

  /**
   * `puzzle1` counts exactly the cells visible from some edge; every row
   * has at least its first tree visible, so the count lies between the
   * number of rows and the number of cells.
   */
  lemma {:induction false} VisibleCountBounds(grid: Grid, r: nat)
    requires Shaped(grid) && r <= |grid|
    ensures |grid| - r <= SumVisibleFrom(grid, r) <= (|grid| - r) * |grid[0]|
    decreases |grid| - r
  {
    if r < |grid| {
      VisibleCountBounds(grid, r + 1);
      var h := Hidden(grid[r]);
      var ch := ColumnsHidden(grid)[r];
      CountVisibleRow(grid, r, 0);
      assert h[0..] == h && ch[0..] == ch;
      CountVisibleTruncate(h, ch);
      VisibleInRowBounds(grid, r, 0);
      var k := |grid| - (r + 1);
      assert (k + 1) * |grid[0]| == k * |grid[0]| + |grid[0]|;
    }
  }

  /** Each visible cell is counted: the row sum equals the count by the definition. */
  lemma VisibleRowCount(grid: Grid, r: nat)
    requires Shaped(grid) && r < |grid|
    ensures CountVisible(Hidden(grid[r]), ColumnsHidden(grid)[r]) == VisibleInRowFrom(grid, r, 0)
  {
    var h := Hidden(grid[r]);
    var ch := ColumnsHidden(grid)[r];
    CountVisibleTruncate(h, ch);
    CountVisibleRow(grid, r, 0);
    assert ch[0..] == ch;
  }

  /** `zip` stops at the shorter line. */
  lemma {:induction false} CountVisibleTruncate(rows: seq<bool>, cols: seq<bool>)
    requires |cols| <= |rows|
    ensures CountVisible(rows, cols) == CountVisible(rows[..|cols|], cols)
  {
    if cols != [] {
      assert rows[..|cols|][1..] == rows[1..][..|cols| - 1];
      CountVisibleTruncate(rows[1..], cols[1..]);
    }
  }

  /** A tree on the edge of the grid is visible. */
  lemma EdgeVisible(grid: Grid, r: nat, c: nat)
    requires Shaped(grid) && r < |grid| && c < |grid[0]|
    requires r == 0 || r == |grid| - 1 || c == 0 || c == |grid[r]| - 1
    ensures Visible(grid, r, c)
  {
    HiddenEnds(grid[r]);
    HiddenEnds(Transpose(grid)[c]);
  }

  /** The scenic score of the tree at row `r`, column `c`: its row view times its column view. */
  function Scenic(grid: Grid, r: nat, c: nat): int
    requires Shaped(grid) && r < |grid| && c < |grid[0]|
  {
    View(grid[r])[c] * View(Transpose(grid)[c])[r]
  }

  /** The largest element of a non-empty sequence: `Iterator::max().unwrap()`. */
  function Max(s: seq<int>): (m: int)
    requires |s| > 0
    ensures m in s
    ensures forall k | 0 <= k < |s| :: s[k] <= m
  {
    if |s| == 1 then s[0]
    else
      var rest := Max(s[1..]);
      assert forall k | 1 <= k < |s| :: s[k] == s[1..][k - 1];
      if s[0] > rest then s[0] else rest
  }

  /** The columns' views, transposed back into rows as `puzzle2` does. */
  function ColumnsView(grid: Grid): (t: seq<seq<int>>)
    requires Shaped(grid)
    ensures |t| == |grid| && forall r | 0 <= r < |grid| :: |t[r]| == |grid[0]|
    ensures forall r, c | 0 <= r < |grid| && 0 <= c < |grid[0]| :: t[r][c] == View(Transpose(grid)[c])[r]
  {
    var cols := Transpose(grid);
    Transpose(seq(|cols|, c requires 0 <= c < |cols| => View(cols[c])))
  }

  /** Row `r`'s view zipped with the columns' views and multiplied. */
  function RowScores(grid: Grid, r: nat): (scores: seq<int>)
    requires Shaped(grid) && r < |grid|
    ensures |scores| == |grid[0]|
  {
    var row := View(grid[r]);
    var cols := ColumnsView(grid)[r];
    seq(|cols|, c requires 0 <= c < |cols| => row[c] * cols[c])
  }

  /** `puzzle2`'s answer over the grid: the maximum over the rows of each row's maximum score. */
  function BestScenic(grid: Grid): int
    requires Shaped(grid)
  {
    Max(seq(|grid|, r requires 0 <= r < |grid| => Max(RowScores(grid, r))))
  }

  /** The answer of `puzzle2` is the highest scenic score of any tree. */
  lemma BestScenicIsBest(grid: Grid)
    requires Shaped(grid)
    ensures exists r, c | 0 <= r < |grid| && 0 <= c < |grid[0]| :: Scenic(grid, r, c) == BestScenic(grid)
    ensures forall r, c | 0 <= r < |grid| && 0 <= c < |grid[0]| :: Scenic(grid, r, c) <= BestScenic(grid)
  {
    var r, c := BestScenicAttained(grid);
    forall i, k | 0 <= i < |grid| && 0 <= k < |grid[0]| ensures Scenic(grid, i, k) <= BestScenic(grid) {
      BestScenicBounds(grid, i, k);
    }
  }

  /** Some tree has the best score. */
  lemma BestScenicAttained(grid: Grid) returns (r: nat, c: nat)
    requires Shaped(grid)
    ensures r < |grid| && c < |grid[0]| && Scenic(grid, r, c) == BestScenic(grid)
  {
    var bests := seq(|grid|, i requires 0 <= i < |grid| => Max(RowScores(grid, i)));
    assert Max(bests) == BestScenic(grid);
    r :| 0 <= r < |grid| && bests[r] == Max(bests);
    c :| 0 <= c < |grid[0]| && RowScores(grid, r)[c] == bests[r];
    RowScoresAt(grid, r, c);
  }

  /** No tree scores above the best score. */
  lemma BestScenicBounds(grid: Grid, r: nat, c: nat)
    requires Shaped(grid) && r < |grid| && c < |grid[0]|
    ensures Scenic(grid, r, c) <= BestScenic(grid)
  {
    var bests := seq(|grid|, i requires 0 <= i < |grid| => Max(RowScores(grid, i)));
    assert Max(bests) == BestScenic(grid);
    RowScoresAt(grid, r, c);
    assert RowScores(grid, r)[c] <= bests[r] <= Max(bests);
  }

  /** The scores of a row are the scenic scores of its trees. */
  lemma RowScoresAt(grid: Grid, r: nat, c: nat)
    requires Shaped(grid) && r < |grid| && c < |grid[0]|
    ensures RowScores(grid, r)[c] == Scenic(grid, r, c)
  {
  }

  /** Trees on the edge score 0, so the best score is never negative. */
  lemma BestScenicAtLeastZero(grid: Grid)
    requires Shaped(grid)
    ensures BestScenic(grid) >= 0
  {
    ViewMeans(grid[0], 0);
    assert Scenic(grid, 0, 0) == 0;
    BestScenicIsBest(grid);
  }

  /** The grid `vec_2d` reads from the text, as a value. */
  function HeightGrid(text: string): Grid {
    seq(|Lines(text)|, r requires 0 <= r < |Lines(text)| => Digits(Lines(text)[r]))
  }

  /** `puzzle1` on the text of the input file. */
  method Puzzle1(text: string) returns (count: nat)
    requires Shaped(HeightGrid(text))
    ensures count == VisibleCount(HeightGrid(text))
  {
    var grid := VecOf2d(text);
    assert grid == HeightGrid(text);
    count := VisibleCount(grid);
  }

  /** `puzzle2` on the text of the input file. */
  method Puzzle2(text: string) returns (best: int)
    requires Shaped(HeightGrid(text))
    ensures best == BestScenic(HeightGrid(text))
  {
    var grid := VecOf2d(text);
    assert grid == HeightGrid(text);
    best := BestScenic(grid);
  }
}
