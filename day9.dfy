/**
 * Day 9: rope bridge. Knots on an integer grid; a knot in tension with
 * the one it follows steps diagonally or straight toward it until they
 * touch, and a `Tracker` records every position its knot passes through.
 */
module Day9 {
  import opened Wrappers
  import opened Text

  datatype Pos = Pos(x: int, y: int)

  function Abs(a: int): nat {
    if a < 0 then -a else a
  }

  // ----- Pos::do_move -----

  /** `do_move`: "R"/"L" shift x by `dist`, "U"/"D" shift y; any other direction leaves the knot. */
  function DoMove(p: Pos, dir: string, dist: int): (q: Pos)
    ensures dir == "R" ==> q == Pos(p.x + dist, p.y)
    ensures dir == "L" ==> q == Pos(p.x - dist, p.y)
    ensures dir == "U" ==> q == Pos(p.x, p.y + dist)
    ensures dir == "D" ==> q == Pos(p.x, p.y - dist)
    ensures dir !in {"R", "L", "U", "D"} ==> q == p
  {
    match dir
    case "R" => p.(x := p.x + dist)
    case "L" => p.(x := p.x - dist)
    case "U" => p.(y := p.y + dist)
    case "D" => p.(y := p.y - dist)
    case _ => p
  }

  /** Two moves in one direction make one move of the summed distance. */
  lemma DoMoveAdds(p: Pos, dir: string, a: int, b: int)
    ensures DoMove(DoMove(p, dir, a), dir, b) == DoMove(p, dir, a + b)
  {
  }

  /** Moving back the same distance undoes a move. */
  lemma DoMoveUndo(p: Pos, n: int)
    ensures DoMove(DoMove(p, "R", n), "L", n) == p
    ensures DoMove(DoMove(p, "U", n), "D", n) == p
  {
  }

  // ----- Pos::is_in_tension -----

  /** `is_in_tension`: the squared distance is above 2. */
  predicate InTension(a: Pos, b: Pos) {
    Abs(a.x - b.x) * Abs(a.x - b.x) + Abs(a.y - b.y) * Abs(a.y - b.y) > 2
  }

  /** The number of king moves between two positions. */
  function Chebyshev(a: Pos, b: Pos): nat {
    if Abs(a.x - b.x) < Abs(a.y - b.y) then Abs(a.y - b.y) else Abs(a.x - b.x)
  }

  lemma SquareBounds(n: nat)
    ensures n <= 1 ==> n * n <= 1
    ensures n >= 2 ==> n * n >= 4
  {
    if n >= 2 {
      assert n * n >= 2 * n;
    }
  }

  /** Two knots are in tension exactly when they are more than one king move apart. */
  lemma TensionIffApart(a: Pos, b: Pos)
    ensures InTension(a, b) <==> Chebyshev(a, b) > 1
  {
    SquareBounds(Abs(a.x - b.x));
    SquareBounds(Abs(a.y - b.y));
  }

  lemma TensionSymmetric(a: Pos, b: Pos)
    ensures InTension(a, b) <==> InTension(b, a)
  {
    assert Abs(a.x - b.x) == Abs(b.x - a.x) && Abs(a.y - b.y) == Abs(b.y - a.y);
  }

  // ----- Pos::follow / follow_set -----

  /** One coordinate moved one unit toward `target`, or kept when equal. */
  function Toward(a: int, target: int): (b: int)
    ensures Abs(b - a) <= 1
    ensures a <= target ==> a <= b <= target
    ensures target <= a ==> target <= b <= a
    ensures a != target ==> Abs(b - target) == Abs(a - target) - 1
  {
    if a > target then a - 1 else if a < target then a + 1 else a
  }

  /** One step of `follow`: each coordinate one unit toward `other`. */
  function Step(p: Pos, other: Pos): Pos {
    Pos(Toward(p.x, other.x), Toward(p.y, other.y))
  }

  /** A step from a knot in tension brings it one king move closer. */
  lemma StepCloser(p: Pos, other: Pos)
    requires InTension(p, other)
    ensures Chebyshev(Step(p, other), other) == Chebyshev(p, other) - 1
  {
    TensionIffApart(p, other);
  }

  /** Where `follow` leaves a knot: stepping while in tension. */
  function Followed(p: Pos, other: Pos): (q: Pos)
    ensures !InTension(q, other)
    ensures !InTension(p, other) ==> q == p
    decreases Chebyshev(p, other)
  {
    if InTension(p, other) then
      StepCloser(p, other);
      Followed(Step(p, other), other)
    else p
  }

  /** The knot ends touching its leader and never moves away from it. */
  lemma {:induction false} FollowedCloser(p: Pos, other: Pos)
    ensures Chebyshev(Followed(p, other), other) <= 1
    ensures Chebyshev(Followed(p, other), other) <= Chebyshev(p, other)
    decreases Chebyshev(p, other)
  {
    TensionIffApart(Followed(p, other), other);
    if InTension(p, other) {
      StepCloser(p, other);
      FollowedCloser(Step(p, other), other);
    }
  }

  /** `follow`, as the source writes it: step and recurse while in tension. */
  method Follow(p: Pos, other: Pos) returns (q: Pos)
    ensures q == Followed(p, other)
    ensures !InTension(q, other)
    decreases Chebyshev(p, other)
  {
    q := p;
    if InTension(q, other) {
      q := Step(q, other);
      StepCloser(p, other);
      q := Follow(q, other);
    }
  }

  /** Every position `follow_set` inserts: the start, each intermediate position, and the end. */
  function Trail(p: Pos, other: Pos): (t: set<Pos>)
    ensures p in t && Followed(p, other) in t
    decreases Chebyshev(p, other)
  {
    if InTension(p, other) then
      StepCloser(p, other);
      {p} + Trail(Step(p, other), other)
    else {p}
  }

  /** A knot already touching its leader records only where it is. */
  lemma TrailTouching(p: Pos, other: Pos)
    requires !InTension(p, other)
    ensures Trail(p, other) == {p}
  {
  }

  // ----- Tracker -----

  /** A knot together with the set of positions it has occupied. */
  class Tracker {
    var pos: Pos
    var visited: set<Pos>

    /** `Tracker::default`: at the origin, nothing recorded yet. */
    constructor Default()
      ensures pos == Pos(0, 0) && visited == {}
    {
      pos := Pos(0, 0);
      visited := {};
    }

    /** `Tracker::new`: at `p`, with `p` recorded. */
    constructor New(p: Pos)
      ensures pos == p && visited == {p}
    {
      pos := p;
      visited := {p};
    }

    /** `follow_set` on the tracked knot: record, step while in tension, recurse. */
    method FollowSet(other: Pos)
      modifies this
      ensures pos == Followed(old(pos), other)
      ensures visited == old(visited) + Trail(old(pos), other)
      decreases Chebyshev(pos, other)
    {
      visited := visited + {pos};
      if InTension(pos, other) {
        StepCloser(pos, other);
        pos := Step(pos, other);
        FollowSet(other);
      }
    }

    /** `Tracker::follow`. */
    method Follow(other: Pos)
      modifies this
      ensures pos == Followed(old(pos), other)
      ensures visited == old(visited) + Trail(old(pos), other)
      ensures !InTension(pos, other) && old(visited) <= visited && pos in visited
    {
      FollowSet(other);
    }
  }

  // ----- parse -----

  predicate IsDirection(dir: string) {
    dir == "R" || dir == "L" || dir == "U" || dir == "D"
  }

  /** `parse`: exactly two tokens, a direction among R, L, U, D and an `i32` distance. */
  function Parse(line: string): (r: Option<(string, int)>)
    ensures r.Some? <==> |Words(line)| == 2 && IsDirection(Words(line)[0]) && ParseInt(Words(line)[1]).Some?
    ensures r.Some? ==> r.value == (Words(line)[0], ParseInt(Words(line)[1]).value)
  {
    var ws := Words(line);
    if |ws| != 2 then None
    else match ParseInt(ws[1])
      case None => None
      case Some(dist) => if IsDirection(ws[0]) then Some((ws[0], dist)) else None
  }

  // ----- puzzle1 -----

  /** The positions the tail records over the remaining lines, with the head moving a whole line's distance at once. */
  function Run1(head: Pos, tail: Pos, visited: set<Pos>, lines: seq<string>): Result<set<Pos>, string>
    decreases |lines|
  {
    if lines == [] then Ok(visited)
    else match Parse(lines[0])
      case None => Err("Invalid move")
      case Some((dir, dist)) =>
        var h := DoMove(head, dir, dist);
        Run1(h, Followed(tail, h), visited + Trail(tail, h), lines[1..])
  }

  /** The run fails exactly when some line is not a valid move. */
  lemma {:induction false} Run1Fails(head: Pos, tail: Pos, visited: set<Pos>, lines: seq<string>)
    ensures Run1(head, tail, visited, lines).Err? <==> exists k | 0 <= k < |lines| :: Parse(lines[k]).None?
    ensures Run1(head, tail, visited, lines).Ok? ==> visited <= Run1(head, tail, visited, lines).value
    decreases |lines|
  {
    if lines != [] && Parse(lines[0]).Some? {
      var (dir, dist) := Parse(lines[0]).value;
      var h := DoMove(head, dir, dist);
      Run1Fails(h, Followed(tail, h), visited + Trail(tail, h), lines[1..]);
      assert forall k | 1 <= k < |lines| :: lines[k] == lines[1..][k - 1];
    }
  }

  /** `puzzle1`: the number of positions the tail of a two-knot rope visits. */
  method Puzzle1(text: string) returns (r: Result<nat, string>)
    ensures r.Err? <==> exists k | 0 <= k < |Lines(text)| :: Parse(Lines(text)[k]).None?
    ensures r == match Run1(Pos(0, 0), Pos(0, 0), {}, Lines(text))
                 case Ok(v) => Ok(|v|)
                 case Err(e) => Err(e)
  {
    var lines := Lines(text);
    var head := Pos(0, 0);
    var tail := new Tracker.Default();
    Run1Fails(Pos(0, 0), Pos(0, 0), {}, lines);
    for k := 0 to |lines|
      invariant Run1(Pos(0, 0), Pos(0, 0), {}, lines) == Run1(head, tail.pos, tail.visited, lines[k..])
    {
      assert lines[k..][0] == lines[k] && lines[k..][1..] == lines[k + 1..];
      var parsed := Parse(lines[k]);
      if parsed.None? {
        assert Run1(head, tail.pos, tail.visited, lines[k..]) == Err("Invalid move");
        assert Parse(Lines(text)[k]).None?;
        return Err("Invalid move");
      }
      var (dir, dist) := parsed.value;
      head := DoMove(head, dir, dist);
      tail.Follow(head);
    }
    assert lines[|lines|..] == [];
    return Ok(|tail.visited|);
  }

  // ----- puzzle2 -----

  /** Each knot follows the one before it, which has already moved. */
  function Chain(knots: seq<Pos>, leader: Pos): (r: seq<Pos>)
    ensures |r| == |knots|
  {
    if knots == [] then []
    else
      var f := Followed(knots[0], leader);
      [f] + Chain(knots[1..], f)
  }

  lemma {:induction false} ChainAt(knots: seq<Pos>, leader: Pos, i: nat)
    requires i < |knots|
    ensures Chain(knots, leader)[i] == Followed(knots[i], if i == 0 then leader else Chain(knots, leader)[i - 1])
  {
    if i > 0 {
      ChainAt(knots[1..], Followed(knots[0], leader), i - 1);
    }
  }

  /** One unit step of the nine head knots: the first moves one unit, every other follows its predecessor. */
  function Pull(knots: seq<Pos>, dir: string): (r: seq<Pos>)
    requires |knots| > 0
    ensures |r| == |knots| && r[0] == DoMove(knots[0], dir, 1)
  {
    var h := DoMove(knots[0], dir, 1);
    [h] + Chain(knots[1..], h)
  }

  lemma PullAt(knots: seq<Pos>, dir: string, i: nat)
    requires 0 < i < |knots|
    ensures Pull(knots, dir)[i] == Followed(knots[i], Pull(knots, dir)[i - 1])
  {
    var h := DoMove(knots[0], dir, 1);
    ChainAt(knots[1..], h, i - 1);
  }

  /** After a unit step every adjacent pair of the ten knots (nine head knots, then the tail) is touching. */
  lemma RopeTouching(knots: seq<Pos>, tail: Pos, dir: string)
    requires |knots| == 9
    ensures forall i | 1 <= i < 9 :: !InTension(Pull(knots, dir)[i], Pull(knots, dir)[i - 1])
    ensures !InTension(Followed(tail, Pull(knots, dir)[8]), Pull(knots, dir)[8])
  {
    forall i | 1 <= i < 9 ensures !InTension(Pull(knots, dir)[i], Pull(knots, dir)[i - 1]) {
      PullAt(knots, dir, i);
    }
  }

  /** `count` unit steps: the knots, the tail and the positions it records. */
  function Steps(knots: seq<Pos>, tail: Pos, visited: set<Pos>, dir: string, count: nat): (seq<Pos>, Pos, set<Pos>)
    requires |knots| == 9
    ensures |Steps(knots, tail, visited, dir, count).0| == 9
    decreases count
  {
    if count == 0 then (knots, tail, visited)
    else
      var k := Pull(knots, dir);
      Steps(k, Followed(tail, k[8]), visited + Trail(tail, k[8]), dir, count - 1)
  }

  /** The positions the tail of the ten-knot rope records over the remaining lines. */
  function Run2(knots: seq<Pos>, tail: Pos, visited: set<Pos>, lines: seq<string>): Result<set<Pos>, string>
    requires |knots| == 9
    decreases |lines|
  {
    if lines == [] then Ok(visited)
    else match Parse(lines[0])
      case None => Err("Invalid move")
      case Some((dir, dist)) =>
        var (k, t, v) := Steps(knots, tail, visited, dir, if dist < 0 then 0 else dist);
        Run2(k, t, v, lines[1..])
  }

  /** The ten-knot run fails exactly when some line is not a valid move. */
  lemma {:induction false} Run2Fails(knots: seq<Pos>, tail: Pos, visited: set<Pos>, lines: seq<string>)
    requires |knots| == 9
    ensures Run2(knots, tail, visited, lines).Err? <==> exists k | 0 <= k < |lines| :: Parse(lines[k]).None?
    decreases |lines|
  {
    if lines != [] && Parse(lines[0]).Some? {
      var (dir, dist) := Parse(lines[0]).value;
      var (k, t, v) := Steps(knots, tail, visited, dir, if dist < 0 then 0 else dist);
      Run2Fails(k, t, v, lines[1..]);
      assert forall k | 1 <= k < |lines| :: lines[k] == lines[1..][k - 1];
    }
  }

  /** One unit step on the head knots in place: the first moves one unit, each later one follows its predecessor. */
  method PullKnots(knots: array<Pos>, dir: string)
    requires knots.Length == 9
    modifies knots
    ensures knots[..] == Pull(old(knots[..]), dir)
  {
    ghost var start := knots[..];
    ghost var pulled := Pull(start, dir);
    knots[0] := DoMove(knots[0], dir, 1);
    for i := 1 to 9
      invariant forall j | 0 <= j < i :: knots[j] == pulled[j]
      invariant forall j | i <= j < 9 :: knots[j] == start[j]
    {
      var temp := knots[i - 1];
      PullAt(start, dir, i);
      knots[i] := Follow(knots[i], temp);
    }
    assert knots[..] == pulled;
  }

  /** One iteration of the inner loop of `puzzle2`: the head knots step, then the tail follows the last of them. */
  method PullRope(knots: array<Pos>, tail: Tracker, dir: string)
    requires knots.Length == 9
    modifies knots, tail
    ensures knots[..] == Pull(old(knots[..]), dir)
    ensures tail.pos == Followed(old(tail.pos), knots[8])
    ensures tail.visited == old(tail.visited) + Trail(old(tail.pos), knots[8])
  {
    PullKnots(knots, dir);
    tail.Follow(knots[8]);
  }

  /** The loop of `puzzle2` over the unit steps of one line. */
  method MoveRope(knots: array<Pos>, tail: Tracker, dir: string, count: nat)
    requires knots.Length == 9
    modifies knots, tail
    ensures (knots[..], tail.pos, tail.visited) == Steps(old(knots[..]), old(tail.pos), old(tail.visited), dir, count)
  {
    ghost var goal := Steps(knots[..], tail.pos, tail.visited, dir, count);
    for s := 0 to count
      invariant Steps(knots[..], tail.pos, tail.visited, dir, count - s) == goal
    {
      PullRope(knots, tail, dir);
    }
  }

  /** The nine head knots of the ten-knot rope, all at the origin. */
  const Knots0: seq<Pos> := seq(9, _ => Pos(0, 0))

  /** `puzzle2`: the number of positions the tail of a ten-knot rope visits, the head moving one unit at a time. */
  method Puzzle2(text: string) returns (r: Result<nat, string>)
    ensures r.Err? <==> exists k | 0 <= k < |Lines(text)| :: Parse(Lines(text)[k]).None?
    ensures r == match Run2(Knots0, Pos(0, 0), {}, Lines(text))
                 case Ok(v) => Ok(|v|)
                 case Err(e) => Err(e)
  {
    var lines := Lines(text);
    var knots := new Pos[9](_ => Pos(0, 0));
    var tail := new Tracker.Default();
    assert knots[..] == Knots0;
    Run2Fails(Knots0, Pos(0, 0), {}, lines);
    for k := 0 to |lines|
      invariant Run2(Knots0, Pos(0, 0), {}, lines) == Run2(knots[..], tail.pos, tail.visited, lines[k..])
    {
      assert lines[k..][0] == lines[k] && lines[k..][1..] == lines[k + 1..];
      var parsed := Parse(lines[k]);
      if parsed.None? {
        assert Run2(knots[..], tail.pos, tail.visited, lines[k..]) == Err("Invalid move");
        assert Parse(Lines(text)[k]).None?;
        return Err("Invalid move");
      }
      var (dir, dist) := parsed.value;
      MoveRope(knots, tail, dir, if dist < 0 then 0 else dist);
    }
    assert lines[|lines|..] == [];
    return Ok(|tail.visited|);
  }
}
