/**
 * Day 1: lines of calorie counts, groups separated by a line that is not
 * a number (a blank line in practice), one group per elf.
 * The answers are the largest group total and the sum of the three largest.
 */
module Day1 {
  import opened Wrappers
  import opened Text

  /** An elf and the calories it carries; elves are ordered by `cals`. */
  datatype Elf = Elf(cals: int) {
    /** `Elf::add`: the elf carrying `amount` more calories. */
    function Add(amount: int): Elf {
      Elf(cals + amount)
    }
  }

  function Sum(s: seq<int>): int {
    if s == [] then 0 else Sum(s[..|s| - 1]) + s[|s| - 1]
  }

  function TotalCals(elves: seq<Elf>): int {
    if elves == [] then 0 else TotalCals(elves[..|elves| - 1]) + elves[|elves| - 1].cals
  }

  function CountNone(ints: seq<Option<int>>): nat {
    if ints == [] then 0 else CountNone(ints[..|ints| - 1]) + (if ints[|ints| - 1].None? then 1 else 0)
  }

  /** The values of the `Some` entries, in order. */
  function Somes(ints: seq<Option<int>>): seq<int> {
    if ints == [] then []
    else Somes(ints[..|ints| - 1]) + (match ints[|ints| - 1] case Some(n) => [n] case None => [])
  }

  function Flatten(gs: seq<seq<int>>): seq<int> {
    if gs == [] then [] else Flatten(gs[..|gs| - 1]) + gs[|gs| - 1]
  }

  /** The entries cut at every `None`: the groups that make up the elves. */
  function Groups(ints: seq<Option<int>>): (gs: seq<seq<int>>)
    ensures |gs| >= 1
  {
    if ints == [] then [[]]
    else
      var gs := Groups(ints[..|ints| - 1]);
      match ints[|ints| - 1]
      case None => gs + [[]]
      case Some(n) => gs[..|gs| - 1] + [gs[|gs| - 1] + [n]]
  }

  /** There is one group more than there are separators. */
  lemma {:induction false} GroupsCount(ints: seq<Option<int>>)
    ensures |Groups(ints)| == 1 + CountNone(ints)
  {
    if ints != [] {
      GroupsCount(ints[..|ints| - 1]);
    }
  }

  /** The groups, put back together, are exactly the parsed numbers in input order. */
  lemma {:induction false} GroupsPartition(ints: seq<Option<int>>)
    ensures Flatten(Groups(ints)) == Somes(ints)
  {
    if ints != [] {
      var init := ints[..|ints| - 1];
      GroupsPartition(init);
      var gs := Groups(init);
      match ints[|ints| - 1]
      case None =>
        assert Groups(ints) == gs + [[]];
        assert (gs + [[]])[..|gs|] == gs;
      case Some(n) =>
        var last := gs[|gs| - 1];
        var gs' := gs[..|gs| - 1] + [last + [n]];
        assert Groups(ints) == gs';
        assert gs'[..|gs'| - 1] == gs[..|gs| - 1];
        assert gs == gs[..|gs| - 1] + [last];
        assert Flatten(gs) == Flatten(gs[..|gs| - 1]) + last;
    }
  }

  /**
   * `parse_lines`: one entry per line of the input, `Some` of the number
   * when the line parses as an integer and `None` otherwise (blank lines
   * included).
   */
  method ParseLines(input: string) returns (output: seq<Option<int>>)
    ensures |output| == |Lines(input)|
    ensures forall i | 0 <= i < |output| :: output[i] == ParseInt(Lines(input)[i])
  {
    var lines := Lines(input);
    output := [];
    for i := 0 to |lines|
      invariant |output| == i
      invariant forall j | 0 <= j < i :: output[j] == ParseInt(lines[j])
    {
      output := output + [ParseInt(lines[i])];
    }
  }

  /**
   * `ints_to_elves`: one elf per `None`-separated group, carrying the sum
   * of its group; an elf is started before the first entry, so there is
   * always at least one.
   */
  method IntsToElves(ints: seq<Option<int>>) returns (elves: seq<Elf>)
    ensures |elves| == |Groups(ints)| == 1 + CountNone(ints)
    ensures forall k | 0 <= k < |elves| :: elves[k].cals == Sum(Groups(ints)[k])
  {
    elves := [Elf(0)];
    for i := 0 to |ints|
      invariant |elves| == |Groups(ints[..i])|
      invariant forall k | 0 <= k < |elves| :: elves[k].cals == Sum(Groups(ints[..i])[k])
    {
      assert ints[..i + 1][..i] == ints[..i];
      match ints[i]
      case Some(num) =>
        // `elves.last_mut()` always finds an elf: the vector starts with one.
        elves := elves[|elves| - 1 := elves[|elves| - 1].Add(num)];
      case None =>
        elves := elves + [Elf(0)];
    }
    assert ints[..|ints|] == ints;
    GroupsCount(ints);
  }

  /** `max_elf`: an elf of the list carrying at least as much as every other (panics on an empty list). */
  function MaxElf(elves: seq<Elf>): (m: Elf)
    requires |elves| > 0
    ensures m in elves
    ensures forall e | e in elves :: e.cals <= m.cals
  {
    if |elves| == 1 then elves[0]
    else
      var best := MaxElf(elves[..|elves| - 1]);
      // `Iterator::max` keeps the later of two equal elements.
      if best.cals <= elves[|elves| - 1].cals then elves[|elves| - 1] else best
  }

  predicate SortedByCals(s: seq<Elf>) {
    forall i, j | 0 <= i < j < |s| :: s[i].cals <= s[j].cals
  }

  function Insert(e: Elf, s: seq<Elf>): (r: seq<Elf>)
    requires SortedByCals(s)
    ensures SortedByCals(r) && multiset(r) == multiset(s) + multiset{e}
  {
    if s == [] then [e]
    else if e.cals <= s[0].cals then [e] + s
    else
      var rest := Insert(e, s[1..]);
      InsertBehind(e, s, rest);
      [s[0]] + rest
  }

  /** An elf inserted behind the head of a sorted list leaves the head in front. */
  lemma InsertBehind(e: Elf, s: seq<Elf>, rest: seq<Elf>)
    requires s != [] && SortedByCals(s) && s[0].cals < e.cals
    requires SortedByCals(rest) && multiset(rest) == multiset(s[1..]) + multiset{e}
    ensures SortedByCals([s[0]] + rest) && multiset([s[0]] + rest) == multiset(s) + multiset{e}
  {
    assert s == [s[0]] + s[1..];
    forall k | 0 <= k < |rest| ensures s[0].cals <= rest[k].cals {
      assert rest[k] in multiset(rest);
      if rest[k] != e {
        assert rest[k] in multiset(s[1..]);
        var j :| 0 <= j < |s[1..]| && s[1..][j] == rest[k];
        assert s[j + 1] == rest[k];
      }
    }
  }

  /** `Vec::sort` on elves: ascending by calories, a permutation of the input. */
  function SortElves(s: seq<Elf>): (r: seq<Elf>)
    ensures SortedByCals(r) && multiset(r) == multiset(s)
  {
    if s == [] then []
    else
      assert s == [s[0]] + s[1..];
      Insert(s[0], SortElves(s[1..]))
  }

  /**
   * The state of `top_3_elves` between pops: `start` is still sorted, the
   * popped elves in `end` are the largest, largest first, and no elf is
   * lost.
   */
  predicate Popping(start: seq<Elf>, end: seq<Elf>, elves: seq<Elf>) {
    && SortedByCals(start)
    && multiset(start) + multiset(end) == multiset(elves)
    && (forall j, k | 0 <= j < |end| && 0 <= k < |start| :: start[k].cals <= end[j].cals)
    && (forall j, k | 0 <= j < k < |end| :: end[k].cals <= end[j].cals)
  }

  /** Popping the last elf of `start` onto `end` keeps that state. */
  lemma PopKeeps(start: seq<Elf>, end: seq<Elf>, elves: seq<Elf>)
    requires start != [] && Popping(start, end, elves)
    ensures Popping(start[..|start| - 1], end + [start[|start| - 1]], elves)
  {
    PopLast(start);
    var top, rest, end' := start[|start| - 1], start[..|start| - 1], end + [start[|start| - 1]];
    assert multiset(end') == multiset(end) + multiset{top};
    forall j, k | 0 <= j < |end'| && 0 <= k < |rest| ensures rest[k].cals <= end'[j].cals {
      if j < |end| {
        assert rest[k] == start[k];
      }
    }
    forall j, k | 0 <= j < k < |end'| ensures end'[k].cals <= end'[j].cals {
      if k == |end| {
        assert end'[k] == start[|start| - 1] && end'[j] == end[j];
      }
    }
  }

  /** Once the pops are over, every elf left in `start` is the elves minus those popped. */
  lemma PopDone(start: seq<Elf>, end: seq<Elf>, elves: seq<Elf>)
    requires |end| == 3 && Popping(start, end, elves)
    ensures multiset(end) <= multiset(elves)
    ensures forall e | e in multiset(elves) - multiset(end) :: e.cals <= end[2].cals
  {
    assert multiset(elves) - multiset(end) == multiset(start);
    forall e | e in multiset(elves) - multiset(end) ensures e.cals <= end[2].cals {
      var k :| 0 <= k < |start| && start[k] == e;
    }
  }

  /**
   * `top_3_elves`: sort, then pop three times. With at least three elves
   * the result is three of them, largest first, and no elf left out carries
   * more than the smallest one returned; otherwise "Not enough elves".
   */
  method Top3Elves(elves: seq<Elf>) returns (r: Result<seq<Elf>, string>)
    ensures r.Err? <==> |elves| < 3
    ensures r.Err? ==> r.error == "Not enough elves"
    ensures r.Ok? ==> |r.value| == 3 && r.value[0].cals >= r.value[1].cals >= r.value[2].cals
    ensures r.Ok? ==> multiset(r.value) <= multiset(elves)
    ensures r.Ok? ==> forall e | e in multiset(elves) - multiset(r.value) :: e.cals <= r.value[2].cals
  {
    var start := SortElves(elves);
    var end: seq<Elf> := [];
    for i := 0 to 3
      invariant |end| == i <= |elves| && |start| == |elves| - i
      invariant Popping(start, end, elves)
    {
      if start == [] {
        return Err("Not enough elves");
      }
      PopKeeps(start, end, elves);
      var top := start[|start| - 1];
      end := end + [top];
      start := start[..|start| - 1];
    }
    PopDone(start, end, elves);
    r := Ok(end);
  }

  lemma PopLast(s: seq<Elf>)
    requires s != []
    ensures multiset(s[..|s| - 1]) + multiset{s[|s| - 1]} == multiset(s)
    ensures SortedByCals(s) ==> SortedByCals(s[..|s| - 1]) && forall k | 0 <= k < |s| - 1 :: s[k].cals <= s[|s| - 1].cals
  {
    assert s == s[..|s| - 1] + [s[|s| - 1]];
  }

  function Reduce(acc: Elf, rest: seq<Elf>): Elf
    decreases |rest|
  {
    if rest == [] then acc else Reduce(acc.Add(rest[0].cals), rest[1..])
  }

  lemma {:induction false} TotalCalsCons(e: Elf, rest: seq<Elf>)
    ensures TotalCals([e] + rest) == e.cals + TotalCals(rest)
  {
    if rest != [] {
      var init := rest[..|rest| - 1];
      assert ([e] + rest)[..|rest|] == [e] + init;
      TotalCalsCons(e, init);
    }
  }

  lemma {:induction false} ReduceAdds(acc: Elf, rest: seq<Elf>)
    ensures Reduce(acc, rest).cals == acc.cals + TotalCals(rest)
    decreases |rest|
  {
    if rest != [] {
      ReduceAdds(acc.Add(rest[0].cals), rest[1..]);
      assert rest == [rest[0]] + rest[1..];
      TotalCalsCons(rest[0], rest[1..]);
    }
  }

  /** `sum_elves`: folding `Elf::add` over the list gives the total calories (panics on an empty list). */
  function SumElves(elves: seq<Elf>): (total: int)
    requires |elves| > 0
    ensures total == TotalCals(elves)
  {
    ReduceAdds(elves[0], elves[1..]);
    assert elves == [elves[0]] + elves[1..];
    TotalCalsCons(elves[0], elves[1..]);
    Reduce(elves[0], elves[1..]).cals
  }

  /** `puzzle1` on the file's text: the largest calorie total of any group. */
  method Puzzle1(input: string) returns (best: int)
    ensures exists k | 0 <= k < |Groups(ParsedLines(input))| :: best == Sum(Groups(ParsedLines(input))[k])
    ensures forall k | 0 <= k < |Groups(ParsedLines(input))| :: Sum(Groups(ParsedLines(input))[k]) <= best
  {
    var ints := ParseLines(input);
    assert ints == ParsedLines(input);
    var elves := IntsToElves(ints);
    var m := MaxElf(elves);
    best := m.cals;
    var k :| 0 <= k < |elves| && elves[k] == m;
    assert forall j | 0 <= j < |elves| :: elves[j] in elves;
  }

  /** The entries `parse_lines` produces, as a value. */
  function ParsedLines(input: string): seq<Option<int>> {
    seq(|Lines(input)|, i requires 0 <= i < |Lines(input)| => ParseInt(Lines(input)[i]))
  }

  /** One elf per group, carrying its group's total. */
  function GroupElves(gs: seq<seq<int>>): (elves: seq<Elf>)
    ensures |elves| == |gs|
  {
    seq(|gs|, k requires 0 <= k < |gs| => Elf(Sum(gs[k])))
  }

  /**
   * `top` is three of the elves, largest first, and no elf left out carries
   * more than the smallest of them.
   */
  predicate TopThree(top: seq<Elf>, elves: seq<Elf>) {
    && |top| == 3
    && top[0].cals >= top[1].cals >= top[2].cals
    && multiset(top) <= multiset(elves)
    && forall e | e in multiset(elves) - multiset(top) :: e.cals <= top[2].cals
  }

  /**
   * `puzzle2` on the file's text: with at least three groups (two lines
   * that are not integers), the sum of the three largest group totals;
   * otherwise "Not enough elves".
   */
  method Puzzle2(input: string) returns (r: Result<int, string>)
    ensures r.Err? <==> CountNone(ParsedLines(input)) < 2
    ensures r.Err? ==> r.error == "Not enough elves"
    ensures r.Ok? ==> exists top: seq<Elf> | TopThree(top, GroupElves(Groups(ParsedLines(input)))) ::
                        r.value == top[0].cals + top[1].cals + top[2].cals
  {
    var ints := ParseLines(input);
    assert ints == ParsedLines(input);
    var elves := IntsToElves(ints);
    ElvesOfGroups(ints, elves);
    var top := Top3Elves(elves);
    match top
    case Err(e) => r := Err(e);
    case Ok(three) =>
      r := Ok(SumElves(three));
      TopThreeTotal(three, elves);
  }

  /** The elves `ints_to_elves` builds are the group totals. */
  lemma ElvesOfGroups(ints: seq<Option<int>>, elves: seq<Elf>)
    requires |elves| == |Groups(ints)|
    requires forall k | 0 <= k < |elves| :: elves[k].cals == Sum(Groups(ints)[k])
    ensures elves == GroupElves(Groups(ints))
  {
  }

  /** Three elves chosen as `Top3Elves` chooses them carry, together, the sum of three top elves. */
  lemma TopThreeTotal(three: seq<Elf>, elves: seq<Elf>)
    requires |three| == 3 && three[0].cals >= three[1].cals >= three[2].cals
    requires multiset(three) <= multiset(elves)
    requires forall e | e in multiset(elves) - multiset(three) :: e.cals <= three[2].cals
    ensures exists top: seq<Elf> | TopThree(top, elves) :: TotalCals(three) == top[0].cals + top[1].cals + top[2].cals
  {
    assert three[..2][..1] == [three[0]] && three[..2][1] == three[1];
    assert TotalCals([three[0]]) == three[0].cals by {
      assert [three[0]][..0] == [];
    }
    assert TotalCals(three) == three[0].cals + three[1].cals + three[2].cals;
    assert TopThree(three, elves);
  }
}
