/**
 * Day 5: supply stacks. A drawing of crate stacks is parsed into one
 * vector per stack (bottom first); "move n from a to b" instructions then
 * move crates between the stacks in place, one at a time or as a block.
 */
module Day5 {
  import opened Wrappers
  import opened Text
  import opened Seqs

  type Stacks = seq<seq<char>>

  // ----- parse_cargo -----

  /** The lines of the drawing above the label line, bottom row first. */
  function Rows(cargo: string): seq<string> {
    var lines := Lines(cargo);
    if lines == [] then [] else Reversed(lines[..|lines| - 1])
  }

  /** The label line " 1   2   3": one stack per token. */
  function Labels(cargo: string): seq<string> {
    var lines := Lines(cargo);
    if lines == [] then [] else Words(lines[|lines| - 1])
  }

  /** Column `i` of a row holds a crate: `i % 4 == 1` and the character is not a space. */
  predicate CrateAt(row: string, i: nat) {
    i < |row| && i % 4 == 1 && row[i] != ' '
  }

  /** The crates of stack `k`, read from the given rows in order: bottom to top. */
  function Column(rows: seq<string>, k: nat): seq<char> {
    if rows == [] then []
    else
      var row := rows[|rows| - 1];
      Column(rows[..|rows| - 1], k) + if CrateAt(row, 4 * k + 1) then [row[4 * k + 1]] else []
  }

  /** `stacks[i / 4]` does not panic: every crate stands over a labelled stack. */
  predicate CargoFits(cargo: string) {
    forall r, i | 0 <= r < |Rows(cargo)| && 0 <= i < |Rows(cargo)[r]| && CrateAt(Rows(cargo)[r], i) :: i / 4 < |Labels(cargo)|
  }

  /**
   * `parse_cargo`: one stack per token of the last (label) line; reading
   * the other lines bottom-up, a crate in column `i` goes on stack `i / 4`,
   * so every stack lists its crates bottom to top.
   */
  method ParseCargo(cargo: string) returns (stacks: Stacks)
    requires CargoFits(cargo)
    ensures |stacks| == |Labels(cargo)|
    ensures forall k | 0 <= k < |stacks| :: stacks[k] == Column(Rows(cargo), k)
  {
    var labels := Labels(cargo);
    var rows := Rows(cargo);
    stacks := seq(|labels|, _ => []);
    for r := 0 to |rows|
      invariant |stacks| == |labels|
      invariant forall k | 0 <= k < |stacks| :: stacks[k] == Column(rows[..r], k)
    {
      var row := rows[r];
      assert rows[..r + 1][..r] == rows[..r];
      for i := 0 to |row|
        invariant |stacks| == |labels|
        invariant forall k | 0 <= k < |stacks| ::
          stacks[k] == Column(rows[..r], k) + if 4 * k + 1 < i && CrateAt(row, 4 * k + 1) then [row[4 * k + 1]] else []
      {
        if i % 4 == 1 && row[i] != ' ' {
          assert CrateAt(rows[r], i);
          stacks := stacks[i / 4 := stacks[i / 4] + [row[i]]];
        }
      }
    }
    assert rows[..|rows|] == rows;
  }

  // ----- parse_instruction -----

  /** What `parse_instruction` fails with: too few numbers, or a number token that does not parse. */
  datatype InstructionError = CouldNotParse | ParseIntError

  predicate StartsWithDigit(token: string) {
    |token| > 0 && IsDigit(token[0])
  }

  /** The whitespace-separated tokens that start with a digit, in order. */
  function NumberTokens(tokens: seq<string>): (ts: seq<string>)
    ensures forall k | 0 <= k < |ts| :: StartsWithDigit(ts[k])
  {
    if tokens == [] then []
    else (if StartsWithDigit(tokens[0]) then [tokens[0]] else []) + NumberTokens(tokens[1..])
  }

  /**
   * `parse_instruction`: the first three digit-led tokens are read as
   * (amount, from, to), one after the other; a missing token gives
   * `CouldNotParse` and a token with a non-digit after its first digit
   * gives `ParseIntError`, whichever comes first.
   */
  function ParseInstruction(instruction: string): (r: Result<(nat, nat, nat), InstructionError>)
    ensures var ts := NumberTokens(Words(instruction));
      r.Ok? <==> |ts| >= 3 && AllDigits(ts[0]) && AllDigits(ts[1]) && AllDigits(ts[2])
    ensures var ts := NumberTokens(Words(instruction));
      r.Ok? ==> r.value == (DigitsValue(ts[0]), DigitsValue(ts[1]), DigitsValue(ts[2]))
  {
    var ts := NumberTokens(Words(instruction));
    if |ts| < 1 then Err(CouldNotParse)
    else match ParseInt(ts[0])
    case None => Err(ParseIntError)
    case Some(amount) =>
      if |ts| < 2 then Err(CouldNotParse)
      else match ParseNat(ts[1])
      case None => Err(ParseIntError)
      case Some(from) =>
        if |ts| < 3 then Err(CouldNotParse)
        else match ParseNat(ts[2])
        case None => Err(ParseIntError)
        case Some(to) => Ok((amount as nat, from, to))
  }

  function InstructionText(amount: nat, from: nat, to: nat): string {
    "move " + NatToString(amount) + " from " + NatToString(from) + " to " + NatToString(to)
  }

  lemma WordsCons(w: string, rest: string)
    requires |w| > 0 && forall i | 0 <= i < |w| :: NotSpace(w[i])
    ensures Words(w + " " + rest) == [w] + Words(rest)
  {
    RunsCons(w, ' ', rest, NotSpace);
  }

  lemma NumberHasNoSpace(n: nat)
    ensures forall i | 0 <= i < |NatToString(n)| :: NotSpace(NatToString(n)[i])
  {
  }

  lemma InstructionWords(a: string, f: string, t: string)
    requires |a| > 0 && forall i | 0 <= i < |a| :: NotSpace(a[i])
    requires |f| > 0 && forall i | 0 <= i < |f| :: NotSpace(f[i])
    requires |t| > 0 && forall i | 0 <= i < |t| :: NotSpace(t[i])
    ensures Words("move " + a + " from " + f + " to " + t) == ["move", a, "from", f, "to", t]
  {
    var tail1 := "to" + " " + t;
    var tail2 := f + " " + tail1;
    var tail3 := "from" + " " + tail2;
    var tail4 := a + " " + tail3;
    assert "move " + a + " from " + f + " to " + t == "move" + " " + tail4;
    WordsCons("move", tail4);
    WordsCons(a, tail3);
    WordsCons("from", tail2);
    WordsCons(f, tail1);
    WordsCons("to", t);
    RunsSingle(t, NotSpace);
  }

  lemma InstructionNumbers(a: string, f: string, t: string)
    requires StartsWithDigit(a) && StartsWithDigit(f) && StartsWithDigit(t)
    ensures NumberTokens(["move", a, "from", f, "to", t]) == [a, f, t]
  {
    assert !StartsWithDigit("move") && !StartsWithDigit("from") && !StartsWithDigit("to");
    assert NumberTokens([t]) == [t] by {
      assert [t][1..] == [];
    }
    assert NumberTokens(["to", t]) == [t] by {
      assert ["to", t][1..] == [t];
    }
    assert NumberTokens([f, "to", t]) == [f, t] by {
      assert [f, "to", t][1..] == ["to", t];
    }
    assert NumberTokens(["from", f, "to", t]) == [f, t] by {
      assert ["from", f, "to", t][1..] == [f, "to", t];
    }
    assert NumberTokens([a, "from", f, "to", t]) == [a, f, t] by {
      assert [a, "from", f, "to", t][1..] == ["from", f, "to", t];
    }
    assert ["move", a, "from", f, "to", t][1..] == [a, "from", f, "to", t];
  }

  /** An instruction written out as "move a from b to c" parses back to (a, b, c). */
  lemma ParseInstructionRoundTrip(amount: nat, from: nat, to: nat)
    ensures ParseInstruction(InstructionText(amount, from, to)) == Ok((amount, from, to))
  {
    var a, f, t := NatToString(amount), NatToString(from), NatToString(to);
    NumberHasNoSpace(amount);
    NumberHasNoSpace(from);
    NumberHasNoSpace(to);
    InstructionWords(a, f, t);
    InstructionNumbers(a, f, t);
    assert NumberTokens(Words(InstructionText(amount, from, to))) == [a, f, t];
    DigitsValueOfNatToString(amount);
    DigitsValueOfNatToString(from);
    DigitsValueOfNatToString(to);
  }

  // ----- perform_instruction / perform_instruction_grouped -----

  /** What moving fails with: the instruction does not parse, or a pop finds its stack empty. */
  datatype MoveError = BadInstruction(InstructionError) | EmptyStack

  /** Every crate on every stack. */
  function Crates(s: Stacks): multiset<char> {
    if s == [] then multiset{} else Crates(s[..|s| - 1]) + multiset(s[|s| - 1])
  }

  /** Replacing one stack trades its crates for the new ones. */
  lemma {:induction false} CratesUpdate(s: Stacks, i: nat, v: seq<char>)
    requires i < |s|
    ensures Crates(s[i := v]) + multiset(s[i]) == Crates(s) + multiset(v)
  {
    var n := |s| - 1;
    var t := s[i := v];
    if i < n {
      assert t[..n] == s[..n][i := v];
      CratesUpdate(s[..n], i, v);
      calc {
        Crates(t) + multiset(s[i]);
        Crates(s[..n][i := v]) + multiset(s[n]) + multiset(s[i]);
        (Crates(s[..n][i := v]) + multiset(s[..n][i])) + multiset(s[n]);
        (Crates(s[..n]) + multiset(v)) + multiset(s[n]);
        Crates(s) + multiset(v);
      }
    } else {
      assert t[..n] == s[..n];
    }
  }

  lemma Cancel(x: multiset<char>, y: multiset<char>, k: multiset<char>)
    requires x + k == y + k
    ensures x == y
  {
    forall c ensures x[c] == y[c] {
      assert (x + k)[c] == (y + k)[c];
    }
  }

  /** Taking crates off one stack and putting them on another keeps every crate. */
  lemma TransferConserves(s: Stacks, from: nat, to: nat, rest: seq<char>, block: seq<char>)
    requires from < |s| && to < |s| && from != to && s[from] == rest + block
    ensures Crates(s[from := rest][to := s[to] + block]) == Crates(s)
  {
    var s0 := s[from := rest];
    var s1 := s0[to := s0[to] + block];
    CratesUpdate(s, from, rest);
    CratesUpdate(s0, to, s0[to] + block);
    calc {
      Crates(s1) + (multiset(s0[to]) + multiset(s[from]));
      (Crates(s1) + multiset(s0[to])) + multiset(s[from]);
      Crates(s0) + multiset(s0[to] + block) + multiset(s[from]);
      (Crates(s0) + multiset(s[from])) + multiset(s0[to]) + multiset(block);
      Crates(s) + multiset(rest) + multiset(s0[to]) + multiset(block);
      Crates(s) + (multiset(s0[to]) + multiset(rest + block));
      Crates(s) + (multiset(s0[to]) + multiset(s[from]));
    }
    Cancel(Crates(s1), Crates(s), multiset(s0[to]) + multiset(s[from]));
  }

  /** One crate popped off stack `from` and pushed on stack `to`; `None` when `from` is empty. */
  function MoveOne(s: Stacks, from: int, to: int): Option<Stacks>
    requires 0 <= from < |s| && (s[from] != [] ==> 0 <= to < |s|)
  {
    if s[from] == [] then None
    else
      var n := |s[from]|;
      var s1 := s[from := s[from][..n - 1]];
      Some(s1[to := s1[to] + [s[from][n - 1]]])
  }

  /**
   * `amount` single moves in a row: whether they all succeeded, and the
   * stacks reached (those at the failed pop when one failed).
   */
  function MoveCrates(s: Stacks, amount: nat, from: int, to: int): (bool, Stacks)
    requires amount > 0 ==> 0 <= from < |s| && (s[from] != [] ==> 0 <= to < |s|)
    decreases amount
  {
    if amount == 0 then (true, s)
    else
      match MoveOne(s, from, to)
      case None => (false, s)
      case Some(s1) => MoveCrates(s1, amount - 1, from, to)
  }

  /**
   * With enough crates on a different stack, `from` loses its top `amount`
   * crates and `to` gains them in reverse order; nothing else changes.
   */
  lemma {:induction false} MoveCratesReverses(s: Stacks, amount: nat, from: nat, to: nat)
    requires from < |s| && to < |s| && from != to && amount <= |s[from]|
    ensures var n := |s[from]|;
      MoveCrates(s, amount, from, to) ==
        (true, s[from := s[from][..n - amount]][to := s[to] + Reversed(s[from][n - amount..])])
    decreases amount
  {
    var n := |s[from]|;
    if amount == 0 {
      assert s[from][..n] == s[from];
      assert s[from][n..] == [];
      assert Reversed<char>([]) == [];
      assert s[to] + [] == s[to];
      assert s[from := s[from]] == s;
      assert s[to := s[to]] == s;
    } else {
      var top := s[from][n - 1];
      var rest := s[from][..n - 1];
      var s1 := s[from := rest][to := s[to] + [top]];
      assert MoveOne(s, from, to) == Some(s1);
      assert MoveCrates(s, amount, from, to) == MoveCrates(s1, amount - 1, from, to);
      MoveCratesReverses(s1, amount - 1, from, to);
      var mid := s[from][n - amount..n - 1];
      assert s1[from] == rest && |rest| == n - 1;
      assert rest[n - amount..] == mid;
      assert rest[..n - amount] == s[from][..n - amount];
      assert s[from][n - amount..] == mid + [top];
      ReversedAppend(mid, [top]);
      assert Reversed([top]) == [top];
      assert s1[to] + Reversed(mid) == s[to] + Reversed(mid + [top]);
      assert s1[from := s[from][..n - amount]][to := s1[to] + Reversed(mid)]
          == s[from := s[from][..n - amount]][to := s[to] + Reversed(mid + [top])];
    }
  }

  /** Moving onto the same stack puts each crate back: the stacks do not change, unless the stack is empty. */
  lemma {:induction false} MoveCratesSameStack(s: Stacks, amount: nat, i: nat)
    requires i < |s| && s[i] != []
    ensures MoveCrates(s, amount, i, i) == (true, s)
    decreases amount
  {
    if amount > 0 {
      var n := |s[i]|;
      var s1 := s[i := s[i][..n - 1]];
      assert s1[i] + [s[i][n - 1]] == s[i];
      assert s1[i := s[i]] == s;
      assert MoveOne(s, i, i) == Some(s);
      MoveCratesSameStack(s, amount - 1, i);
    }
  }

  /**
   * Asking a different stack for more crates than it holds moves all of
   * them, reversed, and then fails on the empty stack.
   */
  lemma {:induction false} MoveCratesRunsOut(s: Stacks, amount: nat, from: nat, to: nat)
    requires from < |s| && to < |s| && from != to && amount > |s[from]|
    ensures MoveCrates(s, amount, from, to) == (false, s[from := []][to := s[to] + Reversed(s[from])])
    decreases amount
  {
    var n := |s[from]|;
    if n == 0 {
      assert MoveOne(s, from, to) == None;
      assert Reversed(s[from]) == [];
      assert s[to] + [] == s[to];
      assert s[from := []] == s;
      assert s[to := s[to]] == s;
    } else {
      var top := s[from][n - 1];
      var rest := s[from][..n - 1];
      var s1 := s[from := rest][to := s[to] + [top]];
      assert MoveOne(s, from, to) == Some(s1);
      assert MoveCrates(s, amount, from, to) == MoveCrates(s1, amount - 1, from, to);
      MoveCratesRunsOut(s1, amount - 1, from, to);
      assert s1[from] == rest;
      assert s[from] == rest + [top];
      ReversedAppend(rest, [top]);
      assert Reversed([top]) == [top];
      assert s1[to] + Reversed(rest) == s[to] + Reversed(s[from]);
      assert s1[from := []][to := s1[to] + Reversed(rest)]
          == s[from := []][to := s[to] + Reversed(s[from])];
    }
  }

  /** Single moves never lose or create a crate, whether or not they run out. */
  lemma {:induction false} MoveCratesConserves(s: Stacks, amount: nat, from: int, to: int)
    requires amount > 0 ==> 0 <= from < |s| && (s[from] != [] ==> 0 <= to < |s|)
    ensures Crates(MoveCrates(s, amount, from, to).1) == Crates(s)
    decreases amount
  {
    if amount > 0 && s[from] != [] {
      MoveOneConserves(s, from, to);
      var s1 := MoveOne(s, from, to).value;
      assert MoveCrates(s, amount, from, to) == MoveCrates(s1, amount - 1, from, to);
      MoveCratesConserves(s1, amount - 1, from, to);
    }
  }

  /** A single move off a non-empty stack succeeds and keeps every crate. */
  lemma MoveOneConserves(s: Stacks, from: nat, to: nat)
    requires from < |s| && to < |s| && s[from] != []
    ensures MoveOne(s, from, to).Some? && Crates(MoveOne(s, from, to).value) == Crates(s)
  {
    if from == to {
      MoveOneSameStack(s, from);
    } else {
      var n := |s[from]|;
      assert s[from] == s[from][..n - 1] + [s[from][n - 1]];
      TransferConserves(s, from, to, s[from][..n - 1], [s[from][n - 1]]);
    }
  }

  /** A crate moved onto its own stack lands where it was. */
  lemma MoveOneSameStack(s: Stacks, i: nat)
    requires i < |s| && s[i] != []
    ensures MoveOne(s, i, i) == Some(s)
  {
    var n := |s[i]|;
    var s1 := s[i := s[i][..n - 1]];
    assert s1[i] + [s[i][n - 1]] == s[i];
    assert s1[i := s[i]] == s;
  }

  /**
   * The block move: with enough crates, `from` loses its top `amount`
   * crates and `to` gains them in their original order; otherwise every
   * crate of `from` has been popped into the buffer and nothing is pushed.
   */
  function MoveGrouped(s: Stacks, amount: nat, from: int, to: int): (bool, Stacks)
    requires amount > 0 ==> 0 <= from < |s| && (amount <= |s[from]| ==> 0 <= to < |s|)
  {
    if amount == 0 then (true, s)
    else
      var n := |s[from]|;
      if amount <= n then
        var s1 := s[from := s[from][..n - amount]];
        (true, s1[to := s1[to] + s[from][n - amount..]])
      else
        (false, s[from := []])
  }

  /** A successful block move keeps every crate. */
  lemma MoveGroupedConserves(s: Stacks, amount: nat, from: nat, to: nat)
    requires from < |s| && to < |s| && amount <= |s[from]|
    ensures MoveGrouped(s, amount, from, to).0
    ensures Crates(MoveGrouped(s, amount, from, to).1) == Crates(s)
  {
    if amount > 0 {
      if from == to {
        MoveGroupedSameStack(s, amount, from);
      } else {
        var n := |s[from]|;
        assert s[from] == s[from][..n - amount] + s[from][n - amount..];
        TransferConserves(s, from, to, s[from][..n - amount], s[from][n - amount..]);
      }
    }
  }

  /** A block moved onto its own stack lands where it was. */
  lemma MoveGroupedSameStack(s: Stacks, amount: nat, i: nat)
    requires i < |s| && amount <= |s[i]|
    ensures MoveGrouped(s, amount, i, i) == (true, s)
  {
    var n := |s[i]|;
    if amount > 0 {
      var s1 := s[i := s[i][..n - amount]];
      assert s1[i] + s[i][n - amount..] == s[i];
      assert s1[i := s[i]] == s;
    }
  }

  /** Two crates moved one at a time arrive reversed; moved as a block they keep their order. */
  lemma SingleAndGroupedDiffer()
    ensures MoveCrates([['A', 'B'], []], 2, 0, 1) == (true, [[], ['B', 'A']])
    ensures MoveGrouped([['A', 'B'], []], 2, 0, 1) == (true, [[], ['A', 'B']])
  {
    var s: Stacks := [['A', 'B'], []];
    MoveCratesReverses(s, 2, 0, 1);
    assert s[0][..0] == [] && s[0][0..] == ['A', 'B'];
    assert Reversed(['A', 'B']) == ['B', 'A'] by {
      assert ['A', 'B'][..1] == ['A'];
      assert Reversed(['A']) == ['A'];
    }
    assert [] + ['B', 'A'] == ['B', 'A'];
    assert s[0 := []][1 := ['B', 'A']] == [[], ['B', 'A']];
    assert [] + ['A', 'B'] == ['A', 'B'];
    assert s[0 := []][1 := ['A', 'B']] == [[], ['A', 'B']];
  }

  /** `perform_instruction` does not panic: every stack it indexes exists. */
  predicate SingleMoveSafe(instruction: string, s: Stacks) {
    match ParseInstruction(instruction)
    case Err(_) => true
    case Ok((amount, from, to)) =>
      amount > 0 ==> 1 <= from <= |s| && (s[from - 1] != [] ==> 1 <= to <= |s|)
  }

  /** `perform_instruction_grouped` does not panic: every stack it indexes exists. */
  predicate GroupedMoveSafe(instruction: string, s: Stacks) {
    match ParseInstruction(instruction)
    case Err(_) => true
    case Ok((amount, from, to)) =>
      amount > 0 ==> 1 <= from <= |s| && (amount <= |s[from - 1]| ==> 1 <= to <= |s|)
  }

  /**
   * `perform_instruction`: pop from stack `from` and push on stack `to`,
   * `amount` times, in place; a pop on an empty stack stops with
   * `EmptyStack` after the moves already made.
   */
  method PerformInstruction(instruction: string, cargo: array<seq<char>>) returns (r: Result<(), MoveError>)
    requires SingleMoveSafe(instruction, cargo[..])
    modifies cargo
    ensures ParseInstruction(instruction).Err? ==>
              r == Err(BadInstruction(ParseInstruction(instruction).error)) && cargo[..] == old(cargo[..])
    ensures ParseInstruction(instruction).Ok? ==>
              var (amount, from, to) := ParseInstruction(instruction).value;
              var (ok, after) := MoveCrates(old(cargo[..]), amount, from - 1, to - 1);
              cargo[..] == after && r == (if ok then Ok(()) else Err(EmptyStack))
  {
    var parsed := ParseInstruction(instruction);
    if parsed.Err? {
      return Err(BadInstruction(parsed.error));
    }
    var (amount, from, to) := parsed.value;
    var src, dst := from as int - 1, to as int - 1;
    ghost var start := cargo[..];
    var i := 0;
    while i < amount
      invariant 0 <= i <= amount
      invariant amount - i > 0 ==> 0 <= src < cargo.Length && (cargo[src] != [] ==> 0 <= dst < cargo.Length)
      invariant MoveCrates(cargo[..], amount - i, src, dst) == MoveCrates(start, amount, src, dst)
    {
      if cargo[src] == [] {
        return Err(EmptyStack);
      }
      ghost var before := cargo[..];
      var n := |cargo[src]|;
      var top := cargo[src][n - 1];
      cargo[src] := cargo[src][..n - 1];
      cargo[dst] := cargo[dst] + [top];
      assert MoveOne(before, src, dst) == Some(cargo[..]);
      i := i + 1;
    }
    return Ok(());
  }

  /**
   * `perform_instruction_grouped`: pop `amount` crates into a buffer
   * (each in front of the ones popped before), then push the buffer onto
   * stack `to`; a pop on an empty stack stops with `EmptyStack`, the
   * popped crates gone.
   */
  method PerformInstructionGrouped(instruction: string, cargo: array<seq<char>>) returns (r: Result<(), MoveError>)
    requires GroupedMoveSafe(instruction, cargo[..])
    modifies cargo
    ensures ParseInstruction(instruction).Err? ==>
              r == Err(BadInstruction(ParseInstruction(instruction).error)) && cargo[..] == old(cargo[..])
    ensures ParseInstruction(instruction).Ok? ==>
              var (amount, from, to) := ParseInstruction(instruction).value;
              var (ok, after) := MoveGrouped(old(cargo[..]), amount, from - 1, to - 1);
              cargo[..] == after && r == (if ok then Ok(()) else Err(EmptyStack))
  {
    var parsed := ParseInstruction(instruction);
    if parsed.Err? {
      return Err(BadInstruction(parsed.error));
    }
    var (amount, from, to) := parsed.value;
    var src, dst := from as int - 1, to as int - 1;
    ghost var start := cargo[..];
    ghost var n := if amount > 0 then |cargo[src]| else 0;
    var temp: seq<char> := [];
    if amount > 0 {
      assert start[src][..n] == start[src];
      assert start[src := start[src]] == start;
    }
    for i := 0 to amount
      invariant amount == 0 ==> temp == [] && cargo[..] == start
      invariant amount > 0 ==> 0 <= src < cargo.Length && i <= n
      invariant amount > 0 ==> cargo[..] == start[src := start[src][..n - i]]
      invariant amount > 0 ==> temp == start[src][n - i..]
    {
      if cargo[src] == [] {
        assert start[src][..n - i] == [];
        return Err(EmptyStack);
      }
      var m := |cargo[src]|;
      assert m == n - i;
      assert start[src][n - i - 1..] == [start[src][n - i - 1]] + start[src][n - i..];
      assert start[src][..n - i][..m - 1] == start[src][..n - i - 1];
      temp := [cargo[src][m - 1]] + temp;
      cargo[src] := cargo[src][..m - 1];
    }
    assert amount > 0 ==> 0 <= dst < cargo.Length;
    ghost var popped := cargo[..];
    if amount > 0 {
      assert temp[..0] == [] && popped[dst] + [] == popped[dst];
      assert popped[dst := popped[dst]] == popped;
    }
    for j := 0 to |temp|
      invariant amount > 0 ==> 0 <= dst < cargo.Length && cargo[..] == popped[dst := popped[dst] + temp[..j]]
      invariant amount == 0 ==> temp == [] && cargo[..] == start
    {
      assert (popped[dst] + temp[..j]) + [temp[j]] == popped[dst] + temp[..j + 1];
      cargo[dst] := cargo[dst] + [temp[j]];
    }
    if amount > 0 {
      assert temp[..|temp|] == temp;
    }
    return Ok(());
  }

  /** `get_tops`: the top crate of every stack, in stack order; "empty stack" when any stack is empty. */
  method GetTops(cargo: array<seq<char>>) returns (r: Result<string, string>)
    ensures r.Err? <==> exists k | 0 <= k < cargo.Length :: cargo[k] == []
    ensures r.Err? ==> r.error == "empty stack"
    ensures r.Ok? ==> |r.value| == cargo.Length
    ensures r.Ok? ==> forall k | 0 <= k < cargo.Length :: r.value[k] == cargo[k][|cargo[k]| - 1]
  {
    var tops := "";
    for k := 0 to cargo.Length
      invariant |tops| == k
      invariant forall j | 0 <= j < k :: cargo[j] != [] && tops[j] == cargo[j][|cargo[j]| - 1]
    {
      if cargo[k] == [] {
        return Err("empty stack");
      }
      tops := tops + [cargo[k][|cargo[k]| - 1]];
    }
    return Ok(tops);
  }

  // ----- puzzle1 / puzzle2 -----

  /** The stacks `parse_cargo` builds, as a value. */
  function CargoStacks(cargo: string): (s: Stacks)
    ensures |s| == |Labels(cargo)|
  {
    seq(|Labels(cargo)|, k requires 0 <= k => Column(Rows(cargo), k))
  }

  /** One instruction applied with the chosen crane: its result and the stacks after it. */
  function Step(s: Stacks, instruction: string, grouped: bool): (Result<(), MoveError>, Stacks)
    requires if grouped then GroupedMoveSafe(instruction, s) else SingleMoveSafe(instruction, s)
  {
    match ParseInstruction(instruction)
    case Err(e) => (Err(BadInstruction(e)), s)
    case Ok((amount, from, to)) =>
      var (ok, after) :=
        if grouped then MoveGrouped(s, amount, from as int - 1, to as int - 1)
        else MoveCrates(s, amount, from as int - 1, to as int - 1);
      (if ok then Ok(()) else Err(EmptyStack), after)
  }

  /** No instruction of the run indexes a missing stack, up to the first one that fails. */
  predicate RunSafe(s: Stacks, instructions: seq<string>, grouped: bool)
    decreases |instructions|
  {
    instructions == [] ||
    ((if grouped then GroupedMoveSafe(instructions[0], s) else SingleMoveSafe(instructions[0], s)) &&
     var (r, after) := Step(s, instructions[0], grouped);
     r.Ok? ==> RunSafe(after, instructions[1..], grouped))
  }

  /** The instructions applied in order, stopping at the first error. */
  function Run(s: Stacks, instructions: seq<string>, grouped: bool): (Result<(), MoveError>, Stacks)
    requires RunSafe(s, instructions, grouped)
    decreases |instructions|
  {
    if instructions == [] then (Ok(()), s)
    else
      var (r, after) := Step(s, instructions[0], grouped);
      if r.Err? then (r, after) else Run(after, instructions[1..], grouped)
  }

  /** Moving crates one at a time never loses or creates one, even when a move fails. */
  lemma {:induction false} RunConserves(s: Stacks, instructions: seq<string>)
    requires RunSafe(s, instructions, false)
    ensures Crates(Run(s, instructions, false).1) == Crates(s)
    decreases |instructions|
  {
    if instructions != [] {
      StepConserves(s, instructions[0]);
      var (r, after) := Step(s, instructions[0], false);
      if r.Ok? {
        RunConserves(after, instructions[1..]);
      }
    }
  }

  /** One instruction for the single-crate crane keeps every crate, whatever its result. */
  lemma StepConserves(s: Stacks, instruction: string)
    requires SingleMoveSafe(instruction, s)
    ensures Crates(Step(s, instruction, false).1) == Crates(s)
  {
    var parsed := ParseInstruction(instruction);
    if parsed.Ok? {
      var (amount, from, to) := parsed.value;
      MoveCratesConserves(s, amount, from as int - 1, to as int - 1);
    }
  }

  /** Moving crates in blocks keeps every crate as long as no move fails. */
  lemma {:induction false} RunGroupedConserves(s: Stacks, instructions: seq<string>)
    requires RunSafe(s, instructions, true)
    ensures Run(s, instructions, true).0.Ok? ==> Crates(Run(s, instructions, true).1) == Crates(s)
    decreases |instructions|
  {
    if instructions != [] {
      StepGroupedConserves(s, instructions[0]);
      var (r, after) := Step(s, instructions[0], true);
      if r.Ok? {
        RunGroupedConserves(after, instructions[1..]);
      }
    }
  }

  /** One instruction for the block crane keeps every crate when it succeeds. */
  lemma StepGroupedConserves(s: Stacks, instruction: string)
    requires GroupedMoveSafe(instruction, s)
    ensures Step(s, instruction, true).0.Ok? ==> Crates(Step(s, instruction, true).1) == Crates(s)
  {
    var parsed := ParseInstruction(instruction);
    if parsed.Ok? {
      var (amount, from, to) := parsed.value;
      var (ok, after) := MoveGrouped(s, amount, from as int - 1, to as int - 1);
      assert Step(s, instruction, true) == (if ok then Ok(()) else Err(EmptyStack), after);
      if amount > 0 && amount <= |s[from - 1]| {
        MoveGroupedConserves(s, amount, from - 1, to - 1);
      }
    }
  }

  /** The text holds "\n\r\n" at position `i`. */
  predicate SeparatorAt(text: string, i: int) {
    0 <= i && i + 3 <= |text| && text[i] == '\n' && text[i + 1] == '\r' && text[i + 2] == '\n'
  }

  /** `text.find("\n\r\n")` from position `start` on. */
  function FindSeparatorFrom(text: string, start: nat): (r: Option<nat>)
    ensures r.Some? ==> start <= r.value && SeparatorAt(text, r.value)
    ensures r.Some? ==> forall i | start <= i < r.value :: !SeparatorAt(text, i)
    ensures r.None? ==> forall i | start <= i :: !SeparatorAt(text, i)
    decreases |text| - start
  {
    if start + 3 > |text| then None
    else if SeparatorAt(text, start) then Some(start)
    else FindSeparatorFrom(text, start + 1)
  }

  /** The position of the first "\n\r\n" in the text, if any. */
  function FindSeparator(text: string): Option<nat> {
    FindSeparatorFrom(text, 0)
  }

  /** Why a puzzle fails: no blank line after the drawing, a failing instruction, or an empty stack at the end. */
  datatype PuzzleError = NoSeparator | Move(MoveError) | EmptyStackAtEnd

  /** The puzzle does not panic: every crate is over a labelled stack and every instruction names existing stacks. */
  predicate PuzzleSafe(text: string, grouped: bool) {
    match FindSeparator(text)
    case None => true
    case Some(i) =>
      CargoFits(text[..i]) && RunSafe(CargoStacks(text[..i]), Lines(text[i + 3..]), grouped)
  }

  /** The top crate of every stack, or `None` when one is empty. */
  function Tops(s: Stacks): Option<string> {
    if exists k | 0 <= k < |s| :: s[k] == [] then None
    else Some(seq(|s|, k requires 0 <= k < |s| => s[k][|s[k]| - 1]))
  }

  /** The answer for a drawing and its instructions: the top crates after every move. */
  function Outcome(drawing: string, instructions: seq<string>, grouped: bool): Result<string, PuzzleError>
    requires RunSafe(CargoStacks(drawing), instructions, grouped)
  {
    var (moved, after) := Run(CargoStacks(drawing), instructions, grouped);
    if moved.Err? then Err(Move(moved.error))
    else match Tops(after)
      case None => Err(EmptyStackAtEnd)
      case Some(tops) => Ok(tops)
  }

  /** What `puzzle1` (`grouped` false) and `puzzle2` (`grouped` true) answer for the text of the input file. */
  function Answer(text: string, grouped: bool): Result<string, PuzzleError>
    requires PuzzleSafe(text, grouped)
  {
    match FindSeparator(text)
    case None => Err(NoSeparator)
    case Some(i) => Outcome(text[..i], Lines(text[i + 3..]), grouped)
  }

  /** Every instruction of `instructions`, applied in order to `cargo` until one fails. */
  method RunInstructions(instructions: seq<string>, cargo: array<seq<char>>, grouped: bool)
      returns (r: Result<(), MoveError>)
    requires RunSafe(cargo[..], instructions, grouped)
    modifies cargo
    ensures (r, cargo[..]) == Run(old(cargo[..]), instructions, grouped)
  {
    ghost var start := cargo[..];
    var k := 0;
    while k < |instructions|
      invariant 0 <= k <= |instructions|
      invariant RunSafe(cargo[..], instructions[k..], grouped)
      invariant Run(start, instructions, grouped) == Run(cargo[..], instructions[k..], grouped)
    {
      ghost var before := cargo[..];
      r := Perform(instructions[k], cargo, grouped);
      assert (r, cargo[..]) == Step(before, instructions[k], grouped);
      assert instructions[k..][1..] == instructions[k + 1..];
      if r.Err? {
        return;
      }
      k := k + 1;
    }
    return Ok(());
  }

  /** One instruction with the chosen crane. */
  method Perform(instruction: string, cargo: array<seq<char>>, grouped: bool) returns (r: Result<(), MoveError>)
    requires if grouped then GroupedMoveSafe(instruction, cargo[..]) else SingleMoveSafe(instruction, cargo[..])
    modifies cargo
    ensures (r, cargo[..]) == Step(old(cargo[..]), instruction, grouped)
  {
    if grouped {
      r := PerformInstructionGrouped(instruction, cargo);
    } else {
      r := PerformInstruction(instruction, cargo);
    }
  }

  /** Parse the drawing, run the instructions and read the tops. */
  method Solve(drawing: string, instructions: seq<string>, grouped: bool) returns (r: Result<string, PuzzleError>)
    requires CargoFits(drawing) && RunSafe(CargoStacks(drawing), instructions, grouped)
    ensures r == Outcome(drawing, instructions, grouped)
  {
    var stacks := ParseCargo(drawing);
    assert stacks == CargoStacks(drawing);
    var cargo := new seq<char>[|stacks|](k requires 0 <= k < |stacks| => stacks[k]);
    assert cargo[..] == stacks;
    var moved := RunInstructions(instructions, cargo, grouped);
    ghost var after := cargo[..];
    assert (moved, after) == Run(CargoStacks(drawing), instructions, grouped);
    if moved.Err? {
      return Err(Move(moved.error));
    }
    var tops := GetTops(cargo);
    if tops.Err? {
      assert Tops(after) == None;
      return Err(EmptyStackAtEnd);
    }
    assert forall k | 0 <= k < |after| :: after[k] == cargo[k] && after[k] != [];
    TopsOf(after, tops.value);
    return Ok(tops.value);
  }

  /** A string holding the top crate of every stack, none of them empty, is what `Tops` gives. */
  lemma TopsOf(s: Stacks, tops: string)
    requires |tops| == |s|
    requires forall k | 0 <= k < |s| :: s[k] != [] && tops[k] == s[k][|s[k]| - 1]
    ensures Tops(s) == Some(tops)
  {
    assert !exists k | 0 <= k < |s| :: s[k] == [];
    assert tops == seq(|s|, k requires 0 <= k < |s| => s[k][|s[k]| - 1]);
  }

  /**
   * `puzzle1` (one crate at a time) and `puzzle2` (in blocks) on the text
   * of the input file: the drawing before the first "\n\r\n", the
   * instructions after it, and the top crate of every stack at the end.
   */
  method Puzzle(text: string, grouped: bool) returns (r: Result<string, PuzzleError>)
    requires PuzzleSafe(text, grouped)
    ensures r == Answer(text, grouped)
  {
    var found := FindSeparator(text);
    if found.None? {
      return Err(NoSeparator);
    }
    var i := found.value;
    r := Solve(text[..i], Lines(text[i + 3..]), grouped);
  }
}
