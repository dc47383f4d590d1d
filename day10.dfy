/**
 * Day 10: a toy CPU with one register `x`. `noop` takes one clock cycle,
 * `addx v` takes two and adds `v` to `x` at the end of the second.
 */
module Day10 {
  import opened Wrappers
  import opened Text

  datatype Instruction = Add(v: int) | Noop

  datatype InstructionParseError = NotEnoughArguments | InvalidInstruction(token: string) | ParseIntError

  // ----- Instruction::try_from -----

  /** `try_from`: the first token names the instruction, `addx` takes an integer operand; later tokens are ignored. */
  function TryFrom(line: string): (r: Result<Instruction, InstructionParseError>)
    ensures Words(line) == [] ==> r == Err(NotEnoughArguments)
    ensures |Words(line)| > 0 && Words(line)[0] == "noop" ==> r == Ok(Noop)
    ensures |Words(line)| == 1 && Words(line)[0] == "addx" ==> r == Err(NotEnoughArguments)
    ensures |Words(line)| > 1 && Words(line)[0] == "addx" ==>
              r == (match ParseInt(Words(line)[1])
                    case Some(v) => Ok(Add(v))
                    case None => Err(ParseIntError))
    ensures |Words(line)| > 0 && Words(line)[0] != "noop" && Words(line)[0] != "addx" ==>
              r == Err(InvalidInstruction(Words(line)[0]))
  {
    var args := Words(line);
    if args == [] then Err(NotEnoughArguments)
    else if args[0] == "noop" then Ok(Noop)
    else if args[0] == "addx" then
      if |args| < 2 then Err(NotEnoughArguments)
      else match ParseInt(args[1])
        case Some(v) => Ok(Add(v))
        case None => Err(ParseIntError)
    else Err(InvalidInstruction(args[0]))
  }

  /** The program text of an instruction. */
  function Render(i: Instruction): string {
    match i
    case Noop => "noop"
    case Add(v) => "addx " + IntToString(v)
  }

  /** Parsing a rendered instruction gives it back. */
  lemma TryFromRender(i: Instruction)
    ensures TryFrom(Render(i)) == Ok(i)
  {
    match i
    case Noop =>
      RunsSingle("noop", NotSpace);
    case Add(v) =>
      IntToStringNoSpace(v);
      assert Render(i) == "addx" + [' '] + IntToString(v);
      RunsCons("addx", ' ', IntToString(v), NotSpace);
      RunsSingle(IntToString(v), NotSpace);
      ParseIntRoundTrip(v);
  }

  // ----- Computer -----

  /** The computer's state as a value. */
  datatype Cpu = Cpu(x: int, cycle: int, instruction: Instruction, wait: bool)

  /** `Computer::default`. */
  const Initial := Cpu(1, 0, Noop, false)

  /** `set_instruction`: load an instruction, waiting one extra cycle for `addx`. */
  function Load(s: Cpu, i: Instruction): (t: Cpu)
    ensures t.instruction == i && (t.wait <==> i.Add?)
    ensures t.x == s.x && t.cycle == s.cycle
  {
    s.(instruction := i, wait := i.Add?)
  }

  /** `cycle_clock`: one clock tick; the flag says whether the current instruction has finished. */
  function Tick(s: Cpu): (r: (bool, Cpu))
    ensures r.1.cycle == s.cycle + 1 && r.1.instruction == s.instruction
    ensures s.instruction.Noop? ==> r == (true, s.(cycle := s.cycle + 1))
  {
    var s1 := s.(cycle := s.cycle + 1);
    match s.instruction
    case Add(v) => if s.wait then (false, s1.(wait := false)) else (true, s1.(x := s.x + v))
    case Noop => (true, s1)
  }

  /** An `addx v` finishes on its second tick, and only then adds `v` to `x`. */
  lemma AddTakesTwoTicks(s: Cpu, v: int)
    ensures var a := Tick(Load(s, Add(v)));
            var b := Tick(a.1);
            !a.0 && a.1.x == s.x && b.0 && b.1.x == s.x + v && b.1.cycle == s.cycle + 2
  {
  }

  /** A `noop` finishes on its first tick and leaves `x` alone. */
  lemma NoopTakesOneTick(s: Cpu)
    ensures var a := Tick(Load(s, Noop));
            a.0 && a.1.x == s.x && a.1.cycle == s.cycle + 1
  {
  }

  class Computer {
    var x: int
    var cycle: int
    var instruction: Instruction
    var wait: bool

    function State(): Cpu
      reads this
    {
      Cpu(x, cycle, instruction, wait)
    }

    /** `Computer::default`: x = 1, cycle 0, idle on `noop`. */
    constructor Default()
      ensures State() == Initial
    {
      x := 1;
      cycle := 0;
      instruction := Noop;
      wait := false;
    }

    /** `set_instruction`. */
    method SetInstruction(i: Instruction)
      modifies this
      ensures State() == Load(old(State()), i)
      ensures x == old(x) && cycle == old(cycle) && (wait <==> i.Add?)
    {
      wait := false;
      if i.Add? {
        wait := true;
      }
      instruction := i;
    }

    /** `cycle_clock`. */
    method CycleClock() returns (done: bool)
      modifies this
      ensures (done, State()) == Tick(old(State()))
      ensures cycle == old(cycle) + 1
    {
      cycle := cycle + 1;
      match instruction
      case Add(v) =>
        if wait {
          wait := false;
          done := false;
        } else {
          x := x + v;
          done := true;
        }
      case Noop =>
        done := true;
    }
  }

  // ----- puzzle1 -----

  datatype PuzzleError = NotEnoughInstructions | BadInstruction(InstructionParseError)

  /** Cycles 20, 60, ..., 220, where the loop of `puzzle1` samples `x`. */
  predicate IsSample(c: int) {
    0 <= c <= 220 && (c - 20) % 40 == 0
  }

  /**
   * The loop of `puzzle1` from iteration `i` on: sample `x` at the sample
   * cycles, tick, and load the next line whenever an instruction finishes.
   */
  function Execute(s: Cpu, lines: seq<string>, i: nat, sum: int): Result<int, PuzzleError>
    decreases 221 - i, |lines|
  {
    if i > 220 then Ok(sum)
    else
      var sum' := if (i - 20) % 40 == 0 then sum + i * s.x else sum;
      var (done, t) := Tick(s);
      if !done then Execute(t, lines, i + 1, sum')
      else if lines == [] then Err(NotEnoughInstructions)
      else match TryFrom(lines[0])
        case Err(e) => Err(BadInstruction(e))
        case Ok(ins) => Execute(Load(t, ins), lines[1..], i + 1, sum')
  }

  /** `puzzle1`: the sum of the signal strengths at the sample cycles. */
  method Puzzle1(text: string) returns (r: Result<int, PuzzleError>)
    ensures r == Execute(Initial, Lines(text), 0, 0)
  {
    var lines := Lines(text);
    var computer := new Computer.Default();
    var sum := 0;
    var k := 0;
    for i := 0 to 221
      invariant k <= |lines|
      invariant Execute(Initial, lines, 0, 0) == Execute(computer.State(), lines[k..], i, sum)
    {
      if (i - 20) % 40 == 0 {
        sum := sum + i * computer.x;
      }
      var done := computer.CycleClock();
      if done {
        if k == |lines| {
          return Err(NotEnoughInstructions);
        }
        var parsed := TryFrom(lines[k]);
        if parsed.Err? {
          return Err(BadInstruction(parsed.error));
        }
        assert lines[k..][1..] == lines[k + 1..];
        computer.SetInstruction(parsed.value);
        k := k + 1;
      }
    }
    return Ok(sum);
  }

  // ----- a cycle-by-cycle reference -----

  /** The number of cycles a program takes. */
  function Cycles(ins: seq<Instruction>): nat {
    if ins == [] then 0 else (if ins[0].Add? then 2 else 1) + Cycles(ins[1..])
  }

  /** The value of `x` during each cycle of a program started with `x`. */
  function Trace(x: int, ins: seq<Instruction>): (xs: seq<int>)
    ensures |xs| == Cycles(ins)
    decreases ins
  {
    if ins == [] then []
    else match ins[0]
      case Noop => [x] + Trace(x, ins[1..])
      case Add(v) => [x, x] + Trace(x + v, ins[1..])
  }

  /** The signal strength `c * x` summed over the sample cycles, `xs[0]` being the value during cycle `c`. */
  function Strength(xs: seq<int>, c: nat): int {
    if xs == [] then 0 else (if IsSample(c) then c * xs[0] else 0) + Strength(xs[1..], c + 1)
  }

  lemma {:induction false} StrengthLate(xs: seq<int>, c: nat)
    requires c > 220
    ensures Strength(xs, c) == 0
  {
    if xs != [] {
      StrengthLate(xs[1..], c + 1);
    }
  }

  /** Every line parses, to the instruction at the same position. */
  predicate ParsesTo(lines: seq<string>, ins: seq<Instruction>) {
    |lines| == |ins| && forall k | 0 <= k < |lines| :: TryFrom(lines[k]) == Ok(ins[k])
  }

  lemma ParsesToRest(lines: seq<string>, ins: seq<Instruction>)
    requires ParsesTo(lines, ins) && lines != []
    ensures ParsesTo(lines[1..], ins[1..])
  {
    assert forall k | 0 <= k < |lines| - 1 :: lines[1..][k] == lines[k + 1] && ins[1..][k] == ins[k + 1];
  }

  /**
   * With the first of `ins` just loaded before iteration `i`, the loop
   * sums the strengths of the trace, provided the program lasts past
   * cycle 220 (at the last iteration it still loads the next instruction).
   */
  lemma {:induction false} ExecuteTrace(s: Cpu, lines: seq<string>, ins: seq<Instruction>, i: nat, sum: int)
    requires ins != [] && ParsesTo(lines, ins[1..])
    requires s.instruction == ins[0] && s.wait == ins[0].Add?
    requires i >= 1
    ensures Execute(s, lines, i, sum)
            == if i - 1 + Cycles(ins) > 220 then Ok(sum + Strength(Trace(s.x, ins), i)) else Err(NotEnoughInstructions)
    decreases |ins|, 3
  {
    if i > 220 {
      StrengthLate(Trace(s.x, ins), i);
    } else if ins[0].Noop? {
      ExecuteNoop(s, lines, ins, i, sum);
    } else {
      ExecuteAdd(s, lines, ins, i, sum);
    }
  }

  /** A loaded `noop`: one sampled cycle, then the next instruction. */
  lemma {:induction false} ExecuteNoop(s: Cpu, lines: seq<string>, ins: seq<Instruction>, i: nat, sum: int)
    requires ins != [] && ParsesTo(lines, ins[1..])
    requires s.instruction == Noop && ins[0] == Noop && !s.wait
    requires 1 <= i <= 220
    ensures Execute(s, lines, i, sum)
            == if i - 1 + Cycles(ins) > 220 then Ok(sum + Strength(Trace(s.x, ins), i)) else Err(NotEnoughInstructions)
    decreases |ins|, 2
  {
    var x := s.x;
    var xs := Trace(x, ins);
    var sum' := if (i - 20) % 40 == 0 then sum + i * x else sum;
    var t := Tick(s).1;
    assert xs[1..] == Trace(x, ins[1..]);
    if lines != [] {
      ParsesToRest(lines, ins[1..]);
      assert ins[1..][1..] == ins[2..];
      assert Execute(s, lines, i, sum) == Execute(Load(t, ins[1]), lines[1..], i + 1, sum');
      ExecuteTrace(Load(t, ins[1]), lines[1..], ins[1..], i + 1, sum');
    }
  }

  /** A loaded `addx v`: its first sampled cycle, then the rest of it. */
  lemma {:induction false} ExecuteAdd(s: Cpu, lines: seq<string>, ins: seq<Instruction>, i: nat, sum: int)
    requires ins != [] && ParsesTo(lines, ins[1..])
    requires ins[0].Add? && s.instruction == ins[0] && s.wait
    requires 1 <= i <= 220
    ensures Execute(s, lines, i, sum)
            == if i - 1 + Cycles(ins) > 220 then Ok(sum + Strength(Trace(s.x, ins), i)) else Err(NotEnoughInstructions)
    decreases |ins|, 2
  {
    var xs := Trace(s.x, ins);
    var sum' := if (i - 20) % 40 == 0 then sum + i * s.x else sum;
    var t := Tick(s).1;
    assert Execute(s, lines, i, sum) == Execute(t, lines, i + 1, sum');
    ExecuteAddLate(t, lines, ins, i + 1, sum');
    assert Strength(xs, i) == (if IsSample(i) then i * s.x else 0) + Strength(xs[1..], i + 1);
  }

  /** The second cycle of a loaded `addx v`: sampled with the old `x`, which then changes. */
  lemma {:induction false} ExecuteAddLate(t: Cpu, lines: seq<string>, ins: seq<Instruction>, j: nat, sum: int)
    requires ins != [] && ParsesTo(lines, ins[1..])
    requires ins[0].Add? && t.instruction == ins[0] && !t.wait
    requires 2 <= j <= 221
    ensures Execute(t, lines, j, sum)
            == if j - 2 + Cycles(ins) > 220 then Ok(sum + Strength(Trace(t.x, ins)[1..], j)) else Err(NotEnoughInstructions)
    decreases |ins|, 1
  {
    if j > 220 {
      StrengthLate(Trace(t.x, ins)[1..], j);
    } else if lines == [] {
      assert Cycles(ins) == 2 + Cycles(ins[1..]);
      assert Execute(t, lines, j, sum) == Err(NotEnoughInstructions);
    } else {
      ExecuteAddNext(t, lines, ins, j, sum);
    }
  }

  /** The second cycle of a loaded `addx v` with a next instruction to load. */
  lemma {:induction false} ExecuteAddNext(t: Cpu, lines: seq<string>, ins: seq<Instruction>, j: nat, sum: int)
    requires ins != [] && ParsesTo(lines, ins[1..]) && lines != []
    requires ins[0].Add? && t.instruction == ins[0] && !t.wait
    requires 2 <= j <= 220
    ensures Execute(t, lines, j, sum)
            == if j - 2 + Cycles(ins) > 220 then Ok(sum + Strength(Trace(t.x, ins)[1..], j)) else Err(NotEnoughInstructions)
    decreases |ins|, 0
  {
    var t2 := t.(x := t.x + ins[0].v, cycle := t.cycle + 1);
    var sum' := if (j - 20) % 40 == 0 then sum + j * t.x else sum;
    assert Tick(t) == (true, t2);
    ExecuteLoads(t, lines, j, sum);
    ParsesToRest(lines, ins[1..]);
    assert ins[1..][1..] == ins[2..];
    assert TryFrom(lines[0]) == Ok(ins[1]);
    ExecuteTrace(Load(t2, ins[1]), lines[1..], ins[1..], j + 1, sum');
    AddTraceTail(t.x, ins, j, sum);
  }

  /** An iteration whose tick finishes the instruction loads the next line. */
  lemma ExecuteLoads(t: Cpu, lines: seq<string>, j: nat, sum: int)
    requires j <= 220 && Tick(t).0 && lines != [] && TryFrom(lines[0]).Ok?
    ensures Execute(t, lines, j, sum)
            == Execute(Load(Tick(t).1, TryFrom(lines[0]).value), lines[1..], j + 1,
                       if (j - 20) % 40 == 0 then sum + j * t.x else sum)
  {
  }

  /** The trace of an `addx v` after its first cycle: the old `x` once more, then the rest with `x + v`. */
  lemma AddTraceTail(x: int, ins: seq<Instruction>, j: nat, sum: int)
    requires ins != [] && ins[0].Add? && j <= 220
    ensures Cycles(ins) == 2 + Cycles(ins[1..])
    ensures (if (j - 20) % 40 == 0 then sum + j * x else sum) + Strength(Trace(x + ins[0].v, ins[1..]), j + 1)
            == sum + Strength(Trace(x, ins)[1..], j)
  {
    var xs := Trace(x, ins)[1..];
    assert xs[0] == x && xs[1..] == Trace(x + ins[0].v, ins[1..]);
  }

  /**
   * When every line is a valid instruction, `puzzle1` answers the sum of
   * `c * x` over the sample cycles of the program's trace, and fails
   * exactly when the program ends within the first 220 cycles.
   */
  lemma Puzzle1Reference(lines: seq<string>, ins: seq<Instruction>)
    requires ParsesTo(lines, ins)
    ensures Execute(Initial, lines, 0, 0)
            == if Cycles(ins) > 220 then Ok(Strength(Trace(1, ins), 1)) else Err(NotEnoughInstructions)
  {
    if lines != [] {
      ParsesToRest(lines, ins);
      ExecuteTrace(Load(Tick(Initial).1, ins[0]), lines[1..], ins, 1, 0);
    }
  }
}
