/**
 * Day 11: monkeys passing items. Each monkey inspects the items it holds,
 * transforms their worry level by its operation, reduces it and throws
 * it to one of two monkeys depending on divisibility.
 */
module Day11 {
  import opened Wrappers
  import opened Text

  /** The operations a monkey's `new = old ...` line can denote. */
  datatype Operation = Square | Double | Mul(z: int) | Add(z: int)

  datatype Monkey = Monkey(
    id: nat,
    items: seq<int>,
    operation: Operation,
    testDivisor: nat,
    trueMonkey: nat,
    falseMonkey: nat,
    inspections: nat)

  datatype MonkeyError =
    | NotEnoughLines
    | NoNumberFound
    | NotEnoughArgumentsInOperation
    | NotAValidOperation
    | ParseIntError

  // ----- find_int -----

  predicate NoDigits(s: string) {
    forall i | 0 <= i < |s| :: !IsDigit(s[i])
  }

  /** `find_int`: the value of the first maximal run of digits in the line. */
  function FindInt(line: string): (r: Result<nat, MonkeyError>)
    ensures r.Err? <==> DigitRuns(line) == []
    ensures r.Err? ==> r.error == NoNumberFound
    ensures r.Ok? ==> r.value == DigitsValue(DigitRuns(line)[0])
  {
    var runs := DigitRuns(line);
    if runs == [] then Err(NoNumberFound) else Ok(DigitsValue(runs[0]))
  }

  lemma {:induction false} NoRunsNoDigits(s: string)
    ensures DigitRuns(s) == [] <==> NoDigits(s)
  {
    if s != [] {
      if IsDigit(s[0]) {
        assert DigitRuns(s) != [];
      } else {
        NoRunsNoDigits(s[1..]);
        assert NoDigits(s) <==> NoDigits(s[1..]) by {
          assert forall i | 1 <= i < |s| :: s[i] == s[1..][i - 1];
        }
      }
    }
  }

  /** `find_int` fails exactly when the line holds no digit. */
  lemma FindIntFails(line: string)
    ensures FindInt(line).Err? <==> NoDigits(line)
  {
    NoRunsNoDigits(line);
  }

  /** A number written after text without digits, and before a non-digit, is the one found. */
  lemma FindIntOf(pre: string, n: nat, post: string)
    requires NoDigits(pre)
    requires post == [] || !IsDigit(post[0])
    ensures FindInt(pre + NatToString(n) + post) == Ok(n)
  {
    var w := NatToString(n);
    RunsSkip(pre, w + post, IsDigit);
    assert pre + w + post == pre + (w + post);
    if post == [] {
      assert w + post == w;
      RunsSingle(w, IsDigit);
    } else {
      assert w + post == w + [post[0]] + post[1..];
      RunsCons(w, post[0], post[1..], IsDigit);
    }
    DigitsValueOfNatToString(n);
  }

  // ----- the operation line -----

  /** `inspect`: the worry level after the monkey's operation. */
  function Inspect(op: Operation, old_: int): int {
    match op
    case Square => old_ * old_
    case Double => old_ + old_
    case Mul(z) => old_ * z
    case Add(z) => old_ + z
  }

  /** The tokens after the last '=' of an operation line. */
  function OperationWords(line: string): seq<string> {
    var pieces := Split(line, '=');
    Words(pieces[|pieces| - 1])
  }

  /**
   * The operation part of `Monkey::from`, on the tokens after the last '=':
   * skip one token and read an operator and an operand; `old` as operand
   * means the old value itself, anything else must be an integer.
   */
  function OperationOf(ws: seq<string>): (r: Result<Operation, MonkeyError>)
    ensures r == Err(NotEnoughArgumentsInOperation) <==> |ws| < 3
    ensures |ws| >= 3 && ws[1] != "*" && ws[1] != "+" ==> r == Err(NotAValidOperation)
    ensures |ws| >= 3 && ws[2] == "old" && ws[1] == "*" ==> r == Ok(Square)
    ensures |ws| >= 3 && ws[2] == "old" && ws[1] == "+" ==> r == Ok(Double)
    ensures |ws| >= 3 && ws[2] != "old" && ws[1] in {"*", "+"} ==>
              r == match ParseInt(ws[2])
                   case None => Err(ParseIntError)
                   case Some(z) => Ok(if ws[1] == "*" then Mul(z) else Add(z))
  {
    if |ws| < 3 then Err(NotEnoughArgumentsInOperation)
    else if ws[1] == "*" && ws[2] == "old" then Ok(Square)
    else if ws[1] == "+" && ws[2] == "old" then Ok(Double)
    else if ws[1] == "*" then
      match ParseInt(ws[2])
      case None => Err(ParseIntError)
      case Some(z) => Ok(Mul(z))
    else if ws[1] == "+" then
      match ParseInt(ws[2])
      case None => Err(ParseIntError)
      case Some(z) => Ok(Add(z))
    else Err(NotAValidOperation)
  }

  /** The operation an operation line describes. */
  function ParseOperation(line: string): Result<Operation, MonkeyError> {
    OperationOf(OperationWords(line))
  }

  /** The operator token of a rendered operation. */
  function OperatorOf(op: Operation): string {
    if op.Square? || op.Mul? then "*" else "+"
  }

  /** The operand token of a rendered operation. */
  function OperandOf(op: Operation): string {
    if op.Square? || op.Double? then "old" else IntToString(op.z)
  }

  lemma IntToStringNoEquals(z: int)
    ensures '=' !in IntToString(z)
  {
    IntToStringNoSpace(z);
    var s := IntToString(z);
    if z < 0 {
      assert forall i | 1 <= i < |s| :: s[i] == NatToString(-z)[i - 1];
    }
  }

  predicate Token(w: string) {
    |w| > 0 && forall i | 0 <= i < |w| :: NotSpace(w[i])
  }

  /** Two tokens separated by one space. */
  lemma TwoWords(a: string, b: string)
    requires Token(a) && Token(b)
    ensures Words(a + [' '] + b) == [a, b]
  {
    RunsCons(a, ' ', b, NotSpace);
    RunsSingle(b, NotSpace);
  }

  /** The tokens of " old <operator> <operand>". */
  lemma OperandWords(operator: string, operand: string)
    requires Token(operator) && Token(operand)
    ensures Words(" old " + operator + " " + operand) == ["old", operator, operand]
  {
    var t2 := operator + [' '] + operand;
    TwoWords(operator, operand);
    var t1 := "old" + [' '] + t2;
    assert NotSpace('o') && NotSpace('l') && NotSpace('d') && !NotSpace(' ');
    RunsCons("old", ' ', t2, NotSpace);
    RunsSkip([' '], t1, NotSpace);
    OperandSpaces(operator, operand);
  }

  lemma OperandSpaces(operator: string, operand: string)
    ensures " old " + operator + " " + operand == [' '] + ("old" + [' '] + (operator + [' '] + operand))
  {
  }

  /** The tokens after the '=' of an operation line "Operation: new = old <operator> <operand>". */
  lemma OperationLineWords(operator: string, operand: string)
    requires Token(operator) && Token(operand) && '=' !in operator && '=' !in operand
    ensures OperationWords("Operation: new = old " + operator + " " + operand) == ["old", operator, operand]
  {
    var rhs := " old " + operator + " " + operand;
    OperationEquals(operator, operand);
    assert '=' !in rhs;
    SplitSingle(rhs, '=');
    SplitCons("Operation: new ", '=', rhs);
    OperandWords(operator, operand);
  }

  lemma OperationEquals(operator: string, operand: string)
    ensures "Operation: new = old " + operator + " " + operand == "Operation: new " + ['='] + (" old " + operator + " " + operand)
  {
  }

  lemma IntToken(z: int)
    ensures Token(IntToString(z)) && '=' !in IntToString(z) && IntToString(z) != "old"
  {
    IntToStringNoSpace(z);
    IntToStringNoEquals(z);
    var s := IntToString(z);
    if z < 0 {
      assert s[1] == NatToString(-z)[0];
    }
    assert IsDigit(s[|s| - 1]);
  }

  /** A line whose tokens after the last '=' are "old", the operator and the operand of `op`. */
  lemma ParseOperationWords(line: string, op: Operation)
    requires OperationWords(line) == ["old", OperatorOf(op), OperandOf(op)]
    ensures ParseOperation(line) == Ok(op)
  {
    if op.Mul? || op.Add? {
      IntToken(op.z);
      ParseIntRoundTrip(op.z);
    }
  }

  /** Parsing a rendered operation line gives the operation back. */
  lemma ParseOperationText(op: Operation)
    ensures ParseOperation(OperationLine(op)) == Ok(op)
  {
    if op.Mul? || op.Add? {
      ParseOperationNumber(op);
    } else {
      OperationLineWords(OperatorOf(op), OperandOf(op));
      ParseOperationWords(OperationLine(op), op);
    }
  }

  /** The line of an operation with an integer operand parses back to it. */
  lemma ParseOperationNumber(op: Operation)
    requires op.Mul? || op.Add?
    ensures ParseOperation(OperationLine(op)) == Ok(op)
  {
    IntToken(op.z);
    OperationLineWords(OperatorOf(op), OperandOf(op));
    ParseOperationWords(OperationLine(op), op);
  }

  // ----- Monkey::from -----

  /** Every run of digits in the line, as numbers, in order. */
  function ItemsOf(line: string): (items: seq<int>)
    ensures |items| == |DigitRuns(line)|
    ensures forall k | 0 <= k < |items| :: items[k] == DigitsValue(DigitRuns(line)[k])
  {
    var runs := DigitRuns(line);
    seq(|runs|, k requires 0 <= k < |runs| => DigitsValue(runs[k]) as int)
  }

  /**
   * `Monkey::from`: the id, the items, the operation, the divisor and the
   * two targets from the first six lines, each missing line an error, the
   * first failing line deciding the error.
   */
  function FromText(text: string): (r: Result<Monkey, MonkeyError>)
    ensures |Lines(text)| < 6 ==> r.Err?
    ensures r.Err? && r.error == NotEnoughLines ==> |Lines(text)| < 6
    ensures r.Ok? <==> |Lines(text)| >= 6 && FindInt(Lines(text)[0]).Ok? && ParseOperation(Lines(text)[2]).Ok?
                       && FindInt(Lines(text)[3]).Ok? && FindInt(Lines(text)[4]).Ok? && FindInt(Lines(text)[5]).Ok?
    ensures r.Ok? ==> var ls := Lines(text);
                      r.value == Monkey(FindInt(ls[0]).value, ItemsOf(ls[1]), ParseOperation(ls[2]).value,
                                        FindInt(ls[3]).value, FindInt(ls[4]).value, FindInt(ls[5]).value, 0)
  {
    var ls := Lines(text);
    if |ls| < 1 then Err(NotEnoughLines)
    else match FindInt(ls[0])
      case Err(e) => Err(e)
      case Ok(id) =>
        if |ls| < 2 then Err(NotEnoughLines)
        else
          var items := ItemsOf(ls[1]);
          if |ls| < 3 then Err(NotEnoughLines)
          else match ParseOperation(ls[2])
            case Err(e) => Err(e)
            case Ok(op) =>
              if |ls| < 4 then Err(NotEnoughLines)
              else match FindInt(ls[3])
                case Err(e) => Err(e)
                case Ok(d) =>
                  if |ls| < 5 then Err(NotEnoughLines)
                  else match FindInt(ls[4])
                    case Err(e) => Err(e)
                    case Ok(t) =>
                      if |ls| < 6 then Err(NotEnoughLines)
                      else match FindInt(ls[5])
                        case Err(e) => Err(e)
                        case Ok(f) => Ok(Monkey(id, items, op, d, t, f, 0))
  }

  /** The error reading line `k` of a monkey's text gives, or `None` when it is read; the items line always is. */
  function LineError(ls: seq<string>, k: nat): Option<MonkeyError>
    requires k < |ls| && k < 6
  {
    if k == 1 then None
    else if k == 2 then (match ParseOperation(ls[2]) case Err(e) => Some(e) case Ok(_) => None)
    else (match FindInt(ls[k]) case Err(e) => Some(e) case Ok(_) => None)
  }

  /**
   * The error `Monkey::from` reports is that of the first of the six lines
   * that is not read, or "not enough lines" when the text runs out first.
   */
  lemma FromTextErrors(text: string)
    ensures var ls := Lines(text);
            forall k | 0 <= k < |ls| && k < 6 && LineError(ls, k).Some? && (forall j | 0 <= j < k :: LineError(ls, j).None?) ::
              FromText(text) == Err(LineError(ls, k).value)
    ensures var ls := Lines(text);
            |ls| < 6 && (forall j | 0 <= j < |ls| :: LineError(ls, j).None?) ==> FromText(text) == Err(NotEnoughLines)
  {
    var ls := Lines(text);
    forall k | 0 <= k < |ls| && k < 6 && LineError(ls, k).Some? && (forall j | 0 <= j < k :: LineError(ls, j).None?)
      ensures FromText(text) == Err(LineError(ls, k).value)
    {
      FromTextFailsAt(text, k);
    }
    if |ls| < 6 && (forall j | 0 <= j < |ls| :: LineError(ls, j).None?) {
      FromTextRunsOut(text);
    }
  }

  /** Line `k` is the first that is not read: its error is the result. */
  lemma FromTextFailsAt(text: string, k: nat)
    requires k < |Lines(text)| && k < 6 && LineError(Lines(text), k).Some?
    requires forall j | 0 <= j < k :: LineError(Lines(text), j).None?
    ensures FromText(text) == Err(LineError(Lines(text), k).value)
  {
    var ls := Lines(text);
    FirstLinesRead(ls, k);
    if k == 0 {
    } else if k == 2 {
    } else if k == 3 {
    } else if k == 4 {
    } else {
      assert k == 5;
    }
  }

  /** All the lines there are are read, but there are fewer than six. */
  lemma FromTextRunsOut(text: string)
    requires |Lines(text)| < 6 && forall j | 0 <= j < |Lines(text)| :: LineError(Lines(text), j).None?
    ensures FromText(text) == Err(NotEnoughLines)
  {
    FirstLinesRead(Lines(text), |Lines(text)|);
  }

  /** Lines before `k` that are all read, spelled out line by line. */
  lemma FirstLinesRead(ls: seq<string>, k: nat)
    requires k <= |ls| && k <= 6 && forall j | 0 <= j < k :: LineError(ls, j).None?
    ensures k > 0 ==> FindInt(ls[0]).Ok?
    ensures k > 2 ==> ParseOperation(ls[2]).Ok?
    ensures k > 3 ==> FindInt(ls[3]).Ok?
    ensures k > 4 ==> FindInt(ls[4]).Ok?
    ensures k > 5 ==> FindInt(ls[5]).Ok?
  {
    if k > 0 { assert LineError(ls, 0).None?; }
    if k > 2 { assert LineError(ls, 2).None?; }
    if k > 3 { assert LineError(ls, 3).None?; }
    if k > 4 { assert LineError(ls, 4).None?; }
    if k > 5 { assert LineError(ls, 5).None?; }
  }

  /** Items written as "84, 72, 58, 51". */
  function ItemsText(items: seq<nat>): (s: string)
    ensures forall i | 0 <= i < |s| :: IsDigit(s[i]) || s[i] == ',' || s[i] == ' '
  {
    if items == [] then ""
    else if |items| == 1 then NatToString(items[0])
    else NatToString(items[0]) + ", " + ItemsText(items[1..])
  }

  /** Each item rendered on its own. */
  function Rendered(items: seq<nat>): (ws: seq<string>)
    ensures |ws| == |items|
  {
    seq(|items|, k requires 0 <= k < |items| => NatToString(items[k]))
  }

  lemma {:induction false} ItemsOfItemsText(items: seq<nat>)
    ensures DigitRuns(ItemsText(items)) == Rendered(items)
  {
    if |items| == 1 {
      RunsSingle(NatToString(items[0]), IsDigit);
      assert Rendered(items) == [NatToString(items[0])];
    } else if |items| > 1 {
      ItemsTextCons(items);
      ItemsOfItemsText(items[1..]);
      assert Rendered(items) == [NatToString(items[0])] + Rendered(items[1..]);
    }
  }

  /** The first item of a longer list is its first run of digits, the rest those of the rest. */
  lemma ItemsTextCons(items: seq<nat>)
    requires |items| > 1
    ensures DigitRuns(ItemsText(items)) == [NatToString(items[0])] + DigitRuns(ItemsText(items[1..]))
  {
    var w := NatToString(items[0]);
    var rest := ItemsText(items[1..]);
    assert ItemsText(items) == w + ", " + rest;
    CommaSpace(w, rest);
    assert AllDigits(w) && !IsDigit(',') && !IsDigit(' ');
    RunsCons(w, ',', " " + rest, IsDigit);
    RunsSkip(" ", rest, IsDigit);
  }

  lemma CommaSpace(w: string, rest: string)
    ensures w + ", " + rest == w + [','] + (" " + rest)
  {
  }


  /** A line holding one number between a caption and a suffix, as "Monkey 0:". */
  function NumberLine(caption: string, n: nat, suffix: string): string {
    caption + NatToString(n) + suffix
  }

  /** A number line is read back by `find_int` and passes `lines()` unchanged. */
  lemma NumberLineParses(caption: string, n: nat, suffix: string)
    requires NoDigits(caption) && '\n' !in caption && '\n' !in suffix
    requires suffix == [] || (!IsDigit(suffix[0]) && suffix[|suffix| - 1] != '\r')
    ensures FindInt(NumberLine(caption, n, suffix)) == Ok(n)
    ensures PlainLine(NumberLine(caption, n, suffix)) && NumberLine(caption, n, suffix) != []
  {
    FindIntOf(caption, n, suffix);
    var w := NatToString(n);
    assert forall i | 0 <= i < |w| :: w[i] != '\n' && w[i] != '\r';
    assert '\n' !in w;
    if suffix == [] {
      assert (caption + w)[|caption + w| - 1] == w[|w| - 1];
    } else {
      assert (caption + w + suffix)[|caption + w + suffix| - 1] == suffix[|suffix| - 1];
    }
  }


  /** The items of a monkey, which are never negative when read from text. */
  function Naturals(items: seq<int>): seq<nat>
    requires forall k | 0 <= k < |items| :: items[k] >= 0
  {
    seq(|items|, k requires 0 <= k < |items| => items[k] as nat)
  }

  function ItemsLine(items: seq<int>): string
    requires forall k | 0 <= k < |items| :: items[k] >= 0
  {
    "Starting items: " + ItemsText(Naturals(items))
  }

  lemma ItemsLineParses(items: seq<int>)
    requires forall k | 0 <= k < |items| :: items[k] >= 0
    ensures ItemsOf(ItemsLine(items)) == items && PlainLine(ItemsLine(items))
  {
    var ns := Naturals(items);
    RunsSkip("Starting items: ", ItemsText(ns), IsDigit);
    ItemsOfItemsText(ns);
    forall k | 0 <= k < |items| ensures DigitsValue(NatToString(ns[k])) == items[k] {
      DigitsValueOfNatToString(ns[k]);
    }
    assert '\n' !in "Starting items: " && '\n' !in ItemsText(ns);
  }

  function OperationLine(op: Operation): string {
    "Operation: new = old " + OperatorOf(op) + " " + OperandOf(op)
  }

  lemma OperationLineParses(op: Operation)
    ensures ParseOperation(OperationLine(op)) == Ok(op) && PlainLine(OperationLine(op))
  {
    ParseOperationText(op);
    OperationLinePlain(op);
  }

  /** A rendered operation line holds no line break and does not end in '\r'. */
  lemma OperationLinePlain(op: Operation)
    ensures PlainLine(OperationLine(op))
  {
    var operand := OperandOf(op);
    if op.Mul? || op.Add? {
      IntToken(op.z);
      assert forall i | 0 <= i < |operand| :: operand[i] != '\n' && operand[i] != '\r';
    }
    var pre := "Operation: new = old " + OperatorOf(op) + " ";
    assert OperationLine(op) == pre + operand;
    assert '\n' !in pre && '\n' !in operand;
    assert (pre + operand)[|pre + operand| - 1] == operand[|operand| - 1];
  }

  /** The six lines describing a monkey, in the layout of the puzzle input. */
  function MonkeyLines(m: Monkey): seq<string>
    requires forall k | 0 <= k < |m.items| :: m.items[k] >= 0
  {
    [ NumberLine("Monkey ", m.id, ":"),
      ItemsLine(m.items),
      OperationLine(m.operation),
      NumberLine("Test: divisible by ", m.testDivisor, ""),
      NumberLine("  If true: throw to monkey ", m.trueMonkey, ""),
      NumberLine("  If false: throw to monkey ", m.falseMonkey, "") ]
  }

  lemma {:induction false} LastIsDigit(n: nat)
    ensures var s := NatToString(n); IsDigit(s[|s| - 1])
  {
  }

  /** The captions of the number lines hold no digit and no line break. */
  predicate Caption(s: string) {
    NoDigits(s) && '\n' !in s
  }

  lemma IdCaption() ensures Caption("Monkey ") {}
  lemma DivisorCaption() ensures Caption("Test: divisible by ") {}
  lemma TrueCaption() ensures Caption("  If true: throw to monkey ") {}
  lemma FalseCaption() ensures Caption("  If false: throw to monkey ") {}

  /** Parsing the six rendered lines of a monkey gives it back, with no inspections yet. */
  lemma FromTextRoundTrip(m: Monkey)
    requires forall k | 0 <= k < |m.items| :: m.items[k] >= 0
    ensures FromText(JoinLines(MonkeyLines(m))) == Ok(m.(inspections := 0))
  {
    MonkeyLinesParse(m);
    FromTextOfLines(MonkeyLines(m), m);
  }

  /** Six plain lines, each read back to its part of `m`, joined and parsed give `m` with no inspections. */
  lemma FromTextOfLines(ls: seq<string>, m: Monkey)
    requires |ls| == 6 && ls[5] != []
    requires PlainLine(ls[0]) && PlainLine(ls[1]) && PlainLine(ls[2]) && PlainLine(ls[3]) && PlainLine(ls[4]) && PlainLine(ls[5])
    requires FindInt(ls[0]) == Ok(m.id) && ItemsOf(ls[1]) == m.items && ParseOperation(ls[2]) == Ok(m.operation)
    requires FindInt(ls[3]) == Ok(m.testDivisor) && FindInt(ls[4]) == Ok(m.trueMonkey) && FindInt(ls[5]) == Ok(m.falseMonkey)
    ensures FromText(JoinLines(ls)) == Ok(m.(inspections := 0))
  {
    assert forall k | 0 <= k < |ls| :: PlainLine(ls[k]);
    LinesOfJoinLines(ls);
    assert Lines(JoinLines(ls)) == ls;
  }

  /** Each of the six rendered lines is a plain line that reads back to its part of the monkey. */
  lemma MonkeyLinesParse(m: Monkey)
    requires forall k | 0 <= k < |m.items| :: m.items[k] >= 0
    ensures var ls := MonkeyLines(m);
            && PlainLine(ls[0]) && PlainLine(ls[1]) && PlainLine(ls[2]) && PlainLine(ls[3]) && PlainLine(ls[4])
            && PlainLine(ls[5]) && ls[5] != []
            && FindInt(ls[0]) == Ok(m.id) && ItemsOf(ls[1]) == m.items && ParseOperation(ls[2]) == Ok(m.operation)
            && FindInt(ls[3]) == Ok(m.testDivisor) && FindInt(ls[4]) == Ok(m.trueMonkey) && FindInt(ls[5]) == Ok(m.falseMonkey)
  {
    IdCaption();
    DivisorCaption();
    TrueCaption();
    FalseCaption();
    NumberLineParses("Monkey ", m.id, ":");
    ItemsLineParses(m.items);
    OperationLineParses(m.operation);
    NumberLineParses("Test: divisible by ", m.testDivisor, "");
    NumberLineParses("  If true: throw to monkey ", m.trueMonkey, "");
    NumberLineParses("  If false: throw to monkey ", m.falseMonkey, "");
  }


  // ----- truncating i64 arithmetic -----

  function Abs(a: int): nat {
    if a < 0 then -a else a
  }

  /** Rust's `/` on integers: the quotient truncated toward zero. */
  function DivT(a: int, b: int): int
    requires b != 0
  {
    if b > 0 then (if a >= 0 then a / b else -((-a) / b))
    else (if a >= 0 then -(a / (-b)) else (-a) / (-b))
  }

  lemma MulNegate(x: int, y: int)
    ensures x * (-y) == -(x * y) && (-x) * y == -(x * y)
  {
  }

  /** The bounds of the remainder left by a truncated quotient. */
  lemma TruncatedRemainder(a: int, b: int)
    requires b != 0
    ensures a >= 0 ==> 0 <= a - b * DivT(a, b) < Abs(b)
    ensures a < 0 ==> -(Abs(b) as int) < a - b * DivT(a, b) <= 0
    ensures a >= 0 && b > 0 ==> a - b * DivT(a, b) == a % b
  {
    if b > 0 && a < 0 {
      RemainderNegPos(a, b);
    } else if b < 0 && a >= 0 {
      RemainderPosNeg(a, b);
    } else if b < 0 && a < 0 {
      RemainderNegNeg(a, b);
    }
  }

  lemma RemainderNegPos(a: int, b: int)
    requires a < 0 < b
    ensures -b < a - b * DivT(a, b) <= 0
  {
    var q := (-a) / b;
    MulNegate(b, q);
    assert -a == b * q + (-a) % b;
  }

  lemma RemainderPosNeg(a: int, b: int)
    requires b < 0 <= a
    ensures 0 <= a - b * DivT(a, b) < -b
  {
    var q := a / (-b);
    MulNegate(b, q);
    assert a == (-b) * q + a % (-b);
  }

  lemma RemainderNegNeg(a: int, b: int)
    requires a < 0 && b < 0
    ensures b < a - b * DivT(a, b) <= 0
  {
    var q := (-a) / (-b);
    MulNegate(b, q);
    assert -a == (-b) * q + (-a) % (-b);
  }

  /** Rust's `%` on integers: the remainder takes the sign of the dividend. */
  function RemT(a: int, b: int): (r: int)
    requires b != 0
    ensures a == b * DivT(a, b) + r
    ensures a >= 0 ==> 0 <= r < Abs(b)
    ensures a < 0 ==> -(Abs(b) as int) < r <= 0
    ensures a >= 0 && b > 0 ==> r == a % b
  {
    TruncatedRemainder(a, b);
    a - b * DivT(a, b)
  }

  lemma DivOne(a: int)
    ensures DivT(a, 1) == a
  {
  }

  // ----- Monkey::get_destination -----

  /** `get_destination`: the true target exactly when the test divisor divides the worry level. */
  function GetDestination(m: Monkey, item: int): (dest: nat)
    requires m.testDivisor != 0
    ensures RemT(item, m.testDivisor) == 0 ==> dest == m.trueMonkey
    ensures RemT(item, m.testDivisor) != 0 ==> dest == m.falseMonkey
  {
    if RemT(item, m.testDivisor) == 0 then m.trueMonkey else m.falseMonkey
  }

  lemma {:induction false} MulAtLeast(d: int, t: int)
    requires d > 0 && t >= 1
    ensures d * t >= d
  {
    if t > 1 {
      MulAtLeast(d, t - 1);
      assert d * t == d * (t - 1) + d;
    }
  }

  /** Euclidean remainders are unique. */
  lemma ModUnique(a: int, d: int, q: int, r: int)
    requires d > 0 && 0 <= r < d && a == d * q + r
    ensures a % d == r
  {
    var p := a / d;
    var t := q - p;
    assert a == d * p + a % d;
    assert d * t == d * q - d * p;
    assert d * t == a % d - r;
    if t >= 1 {
      MulAtLeast(d, t);
    } else if t <= -1 {
      MulAtLeast(d, -t);
      MulNegate(d, t);
    }
  }

  /**
   * Reducing a non-negative worry level modulo a multiple of the test
   * divisor never changes where the item is thrown.
   */
  lemma ReductionKeepsDestination(m: Monkey, w: int, modulo: int)
    requires w >= 0 && modulo > 0 && m.testDivisor > 0 && modulo % m.testDivisor == 0
    ensures GetDestination(m, RemT(w, modulo)) == GetDestination(m, w)
  {
    var d := m.testDivisor;
    var r := w % modulo;
    var k := modulo / d;
    assert modulo == d * k;
    assert w == modulo * (w / modulo) + r;
    assert w == d * (k * (w / modulo) + r / d) + r % d;
    ModUnique(w, d, k * (w / modulo) + r / d, r % d);
  }

  /** The product of all test divisors, the `modulo` of both puzzles. */
  function Modulo(ms: seq<Monkey>): int {
    if ms == [] then 1 else ms[0].testDivisor * Modulo(ms[1..])
  }

  /** Every test divisor divides the product of them all. */
  lemma {:induction false} ModuloDivisible(ms: seq<Monkey>, i: nat)
    requires i < |ms| && forall k | 0 <= k < |ms| :: ms[k].testDivisor > 0
    ensures Modulo(ms) > 0 && Modulo(ms) % ms[i].testDivisor == 0
  {
    var d := ms[i].testDivisor;
    ModuloPositive(ms);
    if i == 0 {
      ModUnique(Modulo(ms), d, Modulo(ms[1..]), 0);
    } else {
      ModuloDivisible(ms[1..], i - 1);
      var c := Modulo(ms[1..]) / d;
      assert Modulo(ms[1..]) == d * c;
      assert Modulo(ms) == d * (ms[0].testDivisor * c);
      ModUnique(Modulo(ms), d, ms[0].testDivisor * c, 0);
    }
  }

  lemma {:induction false} ModuloPositive(ms: seq<Monkey>)
    requires forall k | 0 <= k < |ms| :: ms[k].testDivisor > 0
    ensures Modulo(ms) > 0
  {
    if ms != [] {
      ModuloPositive(ms[1..]);
    }
  }

  // ----- round -----

  /** The worry level an item is thrown with: inspected, reduced modulo `modulo`, divided by `divisor`. */
  function Worry(m: Monkey, item: int, divisor: int, modulo: int): int
    requires divisor != 0 && modulo != 0
  {
    DivT(RemT(Inspect(m.operation, item), modulo), divisor)
  }

  /**
   * With divisor 1 and the product of all test divisors as modulo, an item
   * goes where its unreduced worry level would send it.
   */
  lemma UnreducedDestination(ms: seq<Monkey>, j: nat, item: int)
    requires j < |ms| && forall k | 0 <= k < |ms| :: ms[k].testDivisor > 0
    requires Inspect(ms[j].operation, item) >= 0
    ensures Modulo(ms) > 0
    ensures GetDestination(ms[j], Worry(ms[j], item, 1, Modulo(ms))) == GetDestination(ms[j], Inspect(ms[j].operation, item))
  {
    ModuloDivisible(ms, j);
    DivOne(RemT(Inspect(ms[j].operation, item), Modulo(ms)));
    ReductionKeepsDestination(ms[j], Inspect(ms[j].operation, item), Modulo(ms));
  }

  /** `round` can inspect and test an item of monkey `m`: no divisor it uses is zero. */
  predicate Inspects(m: Monkey, divisor: int, modulo: int) {
    m.testDivisor != 0 && divisor != 0 && modulo != 0
  }

  /**
   * Monkey `m` throws every item of `held` into `n` buffers without a panic.
   * With nothing to throw nothing is evaluated; otherwise no divisor may be
   * zero and every item's destination must index the buffers.
   */
  predicate Throws(m: Monkey, held: seq<int>, n: nat, divisor: int, modulo: int) {
    held == [] ||
    (Inspects(m, divisor, modulo) &&
     forall k | 0 <= k < |held| :: GetDestination(m, Worry(m, held[k], divisor, modulo)) < n)
  }

  /** Monkey `m` takes its turn on the staging buffer `buf` without a panic: its id indexes `buf` and it throws all it then holds. */
  predicate TurnSafe(m: Monkey, buf: seq<seq<int>>, divisor: int, modulo: int) {
    m.id < |buf| && Throws(m, m.items + buf[m.id], |buf|, divisor, modulo)
  }

  /** Everything but the items and the inspection count agree. */
  predicate SameShape(a: Monkey, b: Monkey) {
    a.id == b.id && a.operation == b.operation && a.testDivisor == b.testDivisor
    && a.trueMonkey == b.trueMonkey && a.falseMonkey == b.falseMonkey
  }

  /** Throwing the items of a prefix of `held` does not panic either. */
  lemma ThrowsPrefix(m: Monkey, held: seq<int>, k: nat, n: nat, divisor: int, modulo: int)
    requires k <= |held| && Throws(m, held, n, divisor, modulo)
    ensures Throws(m, held[..k], n, divisor, modulo)
  {
    if k > 0 {
      assert forall i | 0 <= i < k :: held[..k][i] == held[i];
    }
  }

  /** The staging buffer after a monkey throws `held`, in order. */
  function Throw(buf: seq<seq<int>>, m: Monkey, held: seq<int>, divisor: int, modulo: int): (b: seq<seq<int>>)
    requires Throws(m, held, |buf|, divisor, modulo)
    ensures |b| == |buf|
    decreases |held|
  {
    if held == [] then buf
    else
      ThrowsPrefix(m, held, |held| - 1, |buf|, divisor, modulo);
      var b := Throw(buf, m, held[..|held| - 1], divisor, modulo);
      var w := Worry(m, held[|held| - 1], divisor, modulo);
      var d := GetDestination(m, w);
      b[d := b[d] + [w]]
  }

  /**
   * The turn of monkey `j`: it takes what was thrown to it so far, counts
   * every item it now holds as inspected, and throws them all.
   */
  function Turn(ms: seq<Monkey>, buf: seq<seq<int>>, j: nat, divisor: int, modulo: int): (r: (seq<Monkey>, seq<seq<int>>))
    requires j < |ms| == |buf| && TurnSafe(ms[j], buf, divisor, modulo)
    ensures |r.0| == |ms| && |r.1| == |buf|
  {
    var m := ms[j];
    var holding := m.(items := m.items + buf[m.id], inspections := m.inspections + |m.items| + |buf[m.id]|);
    (ms[j := holding], Throw(buf[m.id := []], holding, holding.items, divisor, modulo))
  }

  /**
   * The turns of monkeys `0` to `j - 1` of `round` run without a panic: each
   * is `TurnSafe` on the buffer the turns before it leave.
   */
  predicate Safe(ms: seq<Monkey>, j: nat, divisor: int, modulo: int)
    requires j <= |ms|
    decreases j, 0
  {
    j == 0 || (Safe(ms, j - 1, divisor, modulo) && TurnSafe(ms[j - 1], Turns(ms, j - 1, divisor, modulo).1, divisor, modulo))
  }

  /** The monkeys and the staging buffer after the turns of monkeys `0` to `j - 1`. */
  function Turns(ms: seq<Monkey>, j: nat, divisor: int, modulo: int): (r: (seq<Monkey>, seq<seq<int>>))
    requires j <= |ms| && Safe(ms, j, divisor, modulo)
    ensures |r.0| == |ms| && |r.1| == |ms|
    ensures forall i {:trigger r.0[i]} | 0 <= i < |ms| :: SameShape(r.0[i], ms[i])
    ensures forall i {:trigger r.0[i]} | j <= i < |ms| :: r.0[i] == ms[i]
    decreases j, 1
  {
    if j == 0 then (ms, seq(|ms|, _ => []))
    else
      var p := Turns(ms, j - 1, divisor, modulo);
      Turn(p.0, p.1, j - 1, divisor, modulo)
  }

  /** The turns of a round that does not panic up to `k` do not panic up to any earlier monkey. */
  lemma {:induction false} SafeBefore(ms: seq<Monkey>, k: nat, divisor: int, modulo: int)
    requires k <= |ms| && Safe(ms, k, divisor, modulo)
    ensures forall j | 0 <= j <= k :: Safe(ms, j, divisor, modulo)
    decreases k
  {
    if k > 0 {
      SafeBefore(ms, k - 1, divisor, modulo);
    }
  }

  /** Every monkey's id and targets index the slice and no divisor is zero: enough for `round` not to panic. */
  predicate Fit(ms: seq<Monkey>, divisor: int, modulo: int) {
    divisor != 0 && modulo != 0 &&
    forall i | 0 <= i < |ms| ::
      ms[i].id < |ms| && ms[i].trueMonkey < |ms| && ms[i].falseMonkey < |ms| && ms[i].testDivisor != 0
  }

  /** Monkeys whose ids and targets all index the slice, with no zero divisor, never make `round` panic. */
  lemma {:induction false} FitSafe(ms: seq<Monkey>, j: nat, divisor: int, modulo: int)
    requires j <= |ms| && Fit(ms, divisor, modulo)
    ensures Safe(ms, j, divisor, modulo)
    decreases j
  {
    if j > 0 {
      FitSafe(ms, j - 1, divisor, modulo);
      var m := ms[j - 1];
      var buf := Turns(ms, j - 1, divisor, modulo).1;
      forall k | 0 <= k < |m.items + buf[m.id]|
        ensures GetDestination(m, Worry(m, (m.items + buf[m.id])[k], divisor, modulo)) < |buf|
      {
      }
    }
  }

  /**
   * A monkey that never throws is not held to its targets or divisors: a
   * round of two idle monkeys, one naming target 5 and divisor 0, with zero
   * `divisor` and `modulo`, does not panic.
   */
  lemma IdleMonkeysSafe()
    ensures var ms := [Monkey(0, [], Square, 0, 5, 5, 0), Monkey(1, [], Square, 3, 0, 0, 0)];
            Safe(ms, 2, 0, 0) && !Fit(ms, 0, 0)
  {
    var ms := [Monkey(0, [], Square, 0, 5, 5, 0), Monkey(1, [], Square, 3, 0, 0, 0)];
    assert Turns(ms, 0, 0, 0).1 == [[], []];
    assert Turns(ms, 1, 0, 0).1 == [[], []];
  }

  /** The monkeys after a round: each then holds what was thrown to it after its own turn. */
  function AfterRound(ms: seq<Monkey>, divisor: int, modulo: int): (r: seq<Monkey>)
    requires Safe(ms, |ms|, divisor, modulo)
    ensures |r| == |ms|
    ensures forall i {:trigger r[i]} | 0 <= i < |ms| :: SameShape(r[i], ms[i])
    ensures Fit(ms, divisor, modulo) ==> Fit(r, divisor, modulo)
  {
    var p := Turns(ms, |ms|, divisor, modulo);
    var r := seq(|ms|, i requires 0 <= i < |ms| => p.0[i].(items := p.1[i]));
    assert forall i | 0 <= i < |ms| :: SameShape(r[i], ms[i]);
    r
  }

  /** The start of a monkey's turn in `round`: count its inspections and append what was thrown to it. */
  method Receive(monkeys: array<Monkey>, newItems: array<seq<int>>, j: nat)
    requires j < monkeys.Length && monkeys[j].id < newItems.Length
    modifies monkeys
    ensures monkeys[..] == old(monkeys[..])[j := old(monkeys[j]).(
              items := old(monkeys[j].items) + newItems[old(monkeys[j]).id],
              inspections := old(monkeys[j].inspections) + |old(monkeys[j].items)| + |newItems[old(monkeys[j]).id]|)]
  {
    var id := monkeys[j].id;
    monkeys[j] := monkeys[j].(inspections := monkeys[j].inspections + |monkeys[j].items| + |newItems[id]|);
    ghost var counted := monkeys[j];
    ghost var own := old(monkeys[j].items);
    assert own + newItems[id][..0] == own;
    assert monkeys[..] == old(monkeys[..])[j := counted.(items := own + newItems[id][..0])];
    for k := 0 to |newItems[id]|
      invariant monkeys[..] == old(monkeys[..])[j := counted.(items := own + newItems[id][..k])]
    {
      assert own + newItems[id][..k + 1] == (own + newItems[id][..k]) + [newItems[id][k]];
      monkeys[j] := monkeys[j].(items := monkeys[j].items + [newItems[id][k]]);
    }
    assert newItems[id][..|newItems[id]|] == newItems[id];
  }

  /** The rest of a monkey's turn: every item it holds goes into the buffer of its destination. */
  method ThrowAll(m: Monkey, newItems: array<seq<int>>, divisor: int, modulo: int)
    requires Throws(m, m.items, newItems.Length, divisor, modulo)
    modifies newItems
    ensures newItems[..] == Throw(old(newItems[..]), m, m.items, divisor, modulo)
  {
    for k := 0 to |m.items|
      invariant Throws(m, m.items[..k], newItems.Length, divisor, modulo)
      invariant newItems[..] == Throw(old(newItems[..]), m, m.items[..k], divisor, modulo)
    {
      ThrowsPrefix(m, m.items, k + 1, newItems.Length, divisor, modulo);
      assert m.items[..k + 1][..k] == m.items[..k];
      var item := Worry(m, m.items[k], divisor, modulo);
      var dest := GetDestination(m, item);
      newItems[dest] := newItems[dest] + [item];
    }
    assert m.items[..|m.items|] == m.items;
  }

  /** One monkey's turn in `round`. */
  method TakeTurn(monkeys: array<Monkey>, newItems: array<seq<int>>, j: nat, divisor: int, modulo: int)
    requires j < monkeys.Length == newItems.Length && TurnSafe(monkeys[j], newItems[..], divisor, modulo)
    modifies monkeys, newItems
    ensures monkeys[..] == Turn(old(monkeys[..]), old(newItems[..]), j, divisor, modulo).0
    ensures newItems[..] == Turn(old(monkeys[..]), old(newItems[..]), j, divisor, modulo).1
  {
    Receive(monkeys, newItems, j);
    newItems[monkeys[j].id] := [];
    ThrowAll(monkeys[j], newItems, divisor, modulo);
  }

  /** The end of `round`: each monkey's items become its staged ones. */
  method Release(monkeys: array<Monkey>, newItems: array<seq<int>>)
    requires monkeys.Length == newItems.Length
    modifies monkeys
    ensures forall i | 0 <= i < monkeys.Length :: monkeys[i] == old(monkeys[i]).(items := newItems[i])
  {
    for i := 0 to monkeys.Length
      invariant forall t | 0 <= t < i :: monkeys[t] == old(monkeys[t]).(items := newItems[t])
      invariant forall t | i <= t < monkeys.Length :: monkeys[t] == old(monkeys[t])
    {
      monkeys[i] := monkeys[i].(items := newItems[i]);
    }
  }

  /** The turns of `round`, monkey by monkey, from an empty staging buffer. */
  method TakeTurns(monkeys: array<Monkey>, newItems: array<seq<int>>, divisor: int, modulo: int)
    requires monkeys.Length == newItems.Length && Safe(monkeys[..], monkeys.Length, divisor, modulo)
    requires newItems[..] == seq(newItems.Length, _ => [])
    modifies monkeys, newItems
    ensures monkeys[..] == Turns(old(monkeys[..]), monkeys.Length, divisor, modulo).0
    ensures newItems[..] == Turns(old(monkeys[..]), monkeys.Length, divisor, modulo).1
  {
    ghost var ms := monkeys[..];
    SafeBefore(ms, |ms|, divisor, modulo);
    for j := 0 to monkeys.Length
      invariant monkeys[..] == Turns(ms, j, divisor, modulo).0
      invariant newItems[..] == Turns(ms, j, divisor, modulo).1
    {
      assert Safe(ms, j + 1, divisor, modulo) && monkeys[j] == ms[j];
      TakeTurn(monkeys, newItems, j, divisor, modulo);
    }
  }

  /** The monkeys of a round are those after all turns, each holding its staged items. */
  lemma AfterRoundOf(ms: seq<Monkey>, r: seq<Monkey>, divisor: int, modulo: int)
    requires Safe(ms, |ms|, divisor, modulo) && |r| == |ms|
    requires var p := Turns(ms, |ms|, divisor, modulo);
             forall i | 0 <= i < |ms| :: r[i] == p.0[i].(items := p.1[i])
    ensures r == AfterRound(ms, divisor, modulo)
  {
  }

  /** `round`, on the slice of monkeys in place, with a staging buffer of thrown items. */
  method Round(monkeys: array<Monkey>, divisor: int, modulo: int)
    requires Safe(monkeys[..], monkeys.Length, divisor, modulo)
    modifies monkeys
    ensures monkeys[..] == AfterRound(old(monkeys[..]), divisor, modulo)
  {
    ghost var ms := monkeys[..];
    var newItems := new seq<int>[monkeys.Length](_ => []);
    assert newItems[..] == seq(newItems.Length, _ => []);
    TakeTurns(monkeys, newItems, divisor, modulo);
    Release(monkeys, newItems);
    AfterRoundOf(ms, monkeys[..], divisor, modulo);
  }


  // ----- what a round keeps -----

  /** The worry levels of the items of `held` that monkey `m` sends to monkey `d`, in order. */
  function Sent(m: Monkey, held: seq<int>, d: nat, divisor: int, modulo: int): seq<int>
    requires held == [] || Inspects(m, divisor, modulo)
    decreases |held|
  {
    if held == [] then []
    else
      var w := Worry(m, held[|held| - 1], divisor, modulo);
      Sent(m, held[..|held| - 1], d, divisor, modulo) + (if GetDestination(m, w) == d then [w] else [])
  }

  /** Throwing appends to each buffer exactly the items sent to it, in throw order. */
  lemma {:induction false} ThrowSends(buf: seq<seq<int>>, m: Monkey, held: seq<int>, d: nat, divisor: int, modulo: int)
    requires Throws(m, held, |buf|, divisor, modulo) && d < |buf|
    ensures Throw(buf, m, held, divisor, modulo)[d] == buf[d] + Sent(m, held, d, divisor, modulo)
    decreases |held|
  {
    if held != [] {
      ThrowsPrefix(m, held, |held| - 1, |buf|, divisor, modulo);
      ThrowSends(buf, m, held[..|held| - 1], d, divisor, modulo);
    }
  }

  /** Every monkey sits at the index of its id, as the ids of a parsed input do. */
  predicate IdsInOrder(ms: seq<Monkey>) {
    forall k | 0 <= k < |ms| :: ms[k].id == k
  }

  /** What monkey `t` holds in its turn: its own items and those thrown to it before. */
  function Held(ms: seq<Monkey>, t: nat, divisor: int, modulo: int): seq<int>
    requires t < |ms| && Safe(ms, t + 1, divisor, modulo)
  {
    ms[t].items + Turns(ms, t, divisor, modulo).1[ms[t].id]
  }

  /** The items monkeys `lo` to `hi - 1` send to monkey `d` in their turns, in throw order. */
  function SentSince(ms: seq<Monkey>, lo: nat, hi: nat, d: nat, divisor: int, modulo: int): seq<int>
    requires lo <= hi <= |ms| && Safe(ms, hi, divisor, modulo)
    decreases hi
  {
    if hi == lo then []
    else
      SentSince(ms, lo, hi - 1, d, divisor, modulo) + Sent(ms[hi - 1], Held(ms, hi - 1, divisor, modulo), d, divisor, modulo)
  }

  /** Only the operation, the divisor and the targets of a monkey decide where its items go. */
  lemma {:induction false} SentShape(a: Monkey, b: Monkey, held: seq<int>, d: nat, divisor: int, modulo: int)
    requires SameShape(a, b) && (held == [] || Inspects(a, divisor, modulo))
    ensures Sent(a, held, d, divisor, modulo) == Sent(b, held, d, divisor, modulo)
    decreases |held|
  {
    if held != [] {
      SentShape(a, b, held[..|held| - 1], d, divisor, modulo);
    }
  }

  /**
   * After the turns of monkeys `0` to `j - 1`, the buffer of monkey `i`
   * holds what was thrown to it since its own turn (or since the start, if
   * its turn is still to come), in throw order.
   */
  lemma {:induction false} TurnsSent(ms: seq<Monkey>, j: nat, i: nat, divisor: int, modulo: int)
    requires j <= |ms| && i < |ms| && Safe(ms, j, divisor, modulo) && IdsInOrder(ms)
    ensures Turns(ms, j, divisor, modulo).1[i] == SentSince(ms, if i < j then i else 0, j, i, divisor, modulo)
  {
    if j > 0 {
      var t := j - 1;
      TurnSent(ms, t, i, divisor, modulo);
      var sent := Sent(ms[t], Held(ms, t, divisor, modulo), i, divisor, modulo);
      if i == t {
        assert SentSince(ms, t, j, i, divisor, modulo) == [] + sent;
      } else {
        TurnsSent(ms, t, i, divisor, modulo);
      }
    }
  }

  /** The turn of monkey `t` empties its own buffer and then appends to each buffer what it sends there. */
  lemma TurnSent(ms: seq<Monkey>, t: nat, i: nat, divisor: int, modulo: int)
    requires t < |ms| && i < |ms| && Safe(ms, t + 1, divisor, modulo) && IdsInOrder(ms)
    ensures Turns(ms, t + 1, divisor, modulo).1[i]
            == (if i == t then [] else Turns(ms, t, divisor, modulo).1[i]) + Sent(ms[t], Held(ms, t, divisor, modulo), i, divisor, modulo)
  {
    var p := Turns(ms, t, divisor, modulo);
    assert p.0[t] == ms[t] && ms[t].id == t;
    var holding := ms[t].(items := Held(ms, t, divisor, modulo),
                          inspections := ms[t].inspections + |ms[t].items| + |p.1[t]|);
    TurnBuffer(ms, t, divisor, modulo);
    ThrowSends(p.1[t := []], holding, holding.items, i, divisor, modulo);
    SentShape(holding, ms[t], holding.items, i, divisor, modulo);
  }

  /** The buffer after turn `t` is the one before, with monkey `t`'s emptied, after it throws what it holds. */
  lemma TurnBuffer(ms: seq<Monkey>, t: nat, divisor: int, modulo: int)
    requires t < |ms| && Safe(ms, t + 1, divisor, modulo) && IdsInOrder(ms)
    ensures var p := Turns(ms, t, divisor, modulo);
            p.0[t] == ms[t] && ms[t].id == t
            && Turns(ms, t + 1, divisor, modulo).1
               == Throw(p.1[t := []], ms[t].(items := Held(ms, t, divisor, modulo),
                                             inspections := ms[t].inspections + |ms[t].items| + |p.1[t]|),
                        Held(ms, t, divisor, modulo), divisor, modulo)
  {
    assert ms[t].id == t;
  }

  /**
   * After a round, monkey `i` holds exactly the items thrown to it from its
   * own turn on, in throw order.
   */
  lemma RoundItems(ms: seq<Monkey>, i: nat, divisor: int, modulo: int)
    requires i < |ms| && Safe(ms, |ms|, divisor, modulo) && IdsInOrder(ms)
    ensures AfterRound(ms, divisor, modulo)[i].items == SentSince(ms, i, |ms|, i, divisor, modulo)
  {
    TurnsSent(ms, |ms|, i, divisor, modulo);
  }

  function Sum(xs: seq<nat>): nat {
    if xs == [] then 0 else Sum(xs[..|xs| - 1]) + xs[|xs| - 1]
  }

  /** The number of items each monkey holds. */
  function Counts(ms: seq<Monkey>): seq<nat> {
    seq(|ms|, i requires 0 <= i < |ms| => |ms[i].items|)
  }

  /** The number of items in each staged list. */
  function Lens(buf: seq<seq<int>>): seq<nat> {
    seq(|buf|, i requires 0 <= i < |buf| => |buf[i]|)
  }

  lemma {:induction false} SumUpdate(xs: seq<nat>, k: nat, v: nat)
    requires k < |xs|
    ensures Sum(xs[k := v]) + xs[k] == Sum(xs) + v
  {
    var n := |xs| - 1;
    if k < n {
      SumUpdate(xs[..n], k, v);
      assert xs[k := v][..n] == xs[..n][k := v];
    } else {
      assert xs[k := v][..n] == xs[..n];
    }
  }

  lemma {:induction false} SumFront(xs: seq<nat>)
    requires xs != []
    ensures Sum(xs) == xs[0] + Sum(xs[1..])
  {
    if |xs| > 1 {
      SumFront(xs[..|xs| - 1]);
      assert xs[..|xs| - 1][1..] == xs[1..][..|xs| - 2];
    }
  }

  lemma {:induction false} SumZeros(xs: seq<nat>)
    requires forall i | 0 <= i < |xs| :: xs[i] == 0
    ensures Sum(xs) == 0
  {
    if xs != [] {
      SumZeros(xs[..|xs| - 1]);
    }
  }

  lemma LensUpdate(buf: seq<seq<int>>, k: nat, v: seq<int>)
    requires k < |buf|
    ensures Sum(Lens(buf[k := v])) + |buf[k]| == Sum(Lens(buf)) + |v|
  {
    assert Lens(buf[k := v]) == Lens(buf)[k := |v|];
    SumUpdate(Lens(buf), k, |v|);
  }

  /** Throwing adds one staged item per item held. */
  lemma {:induction false} ThrowCount(buf: seq<seq<int>>, m: Monkey, held: seq<int>, divisor: int, modulo: int)
    requires Throws(m, held, |buf|, divisor, modulo)
    ensures Sum(Lens(Throw(buf, m, held, divisor, modulo))) == Sum(Lens(buf)) + |held|
    decreases |held|
  {
    if held != [] {
      ThrowsPrefix(m, held, |held| - 1, |buf|, divisor, modulo);
      var b := Throw(buf, m, held[..|held| - 1], divisor, modulo);
      ThrowCount(buf, m, held[..|held| - 1], divisor, modulo);
      var w := Worry(m, held[|held| - 1], divisor, modulo);
      var d := GetDestination(m, w);
      LensUpdate(b, d, b[d] + [w]);
    }
  }

  /** A turn stages as many items as the monkey held before it. */
  lemma TurnCount(ms: seq<Monkey>, buf: seq<seq<int>>, j: nat, divisor: int, modulo: int)
    requires j < |ms| == |buf| && TurnSafe(ms[j], buf, divisor, modulo)
    ensures Sum(Lens(Turn(ms, buf, j, divisor, modulo).1)) == Sum(Lens(buf)) + |ms[j].items|
  {
    var m := ms[j];
    var holding := m.(items := m.items + buf[m.id], inspections := m.inspections + |m.items| + |buf[m.id]|);
    LensUpdate(buf, m.id, []);
    ThrowCount(buf[m.id := []], holding, holding.items, divisor, modulo);
  }

  /** The number of items held by the monkeys from `j` on at the start of the round. */
  function Untaken(ms: seq<Monkey>, j: nat): nat
    requires j <= |ms|
  {
    Sum(Counts(ms)[j..])
  }

  /** The number of items staged after the turns of monkeys `0` to `j - 1`. */
  function Staged(ms: seq<Monkey>, j: nat, divisor: int, modulo: int): nat
    requires j <= |ms| && Safe(ms, j, divisor, modulo)
  {
    Sum(Lens(Turns(ms, j, divisor, modulo).1))
  }

  /** The items not yet taken by a turn plus the staged ones are all the items there were. */
  lemma {:induction false} TurnsCount(ms: seq<Monkey>, j: nat, divisor: int, modulo: int)
    requires j <= |ms| && Safe(ms, j, divisor, modulo)
    ensures Untaken(ms, j) + Staged(ms, j, divisor, modulo) == Sum(Counts(ms))
  {
    if j == 0 {
      NothingStaged(ms, divisor, modulo);
    } else {
      TurnsCount(ms, j - 1, divisor, modulo);
      TurnsStepCount(ms, j, divisor, modulo);
    }
  }

  /** Before the first turn nothing is staged. */
  lemma NothingStaged(ms: seq<Monkey>, divisor: int, modulo: int)
    ensures Untaken(ms, 0) == Sum(Counts(ms)) && Staged(ms, 0, divisor, modulo) == 0
  {
    assert Counts(ms)[0..] == Counts(ms);
    SumZeros(Lens(Turns(ms, 0, divisor, modulo).1));
  }

  /** The turn of monkey `j - 1` stages as many items as it held at the start of the round, and takes them. */
  lemma TurnsStepCount(ms: seq<Monkey>, j: nat, divisor: int, modulo: int)
    requires 0 < j <= |ms| && Safe(ms, j, divisor, modulo)
    ensures Staged(ms, j, divisor, modulo) == Staged(ms, j - 1, divisor, modulo) + |ms[j - 1].items|
    ensures Untaken(ms, j - 1) == |ms[j - 1].items| + Untaken(ms, j)
  {
    TurnStaged(ms, j, divisor, modulo);
    CountsFront(ms, j - 1);
  }

  lemma TurnStaged(ms: seq<Monkey>, j: nat, divisor: int, modulo: int)
    requires 0 < j <= |ms| && Safe(ms, j, divisor, modulo)
    ensures Staged(ms, j, divisor, modulo) == Staged(ms, j - 1, divisor, modulo) + |ms[j - 1].items|
  {
    var q := Turns(ms, j - 1, divisor, modulo);
    assert q.0[j - 1] == ms[j - 1];
    TurnCount(q.0, q.1, j - 1, divisor, modulo);
  }

  /** Taking monkey `j`'s items leaves the items of the monkeys after it. */
  lemma CountsFront(ms: seq<Monkey>, j: nat)
    requires j < |ms|
    ensures Untaken(ms, j) == |ms[j].items| + Untaken(ms, j + 1)
  {
    SumFront(Counts(ms)[j..]);
    assert Counts(ms)[j..][1..] == Counts(ms)[j + 1..];
  }

  /** A round neither loses nor creates items. */
  lemma RoundConservesItems(ms: seq<Monkey>, divisor: int, modulo: int)
    requires Safe(ms, |ms|, divisor, modulo)
    ensures Sum(Counts(AfterRound(ms, divisor, modulo))) == Sum(Counts(ms))
  {
    var n := |ms|;
    TurnsCount(ms, n, divisor, modulo);
    assert Counts(AfterRound(ms, divisor, modulo)) == Lens(Turns(ms, n, divisor, modulo).1);
    assert Counts(ms)[n..] == [];
  }

  /** A monkey's entry is not touched by the turns after its own. */
  lemma {:induction false} TurnsKeep(ms: seq<Monkey>, j: nat, k: nat, divisor: int, modulo: int)
    requires j < k <= |ms| && Safe(ms, k, divisor, modulo)
    ensures Safe(ms, j + 1, divisor, modulo)
    ensures Turns(ms, k, divisor, modulo).0[j] == Turns(ms, j + 1, divisor, modulo).0[j]
    decreases k
  {
    SafeBefore(ms, k, divisor, modulo);
    if k > j + 1 {
      TurnsKeep(ms, j, k - 1, divisor, modulo);
      TurnKeeps(ms, j, k, divisor, modulo);
      assert Turns(ms, k, divisor, modulo).0[j] == Turns(ms, j + 1, divisor, modulo).0[j];
    } else {
      assert k == j + 1;
      assert Turns(ms, k, divisor, modulo).0[j] == Turns(ms, j + 1, divisor, modulo).0[j];
    }
  }

  /** The turn of monkey `k - 1` leaves the entry of an earlier monkey `j` as it was. */
  lemma TurnKeeps(ms: seq<Monkey>, j: nat, k: nat, divisor: int, modulo: int)
    requires j + 1 < k <= |ms| && Safe(ms, k, divisor, modulo)
    ensures Turns(ms, k, divisor, modulo).0[j] == Turns(ms, k - 1, divisor, modulo).0[j]
  {
    var p := Turns(ms, k - 1, divisor, modulo);
    assert p.0[k - 1] == ms[k - 1];
    assert Turns(ms, k, divisor, modulo) == Turn(p.0, p.1, k - 1, divisor, modulo);
  }

  /**
   * Each monkey's inspection count grows by the items it holds at its
   * turn: its own and those thrown to it earlier in the round.
   */
  lemma RoundInspections(ms: seq<Monkey>, j: nat, divisor: int, modulo: int)
    requires j < |ms| && Safe(ms, |ms|, divisor, modulo)
    ensures Safe(ms, j + 1, divisor, modulo) && ms[j].id < |ms|
    ensures AfterRound(ms, divisor, modulo)[j].inspections
            == ms[j].inspections + |ms[j].items| + |Turns(ms, j, divisor, modulo).1[ms[j].id]|
  {
    TurnsKeep(ms, j, |ms|, divisor, modulo);
  }
}
