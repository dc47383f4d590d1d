/**
 * Day 2: rock-paper-scissors strategy guide. Each line holds the
 * opponent's letter (A/B/C) and a second letter (X/Y/Z), read either as a
 * shape or as the outcome to aim for.
 */
module Day2 {
  import opened Wrappers

  datatype RPS = Rock | Paper | Scissors {

    /** The points for the shape itself. */
    function ShapeValue(): nat {
      match this
      case Rock => 1
      case Paper => 2
      case Scissors => 3
    }

    /** Rock beats Scissors, Scissors beats Paper, Paper beats Rock. */
    predicate Beats(that: RPS) {
      (this, that) in {(Rock, Scissors), (Scissors, Paper), (Paper, Rock)}
    }

    /** `RPS::score`: shape value plus 6 for a win, 3 for a draw and 0 for a loss. */
    function Score(that: RPS): (r: int)
      ensures r == ShapeValue() + OutcomePoints(this, that)
      ensures 1 <= r <= 9
    {
      match this
      case Rock => 1 + (match that case Rock => 3 case Paper => 0 case Scissors => 6)
      case Paper => 2 + (match that case Rock => 6 case Paper => 3 case Scissors => 0)
      case Scissors => 3 + (match that case Rock => 0 case Paper => 6 case Scissors => 3)
    }
  }

  function OutcomePoints(me: RPS, them: RPS): nat {
    if me == them then 3 else if me.Beats(them) then 6 else 0
  }

  /** Playing against the same shape is a draw. */
  lemma ScoreDraw(a: RPS)
    ensures a.Score(a) == a.ShapeValue() + 3
  {
  }

  /** One player's win is the other's loss, and a draw is shared: the outcome points add up to 6. */
  lemma OutcomesComplementary(a: RPS, b: RPS)
    ensures (a.Score(b) - a.ShapeValue()) + (b.Score(a) - b.ShapeValue()) == 6
  {
  }

  /** `RPS::from`: A/X is Rock, B/Y is Paper, C/Z is Scissors, anything else is `None`. */
  function FromLetter(letter: char): (r: Option<RPS>)
    ensures r.Some? <==> letter in "ABCXYZ"
    ensures r == Some(Rock) <==> letter in "AX"
    ensures r == Some(Paper) <==> letter in "BY"
    ensures r == Some(Scissors) <==> letter in "CZ"
  {
    match letter
    case 'A' => Some(Rock)
    case 'X' => Some(Rock)
    case 'B' => Some(Paper)
    case 'Y' => Some(Paper)
    case 'C' => Some(Scissors)
    case 'Z' => Some(Scissors)
    case _ => None
  }

  /** The characters of `line` that are one of "ABCXYZ", in order. */
  function Letters(line: string): (ls: string)
    ensures forall c :: c in ls <==> c in line && c in "ABCXYZ"
    ensures |ls| <= |line|
  {
    if line == [] then []
    else (if line[0] in "ABCXYZ" then [line[0]] else []) + Letters(line[1..])
  }

  /** The letters are the characters of the line that are letters, in order; no other character. */
  lemma {:induction false} LettersOrder(line: string, i: nat)
    requires i <= |line|
    ensures Letters(line) == Letters(line[..i]) + Letters(line[i..])
  {
    if i > 0 {
      assert line[..i][1..] == line[1..][..i - 1];
      assert line[i..] == line[1..][i - 1..];
      LettersOrder(line[1..], i - 1);
    }
  }

  /**
   * `parse_line`: the first two characters of the line that are letters
   * from "ABCXYZ", read as (opponent, me); with fewer than two such
   * characters, "Not enough arguments in line!".
   */
  function ParseLine(line: string): (r: Result<(RPS, RPS), string>)
    ensures r.Err? <==> |Letters(line)| < 2
    ensures r.Err? ==> r.error == "Not enough arguments in line!"
    ensures r.Ok? ==> Some(r.value.0) == FromLetter(Letters(line)[0]) && Some(r.value.1) == FromLetter(Letters(line)[1])
  {
    var ls := Letters(line);
    if |ls| < 2 then Err("Not enough arguments in line!")
    else Ok((FromLetter(ls[0]).value, FromLetter(ls[1]).value))
  }

  /** `score`: the score of my shape (the second) against the opponent's (the first). */
  function GameScore(line: (RPS, RPS)): (r: int)
    ensures r == line.1.ShapeValue() + OutcomePoints(line.1, line.0)
  {
    line.1.Score(line.0)
  }

  /** The outcome points X (lose), Y (draw) and Z (win) ask for. */
  function Wanted(letter: char): nat
    requires letter in "XYZ"
  {
    if letter == 'X' then 0 else if letter == 'Y' then 3 else 6
  }

  /** The shape that reaches the wanted outcome against `them`, found by trying each shape. */
  function Respond(them: RPS, wanted: nat): RPS {
    if OutcomePoints(Rock, them) == wanted then Rock
    else if OutcomePoints(Paper, them) == wanted then Paper
    else Scissors
  }

  /**
   * `score_line`: the second letter is the outcome to reach; the score is
   * that of the shape reaching it. Errors: fewer than two letters from
   * "ABCXYZ" give "Not enough arguments in line.", a first letter outside
   * A-C or a second outside X-Z give "Not a valid turn.".
   */
  function ScoreLine(line: string): (r: Result<int, string>)
    ensures |Letters(line)| < 2 ==> r == Err("Not enough arguments in line.")
    ensures |Letters(line)| >= 2 && (Letters(line)[0] !in "ABC" || Letters(line)[1] !in "XYZ") ==>
              r == Err("Not a valid turn.")
    ensures |Letters(line)| >= 2 && Letters(line)[0] in "ABC" && Letters(line)[1] in "XYZ" ==>
              var them := FromLetter(Letters(line)[0]).value;
              var wanted := Wanted(Letters(line)[1]);
              var me := Respond(them, wanted);
              OutcomePoints(me, them) == wanted && r == Ok(me.Score(them))
  {
    var ls := Letters(line);
    if |ls| < 2 then Err("Not enough arguments in line.")
    else
      match (ls[0], ls[1])
      case ('A', 'X') => Ok(3)
      case ('B', 'X') => Ok(1)
      case ('C', 'X') => Ok(2)
      case ('A', 'Y') => Ok(4)
      case ('B', 'Y') => Ok(5)
      case ('C', 'Y') => Ok(6)
      case ('A', 'Z') => Ok(8)
      case ('B', 'Z') => Ok(9)
      case ('C', 'Z') => Ok(7)
      case _ => Err("Not a valid turn.")
  }

  /** The unit tests' cases: Scissors beats Paper for 9, Paper against Rock scores 8, "A Z" parses. */
  lemma Examples()
    ensures Scissors.Score(Paper) == 9
    ensures GameScore((Rock, Paper)) == 8
    ensures ParseLine("A Z") == Ok((Rock, Scissors))
  {
    assert Letters("Z") == "Z";
    assert Letters(" Z") == "Z";
    assert Letters("A Z") == "AZ";
  }
}
