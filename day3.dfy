/**
 * Day 3: rucksacks. A line's two halves are its compartments; the item in
 * both, or the item common to three lines, is scored by its priority.
 */
module Day3 {
  import opened Wrappers

  predicate IsLower(c: char) { 'a' <= c <= 'z' }

  predicate IsUpper(c: char) { 'A' <= c <= 'Z' }

  predicate IsAsciiAlpha(c: char) { IsLower(c) || IsUpper(c) }

  /** `char::to_digit(36)` on an ASCII letter: 10 for 'a' or 'A' up to 35 for 'z' or 'Z'. */
  function ToDigit36(c: char): nat
    requires IsAsciiAlpha(c)
  {
    if IsLower(c) then c as int - 'a' as int + 10 else c as int - 'A' as int + 10
  }

  /**
   * `priority`: 'a'..'z' are 1..26 and 'A'..'Z' are 27..52; any other
   * character has none.
   */
  function Priority(letter: char): (r: Option<int>)
    ensures IsLower(letter) ==> r == Some(letter as int - 'a' as int + 1)
    ensures IsUpper(letter) ==> r == Some(letter as int - 'A' as int + 27)
    ensures !IsAsciiAlpha(letter) ==> r == None
    ensures r.Some? ==> 1 <= r.value <= 52
  {
    if IsAsciiAlpha(letter) then
      Some(ToDigit36(letter) - 9 + if IsUpper(letter) then 26 else 0)
    else
      None
  }

  /** Different letters have different priorities. */
  lemma PriorityInjective(a: char, b: char)
    requires IsAsciiAlpha(a) && IsAsciiAlpha(b) && a != b
    ensures Priority(a) != Priority(b)
  {
  }

  /**
   * `find_duplicate`: the first character of the second half
   * `line[len/2..]` that also occurs in the first half `line[..len/2]`
   * (for an odd length the middle character belongs to the second half);
   * `None` exactly when the halves share no character.
   */
  method FindDuplicate(line: string) returns (r: Option<char>)
    ensures r.Some? ==> r.value in line[..|line| / 2] && r.value in line[|line| / 2..]
    ensures r.Some? ==> exists k | |line| / 2 <= k < |line| ::
              line[k] == r.value && forall j | |line| / 2 <= j < k :: line[j] !in line[..|line| / 2]
    ensures r.None? <==> forall c | c in line[|line| / 2..] :: c !in line[..|line| / 2]
  {
    var half := |line| / 2;
    var letters: set<char> := {};
    for i := 0 to half
      invariant forall c :: c in letters <==> c in line[..i]
    {
      assert line[..i + 1] == line[..i] + [line[i]];
      letters := letters + {line[i]};
    }
    var k := half;
    while k < |line|
      invariant half <= k <= |line|
      invariant forall j | half <= j < k :: line[j] !in letters
    {
      if line[k] in letters {
        assert line[k] == line[half..][k - half];
        return Some(line[k]);
      }
      k := k + 1;
    }
    return None;
  }

  /**
   * `find_shared`: the first character of `z` that also occurs in both `x`
   * and `y`; `None` exactly when no character is common to all three.
   */
  method FindShared(x: string, y: string, z: string) returns (r: Option<char>)
    ensures r.Some? ==> r.value in x && r.value in y && r.value in z
    ensures r.Some? ==> exists k | 0 <= k < |z| ::
              z[k] == r.value && forall j | 0 <= j < k :: !(z[j] in x && z[j] in y)
    ensures r.None? <==> forall c | c in z :: !(c in x && c in y)
  {
    var xLetters: set<char> := {};
    for i := 0 to |x|
      invariant forall c :: c in xLetters <==> c in x[..i]
    {
      assert x[..i + 1] == x[..i] + [x[i]];
      xLetters := xLetters + {x[i]};
    }
    assert x[..|x|] == x;
    var xyLetters: set<char> := {};
    for i := 0 to |y|
      invariant forall c :: c in xyLetters <==> c in y[..i] && c in x
    {
      assert y[..i + 1] == y[..i] + [y[i]];
      if y[i] in xLetters {
        xyLetters := xyLetters + {y[i]};
      }
    }
    assert y[..|y|] == y;
    for k := 0 to |z|
      invariant forall j | 0 <= j < k :: z[j] !in xyLetters
    {
      if z[k] in xyLetters {
        return Some(z[k]);
      }
    }
    return None;
  }
}
