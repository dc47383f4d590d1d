/**
 * Day 6: tuning trouble. The marker is the position just after the first
 * window of `w` pairwise distinct characters; a window is only checked once
 * more than `w` characters have been read.
 */
module Day6 {
  import opened Wrappers

  /** No character occurs twice. */
  predicate AllDistinct(s: string) {
    forall i, j | 0 <= i < j < |s| :: s[i] != s[j]
  }

  /** `all_unique` on the window, one element at a time. */
  function Unique(s: string): bool {
    s == [] || (s[0] !in s[1..] && Unique(s[1..]))
  }

  lemma {:induction false} UniqueIsAllDistinct(s: string)
    ensures Unique(s) <==> AllDistinct(s)
  {
    if s != [] {
      UniqueIsAllDistinct(s[1..]);
      if AllDistinct(s) {
        assert AllDistinct(s[1..]) by {
          forall i, j | 0 <= i < j < |s[1..]| ensures s[1..][i] != s[1..][j] {
            assert s[1..][i] == s[i + 1] && s[1..][j] == s[j + 1];
          }
        }
        assert s[0] !in s[1..] by {
          forall i | 0 <= i < |s[1..]| ensures s[1..][i] != s[0] {
            assert s[1..][i] == s[i + 1];
          }
        }
      }
      if Unique(s) {
        forall i, j | 0 <= i < j < |s| ensures s[i] != s[j] {
          assert s[j] == s[1..][j - 1];
          if i > 0 {
            assert s[i] == s[1..][i - 1];
          }
        }
      }
    }
  }

  /** `r` lists the characters of `s` newest first. */
  predicate Backwards(r: string, s: string) {
    |r| == |s| && forall j | 0 <= j < |r| :: r[j] == s[|s| - 1 - j]
  }

  lemma BackwardsDistinct(r: string, s: string)
    requires Backwards(r, s)
    ensures AllDistinct(r) <==> AllDistinct(s)
  {
    if AllDistinct(s) {
      forall i, j | 0 <= i < j < |r| ensures r[i] != r[j] {
        assert s[|s| - 1 - j] != s[|s| - 1 - i];
      }
    }
    if AllDistinct(r) {
      forall i, j | 0 <= i < j < |s| ensures s[i] != s[j] {
        assert r[|s| - 1 - j] != r[|s| - 1 - i];
      }
    }
  }

  /** The `w` characters before position `k` are pairwise distinct. */
  predicate MarkerAt(text: string, w: nat, k: int) {
    w <= k <= |text| && AllDistinct(text[k - w..k])
  }

  /**
   * The marker search of `puzzle1` (`w` = 4) and `puzzle2` (`w` = 14):
   * the deque holds the newest characters first; once it grows past `w`
   * the oldest is dropped and the window checked. The answer is the first
   * checked end position whose window is distinct, so it is above `w`.
   */
  method FindMarker(text: string, w: nat) returns (r: Option<nat>)
    ensures r.Some? ==> w < r.value <= |text| && MarkerAt(text, w, r.value)
    ensures r.Some? ==> forall k | w < k < r.value :: !MarkerAt(text, w, k)
    ensures r.None? ==> forall k | w < k <= |text| :: !MarkerAt(text, w, k)
  {
    var recent: string := [];
    for i := 0 to |text|
      invariant |recent| == if i < w then i else w
      invariant Backwards(recent, text[i - |recent|..i])
      invariant forall k | w < k <= i :: !MarkerAt(text, w, k)
    {
      Push(text, i, recent);
      recent := [text[i]] + recent;
      if |recent| > w {
        Drop(text, i, w, recent);
        recent := recent[..w];
        if Unique(recent) {
          return Some(i + 1);
        }
      }
    }
    return None;
  }

  /** Putting the next character in front keeps the deque the newest characters, newest first. */
  lemma Push(text: string, i: nat, recent: string)
    requires i < |text| && |recent| <= i && Backwards(recent, text[i - |recent|..i])
    ensures Backwards([text[i]] + recent, text[i - |recent|..i + 1])
  {
  }

  /** Dropping the oldest character leaves the window of `w` ending at `i + 1`, checked by `Unique`. */
  lemma Drop(text: string, i: nat, w: nat, r: string)
    requires i < |text| && |r| == w + 1 <= i + 1 && Backwards(r, text[i - w..i + 1])
    ensures Backwards(r[..w], text[i + 1 - w..i + 1])
    ensures Unique(r[..w]) <==> MarkerAt(text, w, i + 1)
  {
    BackwardsDistinct(r[..w], text[i + 1 - w..i + 1]);
    UniqueIsAllDistinct(r[..w]);
  }

  /** `puzzle1`: the start-of-packet marker, four distinct characters. */
  method Puzzle1(text: string) returns (r: Option<nat>)
    ensures r.Some? ==> 5 <= r.value <= |text| && MarkerAt(text, 4, r.value)
    ensures r.Some? ==> forall k | 4 < k < r.value :: !MarkerAt(text, 4, k)
    ensures r.None? ==> forall k | 4 < k <= |text| :: !MarkerAt(text, 4, k)
  {
    r := FindMarker(text, 4);
  }

  /** `puzzle2`: the start-of-message marker, fourteen distinct characters. */
  method Puzzle2(text: string) returns (r: Option<nat>)
    ensures r.Some? ==> 15 <= r.value <= |text| && MarkerAt(text, 14, r.value)
    ensures r.Some? ==> forall k | 14 < k < r.value :: !MarkerAt(text, 14, k)
    ensures r.None? ==> forall k | 14 < k <= |text| :: !MarkerAt(text, 14, k)
  {
    r := FindMarker(text, 14);
  }
}
