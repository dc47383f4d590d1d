/**
 * Day 7: no space left on device. A `Finder` replays a terminal
 * transcript into a flat vector of files and directories linked by ids;
 * sizes are summed over the tree, and the puzzles query directory sizes.
 */
module Day7 {
  import opened Wrappers
  import opened Text

  /** A file's size, or a directory's set of child ids. */
  datatype Soc = Size(size: nat) | Children(ids: set<nat>)

  datatype File = File(name: string, id: nat, parent: Option<nat>, soc: Soc)

  predicate IsDir(f: File) {
    f.soc.Children?
  }

  /**
   * The shape every `Finder` keeps at node `i`: its id is its index; the
   * root is a directory without parent; any other node's parent comes
   * before it and, when that parent is a directory, lists it as a child;
   * every child of a directory comes after it and names it as parent.
   */
  ghost predicate NodeOk(files: seq<File>, i: nat)
    requires i < |files|
  {
    && files[i].id == i
    && (i == 0 ==> files[i].parent == None && IsDir(files[i]))
    && (i > 0 ==>
          (files[i].parent.Some? && files[i].parent.value < i &&
           (IsDir(files[files[i].parent.value]) ==> i in files[files[i].parent.value].soc.ids)))
    && (IsDir(files[i]) ==> forall c | c in files[i].soc.ids :: i < c < |files| && files[c].parent == Some(i))
  }

  ghost predicate WellFormed(files: seq<File>) {
    |files| > 0 && forall i | 0 <= i < |files| :: NodeOk(files, i)
  }

  // ----- File::size -----

  /** `File::size`: a file's own size, or the sum of the sizes of a directory's children. */
  function Size(files: seq<File>, id: nat): nat
    requires WellFormed(files) && id < |files|
    decreases |files| - id, 0
  {
    match files[id].soc
    case Size(n) => n
    case Children(ids) => SumFrom(files, ids, id + 1)
  }

  /** The sizes of the ids in `ids` that are at least `j`, summed in increasing id order. */
  function SumFrom(files: seq<File>, ids: set<nat>, j: nat): nat
    requires WellFormed(files)
    decreases |files| - j, 1
  {
    if j >= |files| then 0
    else (if j in ids then Size(files, j) else 0) + SumFrom(files, ids, j + 1)
  }

  /** What well-formedness says about one child of one directory. */
  lemma ChildOf(files: seq<File>, d: nat, c: nat)
    requires WellFormed(files) && d < |files| && IsDir(files[d]) && c in files[d].soc.ids
    ensures d < c < |files| && files[c].parent == Some(d)
  {
    assert NodeOk(files, d);
  }

  lemma {:induction false} SumFromHas(files: seq<File>, ids: set<nat>, j: nat, c: nat)
    requires WellFormed(files) && c in ids && j <= c < |files|
    ensures Size(files, c) <= SumFrom(files, ids, j)
    decreases |files| - j
  {
    if j < c {
      SumFromHas(files, ids, j + 1, c);
    }
  }

  /** No child is bigger than its directory. */
  lemma ChildAtMostParent(files: seq<File>, d: nat, c: nat)
    requires WellFormed(files) && d < |files| && IsDir(files[d]) && c in files[d].soc.ids
    ensures c < |files| && Size(files, c) <= Size(files, d)
  {
    ChildOf(files, d, c);
    SumFromHas(files, files[d].soc.ids, d + 1, c);
  }

  lemma {:induction false} SumFromEmpty(files: seq<File>, j: nat)
    requires WellFormed(files)
    ensures SumFrom(files, {}, j) == 0
    decreases |files| - j
  {
    if j < |files| {
      SumFromEmpty(files, j + 1);
    }
  }

  /** A directory's size is at least the sum of any two of its distinct children's sizes. */
  lemma {:induction false} SumFromTwo(files: seq<File>, ids: set<nat>, j: nat, a: nat, b: nat)
    requires WellFormed(files) && a in ids && b in ids && j <= a < b < |files|
    ensures Size(files, a) + Size(files, b) <= SumFrom(files, ids, j)
    decreases |files| - j
  {
    if j < a {
      SumFromTwo(files, ids, j + 1, a, b);
    } else {
      SumFromHas(files, ids, j + 1, b);
    }
  }

  // ----- Finder -----

  /** The node `c` is a child of directory `d` called `name`. */
  ghost predicate ChildNamed(files: seq<File>, d: nat, name: string, c: nat) {
    d < |files| && IsDir(files[d]) && c in files[d].soc.ids && c < |files| && files[c].name == name
  }

  /** The files after `add` in directory `curr`: the new node is appended, and listed as a child of `curr` when that is a directory. */
  function Added(files: seq<File>, curr: nat, name: string, soc: Soc): seq<File>
    requires curr < |files|
  {
    var id := |files|;
    var dir := files[curr];
    var updated := if IsDir(dir) then dir.(soc := Children(dir.soc.ids + {id})) else dir;
    files[curr := updated] + [File(name, id, Some(curr), soc)]
  }

  /** Adding an empty directory or a file under the current node keeps the tree well formed. */
  lemma AddedWellFormed(files: seq<File>, curr: nat, name: string, soc: Soc)
    requires WellFormed(files) && curr < |files|
    requires soc.Children? ==> soc.ids == {}
    ensures WellFormed(Added(files, curr, name, soc))
  {
    var after := Added(files, curr, name, soc);
    forall i | 0 <= i < |after| ensures NodeOk(after, i) {
      if i < |files| {
        AddedKeepsNode(files, curr, name, soc, i);
      }
    }
  }

  lemma AddedKeepsNode(files: seq<File>, curr: nat, name: string, soc: Soc, i: nat)
    requires WellFormed(files) && curr < |files| && i < |files|
    ensures NodeOk(Added(files, curr, name, soc), i)
  {
    var after := Added(files, curr, name, soc);
    assert NodeOk(files, i);
    assert forall j | 0 <= j < |files| :: after[j].parent == files[j].parent && after[j].id == files[j].id;
    assert forall j | 0 <= j < |files| :: IsDir(after[j]) == IsDir(files[j]);
    assert forall j | 0 <= j < |files| && IsDir(files[j]) :: files[j].soc.ids <= after[j].soc.ids;
    if IsDir(after[i]) {
      forall c | c in after[i].soc.ids ensures i < c < |after| && after[c].parent == Some(i) {
        if c != |files| {
          assert c in files[i].soc.ids;
        }
      }
    }
  }

  // ----- how `add` changes sizes -----

  /** Node `x` is `y` or a directory above it, reached through parents that list their child. */
  ghost predicate Under(files: seq<File>, x: nat, y: nat)
    requires WellFormed(files) && y < |files|
    decreases y
  {
    assert NodeOk(files, y);
    y == x ||
    (y > 0 && IsDir(files[files[y].parent.value]) && Under(files, x, files[y].parent.value))
  }

  lemma {:induction false} UnderAtMost(files: seq<File>, x: nat, y: nat)
    requires WellFormed(files) && y < |files| && Under(files, x, y)
    ensures x <= y && (x < y ==> IsDir(files[x]))
    decreases y
  {
    assert NodeOk(files, y);
    if y != x {
      UnderAtMost(files, x, files[y].parent.value);
    }
  }

  /** The nodes above a node form a chain: of two of them, the lower is under the higher. */
  lemma {:induction false} UnderChain(files: seq<File>, a: nat, b: nat, y: nat)
    requires WellFormed(files) && b < |files| && y < |files| && Under(files, a, y) && Under(files, b, y) && a <= b
    ensures Under(files, a, b)
    decreases y
  {
    assert NodeOk(files, y);
    if y == a {
      UnderAtMost(files, b, y);
    } else if y != b {
      UnderChain(files, a, b, files[y].parent.value);
    }
  }

  /** Under the directory `x` and not `x` itself means under exactly one child of `x`. */
  lemma {:induction false} UnderSomeChild(files: seq<File>, x: nat, y: nat) returns (c: nat)
    requires WellFormed(files) && y < |files| && Under(files, x, y) && x != y
    ensures x < |files| && IsDir(files[x]) && c in files[x].soc.ids && Under(files, c, y)
    decreases y
  {
    UnderAtMost(files, x, y);
    assert NodeOk(files, y);
    var p := files[y].parent.value;
    if p == x {
      c := y;
    } else {
      c := UnderSomeChild(files, x, p);
    }
  }

  lemma UnderOneChildOrdered(files: seq<File>, x: nat, c1: nat, c2: nat, y: nat)
    requires WellFormed(files) && x < |files| && y < |files| && IsDir(files[x])
    requires c1 in files[x].soc.ids && c2 in files[x].soc.ids && c1 <= c2
    requires Under(files, c1, y) && Under(files, c2, y)
    ensures c1 == c2
  {
    ChildOf(files, x, c1);
    ChildOf(files, x, c2);
    if c1 < c2 {
      UnderChain(files, c1, c2, y);
      assert NodeOk(files, c2);
      UnderAtMost(files, c1, x);
    }
  }

  /** Of the children of a directory, at most one is above a given node. */
  lemma UnderOneChild(files: seq<File>, x: nat, c1: nat, c2: nat, y: nat)
    requires WellFormed(files) && x < |files| && y < |files| && IsDir(files[x])
    requires c1 in files[x].soc.ids && c2 in files[x].soc.ids
    requires Under(files, c1, y) && Under(files, c2, y)
    ensures c1 == c2
  {
    if c1 <= c2 {
      UnderOneChildOrdered(files, x, c1, c2, y);
    } else {
      UnderOneChildOrdered(files, x, c2, c1, y);
    }
  }

  /** A child's parent directory is above whatever the child is above. */
  lemma ParentOver(files: seq<File>, x: nat, c: nat, y: nat)
    requires WellFormed(files) && x < |files| && y < |files| && IsDir(files[x]) && c in files[x].soc.ids
    requires Under(files, c, y)
    ensures Under(files, x, y)
  {
    ChildOf(files, x, c);
    assert NodeOk(files, c);
    assert Under(files, x, c);
    UnderTransitive(files, x, c, y);
  }

  lemma {:induction false} UnderTransitive(files: seq<File>, a: nat, b: nat, y: nat)
    requires WellFormed(files) && b < |files| && y < |files| && Under(files, a, b) && Under(files, b, y)
    ensures Under(files, a, y)
    decreases y
  {
    assert NodeOk(files, y);
    if y != b {
      UnderTransitive(files, a, b, files[y].parent.value);
    }
  }

  /** The size a new node brings: a file's own size, nothing for an empty directory. */
  function NewSize(soc: Soc): nat {
    match soc
    case Size(n) => n
    case Children(_) => 0
  }

  lemma {:induction false} SumFromPast(files: seq<File>, ids: set<nat>, j: nat)
    requires WellFormed(files) && forall c | c in ids :: c < j
    ensures SumFrom(files, ids, j) == 0
    decreases |files| - j
  {
    if j < |files| {
      SumFromPast(files, ids, j + 1);
    }
  }

  lemma {:induction false} SumFromWithLast(files: seq<File>, ids: set<nat>, j: nat)
    requires WellFormed(files) && j < |files| && |files| - 1 !in ids
    ensures SumFrom(files, ids + {|files| - 1}, j) == SumFrom(files, ids, j) + Size(files, |files| - 1)
    decreases |files| - j
  {
    if j < |files| - 1 {
      SumFromWithLast(files, ids, j + 1);
    }
  }

  /**
   * After `add` in directory `curr`, every directory above `curr` (and
   * `curr` itself) grows by the new node's size; no other size changes.
   * When `curr` is a file the new node hangs off it unlisted and no size
   * changes at all.
   */
  lemma {:induction false} SizeAfterAdd(files: seq<File>, curr: nat, name: string, soc: Soc, x: nat)
    requires WellFormed(files) && curr < |files| && x < |files|
    requires soc.Children? ==> soc.ids == {}
    ensures WellFormed(Added(files, curr, name, soc))
    ensures Size(Added(files, curr, name, soc), x) ==
              Size(files, x) + if IsDir(files[curr]) && Under(files, x, curr) then NewSize(soc) else 0
    decreases |files| - x, 0
  {
    AddedWellFormed(files, curr, name, soc);
    var after := Added(files, curr, name, soc);
    var n := |files|;
    if !IsDir(files[x]) {
      if Under(files, x, curr) {
        UnderAtMost(files, x, curr);
      }
    } else {
      var ids := files[x].soc.ids;
      assert NodeOk(files, x);
      SumAfterAdd(files, curr, name, soc, x, x + 1);
      if x == curr {
        assert after[x].soc.ids == ids + {n};
        SumFromWithLast(after, ids, x + 1);
        forall c | c in ids ensures !Under(files, c, curr) {
          if Under(files, c, curr) {
            UnderAtMost(files, c, curr);
          }
        }
      } else {
        assert after[x].soc.ids == ids;
        if Under(files, x, curr) {
          var c := UnderSomeChild(files, x, curr);
          ChildOf(files, x, c);
        } else {
          forall c | c in ids ensures !Under(files, c, curr) {
            if Under(files, c, curr) {
              ParentOver(files, x, c, curr);
            }
          }
        }
      }
    }
  }

  /** `SizeAfterAdd` summed over the children of directory `x` from id `j` on. */
  lemma {:induction false} SumAfterAdd(files: seq<File>, curr: nat, name: string, soc: Soc, x: nat, j: nat)
    requires WellFormed(files) && curr < |files| && x < |files| && IsDir(files[x]) && x < j
    requires soc.Children? ==> soc.ids == {}
    ensures WellFormed(Added(files, curr, name, soc))
    ensures SumFrom(Added(files, curr, name, soc), files[x].soc.ids, j) ==
              SumFrom(files, files[x].soc.ids, j) +
              if IsDir(files[curr]) && exists c | c in files[x].soc.ids && j <= c :: Under(files, c, curr)
              then NewSize(soc) else 0
    decreases |files| - j, 1
  {
    AddedWellFormed(files, curr, name, soc);
    var after := Added(files, curr, name, soc);
    var ids := files[x].soc.ids;
    var n := |files|;
    if j >= n {
      forall c | c in ids ensures c < n {
        ChildOf(files, x, c);
      }
      SumFromPast(files, ids, j);
      SumFromPast(after, ids, j);
    } else {
      SizeAfterAdd(files, curr, name, soc, j);
      SumAfterAdd(files, curr, name, soc, x, j + 1);
      if j in ids && Under(files, j, curr) {
        forall c | c in ids && j + 1 <= c ensures !Under(files, c, curr) {
          if Under(files, c, curr) {
            UnderOneChild(files, x, j, c, curr);
          }
        }
      }
    }
  }

  class Finder {
    var curr: nat
    var files: seq<File>

    ghost predicate Valid()
      reads this
    {
      WellFormed(files) && curr < |files|
    }

    /** `Finder::from`: a lone root directory, which is the current node. */
    constructor(root: string)
      ensures Valid()
      ensures curr == 0 && files == [File(root, 0, None, Children({}))]
    {
      var lone := [File(root, 0, None, Children({}))];
      assert NodeOk(lone, 0);
      curr := 0;
      files := lone;
    }

    /**
     * `add`: append a node with the next id whose parent is the current
     * node; the current node lists it as a child when it is a directory.
     */
    method Add(name: string, soc: Soc)
      requires Valid()
      requires soc.Children? ==> soc.ids == {}
      modifies this
      ensures Valid()
      ensures files == Added(old(files), old(curr), name, soc) && curr == old(curr)
    {
      AddedWellFormed(files, curr, name, soc);
      ghost var expected := Added(files, curr, name, soc);
      var id := |files|;
      if files[curr].soc.Children? {
        files := files[curr := files[curr].(soc := Children(files[curr].soc.ids + {id}))];
      }
      files := files + [File(name, id, Some(curr), soc)];
      assert files == expected;
    }

    /** The loop of `cd` over the current directory's children: some child with that name, if there is one. */
    method FindChild(name: string) returns (found: Option<nat>)
      requires Valid()
      ensures found.Some? ==> ChildNamed(files, curr, name, found.value)
      ensures found.None? ==> forall c :: !ChildNamed(files, curr, name, c)
    {
      found := None;
      if files[curr].soc.Children? {
        var ids := files[curr].soc.ids;
        var rest := ids;
        while rest != {}
          invariant rest <= ids
          invariant forall c | c in ids - rest :: !ChildNamed(files, curr, name, c)
          decreases |rest|
        {
          var c :| c in rest;
          if c < |files| && files[c].name == name {
            return Some(c);
          }
          rest := rest - {c};
        }
      }
    }

    /**
     * `cd`: ".." moves to the parent (the root has none); any other name
     * moves to some child of the current directory with that name, chosen
     * by the set's iteration order, or reports `false` and stays.
     */
    method Cd(name: string) returns (moved: bool)
      requires Valid()
      requires name == ".." ==> files[curr].parent.Some?
      modifies this
      ensures Valid() && files == old(files)
      ensures name == ".." ==> moved && curr == old(files[curr].parent.value)
      ensures name != ".." ==> (moved <==> exists c :: ChildNamed(files, old(curr), name, c))
      ensures name != ".." && moved ==> ChildNamed(files, old(curr), name, curr)
      ensures !moved ==> curr == old(curr)
    {
      if name == ".." {
        assert NodeOk(files, curr);
        curr := files[curr].parent.value;
        return true;
      }
      var found := FindChild(name);
      if found.Some? {
        curr := found.value;
        return true;
      }
      return false;
    }

    /** `parse` does not panic on this line: names and sizes are present, and "$ cd .." is not given at the root. */
    ghost predicate ParseSafe(line: string)
      reads this
      requires Valid()
    {
      var ws := Words(line);
      if ws == [] then true
      else if ws[0] == "$" then
        (|ws| > 1 && ws[1] == "cd" ==> |ws| > 2 && (ws[2] == ".." ==> files[curr].parent.Some?))
      else if ws[0] == "dir" then |ws| > 1
      else |ws| > 1 && ParseNat(ws[0]).Some?
    }

    /**
     * `parse`: "$ cd x" changes directory, other "$" lines and blank lines
     * do nothing, "dir x" adds an empty directory and "n x" a file of size n.
     */
    method Parse(line: string)
      requires Valid() && ParseSafe(line)
      modifies this
      ensures Valid()
      ensures var ws := Words(line);
        if ws != [] && ws[0] == "$" then
          files == old(files) &&
          if |ws| > 2 && ws[1] == "cd" then
            if ws[2] == ".." then curr == old(files[curr].parent.value)
            else ChildNamed(files, old(curr), ws[2], curr) ||
                 (curr == old(curr) && forall c :: !ChildNamed(files, old(curr), ws[2], c))
          else curr == old(curr)
        else if ws != [] && ws[0] == "dir" then
          files == Added(old(files), old(curr), ws[1], Children({})) && curr == old(curr)
        else if ws != [] then
          files == Added(old(files), old(curr), ws[1], Size(ParseNat(ws[0]).value)) && curr == old(curr)
        else
          files == old(files) && curr == old(curr)
    {
      var ws := Words(line);
      if ws == [] {
        return;
      }
      if ws[0] == "$" {
        if |ws| > 1 && ws[1] == "cd" {
          var _ := Cd(ws[2]);
        }
      } else if ws[0] == "dir" {
        Add(ws[1], Children({}));
      } else {
        Add(ws[1], Size(ParseNat(ws[0]).value));
      }
    }
  }

  // ----- puzzle queries -----

  /** The sizes of the directories from index `i` on that are at most `limit`, summed. */
  function SmallDirTotalFrom(files: seq<File>, limit: nat, i: nat): nat
    requires WellFormed(files)
    decreases |files| - i
  {
    if i >= |files| then 0
    else
      (if IsDir(files[i]) && Size(files, i) <= limit then Size(files, i) else 0)
      + SmallDirTotalFrom(files, limit, i + 1)
  }

  /** `puzzle1`'s query: the total size of the directories (root included) of at most 100 000. */
  function SmallDirTotal(files: seq<File>): nat
    requires WellFormed(files)
  {
    SmallDirTotalFrom(files, 100_000, 0)
  }

  /** Raising the limit never lowers the total. */
  lemma {:induction false} SmallDirTotalMonotone(files: seq<File>, a: nat, b: nat, i: nat)
    requires WellFormed(files) && a <= b
    ensures SmallDirTotalFrom(files, a, i) <= SmallDirTotalFrom(files, b, i)
    decreases |files| - i
  {
    if i < |files| {
      SmallDirTotalMonotone(files, a, b, i + 1);
    }
  }

  /** Each directory counted adds at most `limit`. */
  lemma {:induction false} SmallDirTotalAtMost(files: seq<File>, limit: nat, i: nat)
    requires WellFormed(files) && i <= |files|
    ensures SmallDirTotalFrom(files, limit, i) <= limit * (|files| - i)
    decreases |files| - i
  {
    if i < |files| {
      SmallDirTotalAtMost(files, limit, i + 1);
      var k := |files| - (i + 1);
      assert limit * (k + 1) == limit * k + limit;
    }
  }

  /** Every directory of at most `limit` is counted. */
  lemma {:induction false} SmallDirTotalCounts(files: seq<File>, limit: nat, i: nat, d: nat)
    requires WellFormed(files) && i <= d < |files| && IsDir(files[d]) && Size(files, d) <= limit
    ensures Size(files, d) <= SmallDirTotalFrom(files, limit, i)
    decreases |files| - i
  {
    if i < d {
      SmallDirTotalCounts(files, limit, i + 1, d);
    }
  }

  /** The sizes of the directories from index `i` on that reach `needed`: the smallest one, if any. */
  function SmallestAtLeast(files: seq<File>, needed: nat, i: nat): (r: Option<nat>)
    requires WellFormed(files)
    ensures r.Some? ==> needed <= r.value
    ensures r.Some? ==> exists d | i <= d < |files| :: IsDir(files[d]) && Size(files, d) == r.value
    ensures r.Some? ==> forall d | i <= d < |files| && IsDir(files[d]) && needed <= Size(files, d) ::
              r.value <= Size(files, d)
    ensures r.None? <==> forall d | i <= d < |files| :: !(IsDir(files[d]) && needed <= Size(files, d))
    decreases |files| - i
  {
    if i >= |files| then None
    else
      var rest := SmallestAtLeast(files, needed, i + 1);
      if IsDir(files[i]) && needed <= Size(files, i) then
        if rest.Some? && rest.value < Size(files, i) then rest else Some(Size(files, i))
      else rest
  }

  /**
   * `puzzle2`'s query: `None` when the root is under 40 000 000; else the
   * smallest directory whose removal frees enough, never more than the
   * root since the root itself qualifies.
   */
  function DirToDelete(files: seq<File>): (r: Option<nat>)
    requires WellFormed(files)
    ensures r.None? <==> Size(files, 0) < 40_000_000
    ensures r.Some? ==> Size(files, 0) - 40_000_000 <= r.value <= Size(files, 0)
    ensures r.Some? ==> exists d | 0 <= d < |files| :: IsDir(files[d]) && Size(files, d) == r.value
    ensures r.Some? ==> forall d | 0 <= d < |files| && IsDir(files[d]) && Size(files, 0) - 40_000_000 <= Size(files, d) ::
              r.value <= Size(files, d)
  {
    var root := Size(files, 0);
    assert NodeOk(files, 0);
    if root < 40_000_000 then None
    else SmallestAtLeast(files, root - 40_000_000, 0)
  }
}
