/** Reordering a group among its siblings. The groups stand in one flat list, children between their
    parents, and a move swaps a group with its neighbour when the two have the same parent. */
module GroupReorder {

  type Path = string

  // ---------- paths ----------

  function LastSlash(path: Path): (i: int)
    ensures -1 <= i < |path|
    ensures i >= 0 ==> path[i] == '/'
    ensures forall k :: i < k < |path| ==> path[k] != '/'
  {
    if path == [] then -1
    else if path[|path| - 1] == '/' then |path| - 1
    else LastSlash(path[..|path| - 1])
  }

  function ParentPath(path: Path): Path {
    if LastSlash(path) >= 0 then path[..LastSlash(path)] else ""
  }

  function Level(path: Path): nat {
    if path == [] then 0 else Level(path[..|path| - 1]) + if path[|path| - 1] == '/' then 1 else 0
  }

  lemma {:induction false} LevelAtSlash(path: Path)
    ensures Level(path) == if LastSlash(path) >= 0 then Level(path[..LastSlash(path)]) + 1 else 0
  {
    if path != [] && path[|path| - 1] != '/' {
      var p := path[..|path| - 1];
      LevelAtSlash(p);
      assert LastSlash(p) >= 0 ==> p[..LastSlash(p)] == path[..LastSlash(path)];
    }
  }

  /** The swap test of a move and the sibling test of a position differ on one kind of path only. */
  lemma SameParentIsSibling(a: Path, b: Path)
    requires ParentPath(a) == ParentPath(b) && !(a != [] && a[0] == '/') && !(b != [] && b[0] == '/')
    ensures Level(a) == Level(b)
  {
    LevelAtSlash(a);
    LevelAtSlash(b);
    assert LastSlash(a) > 0 ==> ParentPath(a) != [];
    assert LastSlash(b) > 0 ==> ParentPath(b) != [];
  }

  /** What the list reads off a path. What follows holds for any such reading; the program's is PATHS. */
  datatype Naming = Naming(parent: Path -> Path, level: Path -> nat)

  const PATHS: Naming := Naming(ParentPath, Level)

  predicate SameParent(nm: Naming, a: Path, b: Path) { nm.parent(a) == nm.parent(b) }

  predicate Sibling(nm: Naming, a: Path, b: Path) { SameParent(nm, a, b) && nm.level(a) == nm.level(b) }

  // ---------- moves and positions ----------

  predicate Distinct(s: seq<Path>) {
    forall i, j :: 0 <= i < j < |s| ==> s[i] != s[j]
  }

  function IndexOf(s: seq<Path>, path: Path): (i: nat)
    ensures i <= |s| && (i < |s| ==> s[i] == path)
    ensures forall j :: 0 <= j < i ==> s[j] != path
  {
    if s == [] || s[0] == path then 0 else 1 + IndexOf(s[1..], path)
  }

  function Swapped(s: seq<Path>, i: nat): seq<Path>
    requires i + 1 < |s|
  {
    s[i := s[i + 1]][i + 1 := s[i]]
  }

  function MovedUp(nm: Naming, s: seq<Path>, path: Path): seq<Path> {
    var i := IndexOf(s, path);
    if 0 < i < |s| && SameParent(nm, s[i - 1], path) then Swapped(s, i - 1) else s
  }

  function MovedDown(nm: Naming, s: seq<Path>, path: Path): seq<Path> {
    var i := IndexOf(s, path);
    if i + 1 < |s| && SameParent(nm, s[i + 1], path) then Swapped(s, i) else s
  }

  function SiblingTo(nm: Naming, path: Path): Path -> bool {
    other => Sibling(nm, other, path)
  }

  function Chosen(s: seq<Path>, p: Path -> bool): seq<Path> {
    if s == [] then [] else Chosen(s[..|s| - 1], p) + if p(s[|s| - 1]) then [s[|s| - 1]] else []
  }

  /** How many of the first `n` are chosen. */
  function ChosenBefore(s: seq<Path>, p: Path -> bool, n: nat): (k: nat)
    requires n <= |s|
    ensures k <= n
  {
    if n == 0 then 0 else ChosenBefore(s, p, n - 1) + if p(s[n - 1]) then 1 else 0
  }

  method MoveGroupUp(nm: Naming, list: array<Path>, path: Path)
    requires Distinct(list[..])
    modifies list
    ensures list[..] == MovedUp(nm, old(list[..]), path)
  {
    ghost var was := list[..];
    for i := 0 to list.Length
      invariant list[..] == was && forall j :: 0 <= j < i ==> j == 0 || was[j] != path
      invariant i > 0 && was[0] == path ==> IndexOf(was, path) == 0
    {
      if list[i] == path && i > 0 {
        assert was[0] != path ==> IndexOf(was, path) == i;
        if nm.parent(list[i - 1]) == nm.parent(path) {
          list[i], list[i - 1] := list[i - 1], list[i];
          assert list[..] == Swapped(was, i - 1);
        }
        return;
      }
    }
  }

  method MoveGroupDown(nm: Naming, list: array<Path>, path: Path)
    requires Distinct(list[..])
    modifies list
    ensures list[..] == MovedDown(nm, old(list[..]), path)
  {
    ghost var was := list[..];
    for i := 0 to list.Length
      invariant list[..] == was && forall j :: 0 <= j < i ==> j == |was| - 1 || was[j] != path
    {
      if list[i] == path && i < list.Length - 1 {
        assert IndexOf(was, path) == i;
        if nm.parent(list[i + 1]) == nm.parent(path) {
          list[i], list[i + 1] := list[i + 1], list[i];
          assert list[..] == Swapped(was, i);
        }
        return;
      }
    }
  }

  // ---------- counting ----------

  lemma {:induction false} CountOfPrefix(s: seq<Path>, t: seq<Path>, p: Path -> bool, n: nat)
    requires n <= |s| && n <= |t| && s[..n] == t[..n]
    ensures ChosenBefore(s, p, n) == ChosenBefore(t, p, n)
  {
    if n > 0 {
      assert s[..n][..n - 1] == s[..n - 1] && t[..n][..n - 1] == t[..n - 1];
      assert s[..n][n - 1] == t[..n][n - 1];
      CountOfPrefix(s, t, p, n - 1);
    }
  }

  lemma {:induction false} CountIsMonotone(s: seq<Path>, p: Path -> bool, m: nat, n: nat)
    requires m <= n <= |s|
    ensures ChosenBefore(s, p, m) <= ChosenBefore(s, p, n)
  {
    if m < n {
      CountIsMonotone(s, p, m, n - 1);
    }
  }

  lemma {:induction false} ChosenCounted(s: seq<Path>, p: Path -> bool)
    ensures |Chosen(s, p)| == ChosenBefore(s, p, |s|)
  {
    if s != [] {
      ChosenCounted(s[..|s| - 1], p);
      CountOfPrefix(s, s[..|s| - 1], p, |s| - 1);
    }
  }

  /** Entry `k` of the chosen ones is the element with `k` chosen ones before it. */
  lemma {:induction false} ChosenAt(s: seq<Path>, p: Path -> bool, k: nat) returns (i: nat)
    requires k < |Chosen(s, p)|
    ensures i < |s| && p(s[i]) && Chosen(s, p)[k] == s[i] && ChosenBefore(s, p, i) == k
  {
    var n := |s| - 1;
    ChosenCounted(s[..n], p);
    if k < |Chosen(s[..n], p)| {
      i := ChosenAt(s[..n], p, k);
      CountOfPrefix(s, s[..n], p, i);
    } else {
      i := n;
      CountOfPrefix(s, s[..n], p, n);
    }
  }

  // ---------- the list as one group and the rest ----------

  /** The group at place `j` among the others. */
  function Placed(rest: seq<Path>, path: Path, j: nat): (s: seq<Path>)
    requires j <= |rest|
    ensures |s| == |rest| + 1
  {
    rest[..j] + [path] + rest[j..]
  }

  lemma PlacedIndex(rest: seq<Path>, path: Path, j: nat)
    requires j <= |rest| && path !in rest
    ensures IndexOf(Placed(rest, path, j), path) == j
  {
    var s := Placed(rest, path, j);
    assert s[j] == path && forall k :: 0 <= k < j ==> s[k] == rest[k];
  }

  lemma PlacedSwapped(rest: seq<Path>, path: Path, j: nat)
    requires j < |rest|
    ensures var s, t := Placed(rest, path, j), Placed(rest, path, j + 1);
            s[j + 1] == rest[j] == t[j] && Swapped(s, j) == t && Swapped(t, j) == s
  {
    var s, t := Placed(rest, path, j), Placed(rest, path, j + 1);
    assert s == rest[..j] + [path, rest[j]] + rest[j + 1..];
    assert t == rest[..j] + [rest[j], path] + rest[j + 1..];
  }

  lemma PlacedMovedUp(nm: Naming, rest: seq<Path>, path: Path, j: nat)
    requires j <= |rest| && path !in rest
    ensures MovedUp(nm, Placed(rest, path, j), path) ==
            Placed(rest, path, if j > 0 && SameParent(nm, rest[j - 1], path) then j - 1 else j)
  {
    PlacedIndex(rest, path, j);
    var s := Placed(rest, path, j);
    if j > 0 {
      PlacedSwapped(rest, path, j - 1);
    }
  }

  lemma PlacedMovedDown(nm: Naming, rest: seq<Path>, path: Path, j: nat)
    requires j <= |rest| && path !in rest
    ensures MovedDown(nm, Placed(rest, path, j), path) ==
            Placed(rest, path, if j < |rest| && SameParent(nm, rest[j], path) then j + 1 else j)
  {
    PlacedIndex(rest, path, j);
    var s := Placed(rest, path, j);
    if j < |rest| {
      PlacedSwapped(rest, path, j);
    }
  }

  lemma PlacedAt(rest: seq<Path>, path: Path, j: nat, k: nat)
    requires j <= |rest| && k <= |rest|
    ensures Placed(rest, path, j)[k] == if k < j then rest[k] else if k == j then path else rest[k - 1]
  {
  }

  lemma DistinctWhenTaken(rest: seq<Path>, path: Path, i: nat)
    requires i <= |rest| && Distinct(Placed(rest, path, i))
    ensures Distinct(rest) && path !in rest
  {
    var s := Placed(rest, path, i);
    PlacedAt(rest, path, i, i);
    forall k | 0 <= k < |rest|
      ensures rest[k] == s[if k < i then k else k + 1]
    {
      PlacedAt(rest, path, i, if k < i then k else k + 1);
    }
  }

  lemma DistinctWhenPlaced(rest: seq<Path>, path: Path, j: nat)
    requires j <= |rest| && Distinct(rest) && path !in rest
    ensures Distinct(Placed(rest, path, j))
  {
    var t := Placed(rest, path, j);
    forall a, b | 0 <= a < b < |t|
      ensures t[a] != t[b]
    {
      PlacedAt(rest, path, j, a);
      PlacedAt(rest, path, j, b);
    }
  }

  lemma PlacedDistinct(rest: seq<Path>, path: Path, i: nat, j: nat)
    requires i <= |rest| && j <= |rest| && Distinct(Placed(rest, path, i))
    ensures Distinct(Placed(rest, path, j)) && path !in rest
  {
    DistinctWhenTaken(rest, path, i);
    DistinctWhenPlaced(rest, path, j);
  }

  lemma {:induction false} CountPlaced(rest: seq<Path>, path: Path, p: Path -> bool, j: nat, n: nat)
    requires j <= n <= |rest| && p(path)
    ensures ChosenBefore(Placed(rest, path, j), p, n + 1) == ChosenBefore(rest, p, n) + 1
    ensures ChosenBefore(Placed(rest, path, j), p, j) == ChosenBefore(rest, p, j)
  {
    var s := Placed(rest, path, j);
    assert s[j] == path && s[..j] == rest[..j];
    CountOfPrefix(s, rest, p, j);
    if n > j {
      CountPlaced(rest, path, p, j, n - 1);
      assert s[n] == rest[n - 1];
    }
  }

  /** The sibling list holds the group once, at the position given by the siblings before it. */
  lemma PositionIsCount(rest: seq<Path>, path: Path, p: Path -> bool, j: nat)
    requires j <= |rest| && path !in rest && p(path)
    ensures var siblings := Chosen(Placed(rest, path, j), p);
            var k := ChosenBefore(rest, p, j);
            && |siblings| == ChosenBefore(rest, p, |rest|) + 1
            && k < |siblings| && forall i :: 0 <= i < |siblings| ==> (siblings[i] == path <==> i == k)
  {
    var s, k := Placed(rest, path, j), ChosenBefore(rest, p, j);
    var siblings := Chosen(s, p);
    ChosenCounted(s, p);
    CountPlaced(rest, path, p, j, |rest|);
    CountIsMonotone(rest, p, j, |rest|);
    PlacedIndex(rest, path, j);
    forall i | 0 <= i < |siblings|
      ensures siblings[i] == path <==> i == k
    {
      var at := ChosenAt(s, p, i);
      if at < j {
        assert s[at] == rest[at];
        CountStrict(s, p, at, j);
      } else if at > j {
        assert s[at] == rest[at - 1];
        assert s[j] == path;
        CountStrict(s, p, j, at);
      }
    }
  }

  lemma CountStrict(s: seq<Path>, p: Path -> bool, m: nat, n: nat)
    requires m < n <= |s| && p(s[m])
    ensures ChosenBefore(s, p, m) < ChosenBefore(s, p, n)
  {
    CountIsMonotone(s, p, m + 1, n);
  }

  // ---------- the command ----------

  /** The position is that of the group in the list of its siblings, or -1 when it is not among them. */
  method GroupSiblingPosition(nm: Naming, list: array<Path>, path: Path) returns (pos: int, siblings: seq<Path>)
    ensures siblings == Chosen(list[..], SiblingTo(nm, path))
    ensures -1 <= pos < |siblings| && (pos == -1 <==> path !in siblings)
    ensures pos >= 0 ==> siblings[pos] == path && path !in siblings[..pos]
  {
    siblings := [];
    for i := 0 to list.Length
      invariant siblings == Chosen(list[..i], SiblingTo(nm, path))
    {
      assert list[..i + 1][..i] == list[..i];
      if Sibling(nm, list[i], path) {
        siblings := siblings + [list[i]];
      }
    }
    assert list[..list.Length] == list[..];
    for i := 0 to |siblings|
      invariant path !in siblings[..i]
    {
      if siblings[i] == path {
        return i, siblings;
      }
      assert siblings[..i + 1] == siblings[..i] + [siblings[i]];
    }
    assert siblings[..|siblings|] == siblings;
    return -1, siblings;
  }

  /** In a list that holds the group at place `j`, the position is the number of siblings before it. */
  method PositionAmong(nm: Naming, list: array<Path>, path: Path, ghost rest: seq<Path>, ghost j: nat)
    returns (pos: int, siblings: seq<Path>)
    requires j <= |rest| && path !in rest && list[..] == Placed(rest, path, j)
    ensures pos == ChosenBefore(rest, SiblingTo(nm, path), j)
    ensures |siblings| == ChosenBefore(rest, SiblingTo(nm, path), |rest|) + 1
  {
    pos, siblings := GroupSiblingPosition(nm, list, path);
    PositionIsCount(rest, path, SiblingTo(nm, path), j);
    ghost var k := ChosenBefore(rest, SiblingTo(nm, path), j);
    assert siblings[k] == path;
  }

  /** Every group between the place `from` and the target position is a sibling. */
  predicate WayIsClear(rest: seq<Path>, p: Path -> bool, from: nat, target: int)
    requires from <= |rest|
  {
    && (forall k :: 0 <= k < from && ChosenBefore(rest, p, k + 1) > target ==> p(rest[k]))
    && (forall k :: from <= k < |rest| && ChosenBefore(rest, p, k) < target ==> p(rest[k]))
  }

  /** The target as asked for, brought into the range of the siblings. */
  function Clamped(pos: int, siblings: nat): int {
    var atMost := if pos >= siblings then siblings - 1 else pos;
    if atMost < 0 then 0 else atMost
  }

  /** It is the position nearest to the one asked for. */
  lemma ClampedIsNearest(pos: int, siblings: nat, q: int)
    requires 0 <= q < siblings
    ensures var c := Clamped(pos, siblings);
            0 <= c < siblings && (if c > pos then c - pos else pos - c) <= (if q > pos then q - pos else pos - q)
  {
  }

  /** Where the group may be while it moves: it has passed siblings only, and not the target. */
  predicate OnTheWay(rest: seq<Path>, p: Path -> bool, from: nat, target: int, j: nat)
    requires from <= |rest| && j <= |rest|
  {
    && (j < from ==> ChosenBefore(rest, p, j) >= target)
    && (j > from ==> ChosenBefore(rest, p, j) <= target)
    && (forall k :: j <= k < from ==> p(rest[k]))
    && (forall k :: from <= k < j ==> p(rest[k]))
  }

  /** Where one move towards the target takes the group. */
  function Moved(nm: Naming, rest: seq<Path>, path: Path, up: bool, j: nat): (to: nat)
    requires j <= |rest|
    ensures to <= |rest|
  {
    if up then if j > 0 && SameParent(nm, rest[j - 1], path) then j - 1 else j
    else if j < |rest| && SameParent(nm, rest[j], path) then j + 1 else j
  }

  method MoveOnce(nm: Naming, list: array<Path>, path: Path, up: bool, ghost rest: seq<Path>, ghost j: nat)
    requires j <= |rest| && list[..] == Placed(rest, path, j) && Distinct(list[..])
    modifies list
    ensures list[..] == Placed(rest, path, Moved(nm, rest, path, up, j)) && Distinct(list[..])
  {
    PlacedDistinct(rest, path, j, Moved(nm, rest, path, up, j));
    if up {
      PlacedMovedUp(nm, rest, path, j);
      MoveGroupUp(nm, list, path);
    } else {
      PlacedMovedDown(nm, rest, path, j);
      MoveGroupDown(nm, list, path);
    }
  }

  /** The loop has got to place `to`; once stuck, the target is out of reach. */
  predicate Underway(rest: seq<Path>, p: Path -> bool, from: nat, target: int, to: nat, stuck: bool)
    requires from <= |rest| && to <= |rest|
  {
    if stuck then ChosenBefore(rest, p, to) != target && !WayIsClear(rest, p, from, target)
    else OnTheWay(rest, p, from, target, to)
  }

  /** Where the loop ends: at `to`, after the group has passed siblings only and not the target up to place `last`;
      that is the target, or the next move from there does not bring the group closer. */
  predicate Ends(nm: Naming, rest: seq<Path>, path: Path, from: nat, target: int, last: nat, to: nat)
    requires from <= |rest|
  {
    var p := SiblingTo(nm, path);
    && last <= |rest| && to <= |rest| && OnTheWay(rest, p, from, target, last)
    && if ChosenBefore(rest, p, last) == target then to == last
       else to == Moved(nm, rest, path, ChosenBefore(rest, p, last) > target, last)
            && ChosenBefore(rest, p, to) == ChosenBefore(rest, p, last)
  }

  /** Move by move until the target is reached or a move changes nothing. */
  method MoveToTarget(nm: Naming, list: array<Path>, path: Path, targetPos: int, ghost rest: seq<Path>, ghost from: nat)
    returns (ghost to: nat, ghost last: nat)
    requires from <= |rest| && path !in rest && list[..] == Placed(rest, path, from) && Distinct(list[..])
    requires 0 <= targetPos <= ChosenBefore(rest, SiblingTo(nm, path), |rest|)
    modifies list
    ensures to <= |rest| && list[..] == Placed(rest, path, to)
    ensures var p := SiblingTo(nm, path);
            ChosenBefore(rest, p, to) == targetPos <==> WayIsClear(rest, p, from, targetPos)
    ensures Ends(nm, rest, path, from, targetPos, last, to)
  {
    ghost var p := SiblingTo(nm, path);
    to, last := from, from;
    var stuck := false;
    var cur, _ := PositionAmong(nm, list, path, rest, from);
    while cur != targetPos && !stuck
      invariant to <= |rest| && list[..] == Placed(rest, path, to) && Distinct(list[..])
      invariant cur == ChosenBefore(rest, p, to)
      invariant Underway(rest, p, from, targetPos, to, stuck)
      invariant if stuck then Ends(nm, rest, path, from, targetPos, last, to) else last == to
      decreases !stuck, if cur > targetPos then cur - targetPos else targetPos - cur
    {
      MoveStep(nm, rest, path, from, targetPos, to);
      MoveOnce(nm, list, path, cur > targetPos, rest, to);
      last, to := to, Moved(nm, rest, path, cur > targetPos, to);
      var newCur, _ := PositionAmong(nm, list, path, rest, to);
      stuck := newCur == cur;
      if !stuck {
        last := to;
      }
      cur := newCur;
    }
    if !stuck {
      ArrivedMeansClear(rest, p, from, targetPos, to);
    }
  }

  /** The list without its entry `i`. */
  function Without(s: seq<Path>, i: nat): seq<Path>
    requires i < |s|
  {
    s[..i] + s[i + 1..]
  }

  lemma WithoutPlaced(rest: seq<Path>, path: Path, j: nat)
    requires j <= |rest|
    ensures Placed(rest, path, j)[j] == path && Without(Placed(rest, path, j), j) == rest
  {
  }

  lemma PlacedWithout(s: seq<Path>, i: nat)
    requires i < |s|
    ensures Placed(Without(s, i), s[i], i) == s
  {
  }

  method MoveToClamped(nm: Naming, list: array<Path>, path: Path, pos: int, ghost rest: seq<Path>, ghost from: nat)
    returns (ghost to: nat, ghost last: nat)
    requires from <= |rest| && list[..] == Placed(rest, path, from) && Distinct(list[..])
    modifies list
    ensures to <= |rest| && list[..] == Placed(rest, path, to)
    ensures PositionTaken(nm, rest, path, pos, from, last, to)
  {
    PlacedDistinct(rest, path, from, from);
    var _, siblings := PositionAmong(nm, list, path, rest, from);
    var targetPos := pos;
    if targetPos >= |siblings| {
      targetPos := |siblings| - 1;
    }
    if targetPos < 0 {
      targetPos := 0;
    }
    to, last := MoveToTarget(nm, list, path, targetPos, rest, from);
  }

  /** The group gets from place `from` to the clamped position exactly when only siblings stand on the way. */
  predicate ReachedIffClear(rest: seq<Path>, p: Path -> bool, pos: int, from: nat, to: nat)
    requires from <= |rest| && to <= |rest|
  {
    var target := Clamped(pos, ChosenBefore(rest, p, |rest|) + 1);
    ChosenBefore(rest, p, to) == target <==> WayIsClear(rest, p, from, target)
  }

  predicate PositionTaken(nm: Naming, rest: seq<Path>, path: Path, pos: int, from: nat, last: nat, to: nat)
    requires from <= |rest|
  {
    && to <= |rest| && ReachedIffClear(rest, SiblingTo(nm, path), pos, from, to)
    && Ends(nm, rest, path, from, Clamped(pos, ChosenBefore(rest, SiblingTo(nm, path), |rest|) + 1), last, to)
  }

  /** `--position`, for every list, group and position: the loop ends; the group goes from one place to
      another and the other groups keep their order; and it ends at the clamped position exactly when only
      siblings stand on the way. */
  method MoveToPosition(nm: Naming, list: array<Path>, path: Path, pos: int)
    returns (ghost from: nat, ghost to: nat, ghost last: nat, ghost rest: seq<Path>)
    requires Distinct(list[..]) && path in list[..]
    modifies list
    ensures from < list.Length && old(list[..])[from] == path
    ensures to < list.Length && list[..][to] == path
    ensures Without(list[..], to) == rest == Without(old(list[..]), from)
    ensures from <= |rest| && PositionTaken(nm, rest, path, pos, from, last, to)
  {
    from :| 0 <= from < list.Length && list[from] == path;
    rest := Without(list[..], from);
    PlacedWithout(list[..], from);
    to, last := MoveToClamped(nm, list, path, pos, rest, from);
    WithoutPlaced(rest, path, to);
  }

  lemma MoveStep(nm: Naming, rest: seq<Path>, path: Path, from: nat, target: int, j: nat)
    requires from <= |rest| && j <= |rest| && 0 <= target <= ChosenBefore(rest, SiblingTo(nm, path), |rest|)
    requires OnTheWay(rest, SiblingTo(nm, path), from, target, j)
    requires ChosenBefore(rest, SiblingTo(nm, path), j) != target
    ensures var p := SiblingTo(nm, path);
            var cur := ChosenBefore(rest, p, j);
            var to := Moved(nm, rest, path, cur > target, j);
            var newCur := ChosenBefore(rest, p, to);
            && Underway(rest, p, from, target, to, newCur == cur)
            && (newCur != cur ==> newCur == if cur > target then cur - 1 else cur + 1)
  {
    var p := SiblingTo(nm, path);
    if ChosenBefore(rest, p, j) > target {
      assert j <= from;
      assert ChosenBefore(rest, p, j - 1 + 1) > target;
    } else {
      assert j >= from && j < |rest|;
    }
  }

  lemma ArrivedMeansClear(rest: seq<Path>, p: Path -> bool, from: nat, target: int, to: nat)
    requires from <= |rest| && to <= |rest|
    requires OnTheWay(rest, p, from, target, to) && ChosenBefore(rest, p, to) == target
    ensures WayIsClear(rest, p, from, target)
  {
    forall k | 0 <= k < from && ChosenBefore(rest, p, k + 1) > target
      ensures p(rest[k])
    {
      if k < to {
        CountIsMonotone(rest, p, k + 1, to);
      }
    }
    forall k | from <= k < |rest| && ChosenBefore(rest, p, k) < target
      ensures p(rest[k])
    {
      if k >= to {
        CountIsMonotone(rest, p, to, k);
      }
    }
  }

  lemma PlainNames()
    ensures ParentPath("a") == "" && ParentPath("b") == "" && ParentPath("a/x") == "a"
    ensures Level("a") == 0 && Level("b") == 0
  {
    assert "a"[..0] == "" && "b"[..0] == "";
    assert "a/x"[..2] == "a/" && LastSlash("a/") == 1;
    assert LastSlash("a/x") == 1 && "a/x"[..1] == "a";
  }

  /** Asked for position 0, `b` does not get past `a/x`, the child of its sibling `a`. */
  lemma ChildBlocksReorder(to: nat)
    requires to <= 2 && ReachedIffClear(["a", "a/x"], SiblingTo(PATHS, "b"), 0, 2, to)
    ensures Placed(["a", "a/x"], "b", 2) == ["a", "a/x", "b"]
    ensures !WayIsClear(["a", "a/x"], SiblingTo(PATHS, "b"), 2, 0)
    ensures ChosenBefore(["a", "a/x"], SiblingTo(PATHS, "b"), to) == 1
  {
    PlainNames();
    var rest, p := ["a", "a/x"], SiblingTo(PATHS, "b");
    assert p(rest[0]) && !p(rest[1]);
    assert ChosenBefore(rest, p, 0) == 0 && ChosenBefore(rest, p, 1) == 1 && ChosenBefore(rest, p, 2) == 1;
    assert Clamped(0, 2) == 0;
  }
}
