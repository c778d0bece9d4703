// Editing the tree-shaped statement list of a metadata profile
// (de.mpg.imeji.presentation.mdProfile.MdProfileBean). Each statement knows
// its parent's id and a position; a wrapper adds the indentation level shown
// in the editor. A wrapper is identified by its index in the list, which is
// what Java's identity comparison of wrapper objects amounts to.
module MdProfileBean {
  import opened Wrappers

  type Id = string

  /** The indentation added per tree level (`MARGIN_PIXELS_FOR_STATEMENT_CHILD`). */
  const Margin: int := 30

  datatype Statement = Statement(id: Id, parent: Option<Id>, pos: int, constraints: seq<string>)

  /** `used` is whether some item's metadata refers to the statement. */
  datatype StatementWrapper = StatementWrapper(statement: Statement, level: int, used: bool, showRemoveWarning: bool)

  /** A statement made by the factory: no constraints, position 0. */
  function NewStatement(id: Id, parent: Option<Id>): Statement {
    Statement(id, parent, 0, [])
  }

  function WithPos(w: StatementWrapper, p: int): StatementWrapper {
    w.(statement := w.statement.(pos := p))
  }

  /** A wrapper with its position blanked out: what moving it does not change. */
  function Unpositioned(w: StatementWrapper): StatementWrapper {
    WithPos(w, 0)
  }

  function StripAll(ws: seq<StatementWrapper>): seq<StatementWrapper> {
    seq(|ws|, i requires 0 <= i < |ws| => Unpositioned(ws[i]))
  }

  // ---------------------------------------------------------------------
  // Positions

  /** The list after `incrementPosition(p, k)`. */
  function Incremented(ws: seq<StatementWrapper>, p: int, k: int): seq<StatementWrapper> {
    seq(|ws|, i requires 0 <= i < |ws| =>
      if ws[i].statement.pos >= p then WithPos(ws[i], ws[i].statement.pos + k) else ws[i])
  }

  /** Exactly the wrappers at position `p` or later move `k` places; nothing else changes. */
  lemma IncrementedSpec(ws: seq<StatementWrapper>, p: int, k: int)
    ensures var r := Incremented(ws, p, k);
      |r| == |ws| && StripAll(r) == StripAll(ws) &&
      forall i :: 0 <= i < |ws| ==>
        r[i].statement.pos == if ws[i].statement.pos >= p then ws[i].statement.pos + k else ws[i].statement.pos
  {
    var r := Incremented(ws, p, k);
    assert forall i :: 0 <= i < |ws| ==> Unpositioned(r[i]) == Unpositioned(ws[i]);
  }

  /** The list after `resetPosition`. */
  function Positioned(ws: seq<StatementWrapper>): seq<StatementWrapper> {
    seq(|ws|, i requires 0 <= i < |ws| => WithPos(ws[i], i))
  }

  predicate PositionsAreIndices(ws: seq<StatementWrapper>) {
    forall i :: 0 <= i < |ws| ==> ws[i].statement.pos == i
  }

  /** Every wrapper's position becomes its index in the list; nothing else changes. */
  lemma PositionedSpec(ws: seq<StatementWrapper>)
    ensures var r := Positioned(ws);
      PositionsAreIndices(r) && StripAll(r) == StripAll(ws)
  {
    var r := Positioned(ws);
    assert forall i :: 0 <= i < |ws| ==> Unpositioned(r[i]) == Unpositioned(ws[i]);
  }

  /** The list after the loop of `insertWrapper` has given the `n` first children `to + 1`, `to + 2`, .... */
  function PlacedChildren(ws: seq<StatementWrapper>, to: int, childs: seq<nat>, n: nat): (r: seq<StatementWrapper>)
    requires n <= |childs|
    ensures |r| == |ws| && StripAll(r) == StripAll(ws)
  {
    if n == 0 then ws
    else
      var w := PlacedChildren(ws, to, childs, n - 1);
      var c := childs[n - 1];
      if c < |w| then
        var r := w[c := WithPos(w[c], to + n)];
        assert forall i :: 0 <= i < |r| ==> Unpositioned(r[i]) == Unpositioned(w[i]);
        assert StripAll(r) == StripAll(w);
        r
      else w
  }

  /** The statement list after the dragged wrapper `d` and its children were given their new positions. */
  function Placed(ws: seq<StatementWrapper>, d: nat, to: int, childs: seq<nat>): (r: seq<StatementWrapper>)
    requires d < |ws|
    ensures |r| == |ws| && StripAll(r) == StripAll(ws)
  {
    var w := ws[d := WithPos(ws[d], to)];
    assert forall i :: 0 <= i < |w| ==> Unpositioned(w[i]) == Unpositioned(ws[i]);
    assert StripAll(w) == StripAll(ws);
    PlacedChildren(w, to, childs, |childs|)
  }

  // ---------------------------------------------------------------------
  // Sorting by position (`Collections.sort`, which is stable)

  predicate SortedByPos(s: seq<StatementWrapper>) {
    forall i, j :: 0 <= i < j < |s| ==> s[i].statement.pos <= s[j].statement.pos
  }

  /** Inserts `x` before the first element whose position is not smaller. */
  function InsertByPos(x: StatementWrapper, s: seq<StatementWrapper>): seq<StatementWrapper> {
    if |s| == 0 then [x]
    else if x.statement.pos <= s[0].statement.pos then [x] + s
    else [s[0]] + InsertByPos(x, s[1..])
  }

  /** A stable sort by position: wrappers with equal positions keep their order. */
  function SortByPos(s: seq<StatementWrapper>): seq<StatementWrapper> {
    if |s| == 0 then [] else InsertByPos(s[0], SortByPos(s[1..]))
  }

  lemma {:induction false} InsertByPosSorted(x: StatementWrapper, s: seq<StatementWrapper>)
    requires SortedByPos(s)
    ensures SortedByPos(InsertByPos(x, s))
    ensures multiset(InsertByPos(x, s)) == multiset(s) + multiset{x}
    ensures |InsertByPos(x, s)| == |s| + 1
    ensures forall y :: y in InsertByPos(x, s) ==> y == x || y in s
  {
    InsertByPosElements(x, s);
    if |s| > 0 && x.statement.pos > s[0].statement.pos {
      InsertByPosSorted(x, s[1..]);
      var t := InsertByPos(x, s[1..]);
      forall j | 0 <= j < |t| ensures s[0].statement.pos <= t[j].statement.pos {
        assert t[j] in t;
        if t[j] != x {
          var k :| 0 <= k < |s[1..]| && s[1..][k] == t[j];
          assert s[k + 1] == t[j];
        }
      }
      SortedCons(s[0], t);
    }
  }

  /** A wrapper followed by a sorted list whose positions are not smaller gives a sorted list. */
  lemma SortedCons(h: StatementWrapper, t: seq<StatementWrapper>)
    requires SortedByPos(t)
    requires forall j :: 0 <= j < |t| ==> h.statement.pos <= t[j].statement.pos
    ensures SortedByPos([h] + t)
  {
    var r := [h] + t;
    forall i, j | 0 <= i < j < |r| ensures r[i].statement.pos <= r[j].statement.pos {
      assert r[j] == t[j - 1];
      if i > 0 {
        assert r[i] == t[i - 1];
      }
    }
  }

  /** Inserting adds the one wrapper to the elements, and nothing else. */
  lemma {:induction false} InsertByPosElements(x: StatementWrapper, s: seq<StatementWrapper>)
    ensures multiset(InsertByPos(x, s)) == multiset(s) + multiset{x}
    ensures |InsertByPos(x, s)| == |s| + 1
    ensures forall y :: y in InsertByPos(x, s) ==> y == x || y in s
  {
    if |s| > 0 && x.statement.pos > s[0].statement.pos {
      InsertByPosElements(x, s[1..]);
      assert s == [s[0]] + s[1..];
    }
    forall y | y in InsertByPos(x, s) ensures y == x || y in s {
      assert y in multiset(InsertByPos(x, s));
    }
  }

  /** The sort orders by position and only reorders. */
  lemma {:induction false} SortByPosSpec(s: seq<StatementWrapper>)
    ensures SortedByPos(SortByPos(s))
    ensures multiset(SortByPos(s)) == multiset(s)
  {
    if |s| > 0 {
      SortByPosSpec(s[1..]);
      InsertByPosSorted(s[0], SortByPos(s[1..]));
      assert s == [s[0]] + s[1..];
    }
  }

  /** Positions aside, the sort keeps every wrapper, with its multiplicity. */
  lemma {:induction false} SortByPosStripped(s: seq<StatementWrapper>)
    ensures multiset(StripAll(SortByPos(s))) == multiset(StripAll(s))
  {
    if |s| > 0 {
      SortByPosStripped(s[1..]);
      InsertByPosStripped(s[0], SortByPos(s[1..]));
      assert StripAll(s) == [Unpositioned(s[0])] + StripAll(s[1..]);
    }
  }

  lemma {:induction false} InsertByPosStripped(x: StatementWrapper, s: seq<StatementWrapper>)
    ensures multiset(StripAll(InsertByPos(x, s))) == multiset(StripAll(s)) + multiset{Unpositioned(x)}
  {
    if |s| == 0 {
    } else if x.statement.pos <= s[0].statement.pos {
      StripAllCons(x, s);
    } else {
      var t := InsertByPos(x, s[1..]);
      InsertByPosStripped(x, s[1..]);
      assert InsertByPos(x, s) == [s[0]] + t;
      StripAllCons(s[0], t);
      assert s == [s[0]] + s[1..];
      StripAllCons(s[0], s[1..]);
    }
  }

  /** Stripping a list with a first wrapper strips that wrapper, then the rest. */
  lemma StripAllCons(h: StatementWrapper, t: seq<StatementWrapper>)
    ensures StripAll([h] + t) == [Unpositioned(h)] + StripAll(t)
  {
    assert forall i :: 0 < i <= |t| ==> ([h] + t)[i] == t[i - 1];
  }

  /**
   * After a move the list holds the same wrappers, positions aside, and
   * every position is again the wrapper's index.
   */
  lemma MovedSpec(ws: seq<StatementWrapper>, d: nat, to: int, childs: seq<nat>)
    requires d < |ws|
    ensures var r := Positioned(SortByPos(Placed(Incremented(ws, to, |childs| + 1), d, to, childs)));
      |r| == |ws| && PositionsAreIndices(r) && multiset(StripAll(r)) == multiset(StripAll(ws))
  {
    var m := Incremented(ws, to, |childs| + 1);
    IncrementedSpec(ws, to, |childs| + 1);
    var p := Placed(m, d, to, childs);
    var sorted := SortByPos(p);
    SortByPosSpec(p);
    SortByPosStripped(p);
    assert |sorted| == |p| by {
      assert |multiset(sorted)| == |multiset(p)|;
    }
    PositionedSpec(sorted);
  }

  // ---------------------------------------------------------------------
  // Children

  /**
   * `getChilds` over the first `n` wrappers: each wrapper whose parent is
   * `pid`, followed (unless `firstOnly`) by its own children. `fuel` bounds
   * the depth of the recursion.
   */
  function Children(ws: seq<StatementWrapper>, pid: Id, firstOnly: bool, fuel: nat, n: nat): (r: seq<nat>)
    requires n <= |ws|
    ensures forall j :: j in r ==> j < |ws|
    decreases fuel, n
  {
    if n == 0 || fuel == 0 then []
    else
      Children(ws, pid, firstOnly, fuel, n - 1) +
      (if ws[n - 1].statement.parent == Some(pid)
       then [n - 1] + (if firstOnly then [] else Children(ws, ws[n - 1].statement.id, false, fuel - 1, |ws|))
       else [])
  }

  /** The depth `getChilds` is given here: the number of wrappers. */
  function AllChildren(ws: seq<StatementWrapper>, pid: Id, firstOnly: bool): seq<nat> {
    Children(ws, pid, firstOnly, |ws|, |ws|)
  }

  /**
   * Every wrapper listed is a child of `pid` or of another listed wrapper
   * (a direct child of `pid` when `firstOnly`), and every direct child of
   * `pid` among the first `n` is listed.
   */
  lemma ChildrenSpec(ws: seq<StatementWrapper>, pid: Id, firstOnly: bool, fuel: nat, n: nat)
    requires n <= |ws|
    ensures var r := Children(ws, pid, firstOnly, fuel, n);
      (forall j :: j in r ==> (ws[j].statement.parent.Some? &&
        (ws[j].statement.parent.value == pid ||
         (!firstOnly && exists m :: m in r && ws[j].statement.parent.value == ws[m].statement.id)))) &&
      (fuel > 0 ==> forall j :: 0 <= j < n && ws[j].statement.parent == Some(pid) ==> j in r)
  {
    ChildrenParents(ws, pid, firstOnly, fuel, n);
    if fuel > 0 {
      ChildrenComplete(ws, pid, firstOnly, fuel, n);
    }
  }

  /** Every direct child of `pid` among the first `n` is listed. */
  lemma {:induction false} ChildrenComplete(ws: seq<StatementWrapper>, pid: Id, firstOnly: bool, fuel: nat, n: nat)
    requires n <= |ws| && fuel > 0
    ensures forall j :: 0 <= j < n && ws[j].statement.parent == Some(pid) ==> j in Children(ws, pid, firstOnly, fuel, n)
  {
    if n > 0 {
      ChildrenComplete(ws, pid, firstOnly, fuel, n - 1);
      ChildrenPrefix(ws, pid, firstOnly, fuel, n);
      if ws[n - 1].statement.parent == Some(pid) {
        var sub := if firstOnly then [] else Children(ws, ws[n - 1].statement.id, false, fuel - 1, |ws|);
        assert Children(ws, pid, firstOnly, fuel, n) == Children(ws, pid, firstOnly, fuel, n - 1) + ([n - 1] + sub);
      }
    }
  }

  /** Wrapper `j` is a child of `pid` or (unless `firstOnly`) of a wrapper listed in `r`. */
  predicate Rooted(ws: seq<StatementWrapper>, pid: Id, firstOnly: bool, r: seq<nat>, j: nat)
    requires j < |ws|
  {
    ws[j].statement.parent.Some? &&
    (ws[j].statement.parent.value == pid ||
     (!firstOnly && exists m :: m in r && m < |ws| && ws[j].statement.parent.value == ws[m].statement.id))
  }

  /** Listing more wrappers keeps a wrapper rooted. */
  lemma RootedGrows(ws: seq<StatementWrapper>, pid: Id, firstOnly: bool, r1: seq<nat>, r2: seq<nat>, j: nat)
    requires j < |ws| && Rooted(ws, pid, firstOnly, r1, j)
    requires forall m :: m in r1 ==> m in r2
    ensures Rooted(ws, pid, firstOnly, r2, j)
  {
    if ws[j].statement.parent.value != pid {
      var m :| m in r1 && m < |ws| && ws[j].statement.parent.value == ws[m].statement.id;
      assert m in r2;
    }
  }

  /** A wrapper rooted under a listed child `c` of `pid` is rooted under `pid`. */
  lemma RootedThroughChild(ws: seq<StatementWrapper>, pid: Id, c: nat, sub: seq<nat>, r: seq<nat>, j: nat)
    requires c < |ws| && c in r && ws[c].statement.parent == Some(pid)
    requires j < |ws| && Rooted(ws, ws[c].statement.id, false, sub, j)
    requires forall m :: m in sub ==> m in r
    ensures Rooted(ws, pid, false, r, j)
  {
    if ws[j].statement.parent.value != ws[c].statement.id {
      var m :| m in sub && m < |ws| && ws[j].statement.parent.value == ws[m].statement.id;
      assert m in r;
    }
  }

  /** Every wrapper listed is a child of `pid` or (unless `firstOnly`) of another listed wrapper. */
  lemma {:induction false} ChildrenParents(ws: seq<StatementWrapper>, pid: Id, firstOnly: bool, fuel: nat, n: nat)
    requires n <= |ws|
    ensures forall j :: j in Children(ws, pid, firstOnly, fuel, n) ==>
      Rooted(ws, pid, firstOnly, Children(ws, pid, firstOnly, fuel, n), j)
    decreases fuel, n
  {
    if n > 0 && fuel > 0 {
      var prefix := Children(ws, pid, firstOnly, fuel, n - 1);
      ChildrenParents(ws, pid, firstOnly, fuel, n - 1);
      var r := Children(ws, pid, firstOnly, fuel, n);
      if ws[n - 1].statement.parent != Some(pid) {
        assert r == prefix;
      } else {
        var c := n - 1;
        var sub := if firstOnly then [] else Children(ws, ws[c].statement.id, false, fuel - 1, |ws|);
        if !firstOnly {
          ChildrenParents(ws, ws[c].statement.id, false, fuel - 1, |ws|);
        }
        assert r == prefix + [c] + sub;
        RootedStep(ws, pid, firstOnly, prefix, c, sub);
      }
    }
  }

  /** Appending a child `c` of `pid` and the wrappers rooted under it keeps every listed wrapper rooted. */
  lemma RootedStep(ws: seq<StatementWrapper>, pid: Id, firstOnly: bool, prefix: seq<nat>, c: nat, sub: seq<nat>)
    requires c < |ws| && ws[c].statement.parent == Some(pid)
    requires forall j :: j in prefix ==> j < |ws| && Rooted(ws, pid, firstOnly, prefix, j)
    requires firstOnly ==> sub == []
    requires forall j :: j in sub ==> j < |ws| && Rooted(ws, ws[c].statement.id, false, sub, j)
    ensures forall j :: j in prefix + [c] + sub ==> j < |ws| && Rooted(ws, pid, firstOnly, prefix + [c] + sub, j)
  {
    var r := prefix + [c] + sub;
    forall j | j in r
      ensures j < |ws| && Rooted(ws, pid, firstOnly, r, j)
    {
      if j in prefix {
        RootedGrows(ws, pid, firstOnly, prefix, r, j);
      } else if j in sub {
        RootedThroughChild(ws, pid, c, sub, r, j);
      }
    }
  }

  /** The direct children are exactly the wrappers whose parent is `pid`, in list order. */
  lemma DirectChildren(ws: seq<StatementWrapper>, pid: Id, fuel: nat, n: nat)
    requires n <= |ws| && fuel > 0
    ensures forall j :: j in Children(ws, pid, true, fuel, n) <==> 0 <= j < n && ws[j].statement.parent == Some(pid)
    ensures forall a, b :: 0 <= a < b < |Children(ws, pid, true, fuel, n)| ==>
      Children(ws, pid, true, fuel, n)[a] < Children(ws, pid, true, fuel, n)[b]
  {
    DirectChildrenMembers(ws, pid, fuel, n);
    DirectChildrenIncreasing(ws, pid, fuel, n);
  }

  lemma {:induction false} DirectChildrenMembers(ws: seq<StatementWrapper>, pid: Id, fuel: nat, n: nat)
    requires n <= |ws| && fuel > 0
    ensures forall j :: j in Children(ws, pid, true, fuel, n) <==> 0 <= j < n && ws[j].statement.parent == Some(pid)
  {
    if n > 0 {
      DirectChildrenMembers(ws, pid, fuel, n - 1);
      var prefix := Children(ws, pid, true, fuel, n - 1);
      var last: seq<nat> := if ws[n - 1].statement.parent == Some(pid) then [n - 1] else [];
      assert Children(ws, pid, true, fuel, n) == prefix + last;
      forall j ensures j in prefix + last <==> 0 <= j < n && ws[j].statement.parent == Some(pid) {
        assert j in prefix + last <==> j in prefix || j in last;
      }
    }
  }

  lemma {:induction false} DirectChildrenIncreasing(ws: seq<StatementWrapper>, pid: Id, fuel: nat, n: nat)
    requires n <= |ws| && fuel > 0
    ensures forall a, b :: 0 <= a < b < |Children(ws, pid, true, fuel, n)| ==>
      Children(ws, pid, true, fuel, n)[a] < Children(ws, pid, true, fuel, n)[b]
  {
    if n > 0 {
      DirectChildrenIncreasing(ws, pid, fuel, n - 1);
      var prefix := Children(ws, pid, true, fuel, n - 1);
      if ws[n - 1].statement.parent == Some(pid) {
        DirectChildrenMembers(ws, pid, fuel, n - 1);
        assert Children(ws, pid, true, fuel, n) == prefix + [n - 1];
        IncreasingAppend(prefix, n - 1);
      } else {
        assert Children(ws, pid, true, fuel, n) == prefix;
      }
    }
  }

  /** An increasing list stays increasing when a larger index is appended. */
  lemma IncreasingAppend(s: seq<nat>, x: nat)
    requires forall a, b :: 0 <= a < b < |s| ==> s[a] < s[b]
    requires forall j :: j in s ==> j < x
    ensures forall a, b :: 0 <= a < b < |s + [x]| ==> (s + [x])[a] < (s + [x])[b]
  {
    var r := s + [x];
    forall a, b | 0 <= a < b < |r| ensures r[a] < r[b] {
      assert r[a] == s[a] && s[a] in s;
      if b < |s| {
        assert r[b] == s[b];
      }
    }
  }

  /**
   * The parent links between wrappers are acyclic: `rank` orders the
   * wrappers so that a wrapper ranks above every wrapper whose id is its
   * parent, with ranks below the number of wrappers.
   */
  ghost predicate ParentRanked(ws: seq<StatementWrapper>, rank: seq<nat>) {
    |rank| == |ws| &&
    (forall j :: 0 <= j < |ws| ==> rank[j] < |ws|) &&
    forall j, m :: 0 <= j < |ws| && 0 <= m < |ws| && ws[j].statement.parent == Some(ws[m].statement.id) ==>
      rank[m] < rank[j]
  }

  /** `path` leads down from `pid`: the first wrapper's parent is `pid`, each next one's parent the one before. */
  ghost predicate ChildPath(ws: seq<StatementWrapper>, pid: Id, path: seq<nat>) {
    |path| > 0 && (forall i :: 0 <= i < |path| ==> path[i] < |ws|) &&
    ws[path[0]].statement.parent == Some(pid) &&
    forall i :: 0 <= i < |path| - 1 ==> ws[path[i + 1]].statement.parent == Some(ws[path[i]].statement.id)
  }

  /** Wrapper `j` descends from `pid`, at any depth. */
  ghost predicate Descendant(ws: seq<StatementWrapper>, pid: Id, j: nat) {
    exists path :: ChildPath(ws, pid, path) && path[|path| - 1] == j
  }

  lemma ChildPathTail(ws: seq<StatementWrapper>, pid: Id, path: seq<nat>)
    requires ChildPath(ws, pid, path) && |path| > 1
    ensures ChildPath(ws, ws[path[0]].statement.id, path[1..])
  {
    var t := path[1..];
    forall i | 0 <= i < |t| - 1 ensures ws[t[i + 1]].statement.parent == Some(ws[t[i]].statement.id) {
      assert t[i] == path[i + 1] && t[i + 1] == path[i + 2];
    }
  }

  lemma ChildPathCons(ws: seq<StatementWrapper>, pid: Id, c: nat, path: seq<nat>)
    requires c < |ws| && ws[c].statement.parent == Some(pid) && ChildPath(ws, ws[c].statement.id, path)
    ensures ChildPath(ws, pid, [c] + path)
  {
    var p := [c] + path;
    forall i | 0 <= i < |p| - 1 ensures ws[p[i + 1]].statement.parent == Some(ws[p[i]].statement.id) {
      if i > 0 {
        assert p[i] == path[i - 1] && p[i + 1] == path[i];
      }
    }
  }

  /** Along a path the ranks grow at least by one per step, so an acyclic list bounds its length. */
  lemma {:induction false} ChildPathShort(ws: seq<StatementWrapper>, rank: seq<nat>, pid: Id, path: seq<nat>)
    requires ParentRanked(ws, rank) && ChildPath(ws, pid, path)
    ensures rank[path[|path| - 1]] >= |path| - 1
    ensures |path| <= |ws|
    decreases |path|
  {
    if |path| > 1 {
      var init := path[..|path| - 1];
      assert ChildPath(ws, pid, init) by {
        forall i | 0 <= i < |init| - 1 ensures ws[init[i + 1]].statement.parent == Some(ws[init[i]].statement.id) {
          assert init[i] == path[i] && init[i + 1] == path[i + 1];
        }
      }
      ChildPathShort(ws, rank, pid, init);
      var a, b := path[|path| - 2], path[|path| - 1];
      assert ws[b].statement.parent == Some(ws[a].statement.id);
      assert rank[a] < rank[b];
    }
  }

  /** The end of a path down from `pid` that starts below `n` is listed when the depth is at most `fuel`. */
  lemma {:induction false} ChildrenReach(ws: seq<StatementWrapper>, pid: Id, fuel: nat, n: nat, path: seq<nat>)
    requires n <= |ws| && ChildPath(ws, pid, path) && path[0] < n && |path| <= fuel
    ensures path[|path| - 1] in Children(ws, pid, false, fuel, n)
    decreases |path|
  {
    var c := path[0];
    var sub := Children(ws, ws[c].statement.id, false, fuel - 1, |ws|);
    assert Children(ws, pid, false, fuel, c + 1) == Children(ws, pid, false, fuel, c) + ([c] + sub);
    if |path| > 1 {
      ChildPathTail(ws, pid, path);
      ChildrenReach(ws, ws[c].statement.id, fuel - 1, |ws|, path[1..]);
      assert path[1..][|path[1..]| - 1] == path[|path| - 1];
    }
    ChildrenGrow(ws, pid, fuel, c + 1, n);
  }

  /** The wrappers listed among the first `m` are listed among the first `n >= m`. */
  lemma {:induction false} ChildrenGrow(ws: seq<StatementWrapper>, pid: Id, fuel: nat, m: nat, n: nat)
    requires m <= n <= |ws|
    ensures forall j :: j in Children(ws, pid, false, fuel, m) ==> j in Children(ws, pid, false, fuel, n)
    decreases n
  {
    if m < n {
      ChildrenGrow(ws, pid, fuel, m, n - 1);
      ChildrenPrefix(ws, pid, false, fuel, n);
    }
  }

  /** The wrappers listed among the first `n - 1` are listed among the first `n`. */
  lemma ChildrenPrefix(ws: seq<StatementWrapper>, pid: Id, firstOnly: bool, fuel: nat, n: nat)
    requires 0 < n <= |ws|
    ensures forall j :: j in Children(ws, pid, firstOnly, fuel, n - 1) ==> j in Children(ws, pid, firstOnly, fuel, n)
  {
  }

  /** Every wrapper listed descends from `pid`. */
  lemma {:induction false} ChildrenDescend(ws: seq<StatementWrapper>, pid: Id, fuel: nat, n: nat)
    requires n <= |ws|
    ensures forall j :: j in Children(ws, pid, false, fuel, n) ==> Descendant(ws, pid, j)
    decreases fuel, n
  {
    if n > 0 && fuel > 0 {
      var prefix := Children(ws, pid, false, fuel, n - 1);
      ChildrenDescend(ws, pid, fuel, n - 1);
      if ws[n - 1].statement.parent == Some(pid) {
        var c := n - 1;
        var sub := Children(ws, ws[c].statement.id, false, fuel - 1, |ws|);
        ChildrenDescend(ws, ws[c].statement.id, fuel - 1, |ws|);
        assert Children(ws, pid, false, fuel, n) == prefix + ([c] + sub);
        assert ChildPath(ws, pid, [c]);
        forall j | j in sub ensures Descendant(ws, pid, j) {
          var path :| ChildPath(ws, ws[c].statement.id, path) && path[|path| - 1] == j;
          ChildPathCons(ws, pid, c, path);
          assert ([c] + path)[|[c] + path| - 1] == j;
        }
      }
    }
  }

  /**
   * On an acyclic list, `getChilds(parent, false)` with the number of
   * wrappers as depth lists exactly the descendants of `pid`, at every depth.
   */
  lemma AllChildrenSpec(ws: seq<StatementWrapper>, rank: seq<nat>, pid: Id)
    requires ParentRanked(ws, rank)
    ensures forall j :: j in AllChildren(ws, pid, false) <==> Descendant(ws, pid, j)
  {
    ChildrenDescend(ws, pid, |ws|, |ws|);
    forall j | Descendant(ws, pid, j) ensures j in AllChildren(ws, pid, false) {
      var path :| ChildPath(ws, pid, path) && path[|path| - 1] == j;
      ChildPathShort(ws, rank, pid, path);
      ChildrenReach(ws, pid, |ws|, |ws|, path);
    }
  }

  // ---------------------------------------------------------------------
  // Ancestry

  /**
   * `isAParent` as written: while the wrapper has a parent that is not
   * `pid`, it looks at the wrapper one position before it. At position 0
   * nothing changes and the loop never ends; a position past the list end
   * throws. `fuel` bounds the number of steps.
   */
  datatype Outcome = Returns(b: bool) | IndexOutOfBounds | Diverges

  function IsAParentAsWritten(ws: seq<StatementWrapper>, pid: Id, child: Statement, fuel: nat): Outcome
    decreases fuel
  {
    if child.parent.None? then Returns(false)
    else if child.parent.value == pid then Returns(true)
    else if child.pos - 1 >= 0 then
      if child.pos - 1 >= |ws| then IndexOutOfBounds
      else if fuel == 0 then Diverges
      else IsAParentAsWritten(ws, pid, ws[child.pos - 1].statement, fuel - 1)
    else Diverges
  }

  /** A child statement at position 0 whose parent is not `pid` keeps `isAParent` looping. */
  lemma IsAParentLoopsAtHead()
    ensures var ws := [StatementWrapper(Statement("b", Some("a"), 0, []), 30, false, false)];
      IsAParentAsWritten(ws, "c", ws[0].statement, 5) == Diverges
  {
  }

  /** The walk that stops at the head of the list: true when it meets a wrapper whose parent is `pid`. */
  function IsAParentAt(ws: seq<StatementWrapper>, pid: Id, k: nat): bool
    requires k < |ws|
  {
    if ws[k].statement.parent.None? then false
    else if ws[k].statement.parent.value == pid then true
    else if k >= 1 then IsAParentAt(ws, pid, k - 1)
    else false
  }

  /**
   * The walk from `k` finds `pid` exactly when some wrapper at or before
   * `k` has parent `pid` and every wrapper from there to `k` has a parent.
   */
  lemma {:induction false} IsAParentAtSpec(ws: seq<StatementWrapper>, pid: Id, k: nat)
    requires k < |ws|
    ensures IsAParentAt(ws, pid, k) <==>
      exists m :: 0 <= m <= k && ws[m].statement.parent == Some(pid) &&
        forall m' :: m <= m' <= k ==> ws[m'].statement.parent.Some?
  {
    if ws[k].statement.parent.Some? && ws[k].statement.parent.value != pid && k >= 1 {
      IsAParentAtSpec(ws, pid, k - 1);
      if IsAParentAt(ws, pid, k) {
        var m :| 0 <= m <= k - 1 && ws[m].statement.parent == Some(pid) &&
          forall m' :: m <= m' <= k - 1 ==> ws[m'].statement.parent.Some?;
        assert forall m' :: m <= m' <= k ==> ws[m'].statement.parent.Some?;
      }
    }
  }

  /**
   * On a list whose positions are its indices, the walk as written either
   * agrees with the corrected walk or, having found nothing, loops at the
   * head of the list.
   */
  lemma {:induction false} IsAParentAgrees(ws: seq<StatementWrapper>, pid: Id, k: nat, fuel: nat)
    requires PositionsAreIndices(ws) && k < |ws| && fuel >= k
    ensures var o := IsAParentAsWritten(ws, pid, ws[k].statement, fuel);
      o == Returns(IsAParentAt(ws, pid, k)) || (o == Diverges && !IsAParentAt(ws, pid, k))
  {
    if ws[k].statement.parent.Some? && ws[k].statement.parent.value != pid && k >= 1 {
      IsAParentAgrees(ws, pid, k - 1, fuel - 1);
    }
  }

  // ---------------------------------------------------------------------
  // Levels

  /** Every cached level is a non-negative multiple of the margin. */
  predicate LevelsWellFormed(levels: map<Id, int>) {
    forall id :: id in levels ==> levels[id] >= 0 && levels[id] % Margin == 0
  }

  /** `getLevel` of a statement not cached yet: its parent's level plus the margin, or 0. */
  function LevelOf(levels: map<Id, int>, st: Statement): (r: int)
    ensures st.parent.None? || st.parent.value !in levels ==> r == 0
    ensures st.parent.Some? && st.parent.value in levels ==> r == levels[st.parent.value] + Margin
  {
    if st.parent.Some? && st.parent.value in levels then levels[st.parent.value] + Margin else 0
  }

  /** What `getLevel` returns: the cached level, or the computed one. */
  function CachedLevel(levels: map<Id, int>, st: Statement): (r: int)
    ensures st.id in levels ==> r == levels[st.id]
    ensures LevelsWellFormed(levels) ==> r >= 0 && r % Margin == 0 && LevelsWellFormed(levels[st.id := r])
  {
    if st.id in levels then levels[st.id] else LevelOf(levels, st)
  }

  /** The level cache after `getLevel` of the first `n` statements, starting from an empty cache. */
  function LevelsAfter(statements: seq<Statement>, n: nat): (levels: map<Id, int>)
    requires n <= |statements|
    ensures LevelsWellFormed(levels)
    ensures forall k :: 0 <= k < n ==> statements[k].id in levels
  {
    if n == 0 then map[]
    else
      var prev := LevelsAfter(statements, n - 1);
      prev[statements[n - 1].id := CachedLevel(prev, statements[n - 1])]
  }

  /** The level `initStatementWrappers` gives the statement at `i`. */
  function InitialLevel(statements: seq<Statement>, i: nat): int
    requires i < |statements|
  {
    CachedLevel(LevelsAfter(statements, i), statements[i])
  }

  /** A cached level never changes: the cache after `n` statements holds statement k's initial level. */
  lemma {:induction false} LevelsAfterStable(statements: seq<Statement>, k: nat, n: nat)
    requires k < n <= |statements|
    ensures LevelsAfter(statements, n)[statements[k].id] == InitialLevel(statements, k)
    decreases n
  {
    if k < n - 1 {
      LevelsAfterStable(statements, k, n - 1);
    }
  }

  /** Without an earlier statement of the same id, the cache after `n` statements holds only their ids. */
  lemma {:induction false} LevelsAfterKeys(statements: seq<Statement>, n: nat)
    requires n <= |statements|
    ensures forall id :: id in LevelsAfter(statements, n) ==> exists k :: 0 <= k < n && statements[k].id == id
    decreases n
  {
    if n > 0 {
      LevelsAfterKeys(statements, n - 1);
    }
  }

  predicate DistinctIds(statements: seq<Statement>) {
    forall a, b :: 0 <= a < b < |statements| ==> statements[a].id != statements[b].id
  }

  /**
   * With distinct ids, a statement whose parent comes before it in the list
   * is indented one margin more than that parent, and a statement without
   * parent, or whose parent comes later, is at level 0.
   */
  lemma InitialLevelSpec(statements: seq<Statement>, i: nat)
    requires i < |statements| && DistinctIds(statements)
    ensures forall k :: 0 <= k < i && statements[i].parent == Some(statements[k].id) ==>
      InitialLevel(statements, i) == InitialLevel(statements, k) + Margin
    ensures (forall k :: 0 <= k < i ==> statements[i].parent != Some(statements[k].id)) ==>
      InitialLevel(statements, i) == 0
  {
    var levels := LevelsAfter(statements, i);
    LevelsAfterKeys(statements, i);
    assert statements[i].id !in levels;
    forall k | 0 <= k < i && statements[i].parent == Some(statements[k].id)
      ensures InitialLevel(statements, i) == InitialLevel(statements, k) + Margin
    {
      LevelsAfterStable(statements, k, i);
    }
  }

  /** `hasChild`: whether the wrapper before `position` is its parent; `None` where the list access throws. */
  function HasChild(ws: seq<StatementWrapper>, position: int): (r: Option<bool>)
    ensures r == Some(true) <==> 0 < position < |ws| && ws[position].statement.parent == Some(ws[position - 1].statement.id)
    ensures r.None? <==> position < 0 || (position == 0 < |ws| && ws[0].statement.parent.Some?)
  {
    if position < |ws| then
      if position < 0 then None
      else if ws[position].statement.parent.Some? then
        if position == 0 then None
        else Some(ws[position].statement.parent.value == ws[position - 1].statement.id)
      else Some(false)
    else Some(false)
  }

  // ---------------------------------------------------------------------
  // Removal

  /** The indices below `n` not in `del`, in increasing order. */
  function KeptIndices(n: nat, del: seq<nat>): (r: seq<nat>)
    ensures forall i :: 0 <= i < |r| ==> r[i] < n
  {
    if n == 0 then [] else KeptIndices(n - 1, del) + (if n - 1 in del then [] else [n - 1])
  }

  /** The wrappers at the given indices, in that order. */
  function Select(ws: seq<StatementWrapper>, idx: seq<nat>): seq<StatementWrapper>
    requires forall i :: 0 <= i < |idx| ==> idx[i] < |ws|
  {
    seq(|idx|, i requires 0 <= i < |idx| => ws[idx[i]])
  }

  lemma SelectStep(ws: seq<StatementWrapper>, i: nat, del: seq<nat>)
    requires i < |ws|
    ensures Select(ws, KeptIndices(i + 1, del)) ==
      Select(ws, KeptIndices(i, del)) + (if i in del then [] else [ws[i]])
  {
  }

  /** The loop of `removeStatementWithChilds`: the wrappers whose index is not to be deleted, in list order. */
  method KeepUndeleted(ws: seq<StatementWrapper>, toDelete: seq<nat>) returns (l: seq<StatementWrapper>)
    ensures l == Select(ws, KeptIndices(|ws|, toDelete))
  {
    l := [];
    var i := 0;
    while i < |ws|
      invariant 0 <= i <= |ws|
      invariant l == Select(ws, KeptIndices(i, toDelete))
    {
      SelectStep(ws, i, toDelete);
      if i !in toDelete {
        l := l + [ws[i]];
      }
      i := i + 1;
    }
  }

  /** Exactly the indices not deleted are kept, in their original order. */
  lemma {:induction false} KeptIndicesSpec(n: nat, del: seq<nat>)
    ensures var r := KeptIndices(n, del);
      (forall j :: j in r <==> 0 <= j < n && j !in del) &&
      (forall a, b :: 0 <= a < b < |r| ==> r[a] < r[b])
  {
    if n > 0 {
      KeptIndicesSpec(n - 1, del);
      var r := KeptIndices(n, del);
      var prefix := KeptIndices(n - 1, del);
      if n - 1 !in del {
        forall a, b | 0 <= a < b < |r| ensures r[a] < r[b] {
          assert r[a] == prefix[a] && prefix[a] in prefix;
          if b < |prefix| {
            assert r[b] == prefix[b];
          }
        }
      }
    }
  }

  /**
   * Removing the statement at `position` with its descendants drops it and
   * its direct children, keeps every wrapper that is not a descendant, and
   * keeps their order.
   */
  lemma RemovalSpec(ws: seq<StatementWrapper>, position: nat)
    requires position < |ws|
    ensures var del := AllChildren(ws, ws[position].statement.id, false) + [position];
      var kept := KeptIndices(|ws|, del);
      position !in kept &&
      (forall j :: j in kept ==> ws[j].statement.parent != Some(ws[position].statement.id)) &&
      (forall j :: 0 <= j < |ws| && j !in del ==> j in kept) &&
      (forall a, b :: 0 <= a < b < |kept| ==> kept[a] < kept[b])
  {
    var del := AllChildren(ws, ws[position].statement.id, false) + [position];
    ChildrenSpec(ws, ws[position].statement.id, false, |ws|, |ws|);
    KeptIndicesSpec(|ws|, del);
  }

  /**
   * On an acyclic list the removal keeps exactly the wrappers other than
   * the one at `position` that do not descend from it, at any depth.
   */
  lemma RemovalKeepsNonDescendants(ws: seq<StatementWrapper>, rank: seq<nat>, position: nat)
    requires position < |ws| && ParentRanked(ws, rank)
    ensures var del := AllChildren(ws, ws[position].statement.id, false) + [position];
      forall j :: j in KeptIndices(|ws|, del) <==>
        0 <= j < |ws| && j != position && !Descendant(ws, ws[position].statement.id, j)
  {
    var del := AllChildren(ws, ws[position].statement.id, false) + [position];
    AllChildrenSpec(ws, rank, ws[position].statement.id);
    KeptIndicesSpec(|ws|, del);
  }

  // ---------------------------------------------------------------------
  // The bean

  class MdProfileBean {
    var wrappers: seq<StatementWrapper>
    var levels: map<Id, int>
    var cleanMetadata: bool

    /**
     * The editor opened on a profile whose statements are `statements`;
     * `used[i]` says whether statement i is used. A profile without
     * statements gets a first, new statement with id `firstId`.
     */
    constructor(statements: seq<Statement>, used: seq<bool>, firstId: Id)
      requires |used| == |statements|
      ensures !cleanMetadata
      ensures |statements| > 0 ==>
        |wrappers| == |statements| && levels == LevelsAfter(statements, |statements|) &&
        forall i :: 0 <= i < |statements| ==>
          wrappers[i] == StatementWrapper(statements[i], InitialLevel(statements, i), used[i], false)
      ensures |statements| == 0 ==>
        wrappers == [StatementWrapper(NewStatement(firstId, None), 0, false, false)] && levels == map[firstId := 0]
    {
      wrappers := [];
      levels := map[];
      cleanMetadata := false;
      new;
      InitStatementWrappers(statements, used);
      if |statements| == 0 {
        AddFirstStatement(firstId);
      }
    }

    /** `initStatementWrappers`: one wrapper per statement, levels computed afresh in list order. */
    method InitStatementWrappers(statements: seq<Statement>, used: seq<bool>)
      requires |used| == |statements|
      modifies this
      ensures |wrappers| == |statements| && cleanMetadata == old(cleanMetadata)
      ensures forall i :: 0 <= i < |statements| ==>
        wrappers[i] == StatementWrapper(statements[i], InitialLevel(statements, i), used[i], false)
      ensures levels == LevelsAfter(statements, |statements|)
    {
      var ws: seq<StatementWrapper> := [];
      levels := map[];
      var i := 0;
      while i < |statements|
        invariant 0 <= i <= |statements| && |ws| == i
        invariant forall j :: 0 <= j < i ==>
          ws[j] == StatementWrapper(statements[j], InitialLevel(statements, j), used[j], false)
        invariant levels == LevelsAfter(statements, i) && cleanMetadata == old(cleanMetadata)
      {
        var l := GetLevel(statements[i]);
        assert l == InitialLevel(statements, i) && levels == LevelsAfter(statements, i + 1);
        ws := ws + [StatementWrapper(statements[i], l, used[i], false)];
        i := i + 1;
      }
      wrappers := ws;
    }

    /** `addFirstStatement`: a new root statement with id `firstId` at the end, its level cached. */
    method AddFirstStatement(firstId: Id)
      modifies this
      ensures var st := NewStatement(firstId, None);
        wrappers == old(wrappers) + [StatementWrapper(st, CachedLevel(old(levels), st), false, false)] &&
        levels == old(levels)[firstId := CachedLevel(old(levels), st)]
      ensures cleanMetadata == old(cleanMetadata)
    {
      var st := NewStatement(firstId, None);
      var l := GetLevel(st);
      wrappers := wrappers + [StatementWrapper(st, l, false, false)];
    }

    /** `getLevel`: computed once per statement id and cached. */
    method GetLevel(st: Statement) returns (l: int)
      modifies this
      ensures l == CachedLevel(old(levels), st)
      ensures levels == old(levels)[st.id := l]
      ensures wrappers == old(wrappers) && cleanMetadata == old(cleanMetadata)
    {
      if st.id !in levels {
        if st.parent.Some? && st.parent.value in levels {
          levels := levels[st.id := levels[st.parent.value] + Margin];
        } else {
          levels := levels[st.id := 0];
        }
      }
      l := levels[st.id];
    }

    /** `incrementPosition`. */
    method IncrementPosition(position: int, toIncrement: int)
      modifies this
      ensures wrappers == Incremented(old(wrappers), position, toIncrement)
      ensures levels == old(levels) && cleanMetadata == old(cleanMetadata)
    {
      var ws := wrappers;
      var i := 0;
      while i < |ws|
        invariant 0 <= i <= |ws| && |ws| == |wrappers|
        invariant forall j :: 0 <= j < i ==> ws[j] == Incremented(wrappers, position, toIncrement)[j]
        invariant forall j :: i <= j < |ws| ==> ws[j] == wrappers[j]
      {
        if ws[i].statement.pos >= position {
          ws := ws[i := WithPos(ws[i], ws[i].statement.pos + toIncrement)];
        }
        i := i + 1;
      }
      wrappers := ws;
    }

    /** `resetPosition`. */
    method ResetPosition()
      modifies this
      ensures wrappers == Positioned(old(wrappers))
      ensures levels == old(levels) && cleanMetadata == old(cleanMetadata)
    {
      var ws := wrappers;
      var i := 0;
      while i < |ws|
        invariant 0 <= i <= |ws| && |ws| == |wrappers|
        invariant forall j :: 0 <= j < i ==> ws[j] == Positioned(wrappers)[j]
        invariant forall j :: i <= j < |ws| ==> ws[j] == wrappers[j]
      {
        ws := ws[i := WithPos(ws[i], i)];
        i := i + 1;
      }
      wrappers := ws;
    }

    /** `getChilds`, recursing at most `fuel` levels deep. */
    method GetChilds(pid: Id, firstOnly: bool, fuel: nat) returns (l: seq<nat>)
      ensures l == Children(wrappers, pid, firstOnly, fuel, |wrappers|)
      decreases fuel
    {
      l := [];
      if fuel == 0 {
        return;
      }
      var i := 0;
      while i < |wrappers|
        invariant 0 <= i <= |wrappers|
        invariant l == Children(wrappers, pid, firstOnly, fuel, i)
      {
        if wrappers[i].statement.parent == Some(pid) {
          var sub: seq<nat> := [];
          if !firstOnly {
            sub := GetChilds(wrappers[i].statement.id, false, fuel - 1);
          }
          l := l + ([i] + sub);
        }
        i := i + 1;
      }
    }

    /**
     * `insertWrapper`: the dragged wrapper `d` and its children move to
     * `to`, unless the wrapper before `to` descends from `d`. The ancestry
     * walk stops at the head of the list.
     */
    method InsertWrapper(d: nat, to: int) returns (moved: bool)
      requires d < |wrappers|
      requires (if to > 0 then to - 1 else 0) < |wrappers|
      modifies this
      ensures var k := if to > 0 then to - 1 else 0;
        !moved <==> IsAParentAt(old(wrappers), old(wrappers)[d].statement.id, k)
      ensures !moved ==> wrappers == old(wrappers)
      ensures var c := AllChildren(old(wrappers), old(wrappers)[d].statement.id, false);
        moved ==> wrappers == Positioned(SortByPos(Placed(Incremented(old(wrappers), to, |c| + 1), d, to, c)))
      ensures levels == old(levels) && cleanMetadata == old(cleanMetadata)
    {
      var k := if to > 0 then to - 1 else 0;
      if IsAParentAt(wrappers, wrappers[d].statement.id, k) {
        return false;
      }
      var childs := GetChilds(wrappers[d].statement.id, false, |wrappers|);
      IncrementPosition(to, |childs| + 1);
      var ws := wrappers[d := WithPos(wrappers[d], to)];
      var i := 0;
      while i < |childs|
        invariant 0 <= i <= |childs|
        invariant ws == PlacedChildren(wrappers[d := WithPos(wrappers[d], to)], to, childs, i)
      {
        if childs[i] < |ws| {
          ws := ws[childs[i] := WithPos(ws[childs[i]], to + i + 1)];
        }
        i := i + 1;
      }
      wrappers := SortByPos(ws);
      ResetPosition();
      moved := true;
    }

    /**
     * `findNextStatementWithSameLevel`: the first index after `position`
     * whose wrapper is not deeper than `st`, or the end of the list.
     */
    method FindNextStatementWithSameLevel(st: Statement, position: nat) returns (i: int)
      modifies this
      ensures position + 1 <= i && (i <= |wrappers| || i == position + 1)
      ensures forall j :: position < j < i ==> wrappers[j].level > CachedLevel(old(levels), st)
      ensures i < |wrappers| ==> wrappers[i].level <= CachedLevel(old(levels), st)
      ensures position + 1 < |wrappers| ==> levels == old(levels)[st.id := CachedLevel(old(levels), st)]
      ensures position + 1 >= |wrappers| ==> levels == old(levels)
      ensures wrappers == old(wrappers) && cleanMetadata == old(cleanMetadata)
    {
      i := position + 1;
      while i < |wrappers|
        invariant position + 1 <= i && (i <= |wrappers| || i == position + 1)
        invariant wrappers == old(wrappers) && cleanMetadata == old(cleanMetadata)
        invariant forall j :: position < j < i ==> wrappers[j].level > CachedLevel(old(levels), st)
        invariant i == position + 1 ==> levels == old(levels)
        invariant i > position + 1 ==> levels == old(levels)[st.id := CachedLevel(old(levels), st)]
      {
        var l := GetLevel(st);
        if wrappers[i].level == l {
          return;
        }
        var l' := GetLevel(st);
        if wrappers[i].level < l' {
          return;
        }
        i := i + 1;
      }
    }

    /**
     * `addStatement`: on an empty list a first root statement; otherwise a
     * sibling of the statement at `position`, placed after that statement's
     * children.
     */
    method AddStatement(position: int, newId: Id) returns (at: int)
      requires wrappers != [] ==> 0 <= position < |wrappers|
      modifies this
      ensures old(wrappers) == [] ==>
        at == 0 && wrappers == [StatementWrapper(NewStatement(newId, None), 0, false, false)] && levels == old(levels)
      ensures old(wrappers) != [] ==>
        var prev := old(wrappers)[position].statement;
        var level := CachedLevel(old(levels), prev);
        position < at <= |old(wrappers)| &&
        (forall j :: position < j < at ==> old(wrappers)[j].level > level) &&
        (at < |old(wrappers)| ==> old(wrappers)[at].level <= level) &&
        var seen := if position + 1 < |old(wrappers)| then old(levels)[prev.id := level] else old(levels);
        var st := NewStatement(newId, prev.parent);
        wrappers == old(wrappers)[..at] + [StatementWrapper(st, CachedLevel(seen, st), false, false)] + old(wrappers)[at..] &&
        levels == seen[newId := CachedLevel(seen, st)]
      ensures cleanMetadata == old(cleanMetadata)
    {
      if wrappers == [] {
        wrappers := [StatementWrapper(NewStatement(newId, None), 0, false, false)];
        return 0;
      }
      var prev := wrappers[position].statement;
      var newStatement := NewStatement(newId, prev.parent);
      at := FindNextStatementWithSameLevel(prev, position);
      var l := GetLevel(newStatement);
      wrappers := wrappers[..at] + [StatementWrapper(newStatement, l, false, false)] + wrappers[at..];
    }

    /** `addStatementChild`: a new child of the statement at `position`, right after it. */
    method AddStatementChild(position: int, newId: Id)
      requires wrappers != [] ==> 0 <= position < |wrappers|
      modifies this
      ensures old(wrappers) == [] ==> wrappers == old(wrappers) && levels == old(levels)
      ensures old(wrappers) != [] ==>
        var child := NewStatement(newId, Some(old(wrappers)[position].statement.id));
        var l := CachedLevel(old(levels), child);
        wrappers == old(wrappers)[..position + 1] + [StatementWrapper(child, l, false, false)] + old(wrappers)[position + 1..] &&
        levels == old(levels)[newId := l]
      ensures cleanMetadata == old(cleanMetadata)
    {
      if wrappers != [] {
        var child := NewStatement(newId, Some(wrappers[position].statement.id));
        var l := GetLevel(child);
        wrappers := wrappers[..position + 1] + [StatementWrapper(child, l, false, false)] + wrappers[position + 1..];
      }
    }

    /** `removeStatementWithChilds`: drops the wrapper at `position` and all its descendants. */
    method RemoveStatementWithChilds(position: nat)
      requires position < |wrappers|
      modifies this
      ensures var del := AllChildren(old(wrappers), old(wrappers)[position].statement.id, false) + [position];
        wrappers == Select(old(wrappers), KeptIndices(|old(wrappers)|, del))
      ensures levels == old(levels) && cleanMetadata == old(cleanMetadata)
    {
      var toDelete := GetChilds(wrappers[position].statement.id, false, |wrappers|);
      toDelete := toDelete + [position];
      wrappers := KeepUndeleted(wrappers, toDelete);
    }

    /** `removeStatement`: a used statement only raises the warning panel. */
    method RemoveStatement(position: nat)
      requires position < |wrappers|
      modifies this
      ensures old(wrappers)[position].used ==>
        wrappers == old(wrappers)[position := old(wrappers)[position].(showRemoveWarning := true)]
      ensures !old(wrappers)[position].used ==>
        var del := AllChildren(old(wrappers), old(wrappers)[position].statement.id, false) + [position];
        wrappers == Select(old(wrappers), KeptIndices(|old(wrappers)|, del))
      ensures levels == old(levels) && cleanMetadata == old(cleanMetadata)
    {
      if !wrappers[position].used {
        RemoveStatementWithChilds(position);
      } else {
        wrappers := wrappers[position := wrappers[position].(showRemoveWarning := true)];
      }
    }

    /** `forceRemoveStatement`: removes even a used statement, and marks its metadata for cleaning. */
    method ForceRemoveStatement(position: nat)
      requires position < |wrappers|
      modifies this
      ensures var del := AllChildren(old(wrappers), old(wrappers)[position].statement.id, false) + [position];
        wrappers == Select(old(wrappers), KeptIndices(|old(wrappers)|, del))
      ensures cleanMetadata && levels == old(levels)
    {
      RemoveStatementWithChilds(position);
      cleanMetadata := true;
    }

    /**
     * `addConstraint`: an empty constraint after the one at
     * `constrainPosition`, or at the end. A position below -1 throws
     * (`outOfBounds`) and changes nothing.
     */
    method AddConstraint(position: nat, constrainPosition: int) returns (outOfBounds: bool)
      requires position < |wrappers|
      modifies this
      ensures var cs := old(wrappers)[position].statement.constraints;
        outOfBounds <==> constrainPosition < -1
      ensures var w := old(wrappers)[position]; var cs := w.statement.constraints;
        outOfBounds ==> wrappers == old(wrappers)
      ensures var w := old(wrappers)[position]; var cs := w.statement.constraints;
        !outOfBounds ==> wrappers == old(wrappers)[position := w.(statement := w.statement.(constraints :=
          if constrainPosition >= |cs| then cs + [""]
          else cs[..constrainPosition + 1] + [""] + cs[constrainPosition + 1..]))]
      ensures levels == old(levels) && cleanMetadata == old(cleanMetadata)
    {
      var w := wrappers[position];
      var cs := w.statement.constraints;
      if constrainPosition >= |cs| {
        cs := cs + [""];
      } else if constrainPosition + 1 >= 0 {
        cs := cs[..constrainPosition + 1] + [""] + cs[constrainPosition + 1..];
      } else {
        return true;
      }
      wrappers := wrappers[position := w.(statement := w.statement.(constraints := cs))];
      outOfBounds := false;
    }

    /** `removeConstraint`: removes the constraint at `constrainPosition`; outside the list it throws. */
    method RemoveConstraint(position: nat, constrainPosition: int) returns (outOfBounds: bool)
      requires position < |wrappers|
      modifies this
      ensures var cs := old(wrappers)[position].statement.constraints;
        outOfBounds <==> !(0 <= constrainPosition < |cs|)
      ensures outOfBounds ==> wrappers == old(wrappers)
      ensures var w := old(wrappers)[position]; var cs := w.statement.constraints;
        !outOfBounds ==> wrappers == old(wrappers)[position := w.(statement := w.statement.(constraints :=
          cs[..constrainPosition] + cs[constrainPosition + 1..]))]
      ensures levels == old(levels) && cleanMetadata == old(cleanMetadata)
    {
      var w := wrappers[position];
      var cs := w.statement.constraints;
      if !(0 <= constrainPosition < |cs|) {
        return true;
      }
      wrappers := wrappers[position := w.(statement := w.statement.(constraints := cs[..constrainPosition] + cs[constrainPosition + 1..]))];
      outOfBounds := false;
    }
  }
}
