// Walking the collection hierarchy (de.mpg.imeji.logic.hierarchy.HierarchyService).
// The hierarchy holds a node per collection URI, giving its parent (which
// may be null), and a tree from a URI to the list of its children. Every
// recursion carries a step bound: the number of nodes (for the walk down,
// of tree entries), which an acyclic hierarchy never exhausts, as
// `ParentsComplete` and `LastParentComplete` prove for the parent walk and
// `FindAllSubcollectionsSpec` for the walk down the tree.
module HierarchyService {
  import opened Wrappers
  import opened ImejiModel

  datatype Hierarchy = Hierarchy(nodes: map<string, Option<string>>, tree: map<string, seq<string>>)

  /** `getParent`: the parent of the node, or null when `uri` has no node. */
  function Parent(h: Hierarchy, uri: string): (r: Option<string>)
    ensures uri !in h.nodes ==> r.None?
    ensures r.Some? ==> uri in h.nodes && h.nodes[uri] == r
  {
    if uri in h.nodes then h.nodes[uri] else None
  }

  /**
   * An acyclic hierarchy: `rank` orders the nodes so that a parent that is
   * itself a node ranks below its child, with ranks below the node count.
   */
  ghost predicate Ranked(h: Hierarchy, rank: map<string, nat>) {
    forall u :: u in h.nodes ==>
      u in rank && rank[u] < |h.nodes| &&
      (h.nodes[u].Some? && h.nodes[u].value in h.nodes ==>
         h.nodes[u].value in rank && rank[h.nodes[u].value] < rank[u])
  }

  /** Enough steps to walk up from `uri`. */
  ghost predicate FuelCovers(h: Hierarchy, rank: map<string, nat>, uri: string, fuel: nat) {
    uri in h.nodes ==> uri in rank && fuel > rank[uri]
  }

  // ---------------------------------------------------------------------
  // findAllParents

  /** `findAllParents(uri)`: the ancestors of `uri`, root first, ending with its parent. */
  function Parents(h: Hierarchy, uri: string, fuel: nat): (l: seq<string>)
    ensures |l| > 0 ==> Parent(h, uri) == Some(l[|l| - 1])
    ensures fuel > 0 ==> (|l| == 0 <==> Parent(h, uri).None?)
    decreases fuel
  {
    var p := Parent(h, uri);
    if p.Some? && fuel > 0 then Parents(h, p.value, fuel - 1) + [p.value] else []
  }

  /** Each URI of `l` is the parent of the one after it. */
  predicate IsChain(h: Hierarchy, l: seq<string>) {
    forall i :: 0 <= i < |l| - 1 ==> Parent(h, l[i + 1]) == Some(l[i])
  }

  /** Each listed ancestor is the parent of the one after it. */
  lemma {:induction false} ParentsChain(h: Hierarchy, uri: string, fuel: nat)
    ensures IsChain(h, Parents(h, uri, fuel))
    decreases fuel
  {
    var p := Parent(h, uri);
    if p.Some? && fuel > 0 {
      ParentsChain(h, p.value, fuel - 1);
      var l0 := Parents(h, p.value, fuel - 1);
      var l := l0 + [p.value];
      assert Parents(h, uri, fuel) == l;
      forall i | 0 <= i < |l| - 1 ensures Parent(h, l[i + 1]) == Some(l[i]) {
        if i + 1 == |l| - 1 {
          assert l[i] == l0[|l0| - 1] && l[i + 1] == p.value;
        } else {
          assert l[i] == l0[i] && l[i + 1] == l0[i + 1];
        }
      }
    }
  }

  /**
   * In an acyclic hierarchy the walk reaches the root: the first listed
   * ancestor has no parent, and `uri` itself is never listed.
   */
  lemma {:induction false} ParentsComplete(h: Hierarchy, rank: map<string, nat>, uri: string, fuel: nat)
    requires Ranked(h, rank) && FuelCovers(h, rank, uri, fuel)
    ensures var l := Parents(h, uri, fuel);
      (|l| > 0 ==> Parent(h, l[0]).None?) &&
      (uri in h.nodes ==> forall x :: x in l && x in h.nodes ==> rank[x] < rank[uri]) &&
      uri !in l
    decreases fuel
  {
    var p := Parent(h, uri);
    if p.Some? && fuel > 0 {
      var q := p.value;
      ParentsComplete(h, rank, q, fuel - 1);
      var l0 := Parents(h, q, fuel - 1);
      if |l0| == 0 {
        assert Parents(h, uri, fuel) == [q];
        assert Parent(h, q).None? by {
          if q in h.nodes {
            assert fuel - 1 > 0;
          }
        }
      }
      assert uri in h.nodes;
      if q in h.nodes {
        assert rank[q] < rank[uri];
      }
    }
  }

  /** `findAllParents(Object)`: the ancestors of the object's parent, then that parent. */
  function ParentsOf(h: Hierarchy, o: ImejiObject): (l: seq<string>)
    ensures ParentUri(o).None? ==> l == []
    ensures ParentUri(o).Some? ==> |l| > 0 && l[|l| - 1] == ParentUri(o).value
  {
    var u := ParentUri(o);
    if u.Some? then Parents(h, u.value, |h.nodes|) + [u.value] else []
  }

  // ---------------------------------------------------------------------
  // getLastParent

  /**
   * `getLastParent(firstParent)`: follows the parent links while the URI
   * has a node and returns the first URI without one. A node whose parent
   * is null leads to a lookup of null, which finds no node, so null is
   * returned.
   */
  function LastParent(h: Hierarchy, first: Option<string>, fuel: nat): (r: Option<string>)
    ensures first.Some? && first.value !in h.nodes ==> r == first
    ensures first.None? ==> r.None?
    decreases fuel
  {
    if first.Some? && first.value in h.nodes && fuel > 0 then LastParent(h, h.nodes[first.value], fuel - 1)
    else first
  }

  /**
   * In an acyclic hierarchy the last parent has no node, and it is the
   * root of the ancestor list: the first ancestor when that has no node,
   * null when the walk ends at a node without parent.
   */
  lemma {:induction false} LastParentComplete(h: Hierarchy, rank: map<string, nat>, uri: string, fuel: nat)
    requires Ranked(h, rank) && FuelCovers(h, rank, uri, fuel)
    ensures var r := LastParent(h, Some(uri), fuel);
      var l := Parents(h, uri, fuel);
      (r.Some? ==> r.value !in h.nodes) &&
      (uri in h.nodes && l == [] ==> r.None?) &&
      (|l| > 0 ==> r == (if l[0] in h.nodes then None else Some(l[0])))
    decreases fuel
  {
    if uri in h.nodes {
      var p := h.nodes[uri];
      if p.Some? {
        var q := p.value;
        if q in h.nodes {
          LastParentComplete(h, rank, q, fuel - 1);
          var l0 := Parents(h, q, fuel - 1);
          assert Parents(h, uri, fuel) == l0 + [q];
          if l0 == [] {
            assert LastParent(h, Some(q), fuel - 1) == LastParent(h, h.nodes[q], fuel - 2);
          }
        } else {
          assert Parents(h, uri, fuel) == Parents(h, q, fuel - 1) + [q];
        }
      }
    }
  }

  /** Any step bound that covers the walk gives the same last parent. */
  lemma {:induction false} LastParentFuelIndependent(h: Hierarchy, rank: map<string, nat>, uri: string, f1: nat, f2: nat)
    requires Ranked(h, rank) && FuelCovers(h, rank, uri, f1) && FuelCovers(h, rank, uri, f2)
    ensures LastParent(h, Some(uri), f1) == LastParent(h, Some(uri), f2)
    decreases f1
  {
    if uri in h.nodes {
      var p := h.nodes[uri];
      if p.Some? && p.value in h.nodes {
        LastParentFuelIndependent(h, rank, p.value, f1 - 1, f2 - 1);
      }
    }
  }

  /** `getLastParent(String)` as the service calls it, bounded by the node count. */
  function GetLastParent(h: Hierarchy, uri: string): Option<string> {
    LastParent(h, Some(uri), |h.nodes|)
  }

  /** The node-count bound covers every walk of an acyclic hierarchy. */
  lemma GetLastParentIsRoot(h: Hierarchy, rank: map<string, nat>, uri: string)
    requires Ranked(h, rank)
    ensures var r := GetLastParent(h, uri);
      (r.Some? ==> r.value !in h.nodes) &&
      (forall fuel: nat :: FuelCovers(h, rank, uri, fuel) ==> r == LastParent(h, Some(uri), fuel))
  {
    LastParentComplete(h, rank, uri, |h.nodes|);
    forall fuel: nat | FuelCovers(h, rank, uri, fuel)
      ensures GetLastParent(h, uri) == LastParent(h, Some(uri), fuel)
    {
      LastParentFuelIndependent(h, rank, uri, |h.nodes|, fuel);
    }
  }

  /** `getLastParent(Object)`: the last parent of the object's parent, or null without one. */
  function LastParentOf(h: Hierarchy, o: ImejiObject): (r: Option<string>)
    ensures ParentUri(o).None? ==> r.None?
  {
    var u := ParentUri(o);
    if u.Some? then GetLastParent(h, u.value) else None
  }

  // ---------------------------------------------------------------------
  // getParentUri

  /** `getParentUri`: an item's collection, a collection's parent, nothing for other objects. */
  function ParentUri(o: ImejiObject): (r: Option<string>)
    ensures o.ItemObject? ==> r == Some(o.itemCollection)
    ensures o.CollectionObject? ==> r == o.parent
    ensures !o.ItemObject? && !o.CollectionObject? ==> r.None?
  {
    match o
    case ItemObject(c, _) => Some(c)
    case CollectionObject(_, p, _) => p
    case _ => None
  }

  // ---------------------------------------------------------------------
  // findAllSubcollections

  /** `findAllSubcollections`: each child followed by its own subcollections, in pre-order. */
  function Subcollections(h: Hierarchy, uri: string, fuel: nat): (r: seq<string>)
    ensures uri !in h.tree || fuel == 0 ==> r == []
    decreases fuel, 1, 0
  {
    if fuel == 0 || uri !in h.tree then [] else SubcollectionsOf(h, h.tree[uri], fuel - 1)
  }

  /** The pre-order listing of the given children and their subcollections. */
  function SubcollectionsOf(h: Hierarchy, children: seq<string>, fuel: nat): (r: seq<string>)
    ensures |children| > 0 ==> |r| > 0 && r[0] == children[0]
    decreases fuel, 2, |children|
  {
    if |children| == 0 then []
    else [children[0]] + Subcollections(h, children[0], fuel) + SubcollectionsOf(h, children[1..], fuel)
  }

  /** `uri` is listed as a child of `parent` in the tree. */
  predicate ChildOf(h: Hierarchy, parent: string, uri: string) {
    parent in h.tree && uri in h.tree[parent]
  }

  /**
   * Every listed subcollection is a child of `uri` or of another listed
   * one, and every direct child of `uri` is listed.
   */
  lemma {:induction false} SubcollectionsSpec(h: Hierarchy, uri: string, fuel: nat)
    ensures var r := Subcollections(h, uri, fuel);
      (forall x :: x in r ==> ChildOf(h, uri, x) || exists y :: y in r && ChildOf(h, y, x)) &&
      (fuel > 0 && uri in h.tree ==> forall c :: c in h.tree[uri] ==> c in r)
    decreases fuel, 1, 0
  {
    if fuel > 0 && uri in h.tree {
      SubcollectionsOfSpec(h, uri, h.tree[uri], fuel - 1);
    }
  }

  lemma {:induction false} SubcollectionsOfSpec(h: Hierarchy, uri: string, children: seq<string>, fuel: nat)
    requires forall c :: c in children ==> ChildOf(h, uri, c)
    ensures var r := SubcollectionsOf(h, children, fuel);
      (forall x :: x in r ==> ChildOf(h, uri, x) || exists y :: y in r && ChildOf(h, y, x)) &&
      (forall c :: c in children ==> c in r)
    decreases fuel, 2, |children|
  {
    if |children| > 0 {
      var c := children[0];
      var a := Subcollections(h, c, fuel);
      var b := SubcollectionsOf(h, children[1..], fuel);
      var r := [c] + a + b;
      SubcollectionsSpec(h, c, fuel);
      SubcollectionsOfSpec(h, uri, children[1..], fuel);
      forall x | x in r ensures ChildOf(h, uri, x) || exists y :: y in r && ChildOf(h, y, x) {
        if x in a {
          if !ChildOf(h, c, x) {
            var y :| y in a && ChildOf(h, y, x);
            assert y in r;
          } else {
            assert c in r;
          }
        } else if x in b && !ChildOf(h, uri, x) {
          var y :| y in b && ChildOf(h, y, x);
          assert y in r;
        }
      }
      forall d | d in children ensures d in r {
        if d != c {
          assert d in children[1..];
        }
      }
    }
  }

  /** `findAllSubcollections` as the service calls it, bounded by the number of tree entries. */
  function FindAllSubcollections(h: Hierarchy, uri: string): seq<string> {
    Subcollections(h, uri, |h.tree|)
  }

  /**
   * An acyclic tree: `rank` orders the tree entries so that a child that
   * has an entry of its own ranks below its parent, with ranks below the
   * number of entries.
   */
  ghost predicate TreeRanked(h: Hierarchy, rank: map<string, nat>) {
    forall u :: u in h.tree ==>
      u in rank && rank[u] < |h.tree| &&
      forall c :: c in h.tree[u] && c in h.tree ==> c in rank && rank[c] < rank[u]
  }

  /** `path` leads down the tree from `uri`: each URI is a child of the one before it. */
  ghost predicate DownPath(h: Hierarchy, uri: string, path: seq<string>) {
    |path| > 0 && ChildOf(h, uri, path[0]) &&
    forall i :: 0 <= i < |path| - 1 ==> ChildOf(h, path[i], path[i + 1])
  }

  /** `x` lies somewhere below `uri`, at any depth. */
  ghost predicate Below(h: Hierarchy, uri: string, x: string) {
    exists path :: DownPath(h, uri, path) && path[|path| - 1] == x
  }

  /** A listing of children holds each child and everything listed below it. */
  lemma {:induction false} SubcollectionsOfCovers(h: Hierarchy, children: seq<string>, fuel: nat, i: nat)
    requires i < |children|
    ensures children[i] in SubcollectionsOf(h, children, fuel)
    ensures forall x :: x in Subcollections(h, children[i], fuel) ==> x in SubcollectionsOf(h, children, fuel)
    decreases i
  {
    if i > 0 {
      SubcollectionsOfCovers(h, children[1..], fuel, i - 1);
      assert children[1..][i - 1] == children[i];
    }
  }

  /** With a step bound above the rank of `uri`, the end of every path down from it is listed. */
  lemma {:induction false} SubcollectionsReach(h: Hierarchy, rank: map<string, nat>, uri: string, fuel: nat, path: seq<string>)
    requires TreeRanked(h, rank) && DownPath(h, uri, path)
    requires uri in h.tree ==> uri in rank && fuel > rank[uri]
    ensures path[|path| - 1] in Subcollections(h, uri, fuel)
    decreases |path|
  {
    var children := h.tree[uri];
    var c := path[0];
    var i :| 0 <= i < |children| && children[i] == c;
    SubcollectionsOfCovers(h, children, fuel - 1, i);
    if |path| > 1 {
      assert ChildOf(h, path[0], path[1]);
      assert rank[c] < rank[uri];
      assert DownPath(h, c, path[1..]) by {
        forall k | 0 <= k < |path[1..]| - 1 ensures ChildOf(h, path[1..][k], path[1..][k + 1]) {
          assert ChildOf(h, path[k + 1], path[k + 2]);
        }
      }
      SubcollectionsReach(h, rank, c, fuel - 1, path[1..]);
    }
  }

  /** Extending a path down from a child of `uri` gives a path down from `uri`. */
  lemma PrependDown(h: Hierarchy, uri: string, c: string, path: seq<string>)
    requires ChildOf(h, uri, c) && DownPath(h, c, path)
    ensures DownPath(h, uri, [c] + path)
  {
    var p := [c] + path;
    forall k | 0 <= k < |p| - 1 ensures ChildOf(h, p[k], p[k + 1]) {
      if k > 0 {
        assert p[k] == path[k - 1] && p[k + 1] == path[k];
      }
    }
  }

  /** Everything listed lies below `uri`. */
  lemma {:induction false} SubcollectionsBelow(h: Hierarchy, uri: string, fuel: nat)
    ensures forall x :: x in Subcollections(h, uri, fuel) ==> Below(h, uri, x)
    decreases fuel, 1, 0
  {
    if fuel > 0 && uri in h.tree {
      SubcollectionsOfBelow(h, uri, h.tree[uri], fuel - 1);
    }
  }

  lemma {:induction false} SubcollectionsOfBelow(h: Hierarchy, uri: string, children: seq<string>, fuel: nat)
    requires forall c :: c in children ==> ChildOf(h, uri, c)
    ensures forall x :: x in SubcollectionsOf(h, children, fuel) ==> Below(h, uri, x)
    decreases fuel, 2, |children|
  {
    if |children| > 0 {
      var c := children[0];
      var a := Subcollections(h, c, fuel);
      SubcollectionsBelow(h, c, fuel);
      SubcollectionsOfBelow(h, uri, children[1..], fuel);
      assert SubcollectionsOf(h, children, fuel) == [c] + a + SubcollectionsOf(h, children[1..], fuel);
      assert DownPath(h, uri, [c]);
      forall x | x in a ensures Below(h, uri, x) {
        var path :| DownPath(h, c, path) && path[|path| - 1] == x;
        PrependDown(h, uri, c, path);
        assert ([c] + path)[|[c] + path| - 1] == x;
      }
    }
  }

  /**
   * On an acyclic tree, `findAllSubcollections` lists exactly the
   * collections below `uri`, at every depth.
   */
  lemma FindAllSubcollectionsSpec(h: Hierarchy, rank: map<string, nat>, uri: string)
    requires TreeRanked(h, rank)
    ensures forall x :: x in FindAllSubcollections(h, uri) <==> Below(h, uri, x)
  {
    SubcollectionsBelow(h, uri, |h.tree|);
    forall x | Below(h, uri, x) ensures x in FindAllSubcollections(h, uri) {
      var path :| DownPath(h, uri, path) && path[|path| - 1] == x;
      SubcollectionsReach(h, rank, uri, |h.tree|, path);
    }
  }
}
