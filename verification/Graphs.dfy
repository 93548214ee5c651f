/** Dependency graphs, the orders that respect them and the cycles that rule such orders out. */
module Graphs {

  /** Every node, with the set of nodes that have to come before it. */
  type Graph = map<string, set<string>>

  ghost predicate Distinct<T>(s: seq<T>) {
    forall i, j :: 0 <= i < j < |s| ==> s[i] != s[j]
  }

  /** Each element of `order` comes after everything it needs. */
  ghost predicate DepsFirst(g: Graph, order: seq<string>) {
    forall i, d :: 0 <= i < |order| && order[i] in g && d in g[order[i]] ==> d in order[..i]
  }

  /** `order` lists every node of `g` exactly once, each after the nodes it needs. */
  ghost predicate IsOrder(g: Graph, order: seq<string>) {
    && Distinct(order)
    && (forall x :: x in order <==> x in g)
    && DepsFirst(g, order)
  }

  /** The `i`th element of `w` needs the next one. */
  ghost predicate IsStep(g: Graph, w: seq<string>, i: nat)
    requires i + 1 < |w|
  {
    w[i] in g && w[i + 1] in g[w[i]]
  }

  /** Each element of `w` needs the next one. */
  ghost predicate IsWalk(g: Graph, w: seq<string>) {
    && w != []
    && forall i :: 0 <= i < |w| - 1 ==> IsStep(g, w, i)
  }

  ghost predicate Cyclic(g: Graph) {
    exists w :: |w| >= 2 && IsWalk(g, w) && w[0] == w[|w| - 1]
  }

  /** Some node needs a node that the graph does not have. */
  ghost predicate Incomplete(g: Graph) {
    exists x, d :: x in g && d in g[x] && d !in g
  }

  /** `y` can be reached from `x` over one or more edges. */
  ghost predicate Reaches(g: Graph, x: string, y: string) {
    exists w :: |w| >= 2 && IsWalk(g, w) && w[0] == x && w[|w| - 1] == y
  }

  /** Pigeonhole: a sequence drawn from a smaller set repeats an element. */
  lemma {:induction false} Repeats<T>(s: seq<T>, from: set<T>)
    requires forall x :: x in s ==> x in from
    requires |s| > |from|
    ensures !Distinct(s)
  {
    if Distinct(s) {
      var x := s[0];
      assert forall y :: y in s[1..] ==> y in from - {x};
      Repeats(s[1..], from - {x});
    }
  }

  /** A stretch of a walk is a walk. */
  lemma PartOfWalk(g: Graph, w: seq<string>, i: nat, j: nat)
    requires IsWalk(g, w) && i < j <= |w|
    ensures IsWalk(g, w[i..j])
  {
    forall k | 0 <= k < j - i - 1 ensures IsStep(g, w[i..j], k) {
      assert IsStep(g, w, i + k);
    }
  }

  /** A walk can be prefixed with a node that needs its first one. */
  lemma LongerWalk(g: Graph, x: string, w: seq<string>)
    requires IsWalk(g, w) && x in g && w[0] in g[x]
    ensures IsWalk(g, [x] + w)
  {
    forall k | 0 <= k < |w| ensures IsStep(g, [x] + w, k) {
      if k > 0 {
        assert IsStep(g, w, k - 1);
      }
    }
  }

  /** In a legal order, whatever a walk reaches stands before the node it started from. */
  lemma {:induction false} WalkGoesBack(g: Graph, order: seq<string>, w: seq<string>, i: nat)
    requires IsOrder(g, order) && IsWalk(g, w) && |w| >= 2
    requires i < |order| && order[i] == w[0]
    ensures w[|w| - 1] in order[..i]
    decreases |w|
  {
    assert IsStep(g, w, 0);
    var j :| 0 <= j < i && order[j] == w[1];
    if |w| > 2 {
      PartOfWalk(g, w, 1, |w|);
      assert w[1..|w|] == w[1..];
      WalkGoesBack(g, order, w[1..], j);
    }
  }

  /** A graph with a legal order is complete and has no cycle. */
  lemma OrderedIsSolvable(g: Graph, order: seq<string>)
    requires IsOrder(g, order)
    ensures !Cyclic(g) && !Incomplete(g)
  {
    if Cyclic(g) {
      var w :| |w| >= 2 && IsWalk(g, w) && w[0] == w[|w| - 1];
      assert IsStep(g, w, 0);
      var i :| 0 <= i < |order| && order[i] == w[0];
      WalkGoesBack(g, order, w, i);
    }
  }

  /** Nodes outside `placed` that all need another such node carry walks of any length. */
  lemma {:induction false} StuckWalk(g: Graph, placed: set<string>, start: string, n: nat) returns (w: seq<string>)
    requires !Incomplete(g)
    requires forall x :: x in g && x !in placed ==> !(g[x] <= placed)
    requires start in g && start !in placed
    ensures |w| == n + 1 && IsWalk(g, w) && w[0] == start
    ensures forall x :: x in w ==> x in g.Keys - placed
    decreases n
  {
    w := [start];
    if n > 0 {
      var d :| d in g[start] && d !in placed;
      var rest := StuckWalk(g, placed, d, n - 1);
      LongerWalk(g, start, rest);
      w := [start] + rest;
    }
  }

  lemma ReturningWalk(g: Graph, w: seq<string>, i: nat, j: nat)
    requires IsWalk(g, w) && i < j < |w| && w[i] == w[j]
    ensures Cyclic(g)
  {
    var c := w[i..j + 1];
    PartOfWalk(g, w, i, j + 1);
    assert |c| >= 2 && c[0] == c[|c| - 1];
  }

  /** If every node still to be placed waits for another one, the graph has no legal order. */
  lemma StuckIsUnsolvable(g: Graph, placed: set<string>)
    requires exists x :: x in g && x !in placed
    requires forall x :: x in g && x !in placed ==> !(g[x] <= placed)
    ensures Cyclic(g) || Incomplete(g)
  {
    if !Incomplete(g) {
      var start :| start in g && start !in placed;
      var left := g.Keys - placed;
      var w := StuckWalk(g, placed, start, |left|);
      Repeats(w, left);
      var i, j :| 0 <= i < j < |w| && w[i] == w[j];
      ReturningWalk(g, w, i, j);
    }
  }

  /** `d` stands before `x` in the order. */
  ghost predicate Precedes(order: seq<string>, d: string, x: string) {
    exists i :: 0 <= i < |order| && order[i] == x && d in order[..i]
  }

  /** A set of nodes that holds whatever its nodes need. */
  ghost predicate DownClosed(g: Graph, nodes: set<string>) {
    nodes <= g.Keys && forall x :: x in nodes ==> g[x] <= nodes
  }

  /** A legal beginning can be continued until a given set of nodes is placed that holds all they need. */
  lemma {:induction false} Continue(g: Graph, front: seq<string>, nodes: set<string>) returns (order: seq<string>)
    requires !Cyclic(g) && !Incomplete(g) && DownClosed(g, nodes)
    requires Distinct(front) && DepsFirst(g, front) && forall x :: x in front ==> x in nodes
    ensures front <= order && Distinct(order) && DepsFirst(g, order)
    ensures forall x :: x in order <==> x in nodes
    decreases nodes - set x | x in front
  {
    var placed := set x | x in front;
    if nodes <= placed {
      return front;
    }
    var next := NextToPlace(g, placed, nodes);
    PlaceNext(g, front, next);
    assert (set x | x in front + [next]) == placed + {next};
    order := Continue(g, front + [next], nodes);
  }

  /** As long as some of the nodes are left, one of them can be placed. */
  lemma NextToPlace(g: Graph, placed: set<string>, nodes: set<string>) returns (next: string)
    requires !Cyclic(g) && !Incomplete(g) && DownClosed(g, nodes)
    requires !(nodes <= placed)
    ensures next in nodes && next !in placed && g[next] <= placed
  {
    var others := placed + (g.Keys - nodes);
    var some :| some in nodes && some !in placed;
    assert some in g && some !in others;
    if forall x :: x in g && x !in others ==> !(g[x] <= others) {
      StuckIsUnsolvable(g, others);
    }
    next :| next in g && next !in others && g[next] <= others;
  }

  lemma PlaceNext(g: Graph, front: seq<string>, next: string)
    requires Distinct(front) && DepsFirst(g, front)
    requires next !in front && (next in g ==> forall d :: d in g[next] ==> d in front)
    ensures Distinct(front + [next]) && DepsFirst(g, front + [next])
  {
    var all := front + [next];
    forall i, d | 0 <= i < |all| && all[i] in g && d in g[all[i]] ensures d in all[..i] {
      assert all[..i] == front[..i];
    }
  }

  /** A graph without a cycle and with nothing missing has a legal order, and one that begins with any closed set. */
  lemma LegalOrder(g: Graph, first: set<string>) returns (order: seq<string>)
    requires !Cyclic(g) && !Incomplete(g) && DownClosed(g, first)
    ensures IsOrder(g, order)
    ensures forall x, y :: x in first && y in g && y !in first ==> Precedes(order, x, y) && !Precedes(order, y, x)
  {
    var front := Continue(g, [], first);
    assert DownClosed(g, g.Keys) by {
      assert forall x, d :: x in g && d in g[x] ==> d in g;
    }
    order := Continue(g, front, g.Keys);
    forall x, y | x in first && y in g && y !in first ensures Precedes(order, x, y) && !Precedes(order, y, x) {
      ComesLater(front, order, x, y);
    }
  }

  lemma ComesLater(front: seq<string>, order: seq<string>, x: string, y: string)
    requires front <= order && Distinct(order)
    requires x in front && y !in front && y in order
    ensures Precedes(order, x, y) && !Precedes(order, y, x)
  {
    var i :| 0 <= i < |front| && front[i] == x;
    var j :| 0 <= j < |order| && order[j] == y;
    assert order[i] == x && i < |front| <= j;
    assert x == order[..j][i];
  }

  /** What a node needs, directly or not, together with the node itself. */
  ghost function Closure(g: Graph, x: string): set<string> {
    set y | y in g && (y == x || Reaches(g, x, y))
  }

  lemma ClosureIsClosed(g: Graph, x: string)
    requires !Incomplete(g)
    ensures DownClosed(g, Closure(g, x))
  {
    forall y, d | y in Closure(g, x) && d in g[y] ensures d in Closure(g, x) {
      assert d in g;
      EdgeReaches(g, y, d);
      if y != x {
        ReachesThrough(g, x, y, d);
      }
    }
  }

  /** The nodes that need `x` neither directly nor indirectly, without `x` itself. */
  ghost function Independent(g: Graph, x: string): set<string> {
    set y | y in g && y != x && !Reaches(g, y, x)
  }

  lemma IndependentIsClosed(g: Graph, x: string)
    requires !Incomplete(g)
    ensures DownClosed(g, Independent(g, x))
  {
    forall y, d | y in Independent(g, x) && d in g[y] ensures d in Independent(g, x) {
      assert d in g;
      EdgeReaches(g, y, d);
      if Reaches(g, d, x) {
        ReachesThrough(g, y, d, x);
      }
    }
  }

  lemma EdgeReaches(g: Graph, x: string, d: string)
    requires x in g && d in g[x]
    ensures Reaches(g, x, d)
  {
    var w := [x, d];
    assert IsStep(g, w, 0);
    assert |w| >= 2 && IsWalk(g, w) && w[0] == x && w[|w| - 1] == d;
  }

  lemma ReachesThrough(g: Graph, x: string, y: string, z: string)
    requires Reaches(g, x, y) && Reaches(g, y, z)
    ensures Reaches(g, x, z)
  {
    var v :| |v| >= 2 && IsWalk(g, v) && v[0] == x && v[|v| - 1] == y;
    var w :| |w| >= 2 && IsWalk(g, w) && w[0] == y && w[|w| - 1] == z;
    var all := JoinedWalk(g, v, w);
  }

  lemma {:induction false} JoinedWalk(g: Graph, v: seq<string>, w: seq<string>) returns (all: seq<string>)
    requires IsWalk(g, v) && IsWalk(g, w) && v[|v| - 1] == w[0]
    ensures IsWalk(g, all) && |all| == |v| + |w| - 1 && all[0] == v[0] && all[|all| - 1] == w[|w| - 1]
  {
    if |v| == 1 {
      all := w;
    } else {
      PartOfWalk(g, v, 1, |v|);
      assert v[1..|v|] == v[1..];
      var rest := JoinedWalk(g, v[1..], w);
      assert IsStep(g, v, 0);
      LongerWalk(g, v[0], rest);
      all := [v[0]] + rest;
    }
  }

  /** Only a node that needs something reaches anything. */
  lemma FirstStep(g: Graph, x: string, y: string)
    requires Reaches(g, x, y)
    ensures x in g && g[x] != {}
  {
    var w :| |w| >= 2 && IsWalk(g, w) && w[0] == x && w[|w| - 1] == y;
    assert IsStep(g, w, 0);
  }

  /** In a legal order what a node reaches stands before it. */
  lemma ReachedPrecedes(g: Graph, order: seq<string>, x: string, d: string)
    requires IsOrder(g, order) && Reaches(g, x, d)
    ensures Precedes(order, d, x)
  {
    var w :| |w| >= 2 && IsWalk(g, w) && w[0] == x && w[|w| - 1] == d;
    assert IsStep(g, w, 0);
    var i :| 0 <= i < |order| && order[i] == x;
    WalkGoesBack(g, order, w, i);
  }

  /** Every legal order puts `d` before `x` if and only if `x` reaches `d`. */
  lemma ForcedIff(g: Graph, x: string, d: string)
    requires !Cyclic(g) && !Incomplete(g) && x in g
    ensures (forall order :: IsOrder(g, order) ==> Precedes(order, d, x)) <==> Reaches(g, x, d)
  {
    forall order | IsOrder(g, order) && Reaches(g, x, d) ensures Precedes(order, d, x) {
      ReachedPrecedes(g, order, x, d);
    }
    if !Reaches(g, x, d) {
      ClosureIsClosed(g, x);
      var order := LegalOrder(g, Closure(g, x));
      assert !Precedes(order, d, x);
    }
  }

  /** `h` has the nodes of `g`, its edges and perhaps more. */
  ghost predicate HasMoreEdges(g: Graph, h: Graph) {
    h.Keys == g.Keys && forall x :: x in g ==> g[x] <= h[x]
  }

  /** Wherever `h` has an edge, `g` leads from the one node to the other. */
  ghost predicate EdgesReached(g: Graph, h: Graph) {
    forall x, d :: x in h && d in h[x] ==> Reaches(g, x, d)
  }

  /**
   * More edges leave the legal orders as they are if and only if there was no order anyway or they
   * lead nowhere new.
   */
  lemma SameOrdersIff(g: Graph, h: Graph)
    requires HasMoreEdges(g, h)
    ensures (forall order :: IsOrder(g, order) <==> IsOrder(h, order)) <==>
      Cyclic(g) || Incomplete(g) || EdgesReached(g, h)
  {
    forall order | IsOrder(h, order) ensures IsOrder(g, order) {
      FewerEdgesFewerDemands(g, h, order);
    }
    forall order | IsOrder(g, order) && (Cyclic(g) || Incomplete(g) || EdgesReached(g, h)) ensures IsOrder(h, order) {
      OrderedIsSolvable(g, order);
      ReachedEdgesKeepOrder(g, h, order);
    }
    if (forall order :: IsOrder(g, order) <==> IsOrder(h, order)) && !Cyclic(g) && !Incomplete(g) {
      forall x, d | x in h && d in h[x] ensures Reaches(g, x, d) {
        forall order | IsOrder(g, order) ensures Precedes(order, d, x) {
          assert IsOrder(h, order);
          EdgeReaches(h, x, d);
          ReachedPrecedes(h, order, x, d);
        }
        ForcedIff(g, x, d);
      }
    }
  }

  lemma FewerEdgesFewerDemands(g: Graph, h: Graph, order: seq<string>)
    requires HasMoreEdges(g, h) && IsOrder(h, order)
    ensures IsOrder(g, order)
  {
    forall i, d | 0 <= i < |order| && order[i] in g && d in g[order[i]] ensures d in order[..i] {
      assert d in h[order[i]];
    }
  }

  lemma ReachedEdgesKeepOrder(g: Graph, h: Graph, order: seq<string>)
    requires HasMoreEdges(g, h) && EdgesReached(g, h) && IsOrder(g, order)
    ensures IsOrder(h, order)
  {
    forall i, d | 0 <= i < |order| && order[i] in h && d in h[order[i]] ensures d in order[..i] {
      ReachedPrecedes(g, order, order[i], d);
    }
  }

  /** More edges leave reachability as it is if and only if they lead nowhere new. */
  lemma SameClosureIff(g: Graph, h: Graph)
    requires HasMoreEdges(g, h)
    ensures (forall x, y :: Reaches(g, x, y) <==> Reaches(h, x, y)) <==> EdgesReached(g, h)
  {
    if forall x, y :: Reaches(g, x, y) <==> Reaches(h, x, y) {
      forall x, d | x in h && d in h[x] ensures Reaches(g, x, d) {
        EdgeReaches(h, x, d);
      }
    }
    if EdgesReached(g, h) {
      forall x, y ensures Reaches(g, x, y) <==> Reaches(h, x, y) {
        if Reaches(g, x, y) {
          var w :| |w| >= 2 && IsWalk(g, w) && w[0] == x && w[|w| - 1] == y;
          forall k | 0 <= k < |w| - 1 ensures IsStep(h, w, k) {
            assert IsStep(g, w, k);
          }
          assert IsWalk(h, w);
        }
        if Reaches(h, x, y) {
          var w :| |w| >= 2 && IsWalk(h, w) && w[0] == x && w[|w| - 1] == y;
          WalkIsReached(g, h, w);
        }
      }
    }
  }

  lemma {:induction false} WalkIsReached(g: Graph, h: Graph, w: seq<string>)
    requires EdgesReached(g, h) && IsWalk(h, w) && |w| >= 2
    ensures Reaches(g, w[0], w[|w| - 1])
  {
    assert IsStep(h, w, 0);
    if |w| > 2 {
      PartOfWalk(h, w, 1, |w|);
      assert w[1..|w|] == w[1..];
      WalkIsReached(g, h, w[1..]);
      ReachesThrough(g, w[0], w[1], w[|w| - 1]);
    }
  }

  /** `h` is `g` with extra edges, each of which only cuts short two edges of `g`. */
  ghost predicate AddsShortcuts(g: Graph, h: Graph) {
    && HasMoreEdges(g, h)
    && forall x, d :: x in g && d in h[x] && d !in g[x] ==> exists y :: y in g && y in g[x] && d in g[y]
  }

  /** Shortcuts lead nowhere new. */
  lemma ShortcutsAreReached(g: Graph, h: Graph)
    requires AddsShortcuts(g, h)
    ensures EdgesReached(g, h)
  {
    forall x, d | x in h && d in h[x] ensures Reaches(g, x, d) {
      if d in g[x] {
        EdgeReaches(g, x, d);
      } else {
        var y :| y in g && y in g[x] && d in g[y];
        EdgeReaches(g, x, y);
        EdgeReaches(g, y, d);
        ReachesThrough(g, x, y, d);
      }
    }
  }
}
