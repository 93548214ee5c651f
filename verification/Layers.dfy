/** The layers of a graph as levels: which orders go through them one after the other. */
module Layers {
  import opened Graphs
  import opened Solver

  /** The first layer that holds `x`, if any does. */
  ghost function LayerOf(layers: seq<seq<string>>, x: string): nat {
    if layers == [] then 0
    else if x in Flatten(layers[..|layers| - 1]) then LayerOf(layers[..|layers| - 1], x)
    else |layers| - 1
  }

  lemma {:induction false} BelowLayer(layers: seq<seq<string>>, i: nat, x: string)
    requires i <= |layers| && x in Flatten(layers)
    ensures x in Flatten(layers[..i]) <==> LayerOf(layers, x) < i
  {
    var front := layers[..|layers| - 1];
    FlattenPrefix(layers, i);
    if i == |layers| {
      assert layers[..i] == layers;
      LayerIsBounded(layers, x);
    } else {
      assert layers[..i] == front[..i];
      FlattenPrefix(front, i);
      if x in Flatten(front) {
        BelowLayer(front, i, x);
      }
    }
  }

  lemma {:induction false} LayerIsBounded(layers: seq<seq<string>>, x: string)
    requires layers != []
    ensures LayerOf(layers, x) < |layers|
  {
    var front := layers[..|layers| - 1];
    if x in Flatten(front) {
      LayerIsBounded(front, x);
    }
  }

  /** A node stands in the layer that it is first in. */
  lemma StandsInLayer(layers: seq<seq<string>>, x: string)
    requires x in Flatten(layers)
    ensures LayerOf(layers, x) < |layers| && x in layers[LayerOf(layers, x)]
  {
    LayerIsBounded(layers, x);
    var k := LayerOf(layers, x);
    BelowLayer(layers, k, x);
    BelowLayer(layers, k + 1, x);
    assert layers[..k + 1][..k] == layers[..k];
  }

  /** What a node needs lies in lower layers. */
  lemma NeedsLieLower(g: Graph, layers: seq<seq<string>>, x: string, d: string)
    requires IsLayering(g, layers) && x in g && d in g[x]
    ensures d in g && LayerOf(layers, d) < LayerOf(layers, x)
  {
    StandsInLayer(layers, x);
    var k := LayerOf(layers, x);
    assert d in Flatten(layers[..k]);
    FlattenPrefix(layers, k);
    BelowLayer(layers, k, d);
  }

  /** And something it needs lies in the layer just below. */
  lemma SomeNeedLiesJustBelow(g: Graph, layers: seq<seq<string>>, x: string) returns (d: string)
    requires IsLayering(g, layers) && IsEarliest(g, layers) && x in g && LayerOf(layers, x) > 0
    ensures d in g[x] && d in g && LayerOf(layers, d) == LayerOf(layers, x) - 1
  {
    StandsInLayer(layers, x);
    var k := LayerOf(layers, x);
    assert Awaits(g, x, Flatten(layers[..k - 1]));
    d :| d in g[x] && d !in Flatten(layers[..k - 1]);
    NeedsLieLower(g, layers, x, d);
    BelowLayer(layers, k - 1, d);
  }

  /** The graph alone decides which layer a node stands in. */
  lemma {:induction false} LayersAreUnique(g: Graph, layers: seq<seq<string>>, others: seq<seq<string>>, x: string)
    requires IsLayering(g, layers) && IsEarliest(g, layers) && IsLayering(g, others) && IsEarliest(g, others)
    requires x in g
    ensures LayerOf(layers, x) == LayerOf(others, x)
    decreases LayerOf(layers, x)
  {
    if LayerOf(layers, x) > 0 {
      var d := SomeNeedLiesJustBelow(g, layers, x);
      LayersAreUnique(g, layers, others, d);
      NeedsLieLower(g, others, x, d);
    }
    if LayerOf(others, x) > 0 {
      var d := SomeNeedLiesJustBelow(g, others, x);
      NeedsLieLower(g, layers, x, d);
      LayersAreUnique(g, layers, others, d);
    }
  }

  /** Every node, with all nodes of lower layers: its legal orders are those that go layer by layer. */
  ghost function LayerGraph(g: Graph, layers: seq<seq<string>>): Graph {
    map x | x in g :: set y | y in g && LayerOf(layers, y) < LayerOf(layers, x)
  }

  lemma SameLayerGraph(g: Graph, layers: seq<seq<string>>, others: seq<seq<string>>)
    requires IsLayering(g, layers) && IsEarliest(g, layers) && IsLayering(g, others) && IsEarliest(g, others)
    ensures LayerGraph(g, layers) == LayerGraph(g, others)
  {
    forall x | x in g ensures LayerOf(layers, x) == LayerOf(others, x) {
      LayersAreUnique(g, layers, others, x);
    }
    SameLevels(g, layers, others);
  }

  lemma SameLevels(g: Graph, layers: seq<seq<string>>, others: seq<seq<string>>)
    requires forall x :: x in g ==> LayerOf(layers, x) == LayerOf(others, x)
    ensures LayerGraph(g, layers) == LayerGraph(g, others)
  {
    forall x | x in g ensures LayerGraph(g, layers)[x] == LayerGraph(g, others)[x] {
    }
  }

  lemma LayersAddEdges(g: Graph, layers: seq<seq<string>>)
    requires IsLayering(g, layers)
    ensures HasMoreEdges(g, LayerGraph(g, layers))
  {
    forall x, d | x in g && d in g[x] ensures d in LayerGraph(g, layers)[x] {
      NeedsLieLower(g, layers, x, d);
    }
  }

  /** The layers one after the other are such an order. */
  lemma FlattenGoesByLayers(g: Graph, layers: seq<seq<string>>)
    requires IsLayering(g, layers)
    ensures IsOrder(LayerGraph(g, layers), Flatten(layers))
    ensures !Cyclic(LayerGraph(g, layers)) && !Incomplete(LayerGraph(g, layers))
  {
    var order, h := Flatten(layers), LayerGraph(g, layers);
    forall i, d | 0 <= i < |order| && order[i] in h && d in h[order[i]] ensures d in order[..i] {
      var k := LayerOf(layers, order[i]);
      LayerIsBounded(layers, order[i]);
      BelowLayer(layers, k, order[i]);
      BelowLayer(layers, k, d);
      FlattenPrefix(layers, k);
      var lower := Flatten(layers[..k]);
      assert lower == order[..|lower|] && i >= |lower|;
      var j :| 0 <= j < |lower| && lower[j] == d;
      assert order[j] == d;
    }
    OrderedIsSolvable(h, order);
  }

  /** One node reaches another there exactly if the other stands in a lower layer. */
  lemma LowerIffReached(g: Graph, layers: seq<seq<string>>, x: string, y: string)
    requires x in g && y in g
    ensures Reaches(LayerGraph(g, layers), x, y) <==> LayerOf(layers, y) < LayerOf(layers, x)
  {
    var h := LayerGraph(g, layers);
    if LayerOf(layers, y) < LayerOf(layers, x) {
      EdgeReaches(h, x, y);
    }
    if Reaches(h, x, y) {
      var w :| |w| >= 2 && IsWalk(h, w) && w[0] == x && w[|w| - 1] == y;
      WalkDescends(g, layers, w);
    }
  }

  lemma {:induction false} WalkDescends(g: Graph, layers: seq<seq<string>>, w: seq<string>)
    requires IsWalk(LayerGraph(g, layers), w) && |w| >= 2
    ensures LayerOf(layers, w[|w| - 1]) < LayerOf(layers, w[0])
  {
    assert IsStep(LayerGraph(g, layers), w, 0);
    if |w| > 2 {
      PartOfWalk(LayerGraph(g, layers), w, 1, |w|);
      assert w[1..|w|] == w[1..];
      WalkDescends(g, layers, w[1..]);
    }
  }

  /** Whatever a node of a layer reaches lies in lower layers. */
  lemma ReachedLiesLower(g: Graph, layers: seq<seq<string>>, i: nat, x: string, d: string)
    requires IsLayering(g, layers) && i < |layers| && x in layers[i] && x in g && Reaches(g, x, d)
    ensures d in Flatten(layers[..i])
  {
    FlattenPrefix(layers, i + 1);
    assert layers[..i + 1][..i] == layers[..i];
    BelowLayer(layers, i + 1, x);
    var h := LayerGraph(g, layers);
    LayersAddEdges(g, layers);
    OrderedIsSolvable(g, Flatten(layers));
    var w :| |w| >= 2 && IsWalk(g, w) && w[0] == x && w[|w| - 1] == d;
    WalkStays(g, h, w);
    WalkDescends(g, layers, w);
    assert d in h;
    BelowLayer(layers, i, d);
  }

  lemma WalkStays(g: Graph, h: Graph, w: seq<string>)
    requires HasMoreEdges(g, h) && IsWalk(g, w) && !Incomplete(g)
    ensures IsWalk(h, w) && (|w| >= 2 ==> w[|w| - 1] in h)
  {
    forall k | 0 <= k < |w| - 1 ensures IsStep(h, w, k) {
      assert IsStep(g, w, k);
    }
    if |w| >= 2 {
      assert IsStep(g, w, |w| - 2);
    }
  }

  /** The layers never go down along the order. */
  ghost predicate NeverDescends(layers: seq<seq<string>>, order: seq<string>) {
    forall i, j :: 0 <= i < j < |order| ==> LayerOf(layers, order[i]) <= LayerOf(layers, order[j])
  }

  /** The legal orders of the layers are the lists of all nodes along which the layers never go down. */
  lemma LegalIffNeverDescends(g: Graph, layers: seq<seq<string>>, order: seq<string>)
    requires Distinct(order) && forall x :: x in order <==> x in g
    ensures DepsFirst(LayerGraph(g, layers), order) <==> NeverDescends(layers, order)
  {
    var h := LayerGraph(g, layers);
    if NeverDescends(layers, order) {
      forall i, d | 0 <= i < |order| && order[i] in h && d in h[order[i]] ensures d in order[..i] {
        assert d in order;
        var j :| 0 <= j < |order| && order[j] == d;
      }
    }
    if DepsFirst(h, order) {
      forall i, j | 0 <= i < j < |order| ensures LayerOf(layers, order[i]) <= LayerOf(layers, order[j]) {
        assert order[i] in h && order[j] in g;
        assert order[j] in h[order[i]] <==> LayerOf(layers, order[j]) < LayerOf(layers, order[i]);
      }
    }
  }

  lemma NeedlessIsLowest(g: Graph, layers: seq<seq<string>>, x: string)
    requires IsLayering(g, layers) && IsEarliest(g, layers) && x in g && g[x] == {}
    ensures LayerOf(layers, x) == 0
  {
    if LayerOf(layers, x) > 0 {
      var d := SomeNeedLiesJustBelow(g, layers, x);
    }
  }

  /** Two nodes that need nothing stand side by side. */
  lemma NeedlessAreLevel(g: Graph, layers: seq<seq<string>>, x: string, y: string)
    requires IsLayering(g, layers) && IsEarliest(g, layers)
    requires x in g && y in g && g[x] == {} && g[y] == {}
    ensures !Reaches(LayerGraph(g, layers), x, y)
  {
    NeedlessIsLowest(g, layers, x);
    NeedlessIsLowest(g, layers, y);
    LowerIffReached(g, layers, x, y);
  }
}
