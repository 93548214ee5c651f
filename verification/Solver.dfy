/**
 * The layered topological sort that registration and deployment rely on. The library they call is
 * not part of this model; this is a Kahn-style sort with the contract its callers assume.
 */
module Solver {
  import opened Wrappers
  import opened Graphs

  datatype Entry = Entry(id: string, deps: seq<string>)

  function Ids(entries: seq<Entry>): set<string> {
    set e | e in entries :: e.id
  }

  /** The dependencies recorded for `id`; entries that share an identifier are merged. */
  function DepsOf(entries: seq<Entry>, id: string): set<string> {
    set e, d | e in entries && e.id == id && d in e.deps :: d
  }

  function GraphOf(entries: seq<Entry>): Graph {
    map id | id in Ids(entries) :: DepsOf(entries, id)
  }

  function Flatten<T>(layers: seq<seq<T>>): seq<T> {
    if layers == [] then [] else Flatten(layers[..|layers| - 1]) + layers[|layers| - 1]
  }

  /** A legal order, cut so that a node's dependencies lie in strictly earlier layers. */
  ghost predicate IsLayering(g: Graph, layers: seq<seq<string>>) {
    && IsOrder(g, Flatten(layers))
    && forall i, x, d :: 0 <= i < |layers| && x in layers[i] && x in g && d in g[x] ==> d in Flatten(layers[..i])
  }

  /** No node could stand in an earlier layer: each needs something of the layer before its own. */
  ghost predicate IsEarliest(g: Graph, layers: seq<seq<string>>) {
    forall i, x :: 0 < i < |layers| && x in layers[i] ==> x in g && Awaits(g, x, Flatten(layers[..i - 1]))
  }

  /** The node needs something that is not among the given ones. */
  ghost predicate Awaits(g: Graph, x: string, given: seq<string>)
    requires x in g
  {
    exists d :: d in g[x] && d !in given
  }

  /** The identifiers that are not placed yet and need only placed ones, in entry order. */
  method NextLayer(entries: seq<Entry>, g: Graph, placed: set<string>) returns (layer: seq<string>)
    requires g == GraphOf(entries)
    ensures Distinct(layer)
    ensures forall x :: x in layer <==> x in g && x !in placed && g[x] <= placed
  {
    layer := [];
    for i := 0 to |entries|
      invariant Distinct(layer)
      invariant forall x :: x in layer <==> x in Ids(entries[..i]) && x !in placed && g[x] <= placed
    {
      var id := entries[i].id;
      assert Ids(entries[..i + 1]) == Ids(entries[..i]) + {id} by {
        assert entries[..i + 1] == entries[..i] + [entries[i]];
      }
      if id !in placed && id !in layer && g[id] <= placed {
        layer := layer + [id];
      }
    }
    assert entries[..|entries|] == entries;
  }

  /** Layers the entries, or gives nothing exactly when there is no entry, a cycle or a missing relationship. */
  method LayeredTopologicalSort(entries: seq<Entry>) returns (layers: Option<seq<seq<string>>>)
    ensures layers.Some? <==> entries != [] && !Cyclic(GraphOf(entries)) && !Incomplete(GraphOf(entries))
    ensures layers.Some? ==> IsLayering(GraphOf(entries), layers.value) && IsEarliest(GraphOf(entries), layers.value)
  {
    if entries == [] {
      return None;
    }
    var g := GraphOf(entries);
    var sorted: seq<seq<string>> := [];
    var placed: set<string> := {};
    while placed != g.Keys
      invariant placed <= g.Keys
      invariant forall x :: x in Flatten(sorted) <==> x in placed
      invariant IsBeginning(g, sorted)
      decreases g.Keys - placed
    {
      var layer := NextLayer(entries, g, placed);
      if layer == [] {
        assert exists x :: x in g && x !in placed;
        StuckIsUnsolvable(g, placed);
        return None;
      }
      assert layer[0] in g.Keys - placed;
      AddLayer(g, sorted, layer);
      sorted := sorted + [layer];
      placed := placed + set x | x in layer;
    }
    OrderedIsSolvable(g, Flatten(sorted));
    layers := Some(sorted);
  }

  /** Whatever `x` needs is among the given ones. */
  ghost predicate IsReady(g: Graph, x: string, given: seq<string>)
    requires x in g
  {
    forall d :: d in g[x] ==> d in given
  }

  /** Every node stands above all it needs. */
  ghost predicate IsLayered(g: Graph, sorted: seq<seq<string>>) {
    forall i, x :: 0 <= i < |sorted| && x in sorted[i] ==> x in g && IsReady(g, x, Flatten(sorted[..i]))
  }

  /** Whatever is still to be placed could not have been placed in the last layer. */
  ghost predicate RestAwaits(g: Graph, sorted: seq<seq<string>>) {
    sorted != [] ==>
      forall x :: x in g && x !in Flatten(sorted) ==> Awaits(g, x, Flatten(sorted[..|sorted| - 1]))
  }

  /** The first layers of a layering in which every node stands as early as it can. */
  ghost predicate IsBeginning(g: Graph, sorted: seq<seq<string>>) {
    && Distinct(Flatten(sorted)) && DepsFirst(g, Flatten(sorted))
    && IsLayered(g, sorted) && IsEarliest(g, sorted) && RestAwaits(g, sorted)
  }

  /** The layer holds all nodes that are ready after the layers sorted so far. */
  ghost predicate IsNextLayer(g: Graph, sorted: seq<seq<string>>, layer: seq<string>) {
    forall x :: x in layer <==> x in g && x !in Flatten(sorted) && IsReady(g, x, Flatten(sorted))
  }

  lemma AddLayer(g: Graph, sorted: seq<seq<string>>, layer: seq<string>)
    requires IsBeginning(g, sorted) && Distinct(layer) && IsNextLayer(g, sorted, layer)
    ensures IsBeginning(g, sorted + [layer])
  {
    LayerAppended(sorted, layer);
    AppendLayer(g, Flatten(sorted), layer);
    StaysLayered(g, sorted, layer);
    StaysEarliest(g, sorted, layer);
    RestStillAwaits(g, sorted, layer);
  }

  lemma LayerAppended(sorted: seq<seq<string>>, layer: seq<string>)
    ensures Flatten(sorted + [layer]) == Flatten(sorted) + layer
    ensures forall i :: 0 <= i <= |sorted| ==> (sorted + [layer])[..i] == sorted[..i]
  {
    assert (sorted + [layer])[..|sorted|] == sorted;
  }

  lemma StaysLayered(g: Graph, sorted: seq<seq<string>>, layer: seq<string>)
    requires IsLayered(g, sorted) && IsNextLayer(g, sorted, layer)
    ensures IsLayered(g, sorted + [layer])
  {
    var longer := sorted + [layer];
    LayerAppended(sorted, layer);
    forall i, x | 0 <= i < |longer| && x in longer[i] ensures x in g && IsReady(g, x, Flatten(longer[..i])) {
      if i < |sorted| {
        assert x in sorted[i];
      } else {
        assert longer[..i] == sorted;
      }
    }
  }

  lemma StaysEarliest(g: Graph, sorted: seq<seq<string>>, layer: seq<string>)
    requires IsEarliest(g, sorted) && RestAwaits(g, sorted) && IsNextLayer(g, sorted, layer)
    ensures IsEarliest(g, sorted + [layer])
  {
    var longer := sorted + [layer];
    LayerAppended(sorted, layer);
    forall i, x | 0 < i < |longer| && x in longer[i] ensures x in g && Awaits(g, x, Flatten(longer[..i - 1])) {
      if i < |sorted| {
        assert x in sorted[i];
      }
    }
  }

  lemma RestStillAwaits(g: Graph, sorted: seq<seq<string>>, layer: seq<string>)
    requires IsNextLayer(g, sorted, layer)
    ensures RestAwaits(g, sorted + [layer])
  {
    LayerAppended(sorted, layer);
    forall x | x in g && x !in Flatten(sorted) + layer ensures Awaits(g, x, Flatten(sorted)) {
      assert !IsReady(g, x, Flatten(sorted));
    }
  }

  /** Adding a layer whose dependencies are all placed keeps the order legal. */
  lemma AppendLayer(g: Graph, order: seq<string>, layer: seq<string>)
    requires Distinct(order) && DepsFirst(g, order)
    requires Distinct(layer)
    requires forall x :: x in layer ==> x in g && x !in order && forall d :: d in g[x] ==> d in order
    ensures Distinct(order + layer) && DepsFirst(g, order + layer)
  {
    var all := order + layer;
    forall i, j | 0 <= i < j < |all| ensures all[i] != all[j] {
      if i < |order| <= j {
        assert all[j] in layer && all[i] in order;
      }
    }
    forall i, d | 0 <= i < |all| && all[i] in g && d in g[all[i]] ensures d in all[..i] {
      if i < |order| {
        assert all[..i] == order[..i];
      } else {
        assert all[i] in layer;
        assert all[..i] == order + layer[..i - |order|];
      }
    }
  }

  lemma {:induction false} FlattenPrefix(layers: seq<seq<string>>, i: nat)
    requires i <= |layers|
    ensures Flatten(layers[..i]) <= Flatten(layers)
  {
    if i < |layers| {
      FlattenPrefix(layers[..|layers| - 1], i);
      assert layers[..|layers| - 1][..i] == layers[..i];
    } else {
      assert layers[..i] == layers;
    }
  }
}
