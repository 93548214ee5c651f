/** The orders that a layered sort takes, and applications that compete for an install in all of them. */
module InstallLayers {
  import opened Api
  import opened Graphs
  import opened InstallOrder
  import opened Layers
  import opened ManifestInstall
  import opened Solver
  import opened Wrappers
  import R = Register

  /** Layer after layer, in any order within each. */
  ghost predicate GoesByLayers(apps: seq<Application>, layers: seq<seq<string>>, q: seq<Application>) {
    && Permutation(q, apps)
    && forall i, j :: 0 <= i < j < |q| ==> LayerOf(layers, q[i].name) <= LayerOf(layers, q[j].name)
  }

  lemma LayersFollow(apps: seq<Application>, layers: seq<seq<string>>, q: seq<Application>)
    requires DistinctNames(apps)
    ensures GoesByLayers(apps, layers, q) <==> Follows(apps, LayerGraph(AppGraph(apps), layers), q)
  {
    if Permutation(q, apps) {
      var names := R.AppNamesInOrder(q);
      AnyOrderFollows(apps, q);
      assert forall x :: x in names <==> x in NoEdges(apps);
      LegalIffNeverDescends(AppGraph(apps), layers, names);
      SameLayersInOrder(layers, q);
    }
  }

  lemma SameLayersInOrder(layers: seq<seq<string>>, q: seq<Application>)
    ensures NeverDescends(layers, R.AppNamesInOrder(q)) <==>
      forall i, j :: 0 <= i < j < |q| ==> LayerOf(layers, q[i].name) <= LayerOf(layers, q[j].name)
  {
    var names := R.AppNamesInOrder(q);
    assert forall i :: 0 <= i < |q| ==> names[i] == q[i].name;
  }

  /** The application asks for the install, and nobody in a lower layer does. */
  ghost predicate AsksLowest(apps: seq<Application>, layers: seq<seq<string>>, n: string, a: Application) {
    && a in apps && Asks(apps, a, n)
    && forall b :: b in apps && Asks(apps, b, n) ==> LayerOf(layers, a.name) <= LayerOf(layers, b.name)
  }

  /** The application asks for the install, and nobody in a higher layer does. */
  ghost predicate AsksHighest(apps: seq<Application>, layers: seq<seq<string>>, n: string, a: Application) {
    && a in apps && Asks(apps, a, n)
    && forall b :: b in apps && Asks(apps, b, n) ==> LayerOf(layers, b.name) <= LayerOf(layers, a.name)
  }

  /**
   * One application asks for an install in the highest layer, and those in the lowest layer ask for
   * the same parameters, unless the install is there already.
   */
  ghost predicate LayersSettled(before: Installs, plan: Plan, apps: seq<Application>, layers: seq<seq<string>>) {
    && (forall n, a, b :: AsksHighest(apps, layers, n, a) && AsksHighest(apps, layers, n, b) ==> a == b)
    && forall n, a, b :: n !in before && AsksLowest(apps, layers, n, a) && AsksLowest(apps, layers, n, b) ==>
      ParametersAsked(plan, apps, a, n) == ParametersAsked(plan, apps, b, n)
  }

  lemma PlaceByLayer(apps: seq<Application>, layers: seq<seq<string>>, n: string, a: Application)
    ensures CanBeFirst(apps, LayerGraph(AppGraph(apps), layers), n, a) <==> AsksLowest(apps, layers, n, a)
    ensures CanBeLast(apps, LayerGraph(AppGraph(apps), layers), n, a) <==> AsksHighest(apps, layers, n, a)
  {
    forall x, y | x in apps && y in apps
      ensures Reaches(LayerGraph(AppGraph(apps), layers), x.name, y.name) <==>
        LayerOf(layers, y.name) < LayerOf(layers, x.name)
    {
      LowerIffReached(AppGraph(apps), layers, x.name, y.name);
    }
  }

  lemma SettledByLayers(before: Installs, plan: Plan, apps: seq<Application>, layers: seq<seq<string>>)
    ensures OrderSettled(before, plan, apps, LayerGraph(AppGraph(apps), layers)) <==>
      LayersSettled(before, plan, apps, layers)
  {
    forall n, a
      ensures CanBeFirst(apps, LayerGraph(AppGraph(apps), layers), n, a) <==> AsksLowest(apps, layers, n, a)
      ensures CanBeLast(apps, LayerGraph(AppGraph(apps), layers), n, a) <==> AsksHighest(apps, layers, n, a)
    {
      PlaceByLayer(apps, layers, n, a);
    }
  }

  /** All orders that go by layers leave the same installs. */
  ghost predicate SameInEveryLayerOrder(before: Installs, plan: Plan, apps: seq<Application>,
                                        layers: seq<seq<string>>)
  {
    forall p, q :: GoesByLayers(apps, layers, p) && GoesByLayers(apps, layers, q) ==>
      AfterApps(before, plan, p, p) == AfterApps(before, plan, q, q)
  }

  lemma SameByLayers(before: Installs, plan: Plan, apps: seq<Application>, layers: seq<seq<string>>)
    requires DistinctNames(apps)
    ensures SameInEveryLayerOrder(before, plan, apps, layers) <==>
      SameInEveryOrder(before, plan, apps, LayerGraph(AppGraph(apps), layers))
  {
    forall q ensures GoesByLayers(apps, layers, q) <==> Follows(apps, LayerGraph(AppGraph(apps), layers), q) {
      LayersFollow(apps, layers, q);
    }
  }

  /** All orders that go by layers leave the same installs if and only if the layers settle it. */
  lemma LayeredOrderIndependence(before: Installs, plan: Plan, apps: seq<Application>, layers: seq<seq<string>>)
    requires DistinctNames(apps) && IsLayering(AppGraph(apps), layers)
    ensures SameInEveryLayerOrder(before, plan, apps, layers) <==> LayersSettled(before, plan, apps, layers)
  {
    LayersAreOrders(apps, layers);
    SameByLayers(before, plan, apps, layers);
    OrdersAgreeIff(before, plan, apps, LayerGraph(AppGraph(apps), layers));
    SettledByLayers(before, plan, apps, layers);
  }

  /** The layers one after the other go by layers. */
  lemma FlattenIsFollowed(apps: seq<Application>, layers: seq<seq<string>>, q: seq<Application>)
    requires DistinctNames(apps) && IsLayering(AppGraph(apps), layers)
    requires Permutation(q, apps) && R.AppNamesInOrder(q) == Flatten(layers)
    ensures GoesByLayers(apps, layers, q)
  {
    FlattenGoesByLayers(AppGraph(apps), layers);
    LayersFollow(apps, layers, q);
  }

  /** For self-named bundles the solver's graph is the graph of requirements. */
  lemma SolvedGraph(batch: seq<Application>)
    requires R.SelfNamed(batch)
    ensures GraphOf(R.Entries(batch)) == AppGraph(batch)
  {
    R.NodesOfSelfNamed(batch);
    forall n | n in AppGraph(batch) ensures DepsOf(R.Entries(batch), n) == AppGraph(batch)[n] {
      forall d ensures d in DepsOf(R.Entries(batch), n) <==> d in AppGraph(batch)[n] {
        DepsAreRequired(batch, n, d);
      }
    }
  }

  lemma DepsAreRequired(batch: seq<Application>, n: string, d: string)
    requires R.SelfNamed(batch) && n in AppGraph(batch)
    ensures d in DepsOf(R.Entries(batch), n) <==> d in AppGraph(batch)[n]
  {
    R.EdgesAreRequired(batch, n, d);
    forall a | a in batch ensures d in R.RequireNames(a) <==> exists r :: r in a.required && r.name == d {
      R.RequireNamesOf(a, d);
    }
  }

  // Two applications that nothing orders, and a third one that requires both under the same install name.

  ghost predicate Compete(apps: seq<Application>, x: Application, y: Application, top: Application, n: string) {
    && DistinctNames(apps) && (forall a :: a in apps <==> a == x || a == y || a == top)
    && x != y && x != top && y != top && x.required == [] && y.required == []
    && |top.required| == 2 && top.required[0].name == x.name && top.required[1].name == y.name
    && RequiredName(top.required[0]) == n && RequiredName(top.required[1]) == n && top.name != n
  }

  lemma LastOfTwo(r: Require, r': Require, name: string)
    ensures LastSuffix([r, r'], name) ==
      if name == r'.name then Some(r'.suffix) else if name == r.name then Some(r.suffix) else None
  {
    assert [r, r'][..1] == [r] && [r][..0] == [];
    assert LastSuffix([], name) == None;
    assert LastSuffix([r], name) == if name == r.name then Some(r.suffix) else None;
  }

  /** The two are asked for under the name, and the third is not. */
  lemma WhoAsks(apps: seq<Application>, x: Application, y: Application, top: Application, n: string)
    requires Compete(apps, x, y, top, n)
    ensures Asks(apps, x, n) && Asks(apps, y, n) && !Asks(apps, top, n)
  {
    var r, r' := top.required[0], top.required[1];
    assert top.required == [r, r'] && x in apps && y in apps && top in apps;
    LastOfTwo(r, r', x.name);
    LastOfTwo(r, r', y.name);
    LastOfTwo(r, r', top.name);
    RequiredOnce(apps, x, top);
    RequiredOnce(apps, y, top);
    forall q ensures q !in ByRequirer(apps, top.name) {
      RequirerOf(apps, top.name, q);
    }
    assert ByRequirer(apps, top.name) == map[];
  }

  lemma RequiredOnce(apps: seq<Application>, x: Application, q: Application)
    requires DistinctNames(apps) && q in apps && LastSuffix(q.required, x.name).Some?
    ensures Asks(apps, x, GetResourceName(x.name, LastSuffix(q.required, x.name).value))
  {
    RequirerOf(apps, x.name, q.name);
    var suffix := LastSuffix(q.required, x.name).value;
    assert ByRequirer(apps, x.name)[q.name] == suffix;
    assert suffix in ByRequirer(apps, x.name).Values;
  }

  lemma GraphOfCompetitors(apps: seq<Application>, x: Application, y: Application, top: Application, n: string)
    requires Compete(apps, x, y, top, n)
    ensures
      var g := AppGraph(apps);
      && g.Keys == {x.name, y.name, top.name} && g[x.name] == {} && g[y.name] == {}
      && g[top.name] == {x.name, y.name}
    ensures x.name != y.name && x.name != top.name && y.name != top.name
  {
    var g := AppGraph(apps);
    assert x in apps && y in apps && top in apps;
    forall d ensures d in g[top.name] <==> d == x.name || d == y.name {
      EdgeOfRequirement(apps, top, d);
      assert top.required[0] in top.required && top.required[1] in top.required;
    }
  }

  lemma SolvableCompetitors(g: Graph, x: string, y: string, top: string)
    requires x != y && x != top && y != top && g.Keys == {x, y, top}
    requires g[x] == {} && g[y] == {} && g[top] == {x, y}
    ensures !Cyclic(g) && !Incomplete(g)
  {
    assert [x, y, top][..2] == [x, y];
    OrderedIsSolvable(g, [x, y, top]);
  }

  /** Where neither has to come before the other, their order makes a difference, whatever was there before. */
  lemma UnorderedCompetitors(before: Installs, plan: Plan, apps: seq<Application>, g: Graph,
                             x: Application, y: Application, top: Application, n: string)
    requires Compete(apps, x, y, top, n) && Orders(g, apps)
    requires !Reaches(g, x.name, y.name) && !Reaches(g, y.name, x.name)
    ensures !SameInEveryOrder(before, plan, apps, g)
  {
    WhoAsks(apps, x, y, top, n);
    assert CanBeLast(apps, g, n, x) && CanBeLast(apps, g, n, y);
    OrdersAgreeIff(before, plan, apps, g);
  }

  /** Among the orders that put requirements first there are two that leave different installs. */
  lemma CompetitorsDependOnOrder(before: Installs, plan: Plan, apps: seq<Application>,
                                 x: Application, y: Application, top: Application, n: string)
    requires Compete(apps, x, y, top, n)
    ensures !SameInEveryInstallOrder(before, plan, apps)
  {
    var g := AppGraph(apps);
    GraphOfCompetitors(apps, x, y, top, n);
    SolvableCompetitors(g, x.name, y.name, top.name);
    NoneReached(g, x.name, y.name);
    NoneReached(g, y.name, x.name);
    UnorderedCompetitors(before, plan, apps, g, x, y, top, n);
    SameOrdersSameOutcome(before, plan, apps);
  }

  lemma NoneReached(g: Graph, x: string, y: string)
    requires x in g && g[x] == {}
    ensures !Reaches(g, x, y)
  {
    if Reaches(g, x, y) {
      FirstStep(g, x, y);
    }
  }

  /** And so there are among those that go by layers. */
  lemma CompetitorsDependOnLayerOrder(before: Installs, plan: Plan, apps: seq<Application>, layers: seq<seq<string>>,
                                      x: Application, y: Application, top: Application, n: string)
    requires Compete(apps, x, y, top, n)
    requires IsLayering(AppGraph(apps), layers) && IsEarliest(AppGraph(apps), layers)
    ensures !SameInEveryLayerOrder(before, plan, apps, layers)
  {
    CompetitorsAreLevel(apps, layers, x, y, top, n);
    UnorderedCompetitors(before, plan, apps, LayerGraph(AppGraph(apps), layers), x, y, top, n);
    SameByLayers(before, plan, apps, layers);
  }

  lemma LayersAreOrders(apps: seq<Application>, layers: seq<seq<string>>)
    requires IsLayering(AppGraph(apps), layers)
    ensures Orders(LayerGraph(AppGraph(apps), layers), apps)
  {
    FlattenGoesByLayers(AppGraph(apps), layers);
  }

  lemma CompetitorsAreLevel(apps: seq<Application>, layers: seq<seq<string>>,
                            x: Application, y: Application, top: Application, n: string)
    requires Compete(apps, x, y, top, n)
    requires IsLayering(AppGraph(apps), layers) && IsEarliest(AppGraph(apps), layers)
    ensures
      var h := LayerGraph(AppGraph(apps), layers);
      Orders(h, apps) && !Reaches(h, x.name, y.name) && !Reaches(h, y.name, x.name)
  {
    var g := AppGraph(apps);
    GraphOfCompetitors(apps, x, y, top, n);
    NeedlessAreLevel(g, layers, x.name, y.name);
    NeedlessAreLevel(g, layers, y.name, x.name);
    LayersAreOrders(apps, layers);
  }

  const DB := Application("db", "1", ["db"], [], [], [])
  const DB_WEB := Application("db-web", "1", ["db-web"], [], [], [])
  const TOP := Application("top", "1", ["top"], [Require("db", "web-a", []), Require("db-web", "a", [])], [], [])

  /** For example "db" for "web-a" and "db-web" for "a". */
  lemma CompetitorsExist()
    ensures Compete([DB, DB_WEB, TOP], DB, DB_WEB, TOP, "db-web-a")
  {
    var apps := [DB, DB_WEB, TOP];
    assert GetResourceName("db", "web-a") == "db-web-a" && GetResourceName("db-web", "a") == "db-web-a";
    forall a ensures multiset(apps)[a] <= 1 {
      R.CountsOfDistinct(apps, a);
    }
    assert apps[0] in apps && apps[1] in apps && apps[2] in apps;
  }
}
