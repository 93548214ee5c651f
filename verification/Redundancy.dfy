/** The solver edges that deployment adds for the requirements of requirements. */
module Redundancy {
  import opened Api
  import opened Graphs
  import opened ManifestDeploy

  /** What the manifest says a bundle requires is among what the applications of its installs require. */
  ghost predicate ManifestWithinApplications(bundles: seq<Bundle>, c: Cluster)
    requires Found(c, Lookups(bundles))
  {
    forall b, x :: b in bundles && x in LookupsOf(bundles, b.name) && x in Lookups(bundles) ==>
      NamesRequired(b.required) <= NamesRequired(c.AppOf(x).required)
  }

  /** Every required install is looked up as an install of the bundle it is named after. */
  ghost predicate RequirementsAreEntries(bundles: seq<Bundle>, c: Cluster)
    requires Found(c, Lookups(bundles))
  {
    forall x, r :: x in Lookups(bundles) && r in c.AppOf(x).required ==>
      RequiredName(r) in LookupsOf(bundles, r.name) && exists b :: b in bundles && b.name == r.name
  }

  /** The graph that is solved has the edges of the applications' own requirements, and perhaps more. */
  lemma SolverAddsEdges(bundles: seq<Bundle>, c: Cluster)
    requires Found(c, Lookups(bundles))
    ensures HasMoreEdges(RequiresGraph(bundles, c), SolverGraph(bundles, c))
  {
    var g, h := RequiresGraph(bundles, c), SolverGraph(bundles, c);
    forall x, d | x in g && d in g[x] ensures d in h[x] {
      InSolverDeps(bundles, c.AppOf(x).required, d);
    }
  }

  /**
   * Whatever the manifest says a requirement of an install requires, the applications' requirements
   * lead to as well.
   */
  ghost predicate SecondLevelReached(bundles: seq<Bundle>, c: Cluster)
    requires Found(c, Lookups(bundles))
  {
    forall x, r, d :: x in Lookups(bundles) && r in c.AppOf(x).required && d in ManifestRequires(bundles, r.name) ==>
      Reaches(RequiresGraph(bundles, c), x, d)
  }

  lemma SecondLevelReachedIff(bundles: seq<Bundle>, c: Cluster)
    requires Found(c, Lookups(bundles))
    ensures SecondLevelReached(bundles, c) <==> EdgesReached(RequiresGraph(bundles, c), SolverGraph(bundles, c))
  {
    var g, h := RequiresGraph(bundles, c), SolverGraph(bundles, c);
    forall x, r, d | x in Lookups(bundles) && r in c.AppOf(x).required && d in ManifestRequires(bundles, r.name)
      ensures d in h[x]
    {
      InSolverDeps(bundles, c.AppOf(x).required, d);
    }
    if SecondLevelReached(bundles, c) {
      forall x, d | x in h && d in h[x] ensures Reaches(g, x, d) {
        InSolverDeps(bundles, c.AppOf(x).required, d);
        if d in g[x] {
          EdgeReaches(g, x, d);
        }
      }
    }
  }

  /**
   * The second-level edges are redundant exactly when the requirements lead where they lead: then,
   * and only then, the same installs come transitively before an install with and without them. The
   * same orders are legal under the same condition, or when there is no legal order at all.
   */
  lemma SecondLevelEdgesAreRedundantIff(bundles: seq<Bundle>, c: Cluster)
    requires Found(c, Lookups(bundles))
    ensures var g, h := RequiresGraph(bundles, c), SolverGraph(bundles, c);
      (forall x, y :: Reaches(g, x, y) <==> Reaches(h, x, y)) <==> SecondLevelReached(bundles, c)
    ensures var g, h := RequiresGraph(bundles, c), SolverGraph(bundles, c);
      (forall order :: IsOrder(g, order) <==> IsOrder(h, order)) <==>
        Cyclic(g) || Incomplete(g) || SecondLevelReached(bundles, c)
  {
    SolverAddsEdges(bundles, c);
    SecondLevelReachedIff(bundles, c);
    SameClosureIff(RequiresGraph(bundles, c), SolverGraph(bundles, c));
    SameOrdersIff(RequiresGraph(bundles, c), SolverGraph(bundles, c));
  }

  lemma SolverEdgesAreShortcuts(bundles: seq<Bundle>, c: Cluster)
    requires Found(c, Lookups(bundles))
    requires ManifestWithinApplications(bundles, c) && RequirementsAreEntries(bundles, c)
    ensures AddsShortcuts(RequiresGraph(bundles, c), SolverGraph(bundles, c))
  {
    var g, h := RequiresGraph(bundles, c), SolverGraph(bundles, c);
    SolverAddsEdges(bundles, c);
    forall x, d | x in g && d in h[x] && d !in g[x] ensures exists y :: y in g && y in g[x] && d in g[y] {
      InSolverDeps(bundles, c.AppOf(x).required, d);
      var r :| r in c.AppOf(x).required && d in ManifestRequires(bundles, r.name);
      InManifestRequires(bundles, r.name, d);
      var b, r' :| b in bundles && b.name == r.name && r' in b.required && RequiredName(r') == d;
      var y := RequiredName(r);
      InLookupsFor(bundles, bundles, y);
      assert y in LookupsOf(bundles, b.name);
      assert d in NamesRequired(b.required);
      assert y in g && y in g[x] && d in g[y];
    }
  }

  /**
   * In particular they are redundant when the manifest says no more than the applications, and all
   * requirements are entries.
   */
  lemma SecondLevelEdgesAreRedundant(bundles: seq<Bundle>, c: Cluster)
    requires Found(c, Lookups(bundles))
    requires ManifestWithinApplications(bundles, c) && RequirementsAreEntries(bundles, c)
    ensures SecondLevelReached(bundles, c)
    ensures forall x, y :: Reaches(SolverGraph(bundles, c), x, y) <==> Reaches(RequiresGraph(bundles, c), x, y)
    ensures forall order :: IsOrder(SolverGraph(bundles, c), order) <==> IsOrder(RequiresGraph(bundles, c), order)
  {
    SolverEdgesAreShortcuts(bundles, c);
    ShortcutsAreReached(RequiresGraph(bundles, c), SolverGraph(bundles, c));
    SecondLevelReachedIff(bundles, c);
    SecondLevelEdgesAreRedundantIff(bundles, c);
  }

  /** `d` is an install that the manifest says the bundle behind the install `x` requires. */
  ghost predicate ManifestDemands(bundles: seq<Bundle>, x: string, d: string) {
    exists b :: b in bundles && x in LookupsOf(bundles, b.name) && d in NamesRequired(b.required)
  }

  /** The order puts every install after those that the manifest says its bundle requires. */
  ghost predicate RespectsManifest(bundles: seq<Bundle>, order: seq<string>) {
    forall x, d :: ManifestDemands(bundles, x, d) ==> Precedes(order, d, x)
  }

  /** Every legal order respects the manifest if and only if the graph that is solved leads to all it demands. */
  lemma ManifestIsEnforcedIff(bundles: seq<Bundle>, c: Cluster)
    requires Found(c, Lookups(bundles)) && !Cyclic(SolverGraph(bundles, c)) && !Incomplete(SolverGraph(bundles, c))
    ensures (forall order :: IsOrder(SolverGraph(bundles, c), order) ==> RespectsManifest(bundles, order)) <==>
      forall x, d :: ManifestDemands(bundles, x, d) ==> Reaches(SolverGraph(bundles, c), x, d)
  {
    var h := SolverGraph(bundles, c);
    forall x, d | ManifestDemands(bundles, x, d)
      ensures (forall order :: IsOrder(h, order) ==> Precedes(order, d, x)) <==> Reaches(h, x, d)
    {
      InLookupsFor(bundles, bundles, x);
      ForcedIff(h, x, d);
    }
  }

  /** A requirement that the application has as well is always enforced. */
  lemma ManifestWithinApplicationsIsEnforced(bundles: seq<Bundle>, c: Cluster)
    requires Found(c, Lookups(bundles)) && ManifestWithinApplications(bundles, c)
    ensures forall order :: IsOrder(SolverGraph(bundles, c), order) ==> RespectsManifest(bundles, order)
  {
    var h := SolverGraph(bundles, c);
    forall order, x, d | IsOrder(h, order) && ManifestDemands(bundles, x, d) ensures Precedes(order, d, x) {
      InLookupsFor(bundles, bundles, x);
      InSolverDeps(bundles, c.AppOf(x).required, d);
      EdgeReaches(h, x, d);
      ReachedPrecedes(h, order, x, d);
    }
  }

  lemma NamesRequiredOfOne(r: Require)
    ensures NamesRequired([r]) == {RequiredName(r)}
  {
    assert r in [r];
  }

  // A manifest that says more than its applications do: bundle "b" is to require "c", but the
  // application of "b" requires nothing, and the application of "a" requires "b".
  const A := Bundle("a", "1", [], [])
  const B := Bundle("b", "1", [], [Require("c", "", [])])
  const C := Bundle("c", "1", [], [])
  const APP_A := Application("a", "1", ["a"], [Require("b", "", [])], [], [])
  const APP_B := Application("b", "1", ["b"], [], [], [])
  const APP_C := Application("c", "1", ["c"], [], [], [])
  const CLUSTER := Cluster(
    map["a" := Install("a", "1", "", "", "", []), "b" := Install("b", "1", "", "", "", []),
      "c" := Install("c", "1", "", "", "", [])],
    map["a-1" := APP_A, "b-1" := APP_B, "c-1" := APP_C])

  lemma LookupsOfTheExample(n: string)
    ensures LookupsOf([A, B, C], n) == {n}
  {
    var bundles := [A, B, C];
    assert bundles[..2] == [A, B] && [A, B][..1] == [A] && [A][..0] == [];
    assert [Require("c", "", [])][..0] == [];
    assert SuffixesOf([A], n) == {};
    assert SuffixesOf([A, B], n) == RequiredSuffixes([Require("c", "", [])], n);
    assert SuffixesOf(bundles, n) == if n == "c" then {""} else {};
    assert DeploySuffixes(bundles, n) == {""};
    assert GetResourceName(n, "") == n;
  }

  lemma AllLookupsOfTheExample()
    ensures Lookups([A, B, C]) == {"a", "b", "c"}
  {
    assert [A, B, C][..2] == [A, B] && [A, B][..1] == [A] && [A][..0] == [];
    LookupsOfTheExample("a");
    LookupsOfTheExample("b");
    LookupsOfTheExample("c");
    assert LookupsFor([A, B, C], [A]) == {"a"};
    assert LookupsFor([A, B, C], [A, B]) == {"a", "b"};
  }

  lemma DependenciesOfTheExample()
    ensures ManifestRequires([A, B, C], "b") == {"c"}
    ensures NamesRequired(APP_A.required) == {"b"}
    ensures SolverDeps([A, B, C], APP_A.required) == {"b", "c"}
    ensures NamesRequired([]) == {} && SolverDeps([A, B, C], []) == {}
  {
    assert [A, B, C][..2] == [A, B] && [A, B][..1] == [A] && [A][..0] == [];
    NamesRequiredOfOne(Require("b", "", []));
    NamesRequiredOfOne(Require("c", "", []));
    assert NamesRequired([]) == {};
    assert ManifestRequires([A], "b") == {};
    assert ManifestRequires([A, B], "b") == {"c"};
    assert ManifestRequires([A, B, C], "b") == {"c"};
    assert APP_A.required[..0] == [];
  }

  lemma GraphsOfTheExample()
    ensures ManifestRequires([A, B, C], "b") == {"c"}
    ensures Lookups([A, B, C]) == {"a", "b", "c"} && Found(CLUSTER, Lookups([A, B, C]))
    ensures RequiresGraph([A, B, C], CLUSTER) == map["a" := {"b"}, "b" := {}, "c" := {}]
    ensures SolverGraph([A, B, C], CLUSTER) == map["a" := {"b", "c"}, "b" := {}, "c" := {}]
  {
    AllLookupsOfTheExample();
    AppsOfTheExample();
    DependenciesOfTheExample();
    ThreeNodes([A, B, C], CLUSTER, "a", "b", "c");
  }

  /** Both graphs of three installs of which only the first requires anything. */
  lemma ThreeNodes(bundles: seq<Bundle>, c: Cluster, x: string, y: string, z: string)
    requires x != y && y != z && z != x && Lookups(bundles) == {x, y, z} && Found(c, Lookups(bundles))
    requires c.AppOf(y).required == [] && c.AppOf(z).required == []
    requires NamesRequired(c.AppOf(x).required) == {y} && NamesRequired([]) == {}
    requires SolverDeps(bundles, c.AppOf(x).required) == {y, z} && SolverDeps(bundles, []) == {}
    ensures RequiresGraph(bundles, c) == map[x := {y}, y := {}, z := {}]
    ensures SolverGraph(bundles, c) == map[x := {y, z}, y := {}, z := {}]
  {
    MapOfThree(RequiresGraph(bundles, c), x, y, z);
    MapOfThree(SolverGraph(bundles, c), x, y, z);
  }

  lemma MapOfThree(m: Graph, x: string, y: string, z: string)
    requires m.Keys == {x, y, z}
    ensures x != y && y != z && z != x ==> m == map[x := m[x], y := m[y], z := m[z]]
  {
  }

  lemma AppsOfTheExample()
    ensures forall x :: x in {"a", "b", "c"} ==> CLUSTER.Has(x)
    ensures CLUSTER.AppOf("a") == APP_A && CLUSTER.AppOf("b") == APP_B && CLUSTER.AppOf("c") == APP_C
  {
    assert "a" + "-" + "1" == "a-1" && "b" + "-" + "1" == "b-1" && "c" + "-" + "1" == "c-1";
  }

  /**
   * Without the assumption the edges do matter, and they still do not enforce the manifest: "c" is
   * held before "a", which requires "b", but "b" itself, said to require "c", may go first.
   */
  lemma ManifestOnlyRequirementIsMisplaced()
    ensures Found(CLUSTER, Lookups([A, B, C])) && ManifestRequires([A, B, C], "b") == {"c"}
    ensures IsOrder(SolverGraph([A, B, C], CLUSTER), ["b", "c", "a"])
    ensures IsOrder(RequiresGraph([A, B, C], CLUSTER), ["b", "a", "c"])
    ensures !IsOrder(SolverGraph([A, B, C], CLUSTER), ["b", "a", "c"])
    ensures !RespectsManifest([A, B, C], ["b", "c", "a"])
  {
    GraphsOfTheExample();
    OrdersOfTheExample();
    LookupsOfTheExample("b");
    NamesRequiredOfOne(Require("c", "", []));
    assert B in [A, B, C] && ManifestDemands([A, B, C], "b", "c");
    assert !Precedes(["b", "c", "a"], "c", "b") by {
      assert "c" !in ["b", "c", "a"][..0];
    }
  }

  lemma OrdersOfTheExample()
    ensures IsOrder(map["a" := {"b", "c"}, "b" := {}, "c" := {}], ["b", "c", "a"])
    ensures IsOrder(map["a" := {"b"}, "b" := {}, "c" := {}], ["b", "a", "c"])
    ensures !IsOrder(map["a" := {"b", "c"}, "b" := {}, "c" := {}], ["b", "a", "c"])
  {
    var order := ["b", "a", "c"];
    assert order[1] == "a" && order[..1] == ["b"] && "c" !in order[..1];
    assert ["b", "c", "a"][..2] == ["b", "c"];
  }
}
