/** Deployment of a manifest: the graph over its installs, its layers and the fail-stop run. */
module ManifestDeploy {
  import opened Wrappers
  import opened Api
  import opened Graphs
  import opened Solver

  datatype Error =
    | InstallNotFound(bundle: string)
    | ApplicationNotFound(bundle: string)
    | Unsolvable
    | DeployFailed(install: string)

  /** One finished call on the cluster, with its result. */
  datatype Event = Apply(install: string, ok: bool) | Smoketest(install: string, ok: bool)

  function RequiredSuffixes(rs: seq<Require>, name: string): set<string> {
    if rs == [] then {}
    else
      var last := rs[|rs| - 1];
      RequiredSuffixes(rs[..|rs| - 1], name) + if last.name == name then {last.suffix} else {}
  }

  /** The suffixes under which the manifest's bundles require `name`. */
  function SuffixesOf(bundles: seq<Bundle>, name: string): set<string> {
    if bundles == [] then {}
    else SuffixesOf(bundles[..|bundles| - 1], name) + RequiredSuffixes(bundles[|bundles| - 1].required, name)
  }

  function DeploySuffixes(bundles: seq<Bundle>, name: string): set<string> {
    if SuffixesOf(bundles, name) == {} then {""} else SuffixesOf(bundles, name)
  }

  /** The installs that deployment looks up for one of the bundles. */
  function LookupsOf(bundles: seq<Bundle>, name: string): set<string> {
    SuffixedNames(name, DeploySuffixes(bundles, name))
  }

  function LookupsFor(bundles: seq<Bundle>, some: seq<Bundle>): set<string> {
    if some == [] then {}
    else LookupsFor(bundles, some[..|some| - 1]) + LookupsOf(bundles, some[|some| - 1].name)
  }

  /** The installs that deployment looks up. */
  function Lookups(bundles: seq<Bundle>): set<string> {
    LookupsFor(bundles, bundles)
  }

  function NamesRequired(rs: seq<Require>): set<string> {
    set r | r in rs :: RequiredName(r)
  }

  /** The installs that the manifest says bundle `name` requires. */
  function ManifestRequires(bundles: seq<Bundle>, name: string): set<string> {
    if bundles == [] then {}
    else
      var last := bundles[|bundles| - 1];
      ManifestRequires(bundles[..|bundles| - 1], name) + if last.name == name then NamesRequired(last.required) else {}
  }

  /** What the solver is told about a list of requirements: these, and what the manifest says they require. */
  function SolverDeps(bundles: seq<Bundle>, rs: seq<Require>): set<string> {
    if rs == [] then {}
    else
      var last := rs[|rs| - 1];
      SolverDeps(bundles, rs[..|rs| - 1]) + ManifestRequires(bundles, last.name) + {RequiredName(last)}
  }

  lemma {:induction false} InRequiredSuffixes(rs: seq<Require>, name: string, s: string)
    ensures s in RequiredSuffixes(rs, name) <==> exists r :: r in rs && r.name == name && r.suffix == s
  {
    if rs != [] {
      InRequiredSuffixes(rs[..|rs| - 1], name, s);
      assert forall r :: r in rs <==> r in rs[..|rs| - 1] || r == rs[|rs| - 1];
    }
  }

  lemma {:induction false} InSuffixesOf(bundles: seq<Bundle>, name: string, s: string)
    ensures s in SuffixesOf(bundles, name) <==>
      exists b, r :: b in bundles && r in b.required && r.name == name && r.suffix == s
  {
    if bundles != [] {
      var front, last := bundles[..|bundles| - 1], bundles[|bundles| - 1];
      InSuffixesOf(front, name, s);
      InRequiredSuffixes(last.required, name, s);
      assert forall b :: b in bundles <==> b in front || b == last;
    }
  }

  lemma {:induction false} InLookupsFor(bundles: seq<Bundle>, some: seq<Bundle>, x: string)
    ensures x in LookupsFor(bundles, some) <==> exists b :: b in some && x in LookupsOf(bundles, b.name)
  {
    if some != [] {
      InLookupsFor(bundles, some[..|some| - 1], x);
      assert forall b :: b in some <==> b in some[..|some| - 1] || b == some[|some| - 1];
    }
  }

  /**
   * Looked up is every bundle: under each suffix that some bundle requires it with, or under its own
   * name if none does.
   */
  lemma InLookups(bundles: seq<Bundle>, x: string)
    ensures x in Lookups(bundles) <==>
      exists b, s :: b in bundles && IsDeployedAs(bundles, b.name, s) && x == GetResourceName(b.name, s)
  {
    InLookupsFor(bundles, bundles, x);
    forall name, s ensures s in DeploySuffixes(bundles, name) <==> IsDeployedAs(bundles, name, s) {
      InDeploySuffixes(bundles, name, s);
    }
  }

  /** The bundle is deployed under the suffix. */
  ghost predicate IsDeployedAs(bundles: seq<Bundle>, name: string, s: string) {
    if exists b, r :: b in bundles && r in b.required && r.name == name
    then exists b, r :: b in bundles && r in b.required && r.name == name && r.suffix == s
    else s == ""
  }

  lemma InDeploySuffixes(bundles: seq<Bundle>, name: string, s: string)
    ensures s in DeploySuffixes(bundles, name) <==> IsDeployedAs(bundles, name, s)
  {
    InSuffixesOf(bundles, name, s);
    if b, r :| b in bundles && r in b.required && r.name == name {
      InSuffixesOf(bundles, name, r.suffix);
    } else if SuffixesOf(bundles, name) != {} {
      var t :| t in SuffixesOf(bundles, name);
      InSuffixesOf(bundles, name, t);
    }
  }

  lemma {:induction false} InManifestRequires(bundles: seq<Bundle>, name: string, d: string)
    ensures d in ManifestRequires(bundles, name) <==>
      exists b, r :: b in bundles && b.name == name && r in b.required && RequiredName(r) == d
  {
    if bundles != [] {
      var front, last := bundles[..|bundles| - 1], bundles[|bundles| - 1];
      InManifestRequires(front, name, d);
      assert forall b :: b in bundles <==> b in front || b == last;
    }
  }

  lemma {:induction false} InSolverDeps(bundles: seq<Bundle>, rs: seq<Require>, d: string)
    ensures d in SolverDeps(bundles, rs) <==>
      d in NamesRequired(rs) || exists r :: r in rs && d in ManifestRequires(bundles, r.name)
  {
    if rs != [] {
      InSolverDeps(bundles, rs[..|rs| - 1], d);
      assert forall r :: r in rs <==> r in rs[..|rs| - 1] || r == rs[|rs| - 1];
    }
  }

  /** The cluster objects that deployment reads. */
  datatype Cluster = Cluster(installs: map<string, Install>, apps: map<string, Application>) {
    function AppKey(install: string): string
      requires install in installs
    {
      ApplicationKey(installs[install].application, installs[install].version)
    }

    predicate Has(install: string) {
      install in installs && AppKey(install) in apps
    }

    function AppOf(install: string): Application
      requires Has(install)
    {
      apps[AppKey(install)]
    }
  }

  ghost predicate Found(c: Cluster, names: set<string>) {
    forall x :: x in names ==> c.Has(x)
  }

  ghost function SolverGraphOn(bundles: seq<Bundle>, c: Cluster, names: set<string>): Graph
    requires Found(c, names)
  {
    map x | x in names :: SolverDeps(bundles, c.AppOf(x).required)
  }

  /** The graph handed to the solver. */
  ghost function SolverGraph(bundles: seq<Bundle>, c: Cluster): Graph
    requires Found(c, Lookups(bundles))
  {
    SolverGraphOn(bundles, c, Lookups(bundles))
  }

  /** The graph of the applications' own requirements. */
  ghost function RequiresGraph(bundles: seq<Bundle>, c: Cluster): Graph
    requires Found(c, Lookups(bundles))
  {
    map x | x in Lookups(bundles) :: NamesRequired(c.AppOf(x).required)
  }

  /** The calls of a faultless run over `order`. */
  ghost function Steps(order: seq<string>, smoketest: bool): seq<Event> {
    if order == [] then []
    else
      var last := order[|order| - 1];
      var rest := Steps(order[..|order| - 1], smoketest);
      rest + if smoketest then [Apply(last, true), Smoketest(last, true)] else [Apply(last, true)]
  }

  /** What a failing call leaves behind after the faultless steps. */
  ghost predicate FailsOn(tail: seq<Event>, install: string, smoketest: bool) {
    tail == [Apply(install, false)] || (smoketest && tail == [Apply(install, true), Smoketest(install, false)])
  }

  /** An apply of the install, followed by smoketests only. */
  ghost predicate StartsWith(tail: seq<Event>, install: string) {
    tail != [] && tail[0].Apply? && tail[0].install == install && forall i :: 0 < i < |tail| ==> tail[i].Smoketest?
  }

  /** Whether the install has been brought up, and smoketested when that was asked for. */
  ghost predicate Deployed(run: seq<Event>, install: string, smoketest: bool) {
    Apply(install, true) in run && (smoketest ==> Smoketest(install, true) in run)
  }

  /** Whenever an apply starts, everything the install requires has been deployed before. */
  ghost predicate RequirementsFirst(g: Graph, run: seq<Event>, smoketest: bool) {
    forall i, d :: 0 <= i < |run| && run[i].Apply? && run[i].install in g && d in g[run[i].install] ==>
      Deployed(run[..i], d, smoketest)
  }

  /** What has been deployed has been deployed together with all it requires. */
  ghost predicate DeployedSetIsClosed(g: Graph, run: seq<Event>, smoketest: bool) {
    forall x, d :: Deployed(run, x, smoketest) && x in g && d in g[x] ==> Deployed(run, d, smoketest)
  }

  lemma {:induction false} StepsDeploy(order: seq<string>, smoketest: bool, x: string)
    ensures x in order ==> Deployed(Steps(order, smoketest), x, smoketest)
    ensures forall e :: e in Steps(order, smoketest) ==> e.install in order && e.ok
  {
    if order != [] {
      StepsDeploy(order[..|order| - 1], smoketest, x);
    }
  }

  /** A faultless run applies each install once, in the order, and smoketests it right after if that was asked for. */
  lemma {:induction false} StepsInOrder(order: seq<string>, smoketest: bool, i: nat)
    requires i < |order|
    ensures |Steps(order, smoketest)| == if smoketest then 2 * |order| else |order|
    ensures
      var steps := Steps(order, smoketest);
      if smoketest then steps[2 * i] == Apply(order[i], true) && steps[2 * i + 1] == Smoketest(order[i], true)
      else steps[i] == Apply(order[i], true)
  {
    var n := |order| - 1;
    if n > 0 {
      StepsInOrder(order[..n], smoketest, if i < n then i else 0);
    } else {
      assert Steps(order[..0], smoketest) == [];
    }
  }

  /** A faultless run over a legal order never starts an install before what it requires. */
  lemma {:induction false} StepsRespectOrder(g: Graph, order: seq<string>, smoketest: bool)
    requires DepsFirst(g, order)
    ensures RequirementsFirst(g, Steps(order, smoketest), smoketest)
  {
    if order != [] {
      var front, last := order[..|order| - 1], order[|order| - 1];
      assert DepsFirst(g, front) by {
        assert forall i :: 0 <= i <= |front| ==> front[..i] == order[..i];
      }
      StepsRespectOrder(g, front, smoketest);
      TailRespectsOrder(g, front, last, Steps(order, smoketest)[|Steps(front, smoketest)|..], smoketest);
      assert Steps(order, smoketest) == Steps(front, smoketest) + Steps(order, smoketest)[|Steps(front, smoketest)|..];
    }
  }

  /** So does a run that goes one install further, whether or not that install comes up. */
  lemma TailRespectsOrder(g: Graph, front: seq<string>, x: string, tail: seq<Event>, smoketest: bool)
    requires RequirementsFirst(g, Steps(front, smoketest), smoketest)
    requires x in g ==> forall d :: d in g[x] ==> d in front
    requires StartsWith(tail, x)
    ensures RequirementsFirst(g, Steps(front, smoketest) + tail, smoketest)
  {
    var run := Steps(front, smoketest) + tail;
    forall i, d | 0 <= i < |run| && run[i].Apply? && run[i].install in g && d in g[run[i].install]
      ensures Deployed(run[..i], d, smoketest)
    {
      if i < |Steps(front, smoketest)| {
        assert run[..i] == Steps(front, smoketest)[..i];
      } else {
        assert run[..i] == Steps(front, smoketest);
        StepsDeploy(front, smoketest, d);
      }
    }
  }

  /** Cutting a run after any prefix of a legal order, or within the next install, leaves a closed set. */
  lemma PrefixIsClosed(g: Graph, order: seq<string>, k: nat, tail: seq<Event>, smoketest: bool)
    requires IsOrder(g, order) && k <= |order|
    requires tail == [] || (k < |order| && FailsOn(tail, order[k], smoketest))
    ensures DeployedSetIsClosed(g, Steps(order[..k], smoketest) + tail, smoketest)
  {
    var run := Steps(order[..k], smoketest) + tail;
    forall x, d | Deployed(run, x, smoketest) && x in g && d in g[x] ensures Deployed(run, d, smoketest) {
      StepsDeploy(order[..k], smoketest, x);
      assert x in order[..k] by {
        if smoketest {
          assert Smoketest(x, true) in Steps(order[..k], smoketest);
        } else {
          assert Apply(x, true) in Steps(order[..k], smoketest);
        }
      }
      var i :| 0 <= i < k && order[i] == x;
      assert d in order[..i];
      assert d in order[..k];
      StepsDeploy(order[..k], smoketest, d);
    }
  }

  /** The set stored under `key`; a missing entry reads as the empty set. */
  function At(m: map<string, set<string>>, key: string): set<string> {
    if key in m then m[key] else {}
  }

  /** The suffixes of every bundle, with or without the empty one in the place of none. */
  ghost predicate IsSuffixMap(bundles: seq<Bundle>, m: map<string, set<string>>) {
    && (forall b :: b in bundles ==> b.name in m)
    && forall n :: At(m, n) == SuffixesOf(bundles, n) || At(m, n) == DeploySuffixes(bundles, n)
  }

  lemma OneMoreName(name: string, suffixes: set<string>, left: set<string>, suffix: string)
    requires suffix in left && left <= suffixes
    ensures SuffixedNames(name, suffixes - (left - {suffix})) ==
      SuffixedNames(name, suffixes - left) + {GetResourceName(name, suffix)}
  {
    assert suffixes - (left - {suffix}) == suffixes - left + {suffix};
  }

  lemma NameInTwoSteps(name: string, suffix: string)
    ensures GetResourceName(name, suffix) == if suffix == "" then name else name + ("-" + suffix)
  {
    assert name + "-" + suffix == name + ("-" + suffix);
  }

  lemma NamesRequiredOneMore(rs: seq<Require>, j: nat)
    requires j < |rs|
    ensures NamesRequired(rs[..j + 1]) == NamesRequired(rs[..j]) + {RequiredName(rs[j])}
  {
    assert rs[..j + 1] == rs[..j] + [rs[j]];
    assert forall r :: r in rs[..j + 1] <==> r in rs[..j] || r == rs[j];
  }

  function Elements(s: seq<string>): set<string> {
    set x | x in s
  }

  /** Adding one entry adds its node, with its dependencies merged into those already recorded. */
  lemma GraphOfOneMore(entries: seq<Entry>, e: Entry)
    ensures GraphOf(entries + [e]) == GraphOf(entries)[e.id := DepsOf(entries, e.id) + Elements(e.deps)]
  {
    var more := entries + [e];
    assert Ids(more) == Ids(entries) + {e.id};
    forall x
      ensures DepsOf(more, x) == if x == e.id then DepsOf(entries, x) + Elements(e.deps) else DepsOf(entries, x)
    {
      assert forall f :: f in more <==> f in entries || f == e;
    }
  }

  /** The entries cover an install once it has been added with its dependencies. */
  lemma EntryAdded(bundles: seq<Bundle>, c: Cluster, names: set<string>, entries: seq<Entry>, e: Entry)
    requires Found(c, names) && GraphOf(entries) == SolverGraphOn(bundles, c, names)
    requires c.Has(e.id) && Elements(e.deps) == SolverDeps(bundles, c.AppOf(e.id).required)
    ensures GraphOf(entries + [e]) == SolverGraphOn(bundles, c, names + {e.id})
  {
    GraphOfOneMore(entries, e);
    var g := GraphOf(entries);
    if e.id in names {
      assert e.id in g && g[e.id] == DepsOf(entries, e.id);
    } else {
      assert e.id !in g && DepsOf(entries, e.id) == {};
    }
    assert DepsOf(entries, e.id) + Elements(e.deps) == Elements(e.deps);
  }

  /** The order the solver found also respects the applications' own requirements. */
  lemma OrderRespectsRequirements(bundles: seq<Bundle>, c: Cluster, order: seq<string>)
    requires Found(c, Lookups(bundles)) && IsOrder(SolverGraph(bundles, c), order)
    ensures IsOrder(RequiresGraph(bundles, c), order)
  {
    var g := RequiresGraph(bundles, c);
    forall i, d | 0 <= i < |order| && order[i] in g && d in g[order[i]] ensures d in order[..i] {
      InSolverDeps(bundles, c.AppOf(order[i]).required, d);
      assert d in SolverGraph(bundles, c)[order[i]];
    }
  }

  class ManifestManager {
    const cluster: Cluster
    // Whether every install can be brought up.
    const reliable: bool
    ghost var trace: seq<Event>

    constructor (c: Cluster, reliable: bool)
      ensures cluster == c && trace == [] && this.reliable == reliable
    {
      cluster, trace, this.reliable := c, [], reliable;
    }

    /** Brings up one install; the outcome is the cluster's. */
    method DeployInstall(install: string) returns (ok: bool)
      modifies this
      ensures trace == old(trace) + [Apply(install, ok)]
      ensures reliable ==> ok
    {
      ok := *;
      ok := ok || reliable;
      trace := trace + [Apply(install, ok)];
    }

    method SmoketestInstall(install: string) returns (ok: bool)
      modifies this
      ensures trace == old(trace) + [Smoketest(install, ok)]
      ensures reliable ==> ok
    {
      ok := *;
      ok := ok || reliable;
      trace := trace + [Smoketest(install, ok)];
    }

    /** A deploy followed, if it succeeded, by a smoketest. */
    method DeploySmoketest(install: string) returns (ok: bool)
      modifies this
      ensures ok ==> trace == old(trace) + [Apply(install, true), Smoketest(install, true)]
      ensures !ok ==> exists tail :: FailsOn(tail, install, true) && trace == old(trace) + tail
      ensures reliable ==> ok
    {
      ok := DeployInstall(install);
      if !ok {
        assert FailsOn([Apply(install, false)], install, true);
        return;
      }
      ok := SmoketestInstall(install);
      if !ok {
        assert FailsOn([Apply(install, true), Smoketest(install, false)], install, true);
        assert trace == old(trace) + [Apply(install, true), Smoketest(install, false)];
      }
    }

    /** Adds one element to the set stored under `key`, which is created first if need be. */
    method Record(before: map<string, set<string>>, key: string, x: string) returns (after: map<string, set<string>>)
      ensures after.Keys == before.Keys + {key}
      ensures forall n :: At(after, n) == At(before, n) + if n == key then {x} else {}
    {
      after := before;
      if key !in after {
        after := after[key := {}];
      }
      after := after[key := after[key] + {x}];
    }

    /** Enters one bundle, and the suffixes it requires others under. */
    method RecordBundle(before: map<string, set<string>>, bundle: Bundle) returns (suffixes: map<string, set<string>>)
      ensures before.Keys + {bundle.name} <= suffixes.Keys
      ensures forall n :: At(suffixes, n) == At(before, n) + RequiredSuffixes(bundle.required, n)
    {
      suffixes := before;
      if bundle.name !in suffixes {
        suffixes := suffixes[bundle.name := {}];
      }
      for j := 0 to |bundle.required|
        invariant before.Keys + {bundle.name} <= suffixes.Keys
        invariant forall n :: At(suffixes, n) == At(before, n) + RequiredSuffixes(bundle.required[..j], n)
      {
        suffixes := Record(suffixes, bundle.required[j].name, bundle.required[j].suffix);
        assert bundle.required[..j + 1][..j] == bundle.required[..j];
      }
      assert bundle.required[..|bundle.required|] == bundle.required;
    }

    /** The suffix map: for every bundle and every requirement, the suffixes under which it is required. */
    method CollectSuffixes(bundles: seq<Bundle>) returns (suffixes: map<string, set<string>>)
      ensures forall b :: b in bundles ==> b.name in suffixes
      ensures forall n :: At(suffixes, n) == SuffixesOf(bundles, n)
    {
      suffixes := map[];
      for i := 0 to |bundles|
        invariant forall b :: b in bundles[..i] ==> b.name in suffixes
        invariant forall n :: At(suffixes, n) == SuffixesOf(bundles[..i], n)
      {
        suffixes := RecordBundle(suffixes, bundles[i]);
        assert bundles[..i + 1][..i] == bundles[..i];
      }
      assert bundles[..|bundles|] == bundles;
    }

    /** The dependency map: for every bundle, the installs it requires. */
    method CollectDependencies(bundles: seq<Bundle>) returns (dependencies: map<string, set<string>>)
      ensures forall n :: At(dependencies, n) == ManifestRequires(bundles, n)
    {
      dependencies := map[];
      for i := 0 to |bundles|
        invariant forall n :: At(dependencies, n) == ManifestRequires(bundles[..i], n)
      {
        var bundle := bundles[i];
        ghost var before := dependencies;
        for j := 0 to |bundle.required|
          invariant forall n ::
            At(dependencies, n) == At(before, n) + if n == bundle.name then NamesRequired(bundle.required[..j]) else {}
        {
          var require := bundle.required[j];
          var requireName := require.name;
          if require.suffix != "" {
            requireName := requireName + ("-" + require.suffix);
          }
          NameInTwoSteps(require.name, require.suffix);
          NamesRequiredOneMore(bundle.required, j);
          dependencies := Record(dependencies, bundle.name, requireName);
        }
        assert bundle.required[..|bundle.required|] == bundle.required;
        assert bundles[..i + 1][..i] == bundles[..i];
      }
      assert bundles[..|bundles|] == bundles;
    }

    /** Appends the elements of a set, which Go walks in no particular order. */
    method AppendAll(before: seq<string>, more: set<string>) returns (deps: seq<string>)
      ensures Elements(deps) == Elements(before) + more
    {
      deps := before;
      var left := more;
      while left != {}
        invariant left <= more
        invariant Elements(deps) == Elements(before) + (more - left)
      {
        var dep :| dep in left;
        assert Elements(deps + [dep]) == Elements(deps) + {dep};
        deps := deps + [dep];
        left := left - {dep};
      }
    }

    /** The dependency list of one entry. */
    method EntryDeps(bundles: seq<Bundle>, dependencies: map<string, set<string>>, app: Application)
      returns (deps: seq<string>)
      requires forall n :: At(dependencies, n) == ManifestRequires(bundles, n)
      ensures Elements(deps) == SolverDeps(bundles, app.required)
    {
      deps := [];
      for i := 0 to |app.required|
        invariant Elements(deps) == SolverDeps(bundles, app.required[..i])
      {
        var requirement := app.required[i];
        if requirement.name in dependencies {
          deps := AppendAll(deps, dependencies[requirement.name]);
        }
        assert Elements(deps + [RequiredName(requirement)]) == Elements(deps) + {RequiredName(requirement)};
        deps := deps + [RequiredName(requirement)];
        assert app.required[..i + 1][..i] == app.required[..i];
      }
      assert app.required[..|app.required|] == app.required;
    }

    /** A bundle that no one requires gets the empty suffix. */
    method InsertEmptySuffix(ghost bundles: seq<Bundle>, before: map<string, set<string>>, name: string)
      returns (suffixes: map<string, set<string>>)
      requires IsSuffixMap(bundles, before) && exists b :: b in bundles && b.name == name
      ensures IsSuffixMap(bundles, suffixes)
      ensures name in suffixes && suffixes[name] == DeploySuffixes(bundles, name)
    {
      suffixes := before;
      if suffixes[name] == {} {
        suffixes := suffixes[name := {""}];
      }
    }

    /** One solver entry for every install that is looked up. */
    method BuildEntries(bundles: seq<Bundle>) returns (error: Option<Error>, entries: seq<Entry>)
      ensures error.None? <==> Found(cluster, Lookups(bundles))
      ensures error.None? ==> GraphOf(entries) == SolverGraph(bundles, cluster)
      ensures error.Some? ==> error.value.InstallNotFound? || error.value.ApplicationNotFound?
      ensures error.None? ==> (bundles == [] <==> entries == [])
    {
      var suffixes := CollectSuffixes(bundles);
      var dependencies := CollectDependencies(bundles);
      entries := [];
      for i := 0 to |bundles|
        invariant IsSuffixMap(bundles, suffixes)
        invariant Found(cluster, LookupsFor(bundles, bundles[..i]))
        invariant GraphOf(entries) == SolverGraphOn(bundles, cluster, LookupsFor(bundles, bundles[..i]))
        invariant i == 0 <==> entries == []
      {
        var bundle := bundles[i];
        suffixes := InsertEmptySuffix(bundles, suffixes, bundle.name);
        var more;
        error, more := BuildBundleEntries(bundles, bundle, suffixes[bundle.name], dependencies,
          LookupsFor(bundles, bundles[..i]), entries);
        assert bundles[..i + 1][..i] == bundles[..i];
        if error.Some? {
          NotFoundPersists(cluster, bundles, bundle);
          return;
        }
        entries := more;
      }
      assert bundles[..|bundles|] == bundles;
      error := None;
    }

    /** The entries of one bundle, one for each suffix it is deployed with. */
    method BuildBundleEntries(bundles: seq<Bundle>, bundle: Bundle, suffixes: set<string>,
                              dependencies: map<string, set<string>>,
                              ghost names: set<string>, before: seq<Entry>)
      returns (error: Option<Error>, entries: seq<Entry>)
      requires suffixes == DeploySuffixes(bundles, bundle.name)
      requires forall n :: At(dependencies, n) == ManifestRequires(bundles, n)
      requires Found(cluster, names) && GraphOf(before) == SolverGraphOn(bundles, cluster, names)
      ensures error.None? <==> Found(cluster, LookupsOf(bundles, bundle.name))
      ensures error.None? ==>
        GraphOf(entries) == SolverGraphOn(bundles, cluster, names + LookupsOf(bundles, bundle.name))
      ensures error.None? ==> entries != []
      ensures error.Some? ==>
        error.value == InstallNotFound(bundle.name) || error.value == ApplicationNotFound(bundle.name)
    {
      entries := before;
      ghost var seen: set<string> := {};
      var left := suffixes;
      while left != {}
        invariant left <= suffixes
        invariant seen == SuffixedNames(bundle.name, suffixes - left)
        invariant Found(cluster, seen)
        invariant GraphOf(entries) == SolverGraphOn(bundles, cluster, names + seen)
        invariant left != suffixes ==> entries != []
      {
        var suffix :| suffix in left;
        var installName := bundle.name;
        if suffix != "" {
          installName := installName + ("-" + suffix);
        }
        NameInTwoSteps(bundle.name, suffix);
        assert installName in LookupsOf(bundles, bundle.name);
        if installName !in cluster.installs {
          return Some(InstallNotFound(bundle.name)), entries;
        }
        if cluster.AppKey(installName) !in cluster.apps {
          return Some(ApplicationNotFound(bundle.name)), entries;
        }
        var deps := EntryDeps(bundles, dependencies, cluster.AppOf(installName));
        EntryAdded(bundles, cluster, names + seen, entries, Entry(installName, deps));
        OneMoreName(bundle.name, suffixes, left, suffix);
        assert names + (seen + {installName}) == names + seen + {installName};
        entries := entries + [Entry(installName, deps)];
        seen := seen + {installName};
        left := left - {suffix};
      }
      assert suffixes - left == suffixes;
      error := None;
    }

    /**
     * Deploys a manifest. `order` is the order the layers give, and `run` the calls that were made.
     */
    method Deploy(bundles: seq<Bundle>, smoketest: bool)
      returns (error: Option<Error>, ghost order: seq<string>, ghost run: seq<Event>)
      modifies this
      ensures trace == old(trace) + run
      // Lookups come first, then the solver, and neither touches the cluster.
      ensures Found(cluster, Lookups(bundles)) <==>
        !(error.Some? && (error.value.InstallNotFound? || error.value.ApplicationNotFound?))
      ensures Found(cluster, Lookups(bundles)) ==>
        var g := SolverGraph(bundles, cluster);
        error == Some(Unsolvable) <==> bundles == [] || Cyclic(g) || Incomplete(g)
      ensures error.Some? && !error.value.DeployFailed? ==> run == []
      ensures reliable ==> !(error.Some? && error.value.DeployFailed?)
      // Otherwise the run follows a legal order, in full or up to the first failure.
      ensures error.None? || error.value.DeployFailed? ==>
        Found(cluster, Lookups(bundles)) && IsOrder(SolverGraph(bundles, cluster), order)
      ensures error.None? ==> run == Steps(order, smoketest)
      ensures error.Some? && error.value.DeployFailed? ==>
        exists k, tail :: 0 <= k < |order| && order[k] == error.value.install
          && FailsOn(tail, order[k], smoketest) && run == Steps(order[..k], smoketest) + tail
      // Requirements are always deployed before the installs that name them.
      ensures Found(cluster, Lookups(bundles)) ==>
        && RequirementsFirst(RequiresGraph(bundles, cluster), run, smoketest)
        && DeployedSetIsClosed(RequiresGraph(bundles, cluster), run, smoketest)
    {
      order, run := [], [];
      var failed, entries := BuildEntries(bundles);
      if failed.Some? {
        return failed, order, run;
      }
      var layers := LayeredTopologicalSort(entries);
      if layers.None? {
        return Some(Unsolvable), order, run;
      }
      order := Flatten(layers.value);
      error, run := ProcessLayers(layers.value, smoketest);
      OrderRespectsRequirements(bundles, cluster, order);
      RunIsSound(RequiresGraph(bundles, cluster), order, run, smoketest, error);
    }

    method ProcessInstall(install: string, smoketest: bool) returns (ok: bool, ghost tail: seq<Event>)
      modifies this
      ensures trace == old(trace) + tail
      ensures ok ==>
        tail == if smoketest then [Apply(install, true), Smoketest(install, true)] else [Apply(install, true)]
      ensures !ok ==> FailsOn(tail, install, smoketest)
      ensures reliable ==> ok
    {
      if smoketest {
        ok := DeploySmoketest(install);
      } else {
        ok := DeployInstall(install);
      }
      tail := trace[|old(trace)|..];
    }

    /** Deploys one layer, which is a stretch of the whole order that starts at `k`. */
    method ProcessLayer(layer: seq<string>, smoketest: bool, ghost order: seq<string>, ghost k: nat)
      returns (error: Option<Error>, ghost run: seq<Event>)
      requires k + |layer| <= |order| && order[k..k + |layer|] == layer
      modifies this
      ensures trace == old(trace) + run
      ensures error.None? ==> Steps(order[..k], smoketest) + run == Steps(order[..k + |layer|], smoketest)
      ensures error.Some? ==> StopsAtFailure(order, Steps(order[..k], smoketest) + run, smoketest, error)
      ensures reliable ==> error.None?
    {
      run := [];
      ghost var before := Steps(order[..k], smoketest);
      for j := 0 to |layer|
        invariant trace == old(trace) + run
        invariant before + run == Steps(order[..k + j], smoketest)
      {
        assert layer[j] == order[k + j];
        var ok;
        ghost var tail;
        ok, tail := ProcessInstall(layer[j], smoketest);
        assert before + (run + tail) == before + run + tail;
        run := run + tail;
        if !ok {
          return Some(DeployFailed(layer[j])), run;
        }
        assert order[..k + j + 1][..k + j] == order[..k + j];
      }
      error := None;
    }

    /** Deploys layer by layer and stops at the first failure. */
    method ProcessLayers(layers: seq<seq<string>>, smoketest: bool)
      returns (error: Option<Error>, ghost run: seq<Event>)
      modifies this
      ensures trace == old(trace) + run
      ensures StopsAtFailure(Flatten(layers), run, smoketest, error)
      ensures reliable ==> error.None?
    {
      run := [];
      ghost var order, k := Flatten(layers), 0;
      for i := 0 to |layers|
        invariant trace == old(trace) + run
        invariant k == |Flatten(layers[..i])| <= |order|
        invariant run == Steps(order[..k], smoketest)
      {
        ghost var more;
        LayerStretch(layers, i);
        error, more := ProcessLayer(layers[i], smoketest, order, k);
        assert trace == old(trace) + (run + more);
        run := run + more;
        if error.Some? {
          return;
        }
        k := k + |layers[i]|;
      }
      assert layers[..|layers|] == layers && order[..k] == order;
      error := None;
    }
  }

  /** The run covers the order in full, or ends in the failure of the install it had come to. */
  ghost predicate StopsAtFailure(order: seq<string>, run: seq<Event>, smoketest: bool, error: Option<Error>) {
    match error
    case None => run == Steps(order, smoketest)
    case Some(DeployFailed(x)) =>
      exists k, tail ::
        && 0 <= k < |order| && order[k] == x && FailsOn(tail, order[k], smoketest)
        && run == Steps(order[..k], smoketest) + tail
    case Some(_) => false
  }

  lemma RunIsSound(g: Graph, order: seq<string>, run: seq<Event>, smoketest: bool, error: Option<Error>)
    requires IsOrder(g, order) && StopsAtFailure(order, run, smoketest, error)
    ensures RequirementsFirst(g, run, smoketest)
    ensures DeployedSetIsClosed(g, run, smoketest)
  {
    if error.None? {
      StepsRespectOrder(g, order, smoketest);
      assert order[..|order|] == order && run + [] == run;
      PrefixIsClosed(g, order, |order|, [], smoketest);
    } else {
      var k, tail :| 0 <= k < |order| && FailsOn(tail, order[k], smoketest)
        && run == Steps(order[..k], smoketest) + tail;
      var front := order[..k];
      assert forall i :: 0 <= i <= k ==> front[..i] == order[..i];
      assert FailsOn(tail, order[k], smoketest);
      StepsRespectOrder(g, front, smoketest);
      assert StartsWith(tail, order[k]) by {
        if tail == [Apply(order[k], false)] {
        } else {
          assert tail == [Apply(order[k], true), Smoketest(order[k], false)];
        }
      }
      TailRespectsOrder(g, front, order[k], tail, smoketest);
      PrefixIsClosed(g, order, k, tail, smoketest);
    }
  }

  lemma NotFoundPersists(c: Cluster, bundles: seq<Bundle>, bundle: Bundle)
    requires bundle in bundles && !Found(c, LookupsOf(bundles, bundle.name))
    ensures !Found(c, Lookups(bundles))
  {
    var x :| x in LookupsOf(bundles, bundle.name) && !c.Has(x);
    InLookupsFor(bundles, bundles, x);
  }

  /** A layer is the stretch of the flattened order that follows the earlier layers. */
  lemma LayerStretch(layers: seq<seq<string>>, i: nat)
    requires i < |layers|
    ensures var order, k := Flatten(layers), |Flatten(layers[..i])|;
      && k + |layers[i]| <= |order|
      && order[..k] == Flatten(layers[..i])
      && order[k..k + |layers[i]|] == layers[i]
      && order[..k + |layers[i]|] == Flatten(layers[..i + 1])
  {
    FlattenPrefix(layers, i);
    FlattenPrefix(layers, i + 1);
    assert layers[..i + 1][..i] == layers[..i];
    assert Flatten(layers[..i + 1]) == Flatten(layers[..i]) + layers[i];
  }
}
