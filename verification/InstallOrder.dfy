/** When the outcome of a manifest's installation does not depend on the order of its applications. */
module InstallOrder {
  import opened Api
  import opened Graphs
  import opened ManifestInstall
  import R = Register

  /** No application occurs twice, and no two share a name. */
  ghost predicate DistinctNames(apps: seq<Application>) {
    && (forall a :: multiset(apps)[a] <= 1)
    && forall a, b :: a in apps && b in apps && a.name == b.name ==> a == b
  }

  function InstallNamesOf(apps: seq<Application>, app: Application): set<string> {
    SuffixedNames(app.name, InstallSuffixes(apps, app.name))
  }

  /** No two applications ask for an install of the same name. */
  ghost predicate NamesApart(apps: seq<Application>) {
    forall a, b :: a in apps && b in apps && a != b ==> InstallNamesOf(apps, a) !! InstallNamesOf(apps, b)
  }

  ghost predicate Permutation(p: seq<Application>, q: seq<Application>) {
    multiset(p) == multiset(q)
  }

  lemma PermutationKeepsElements(p: seq<Application>, q: seq<Application>)
    requires Permutation(p, q)
    ensures forall a :: a in p <==> a in q
  {
    forall a ensures a in p <==> a in q {
      assert a in p <==> a in multiset(p);
      assert a in q <==> a in multiset(q);
    }
  }

  lemma {:induction false} RequirerOf(apps: seq<Application>, name: string, q: string)
    requires forall a, b :: a in apps && b in apps && a.name == b.name ==> a == b
    ensures q in ByRequirer(apps, name) <==> exists a :: a in apps && a.name == q && LastSuffix(a.required, name).Some?
    ensures forall a :: a in apps && a.name == q && LastSuffix(a.required, name).Some? ==>
      q in ByRequirer(apps, name) && ByRequirer(apps, name)[q] == LastSuffix(a.required, name).value
  {
    if apps != [] {
      var front, last := apps[..|apps| - 1], apps[|apps| - 1];
      assert forall a :: a in apps <==> a in front || a == last;
      RequirerOf(front, name, q);
    }
  }

  /** The recorded suffixes do not depend on the order of the applications. */
  lemma SuffixesOfPermutation(p: seq<Application>, q: seq<Application>, name: string)
    requires Permutation(p, q) && DistinctNames(p)
    ensures ByRequirer(p, name) == ByRequirer(q, name)
  {
    PermutationKeepsElements(p, q);
    forall n ensures n in ByRequirer(p, name) <==> n in ByRequirer(q, name) {
      RequirerOf(p, name, n);
      RequirerOf(q, name, n);
    }
    forall n | n in ByRequirer(p, name) ensures ByRequirer(p, name)[n] == ByRequirer(q, name)[n] {
      RequirerOf(p, name, n);
      RequirerOf(q, name, n);
    }
  }

  lemma {:induction false} AfterAppsOfPermutation(before: Installs, plan: Plan, p: seq<Application>,
                                                  q: seq<Application>, some: seq<Application>)
    requires Permutation(p, q) && DistinctNames(p)
    ensures AfterApps(before, plan, p, some) == AfterApps(before, plan, q, some)
  {
    if some != [] {
      AfterAppsOfPermutation(before, plan, p, q, some[..|some| - 1]);
      SuffixesOfPermutation(p, q, some[|some| - 1].name);
    }
  }

  // Which orders there are. Each kind of order is that of a graph over the names of the applications.

  /** The applications in an order that is legal for the graph. */
  ghost predicate Follows(apps: seq<Application>, g: Graph, q: seq<Application>) {
    Permutation(q, apps) && IsOrder(g, R.AppNamesInOrder(q))
  }

  /** Requirements come first, and nothing else is fixed. */
  ghost predicate IsInstallOrder(apps: seq<Application>, q: seq<Application>) {
    Permutation(q, apps) && R.DependencyOrdered(q)
  }

  /** Every application, by name, with the names it requires. */
  ghost function AppGraph(apps: seq<Application>): Graph {
    map n | n in R.AppNames(apps) :: set a, r | a in apps && a.name == n && r in a.required :: r.name
  }

  lemma NamesDiffer(q: seq<Application>, i: nat, j: nat)
    requires DistinctNames(q) && i < j < |q|
    ensures q[i].name != q[j].name
  {
    if q[i].name == q[j].name {
      assert q[i] in q && q[j] in q;
      R.OccursTwice(q, i, j);
    }
  }

  lemma EdgeOfRequirement(apps: seq<Application>, a: Application, d: string)
    requires DistinctNames(apps) && a in apps
    ensures d in AppGraph(apps)[a.name] <==> exists r :: r in a.required && r.name == d
  {
  }

  /** The names of an install order are a legal order of the graph. */
  lemma NamesAreLegal(apps: seq<Application>, q: seq<Application>)
    requires DistinctNames(apps) && IsInstallOrder(apps, q)
    ensures IsOrder(AppGraph(apps), R.AppNamesInOrder(q))
  {
    var g, names := AppGraph(apps), R.AppNamesInOrder(q);
    PermutationKeepsElements(q, apps);
    forall i, j | 0 <= i < j < |names| ensures names[i] != names[j] {
      NamesDiffer(q, i, j);
    }
    forall n ensures n in names <==> n in g {
      if n in g {
        var a :| a in apps && a.name == n;
        var i :| 0 <= i < |q| && q[i] == a;
        assert names[i] == n;
      }
    }
    forall i, d | 0 <= i < |names| && names[i] in g && d in g[names[i]] ensures d in names[..i] {
      EdgeOfRequirement(apps, q[i], d);
      var j :| 0 <= j < i && q[..i][j].name == d;
      assert names[..i][j] == d;
    }
  }

  ghost function AppNamed(apps: seq<Application>, n: string): (a: Application)
    requires n in R.AppNames(apps)
    ensures a in apps && a.name == n
  {
    var a :| a in apps && a.name == n;
    a
  }

  /** Orders that put requirements first are those of the graph of requirements. */
  lemma InstallOrdersFollow(apps: seq<Application>, q: seq<Application>)
    requires DistinctNames(apps)
    ensures IsInstallOrder(apps, q) <==> Follows(apps, AppGraph(apps), q)
  {
    if IsInstallOrder(apps, q) {
      NamesAreLegal(apps, q);
    }
    if Follows(apps, AppGraph(apps), q) {
      LegalIsInstallOrder(apps, q);
    }
  }

  /** A legal order of the graph puts requirements first. */
  lemma LegalIsInstallOrder(apps: seq<Application>, q: seq<Application>)
    requires DistinctNames(apps) && Permutation(q, apps) && DepsFirst(AppGraph(apps), R.AppNamesInOrder(q))
    ensures R.DependencyOrdered(q)
  {
    var names := R.AppNamesInOrder(q);
    PermutationKeepsElements(q, apps);
    forall i, r | 0 <= i < |q| && r in q[i].required ensures r.name in R.AppNames(q[..i]) {
      EdgeOfRequirement(apps, q[i], r.name);
      assert r.name in names[..i];
      var j :| 0 <= j < i && names[j] == r.name;
      assert q[..i][j] in q[..i];
    }
  }

  /** Every legal order of names can be followed. */
  lemma CanBeFollowed(apps: seq<Application>, g: Graph, order: seq<string>) returns (q: seq<Application>)
    requires DistinctNames(apps) && g.Keys == R.AppNames(apps) && IsOrder(g, order)
    ensures Follows(apps, g, q) && R.AppNamesInOrder(q) == order
  {
    assert forall i :: 0 <= i < |order| ==> order[i] in g;
    q := seq(|order|, i requires 0 <= i < |order| => AppNamed(apps, order[i]));
    assert R.AppNamesInOrder(q) == order;
    AllArePlaced(apps, g, order, q);
  }

  lemma AllArePlaced(apps: seq<Application>, g: Graph, order: seq<string>, q: seq<Application>)
    requires DistinctNames(apps) && g.Keys == R.AppNames(apps) && IsOrder(g, order) && R.AppNamesInOrder(q) == order
    requires forall a :: a in q ==> a in apps
    ensures Permutation(q, apps)
  {
    forall i, j | 0 <= i < j < |apps| ensures apps[i] != apps[j] {
      NamesDiffer(apps, i, j);
    }
    forall i, j | 0 <= i < j < |q| ensures q[i] != q[j] {
      assert order[i] != order[j];
    }
    forall a | a in apps ensures a in q {
      assert a.name in g;
      var i :| 0 <= i < |order| && order[i] == a.name;
      assert q[i].name == a.name && q[i] in q;
    }
    R.DistinctListsArePermutations(q, apps);
  }

  // Who decides about an install: whoever asks for it first sets its parameters, whoever does last the rest.

  ghost predicate Asks(all: seq<Application>, a: Application, n: string) {
    n in InstallNamesOf(all, a)
  }

  ghost predicate IsFirstAsker(all: seq<Application>, some: seq<Application>, n: string, i: nat) {
    i < |some| && Asks(all, some[i], n) && forall j :: 0 <= j < i ==> !Asks(all, some[j], n)
  }

  ghost predicate IsLastAsker(all: seq<Application>, some: seq<Application>, n: string, i: nat) {
    i < |some| && Asks(all, some[i], n) && forall j :: i < j < |some| ==> !Asks(all, some[j], n)
  }

  lemma {:induction false} FindFirstAsker(all: seq<Application>, some: seq<Application>, n: string) returns (i: nat)
    requires exists a :: a in some && Asks(all, a, n)
    ensures IsFirstAsker(all, some, n, i)
  {
    i := 0;
    while !Asks(all, some[i], n)
      decreases |some| - i
      invariant i < |some| && forall j :: 0 <= j < i ==> !Asks(all, some[j], n)
    {
      i := i + 1;
    }
  }

  lemma {:induction false} FindLastAsker(all: seq<Application>, some: seq<Application>, n: string) returns (i: nat)
    requires exists a :: a in some && Asks(all, a, n)
    ensures IsLastAsker(all, some, n, i)
  {
    i := |some| - 1;
    while !Asks(all, some[i], n)
      decreases i
      invariant i < |some| && forall j :: i < j < |some| ==> !Asks(all, some[j], n)
    {
      i := i - 1;
    }
  }

  /** An install nobody asks for is left as it was. */
  lemma {:induction false} OthersAreLeftAlone(before: Installs, plan: Plan, all: seq<Application>,
                                              some: seq<Application>, n: string)
    requires forall a :: a in some ==> !Asks(all, a, n)
    ensures n in AfterApps(before, plan, all, some) <==> n in before
    ensures n in before ==> AfterApps(before, plan, all, some)[n] == before[n]
  {
    if some != [] {
      OthersAreLeftAlone(before, plan, all, some[..|some| - 1], n);
      assert some[|some| - 1] in some;
      assert n !in WantedBy(plan, all, some[|some| - 1]);
    }
  }

  /** The parameters that an application asks for in an install. */
  function ParametersAsked(plan: Plan, all: seq<Application>, a: Application, n: string): seq<ParameterSpec> {
    var wanted := WantedBy(plan, all, a);
    if n in wanted then wanted[n].parameters else []
  }

  lemma {:induction false} FirstSetsParameters(before: Installs, plan: Plan, all: seq<Application>,
                                               some: seq<Application>, n: string, i: nat)
    requires IsFirstAsker(all, some, n, i)
    ensures n in AfterApps(before, plan, all, some)
    ensures AfterApps(before, plan, all, some)[n].parameters ==
      if n in before then before[n].parameters else ParametersAsked(plan, all, some[i], n)
  {
    var front, last := some[..|some| - 1], some[|some| - 1];
    if i < |front| {
      FirstSetsParameters(before, plan, all, front, n, i);
    } else {
      OthersAreLeftAlone(before, plan, all, front, n);
    }
    ParametersAfterWriting(AfterApps(before, plan, all, front), WantedBy(plan, all, last), n);
  }

  lemma ParametersAfterWriting(now: Installs, wanted: Installs, n: string)
    requires n in now || n in wanted
    ensures n in AllWritten(now, wanted)
    ensures AllWritten(now, wanted)[n].parameters == if n in now then now[n].parameters else wanted[n].parameters
  {
  }

  lemma {:induction false} LastSetsTheRest(before: Installs, plan: Plan, all: seq<Application>,
                                           some: seq<Application>, n: string, i: nat)
    requires IsLastAsker(all, some, n, i)
    ensures n in AfterApps(before, plan, all, some) && n in WantedBy(plan, all, some[i])
    ensures AfterApps(before, plan, all, some)[n].(parameters := []) ==
      WantedBy(plan, all, some[i])[n].(parameters := [])
  {
    var front, last := some[..|some| - 1], some[|some| - 1];
    if i < |front| {
      LastSetsTheRest(before, plan, all, front, n, i);
      assert n !in WantedBy(plan, all, last);
    } else {
      assert n in WantedBy(plan, all, last);
    }
  }

  // Who can come first and last among those who ask for an install.

  /** No other application that asks for `n` has to come before `a`. */
  ghost predicate CanBeFirst(apps: seq<Application>, g: Graph, n: string, a: Application) {
    && a in apps && Asks(apps, a, n)
    && forall b :: b in apps && b != a && Asks(apps, b, n) ==> !Reaches(g, a.name, b.name)
  }

  /** No other application that asks for `n` has to come after `a`. */
  ghost predicate CanBeLast(apps: seq<Application>, g: Graph, n: string, a: Application) {
    && a in apps && Asks(apps, a, n)
    && forall b :: b in apps && b != a && Asks(apps, b, n) ==> !Reaches(g, b.name, a.name)
  }

  /** What precedes in the names precedes in the order itself. */
  lemma PlacesOfNames(q: seq<Application>, i: nat, j: nat)
    requires DistinctNames(q) && i < |q| && j < |q|
    ensures Precedes(R.AppNamesInOrder(q), q[i].name, q[j].name) <==> i < j
  {
    var names := R.AppNamesInOrder(q);
    if i < j {
      assert names[j] == q[j].name && names[..j][i] == q[i].name;
    }
    if Precedes(names, q[i].name, q[j].name) {
      var k :| 0 <= k < |names| && names[k] == q[j].name && q[i].name in names[..k];
      var l :| 0 <= l < k && names[l] == q[i].name;
      if k != j {
        NamesDiffer(q, if k < j then k else j, if k < j then j else k);
      }
      if l != i {
        NamesDiffer(q, if l < i then l else i, if l < i then i else l);
      }
    }
  }

  lemma PermutationIsDistinct(apps: seq<Application>, q: seq<Application>)
    requires DistinctNames(apps) && Permutation(q, apps)
    ensures DistinctNames(q)
  {
    PermutationKeepsElements(q, apps);
  }

  /** Whoever comes first or last in some order is one of those who can. */
  lemma AskersCan(apps: seq<Application>, g: Graph, q: seq<Application>, n: string, first: nat, last: nat)
    requires DistinctNames(apps) && Follows(apps, g, q)
    requires IsFirstAsker(apps, q, n, first) && IsLastAsker(apps, q, n, last)
    ensures CanBeFirst(apps, g, n, q[first]) && CanBeLast(apps, g, n, q[last])
  {
    var names := R.AppNamesInOrder(q);
    PermutationIsDistinct(apps, q);
    PermutationKeepsElements(q, apps);
    forall b | b in apps && Asks(apps, b, n)
      ensures b != q[first] ==> !Reaches(g, q[first].name, b.name)
      ensures b != q[last] ==> !Reaches(g, b.name, q[last].name)
    {
      var j :| 0 <= j < |q| && q[j] == b;
      if Reaches(g, q[first].name, b.name) {
        ReachedPrecedes(g, names, q[first].name, b.name);
        PlacesOfNames(q, j, first);
      }
      if Reaches(g, b.name, q[last].name) {
        ReachedPrecedes(g, names, b.name, q[last].name);
        PlacesOfNames(q, last, j);
      }
    }
  }

  /** A graph over the names of the applications that has legal orders. */
  ghost predicate Orders(g: Graph, apps: seq<Application>) {
    g.Keys == R.AppNames(apps) && !Cyclic(g) && !Incomplete(g)
  }

  /** Whoever can come first does so in some order. */
  lemma OrderWithFirst(apps: seq<Application>, g: Graph, n: string, a: Application)
    returns (q: seq<Application>, i: nat)
    requires DistinctNames(apps) && Orders(g, apps) && CanBeFirst(apps, g, n, a)
    ensures Follows(apps, g, q) && IsFirstAsker(apps, q, n, i) && q[i] == a
  {
    ClosureIsClosed(g, a.name);
    var order := LegalOrder(g, Closure(g, a.name));
    q := CanBeFollowed(apps, g, order);
    PermutationIsDistinct(apps, q);
    PermutationKeepsElements(q, apps);
    i :| 0 <= i < |q| && q[i] == a;
    forall j | 0 <= j < i ensures !Asks(apps, q[j], n) {
      NamesDiffer(q, j, i);
      PlacesOfNames(q, j, i);
    }
  }

  /** Whoever can come last does so in some order. */
  lemma OrderWithLast(apps: seq<Application>, g: Graph, n: string, a: Application) returns (q: seq<Application>, i: nat)
    requires DistinctNames(apps) && Orders(g, apps) && CanBeLast(apps, g, n, a)
    ensures Follows(apps, g, q) && IsLastAsker(apps, q, n, i) && q[i] == a
  {
    IndependentIsClosed(g, a.name);
    var order := LegalOrder(g, Independent(g, a.name));
    q := CanBeFollowed(apps, g, order);
    PermutationIsDistinct(apps, q);
    PermutationKeepsElements(q, apps);
    i :| 0 <= i < |q| && q[i] == a;
    forall j | i < j < |q| ensures !Asks(apps, q[j], n) {
      NamesDiffer(q, i, j);
      PlacesOfNames(q, i, j);
    }
  }

  /**
   * For every install there is one application that can be the last to ask for it, and all who can
   * be the first ask for the same parameters, unless the install is there already and keeps its own.
   */
  ghost predicate OrderSettled(before: Installs, plan: Plan, apps: seq<Application>, g: Graph) {
    && (forall n, a, b :: CanBeLast(apps, g, n, a) && CanBeLast(apps, g, n, b) ==> a == b)
    && forall n, a, b :: n !in before && CanBeFirst(apps, g, n, a) && CanBeFirst(apps, g, n, b) ==>
      ParametersAsked(plan, apps, a, n) == ParametersAsked(plan, apps, b, n)
  }

  lemma SettledInstall(before: Installs, plan: Plan, apps: seq<Application>, g: Graph,
                       p: seq<Application>, q: seq<Application>, n: string)
    requires DistinctNames(apps) && OrderSettled(before, plan, apps, g)
    requires Follows(apps, g, p) && Follows(apps, g, q)
    ensures n in AfterApps(before, plan, apps, p) <==> n in AfterApps(before, plan, apps, q)
    ensures n in AfterApps(before, plan, apps, p) ==>
      AfterApps(before, plan, apps, p)[n] == AfterApps(before, plan, apps, q)[n]
  {
    PermutationKeepsElements(p, apps);
    PermutationKeepsElements(q, apps);
    if exists a :: a in apps && Asks(apps, a, n) {
      var i := FindFirstAsker(apps, p, n);
      var j := FindLastAsker(apps, p, n);
      var k := FindFirstAsker(apps, q, n);
      var l := FindLastAsker(apps, q, n);
      AskersCan(apps, g, p, n, i, j);
      AskersCan(apps, g, q, n, k, l);
      FirstSetsParameters(before, plan, apps, p, n, i);
      FirstSetsParameters(before, plan, apps, q, n, k);
      LastSetsTheRest(before, plan, apps, p, n, j);
      LastSetsTheRest(before, plan, apps, q, n, l);
    } else {
      OthersAreLeftAlone(before, plan, apps, p, n);
      OthersAreLeftAlone(before, plan, apps, q, n);
    }
  }

  lemma SameInstalls(x: Installs, y: Installs)
    requires forall n :: (n in x <==> n in y) && (n in x ==> x[n] == y[n])
    ensures x == y
  {
    assert x.Keys == y.Keys;
  }

  lemma SettledFrom(before: Installs, plan: Plan, apps: seq<Application>, g: Graph,
                    p: seq<Application>, q: seq<Application>)
    requires DistinctNames(apps) && OrderSettled(before, plan, apps, g)
    requires Follows(apps, g, p) && Follows(apps, g, q)
    ensures AfterApps(before, plan, apps, p) == AfterApps(before, plan, apps, q)
  {
    forall n
      ensures n in AfterApps(before, plan, apps, p) <==> n in AfterApps(before, plan, apps, q)
      ensures n in AfterApps(before, plan, apps, p) ==>
        AfterApps(before, plan, apps, p)[n] == AfterApps(before, plan, apps, q)[n]
    {
      SettledInstall(before, plan, apps, g, p, q, n);
    }
    SameInstalls(AfterApps(before, plan, apps, p), AfterApps(before, plan, apps, q));
  }

  lemma SettledOrders(before: Installs, plan: Plan, apps: seq<Application>, g: Graph,
                      p: seq<Application>, q: seq<Application>)
    requires DistinctNames(apps) && OrderSettled(before, plan, apps, g)
    requires Follows(apps, g, p) && Follows(apps, g, q)
    ensures AfterApps(before, plan, p, p) == AfterApps(before, plan, q, q)
  {
    AfterAppsOfPermutation(before, plan, apps, p, p);
    AfterAppsOfPermutation(before, plan, apps, q, q);
    SettledFrom(before, plan, apps, g, p, q);
  }

  /** All orders of the graph leave the same installs. */
  ghost predicate SameInEveryOrder(before: Installs, plan: Plan, apps: seq<Application>, g: Graph) {
    forall p, q :: Follows(apps, g, p) && Follows(apps, g, q) ==>
      AfterApps(before, plan, p, p) == AfterApps(before, plan, q, q)
  }

  lemma OneCanBeLast(before: Installs, plan: Plan, apps: seq<Application>, g: Graph,
                     n: string, a: Application, b: Application)
    requires DistinctNames(apps) && Orders(g, apps) && SameInEveryOrder(before, plan, apps, g)
    requires CanBeLast(apps, g, n, a) && CanBeLast(apps, g, n, b)
    ensures a == b
  {
    var p, i := OrderWithLast(apps, g, n, a);
    var q, j := OrderWithLast(apps, g, n, b);
    AfterAppsOfPermutation(before, plan, apps, p, p);
    AfterAppsOfPermutation(before, plan, apps, q, q);
    LastSetsTheRest(before, plan, apps, p, n, i);
    LastSetsTheRest(before, plan, apps, q, n, j);
    assert WantedBy(plan, apps, a)[n].application == a.name && WantedBy(plan, apps, b)[n].application == b.name;
  }

  lemma FirstOnesAgree(before: Installs, plan: Plan, apps: seq<Application>, g: Graph,
                       n: string, a: Application, b: Application)
    requires DistinctNames(apps) && Orders(g, apps) && SameInEveryOrder(before, plan, apps, g)
    requires n !in before && CanBeFirst(apps, g, n, a) && CanBeFirst(apps, g, n, b)
    ensures ParametersAsked(plan, apps, a, n) == ParametersAsked(plan, apps, b, n)
  {
    var p, i := OrderWithFirst(apps, g, n, a);
    var q, j := OrderWithFirst(apps, g, n, b);
    AfterAppsOfPermutation(before, plan, apps, p, p);
    AfterAppsOfPermutation(before, plan, apps, q, q);
    FirstSetsParameters(before, plan, apps, p, n, i);
    FirstSetsParameters(before, plan, apps, q, n, j);
  }

  /** All orders of a graph leave the same installs if and only if its order is settled for every install. */
  lemma OrdersAgreeIff(before: Installs, plan: Plan, apps: seq<Application>, g: Graph)
    requires DistinctNames(apps) && Orders(g, apps)
    ensures SameInEveryOrder(before, plan, apps, g) <==> OrderSettled(before, plan, apps, g)
  {
    if OrderSettled(before, plan, apps, g) {
      forall p, q | Follows(apps, g, p) && Follows(apps, g, q)
        ensures AfterApps(before, plan, p, p) == AfterApps(before, plan, q, q)
      {
        SettledOrders(before, plan, apps, g, p, q);
      }
    }
    if SameInEveryOrder(before, plan, apps, g) {
      forall n, a, b | CanBeLast(apps, g, n, a) && CanBeLast(apps, g, n, b) ensures a == b {
        OneCanBeLast(before, plan, apps, g, n, a, b);
      }
      forall n, a, b | n !in before && CanBeFirst(apps, g, n, a) && CanBeFirst(apps, g, n, b)
        ensures ParametersAsked(plan, apps, a, n) == ParametersAsked(plan, apps, b, n)
      {
        FirstOnesAgree(before, plan, apps, g, n, a, b);
      }
    }
  }

  /** All orders that put requirements first leave the same installs. */
  ghost predicate SameInEveryInstallOrder(before: Installs, plan: Plan, apps: seq<Application>) {
    forall p, q :: IsInstallOrder(apps, p) && IsInstallOrder(apps, q) ==>
      AfterApps(before, plan, p, p) == AfterApps(before, plan, q, q)
  }

  lemma SameOrdersSameOutcome(before: Installs, plan: Plan, apps: seq<Application>)
    requires DistinctNames(apps)
    ensures SameInEveryInstallOrder(before, plan, apps) <==> SameInEveryOrder(before, plan, apps, AppGraph(apps))
  {
    forall p, q
      ensures IsInstallOrder(apps, p) && IsInstallOrder(apps, q) <==>
        Follows(apps, AppGraph(apps), p) && Follows(apps, AppGraph(apps), q)
    {
      InstallOrdersFollow(apps, p);
      InstallOrdersFollow(apps, q);
    }
  }

  /** In particular all orders that put requirements first do so exactly when the requirements settle it. */
  lemma OrderIndependence(before: Installs, plan: Plan, apps: seq<Application>)
    requires DistinctNames(apps) && !Cyclic(AppGraph(apps)) && !Incomplete(AppGraph(apps))
    ensures SameInEveryInstallOrder(before, plan, apps) <==> OrderSettled(before, plan, apps, AppGraph(apps))
  {
    SameOrdersSameOutcome(before, plan, apps);
    OrdersAgreeIff(before, plan, apps, AppGraph(apps));
  }

  /** Applications that share no install name leave nothing open, whatever the orders are. */
  lemma NamesApartIsSettled(before: Installs, plan: Plan, apps: seq<Application>, g: Graph)
    requires NamesApart(apps)
    ensures OrderSettled(before, plan, apps, g)
  {
    forall n, a, b | a in apps && b in apps && Asks(apps, a, n) && Asks(apps, b, n) ensures a == b {
    }
  }

  /** The graph without edges: any order at all is legal. */
  ghost function NoEdges(apps: seq<Application>): Graph {
    map n | n in R.AppNames(apps) :: {}
  }

  lemma AnyOrderFollows(apps: seq<Application>, q: seq<Application>)
    requires DistinctNames(apps) && Permutation(q, apps)
    ensures Follows(apps, NoEdges(apps), q)
  {
    var names := R.AppNamesInOrder(q);
    PermutationIsDistinct(apps, q);
    PermutationKeepsElements(q, apps);
    forall i, j | 0 <= i < j < |names| ensures names[i] != names[j] {
      NamesDiffer(q, i, j);
    }
    forall n ensures n in names <==> n in NoEdges(apps) {
      if n in NoEdges(apps) {
        var a :| a in apps && a.name == n;
        var i :| 0 <= i < |q| && q[i] == a;
        assert names[i] == n;
      }
    }
  }

  /** If install names are apart, installing the applications in any order gives the same installs. */
  lemma OrderDoesNotMatter(before: Installs, plan: Plan, p: seq<Application>, q: seq<Application>)
    requires Permutation(p, q) && DistinctNames(p) && NamesApart(p)
    ensures AfterApps(before, plan, p, p) == AfterApps(before, plan, q, q)
  {
    AnyOrderFollows(p, p);
    AnyOrderFollows(p, q);
    NamesApartIsSettled(before, plan, p, NoEdges(p));
    SettledOrders(before, plan, p, NoEdges(p), p, q);
  }
}
