/** The installs that installation creates against the installs that deployment looks up. */
module InstallLookup {
  import opened Wrappers
  import opened Api
  import opened ManifestInstall
  import opened InstallOrder
  import D = ManifestDeploy

  /** All installs that installing the applications writes. */
  ghost function InstallNames(apps: seq<Application>): set<string> {
    set a, n | a in apps && n in InstallNamesOf(apps, a) :: n
  }

  /** What a list of requirements asks for: names with suffixes. */
  function Pairs(rs: seq<Require>): set<(string, string)> {
    set r | r in rs :: (r.name, r.suffix)
  }

  function BundleRequirements(bundles: seq<Bundle>): set<(string, set<(string, string)>)> {
    set b | b in bundles :: (b.name, Pairs(b.required))
  }

  function AppRequirements(apps: seq<Application>): set<(string, set<(string, string)>)> {
    set a | a in apps :: (a.name, Pairs(a.required))
  }

  /** Bundles and applications correspond by name, and say the same about what they require. */
  ghost predicate Match(bundles: seq<Bundle>, apps: seq<Application>) {
    && BundleRequirements(bundles) == AppRequirements(apps)
    && forall a, a' :: a in apps && a' in apps && a.name == a'.name ==> a == a'
  }

  lemma AppOfBundle(bundles: seq<Bundle>, apps: seq<Application>, b: Bundle) returns (a: Application)
    requires Match(bundles, apps) && b in bundles
    ensures a in apps && a.name == b.name && Pairs(a.required) == Pairs(b.required)
  {
    assert (b.name, Pairs(b.required)) in AppRequirements(apps);
    a :| a in apps && (a.name, Pairs(a.required)) == (b.name, Pairs(b.required));
  }

  lemma BundleOfApp(bundles: seq<Bundle>, apps: seq<Application>, a: Application) returns (b: Bundle)
    requires Match(bundles, apps) && a in apps
    ensures b in bundles && b.name == a.name && Pairs(b.required) == Pairs(a.required)
  {
    assert (a.name, Pairs(a.required)) in BundleRequirements(bundles);
    b :| b in bundles && (b.name, Pairs(b.required)) == (a.name, Pairs(a.required));
  }

  /** No application is recorded with the suffix of the requirement. */
  ghost predicate Lost(apps: seq<Application>, r: Require) {
    forall q :: q in apps ==> LastSuffix(q.required, r.name) != Some(r.suffix)
  }

  /** Every suffix that is required is the one some requirer ends up recorded with. */
  ghost predicate NoSuffixLost(apps: seq<Application>) {
    forall a, r :: a in apps && r in a.required ==> !Lost(apps, r)
  }

  /** Each application uses one suffix per dependency. */
  ghost predicate OneSuffixEach(apps: seq<Application>) {
    forall a, r, r' :: a in apps && r in a.required && r' in a.required && r.name == r'.name ==> r.suffix == r'.suffix
  }

  lemma {:induction false} LastIsDemanded(rs: seq<Require>, name: string)
    ensures LastSuffix(rs, name).None? <==> forall r :: r in rs ==> r.name != name
    ensures LastSuffix(rs, name).Some? ==> (name, LastSuffix(rs, name).value) in Pairs(rs)
  {
    if rs != [] {
      var front, last := rs[..|rs| - 1], rs[|rs| - 1];
      LastIsDemanded(front, name);
      assert forall r :: r in rs <==> r in front || r == last;
      if last.name != name && LastSuffix(front, name).Some? {
        var r :| r in front && r.name == name && r.suffix == LastSuffix(front, name).value;
        assert r in rs;
      }
    }
  }

  lemma OneSuffixLosesNone(apps: seq<Application>)
    requires OneSuffixEach(apps)
    ensures NoSuffixLost(apps)
  {
    forall a, r | a in apps && r in a.required ensures !Lost(apps, r) {
      LastIsDemanded(a.required, r.name);
      assert LastSuffix(a.required, r.name) == Some(r.suffix);
    }
  }

  /** The recorded suffixes are those that are the last of their kind in some application. */
  lemma RecordedSuffixes(apps: seq<Application>, name: string, s: string)
    requires forall a, a' :: a in apps && a' in apps && a.name == a'.name ==> a == a'
    ensures s in ByRequirer(apps, name).Values <==> exists q :: q in apps && LastSuffix(q.required, name) == Some(s)
  {
    if s in ByRequirer(apps, name).Values {
      var n :| n in ByRequirer(apps, name) && ByRequirer(apps, name)[n] == s;
      RequirerOf(apps, name, n);
    }
    if q :| q in apps && LastSuffix(q.required, name) == Some(s) {
      RequirerOf(apps, name, q.name);
    }
  }

  /** The suffixes deployment sees are those that the applications require. */
  lemma ManifestSuffixes(bundles: seq<Bundle>, apps: seq<Application>, name: string, s: string)
    requires Match(bundles, apps)
    ensures s in D.SuffixesOf(bundles, name) <==> exists a :: a in apps && (name, s) in Pairs(a.required)
  {
    D.InSuffixesOf(bundles, name, s);
    if s in D.SuffixesOf(bundles, name) {
      var b, r :| b in bundles && r in b.required && r.name == name && r.suffix == s;
      var a := AppOfBundle(bundles, apps, b);
      assert (name, s) in Pairs(b.required);
    }
    if a :| a in apps && (name, s) in Pairs(a.required) {
      var b := BundleOfApp(bundles, apps, a);
      assert (name, s) in Pairs(b.required);
      var r :| r in b.required && (r.name, r.suffix) == (name, s);
    }
  }

  /** Installation never uses a suffix that deployment does not look for; without losses it uses them all. */
  lemma InstallSuffixesAreDeployed(bundles: seq<Bundle>, apps: seq<Application>, name: string)
    requires Match(bundles, apps)
    ensures InstallSuffixes(apps, name) <= D.DeploySuffixes(bundles, name)
    ensures NoSuffixLost(apps) ==> InstallSuffixes(apps, name) == D.DeploySuffixes(bundles, name)
  {
    var recorded := ByRequirer(apps, name);
    forall s ensures s in recorded.Values ==> s in D.SuffixesOf(bundles, name) {
      RecordedSuffixes(apps, name, s);
      ManifestSuffixes(bundles, apps, name, s);
      if q :| q in apps && LastSuffix(q.required, name) == Some(s) {
        LastIsDemanded(q.required, name);
      }
    }
    forall s | s in D.SuffixesOf(bundles, name)
      ensures recorded != map[] && (NoSuffixLost(apps) ==> s in recorded.Values)
    {
      ManifestSuffixes(bundles, apps, name, s);
      var a :| a in apps && (name, s) in Pairs(a.required);
      var r :| r in a.required && r.name == name && r.suffix == s;
      LastIsDemanded(a.required, name);
      RequirerOf(apps, name, a.name);
      RecordedSuffixes(apps, name, s);
      assert !Lost(apps, r) ==> s in recorded.Values;
    }
    if recorded != map[] {
      var n :| n in recorded;
      assert recorded[n] in recorded.Values;
    }
  }

  /** What is lost is lost for good: then some suffix is looked up that installation does not use. */
  lemma LostSuffixIsMissed(bundles: seq<Bundle>, apps: seq<Application>)
    requires Match(bundles, apps) && !NoSuffixLost(apps)
    ensures exists name :: InstallSuffixes(apps, name) < D.DeploySuffixes(bundles, name)
  {
    var a, r :| a in apps && r in a.required && Lost(apps, r);
    InstallSuffixesAreDeployed(bundles, apps, r.name);
    assert (r.name, r.suffix) in Pairs(a.required);
    ManifestSuffixes(bundles, apps, r.name, r.suffix);
    RecordedSuffixes(apps, r.name, r.suffix);
    LastIsDemanded(a.required, r.name);
    RequirerOf(apps, r.name, a.name);
    assert InstallSuffixes(apps, r.name) < D.DeploySuffixes(bundles, r.name);
  }

  /** Suffix by suffix, the two sides agree if and only if no suffix is lost. */
  lemma SuffixesAgree(bundles: seq<Bundle>, apps: seq<Application>)
    requires Match(bundles, apps)
    ensures (forall name :: InstallSuffixes(apps, name) == D.DeploySuffixes(bundles, name)) <==> NoSuffixLost(apps)
  {
    if NoSuffixLost(apps) {
      forall name ensures InstallSuffixes(apps, name) == D.DeploySuffixes(bundles, name) {
        InstallSuffixesAreDeployed(bundles, apps, name);
      }
    } else {
      LostSuffixIsMissed(bundles, apps);
    }
  }

  /** Installation creates nothing that deployment does not look up, and without losses exactly that. */
  lemma InstalledIsLookedUp(bundles: seq<Bundle>, apps: seq<Application>)
    requires Match(bundles, apps)
    ensures InstallNames(apps) <= D.Lookups(bundles)
    ensures NoSuffixLost(apps) ==> InstallNames(apps) == D.Lookups(bundles)
  {
    forall n | n in InstallNames(apps) ensures n in D.Lookups(bundles) {
      var a :| a in apps && n in InstallNamesOf(apps, a);
      var b := BundleOfApp(bundles, apps, a);
      InstallSuffixesAreDeployed(bundles, apps, a.name);
      D.InLookupsFor(bundles, bundles, n);
      assert n in D.LookupsOf(bundles, b.name);
    }
    if NoSuffixLost(apps) {
      forall n | n in D.Lookups(bundles) ensures n in InstallNames(apps) {
        D.InLookupsFor(bundles, bundles, n);
        var b :| b in bundles && n in D.LookupsOf(bundles, b.name);
        var a := AppOfBundle(bundles, apps, b);
        InstallSuffixesAreDeployed(bundles, apps, a.name);
        assert n in InstallNamesOf(apps, a);
      }
    }
  }

  /** After a successful installation every name in question holds an install of one of the applications. */
  lemma {:induction false} InstallsAreOfApplications(before: Installs, plan: Plan, all: seq<Application>,
                                                     some: seq<Application>, n: string)
    requires exists a :: a in some && n in InstallNamesOf(all, a)
    ensures n in AfterApps(before, plan, all, some)
    ensures exists a :: a in some && IsInstallOf(AfterApps(before, plan, all, some)[n], a)
  {
    var front, last := some[..|some| - 1], some[|some| - 1];
    if n in InstallNamesOf(all, last) {
      assert n in WantedBy(plan, all, last);
      assert IsInstallOf(AfterApps(before, plan, all, some)[n], last);
    } else {
      assert forall a :: a in some <==> a in front || a == last;
      InstallsAreOfApplications(before, plan, all, front, n);
      var a :| a in front && IsInstallOf(AfterApps(before, plan, all, front)[n], a);
      assert a in some;
      assert n !in WantedBy(plan, all, last);
    }
  }

  predicate IsInstallOf(i: Install, a: Application) {
    i.application == a.name && i.version == a.version
  }

  /** All applications are in the store, under their keys. */
  ghost predicate AllStored(apps: seq<Application>, store: map<string, Application>) {
    forall a :: a in apps ==> ApplicationKey(a.name, a.version) in store
  }

  /** The installs that are looked up and not created. */
  ghost function Missed(bundles: seq<Bundle>, apps: seq<Application>): set<string> {
    D.Lookups(bundles) - InstallNames(apps)
  }

  /**
   * After installation deployment finds what it looks up exactly when all that was not created now was
   * there before.
   */
  lemma FoundIff(bundles: seq<Bundle>, before: Installs, plan: Plan, apps: seq<Application>,
                 store: map<string, Application>)
    requires AllStored(apps, store)
    ensures D.Found(D.Cluster(AfterApps(before, plan, apps, apps), store), D.Lookups(bundles)) <==>
      D.Found(D.Cluster(before, store), Missed(bundles, apps))
  {
    var was, now := D.Cluster(before, store), D.Cluster(AfterApps(before, plan, apps, apps), store);
    forall n ensures n in InstallNames(apps) ==> now.Has(n)
      ensures n !in InstallNames(apps) ==> (now.Has(n) <==> was.Has(n))
    {
      if n in InstallNames(apps) {
        InstallsAreOfApplications(before, plan, apps, apps, n);
      } else {
        OthersAreLeftAlone(before, plan, apps, apps, n);
      }
    }
  }

  /** Deployment finds every install that installation was to create, and the application behind it. */
  lemma DeployFindsEveryInstall(bundles: seq<Bundle>, before: Installs, plan: Plan, apps: seq<Application>,
                                store: map<string, Application>)
    requires Match(bundles, apps) && NoSuffixLost(apps) && AllStored(apps, store)
    ensures InstallNames(apps) == D.Lookups(bundles)
    ensures D.Found(D.Cluster(AfterApps(before, plan, apps, apps), store), D.Lookups(bundles))
  {
    InstalledIsLookedUp(bundles, apps);
    FoundIff(bundles, before, plan, apps, store);
  }

  /** Every requirement is for one of the applications. */
  ghost predicate RequirementsInBatch(apps: seq<Application>) {
    forall a, r :: a in apps && r in a.required ==> exists b :: b in apps && b.name == r.name
  }

  /** No install is looked up for two bundles of different names. */
  ghost predicate LookupsApart(bundles: seq<Bundle>) {
    forall b, b' :: b in bundles && b' in bundles && b.name != b'.name ==>
      D.LookupsOf(bundles, b.name) !! D.LookupsOf(bundles, b'.name)
  }

  lemma LostIsLookedUp(bundles: seq<Bundle>, apps: seq<Application>, a: Application, r: Require)
    requires Match(bundles, apps) && RequirementsInBatch(apps) && a in apps && r in a.required
    ensures RequiredName(r) in D.LookupsOf(bundles, r.name)
    ensures exists b :: b in bundles && b.name == r.name
  {
    assert (r.name, r.suffix) in Pairs(a.required);
    ManifestSuffixes(bundles, apps, r.name, r.suffix);
    var asked :| asked in apps && asked.name == r.name;
    var b := BundleOfApp(bundles, apps, asked);
  }

  /** The bundle it is named after is not installed with a lost suffix. */
  lemma LostIsNotUsed(bundles: seq<Bundle>, apps: seq<Application>, a: Application, r: Require)
    requires Match(bundles, apps) && a in apps && r in a.required && Lost(apps, r)
    ensures RequiredName(r) !in SuffixedNames(r.name, InstallSuffixes(apps, r.name))
  {
    if RequiredName(r) in SuffixedNames(r.name, InstallSuffixes(apps, r.name)) {
      var s :| s in InstallSuffixes(apps, r.name) && RequiredName(r) == GetResourceName(r.name, s);
      SuffixesStayApart(r.name, s, r.suffix);
      RecordedSuffixes(apps, r.name, s);
      LastIsDemanded(a.required, r.name);
      RequirerOf(apps, r.name, a.name);
    }
  }

  /** An install under a lost suffix is looked up and not created. */
  lemma LostInstallIsMissed(bundles: seq<Bundle>, apps: seq<Application>, a: Application, r: Require)
    requires Match(bundles, apps) && RequirementsInBatch(apps) && LookupsApart(bundles)
    requires a in apps && r in a.required && Lost(apps, r)
    ensures RequiredName(r) in D.Lookups(bundles) && RequiredName(r) !in InstallNames(apps)
  {
    var n := RequiredName(r);
    LostIsLookedUp(bundles, apps, a, r);
    LostIsNotUsed(bundles, apps, a, r);
    D.InLookupsFor(bundles, bundles, n);
    if n in InstallNames(apps) {
      var q :| q in apps && n in InstallNamesOf(apps, q);
      var b := BundleOfApp(bundles, apps, q);
      InstallSuffixesAreDeployed(bundles, apps, q.name);
    }
  }

  /** Nothing that is looked up goes uncreated if and only if no suffix is lost. */
  lemma NothingMissedIff(bundles: seq<Bundle>, apps: seq<Application>)
    requires Match(bundles, apps) && RequirementsInBatch(apps) && LookupsApart(bundles)
    ensures Missed(bundles, apps) == {} <==> NoSuffixLost(apps)
  {
    InstalledIsLookedUp(bundles, apps);
    if a, r :| a in apps && r in a.required && Lost(apps, r) {
      LostInstallIsMissed(bundles, apps, a, r);
      assert RequiredName(r) in Missed(bundles, apps);
    }
  }

  /** On a fresh cluster deployment finds all it looks up if and only if no suffix is lost. */
  lemma FreshInstallIsFoundIff(bundles: seq<Bundle>, plan: Plan, apps: seq<Application>,
                               store: map<string, Application>)
    requires Match(bundles, apps) && RequirementsInBatch(apps) && LookupsApart(bundles) && AllStored(apps, store)
    ensures D.Found(D.Cluster(AfterApps(map[], plan, apps, apps), store), D.Lookups(bundles)) <==> NoSuffixLost(apps)
  {
    FoundIff(bundles, map[], plan, apps, store);
    NothingMissedIff(bundles, apps);
    NothingFound(store, Missed(bundles, apps));
  }

  lemma NothingFound(store: map<string, Application>, names: set<string>)
    ensures D.Found(D.Cluster(map[], store), names) <==> names == {}
  {
  }

  // One application that requires another under two suffixes.
  const TWO := [Require("db", "a", []), Require("db", "b", [])]
  const BUNDLES := [Bundle("db", "1", [], []), Bundle("web", "1", [], TWO)]
  const APPS := [Application("db", "1", ["db"], [], [], []), Application("web", "1", ["web"], TWO, [], [])]

  lemma ExampleLosesASuffix()
    ensures Match(BUNDLES, APPS) && RequirementsInBatch(APPS) && !NoSuffixLost(APPS)
  {
    var db, web := APPS[0], APPS[1];
    assert forall a :: a in APPS <==> a == db || a == web;
    assert forall b :: b in BUNDLES <==> b == BUNDLES[0] || b == BUNDLES[1];
    assert BundleRequirements(BUNDLES) == {("db", Pairs([])), ("web", Pairs(TWO))};
    assert AppRequirements(APPS) == {("db", Pairs([])), ("web", Pairs(TWO))};
    assert LastSuffix(TWO, "db") == Some("b") && LastSuffix([], "db") == None;
    assert TWO[0] in web.required && Lost(APPS, TWO[0]);
  }

  lemma LookupsOfTheExample(name: string)
    ensures D.DeploySuffixes(BUNDLES, name) == if name == "db" then {"a", "b"} else {""}
  {
    assert BUNDLES[..1] == [BUNDLES[0]] && [BUNDLES[0]][..0] == [];
    assert TWO[..1] == [TWO[0]] && [TWO[0]][..0] == [];
    assert D.RequiredSuffixes([TWO[0]], name) == if name == "db" then {"a"} else {};
    assert D.RequiredSuffixes(TWO, name) == if name == "db" then {"a", "b"} else {};
    assert D.RequiredSuffixes([], name) == {};
    assert D.SuffixesOf([BUNDLES[0]], name) == {};
    assert D.SuffixesOf(BUNDLES, name) == D.RequiredSuffixes(TWO, name);
  }

  lemma ExampleLookupsAreApart()
    ensures LookupsApart(BUNDLES)
  {
    LookupsOfTheExample("db");
    LookupsOfTheExample("web");
    assert GetResourceName("db", "a") == "db-a" && GetResourceName("db", "b") == "db-b";
    forall n | n in D.LookupsOf(BUNDLES, "db") ensures n[0] == 'd' {
    }
    forall n | n in D.LookupsOf(BUNDLES, "web") ensures n[0] == 'w' {
    }
  }

  /** After installing the example on a fresh cluster, deployment misses an install. */
  lemma TwoSuffixesAreMissed(plan: Plan, store: map<string, Application>)
    requires AllStored(APPS, store)
    ensures !D.Found(D.Cluster(AfterApps(map[], plan, APPS, APPS), store), D.Lookups(BUNDLES))
  {
    ExampleLosesASuffix();
    ExampleLookupsAreApart();
    FreshInstallIsFoundIff(BUNDLES, plan, APPS, store);
  }
}
