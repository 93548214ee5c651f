/** What the installs are after a manifest has been installed, read off the manifest and its applications. */
module InstallOutcome {
  import opened Api
  import opened ManifestInstall
  import opened InstallOrder
  import opened Wrappers
  import P = Parameters

  /** Some application requires the name. */
  ghost predicate IsRequired(apps: seq<Application>, name: string) {
    exists q, r :: q in apps && r in q.required && r.name == name
  }

  /** The suffix is that of the last requirement of the name in some application. */
  ghost predicate IsLastSuffix(apps: seq<Application>, name: string, s: string) {
    exists q, i: nat :: q in apps && IsLastRequirement(q.required, name, i) && q.required[i].suffix == s
  }

  /** The suffixes an application is installed under: those it is required with last, or none. */
  ghost predicate HasSuffix(apps: seq<Application>, name: string, s: string) {
    if IsRequired(apps, name) then IsLastSuffix(apps, name, s) else s == ""
  }

  lemma LastSuffixIff(apps: seq<Application>, name: string, s: string)
    ensures IsLastSuffix(apps, name, s) <==> exists q :: q in apps && LastSuffix(q.required, name) == Some(s)
  {
    if q, i: nat :| q in apps && IsLastRequirement(q.required, name, i) && q.required[i].suffix == s {
      LastSuffixAt(q.required, name);
    }
    if q :| q in apps && LastSuffix(q.required, name) == Some(s) {
      LastSuffixAt(q.required, name);
      var i: nat :| IsLastRequirement(q.required, name, i);
    }
  }

  /** Applications are required exactly if a requirer is recorded. */
  lemma RequiredIffRecorded(apps: seq<Application>, name: string)
    requires DistinctNames(apps)
    ensures IsRequired(apps, name) <==> ByRequirer(apps, name) != map[]
  {
    if q, r :| q in apps && r in q.required && r.name == name {
      LastSuffixAt(q.required, name);
      RequirerOf(apps, name, q.name);
    }
    if ByRequirer(apps, name) != map[] {
      var n :| n in ByRequirer(apps, name);
      RequirerOf(apps, name, n);
      var q :| q in apps && q.name == n && LastSuffix(q.required, name).Some?;
      LastSuffixAt(q.required, name);
    }
  }

  lemma RecordedIffLast(apps: seq<Application>, name: string, s: string)
    requires DistinctNames(apps)
    ensures s in ByRequirer(apps, name).Values <==> IsLastSuffix(apps, name, s)
  {
    LastSuffixIff(apps, name, s);
    if s in ByRequirer(apps, name).Values {
      var n :| n in ByRequirer(apps, name) && ByRequirer(apps, name)[n] == s;
      RequirerOf(apps, name, n);
    }
    if q :| q in apps && LastSuffix(q.required, name) == Some(s) {
      RequirerOf(apps, name, q.name);
    }
  }

  /** An application asks for an install exactly if it is its own under such a suffix. */
  lemma AsksIff(apps: seq<Application>, a: Application, n: string)
    requires DistinctNames(apps)
    ensures Asks(apps, a, n) <==> exists s :: HasSuffix(apps, a.name, s) && n == GetResourceName(a.name, s)
  {
    RequiredIffRecorded(apps, a.name);
    forall s ensures s in InstallSuffixes(apps, a.name) <==> HasSuffix(apps, a.name, s) {
      RecordedIffLast(apps, a.name, s);
    }
  }

  /** `i` is the last bundle of the name. */
  ghost predicate IsLastBundle(bundles: seq<Bundle>, name: string, i: nat) {
    i < |bundles| && bundles[i].name == name && forall j :: i < j < |bundles| ==> bundles[j].name != name
  }

  /** The parameters are those of the last bundle of the name, or none. */
  ghost predicate AreOwn(bundles: seq<Bundle>, name: string, ps: seq<ParameterSpec>) {
    if exists b :: b in bundles && b.name == name
    then exists i: nat :: IsLastBundle(bundles, name, i) && ps == bundles[i].parameters
    else ps == []
  }

  /** The requirement at `j` of the bundle at `i` gives parameters for the install, and none further on does. */
  ghost predicate GivesLast(bundles: seq<Bundle>, n: string, i: nat, j: nat) {
    && i < |bundles| && j < |bundles[i].required| && GivesParameters(bundles[i].required[j], n)
    && (forall l :: j < l < |bundles[i].required| ==> !GivesParameters(bundles[i].required[l], n))
    && forall k, r :: i < k < |bundles| && r in bundles[k].required ==> !GivesParameters(r, n)
  }

  /** Some requirement gives parameters for the install. */
  ghost predicate IsGivenFor(bundles: seq<Bundle>, n: string) {
    exists b, r :: b in bundles && r in b.required && GivesParameters(r, n)
  }

  /** The parameters are those that are given last for the install, or none. */
  ghost predicate AreGiven(bundles: seq<Bundle>, n: string, ps: seq<ParameterSpec>) {
    if IsGivenFor(bundles, n)
    then exists i: nat, j: nat :: GivesLast(bundles, n, i, j) && ps == bundles[i].required[j].parameters
    else ps == []
  }

  lemma OwnParameters(bundles: seq<Bundle>, name: string)
    ensures AreOwn(bundles, name, At(BundleParameters(bundles), name))
  {
    BundlesWithParameters(bundles, name);
    if b :| b in bundles && b.name == name {
      var i := |bundles| - 1;
      while bundles[i].name != name
        decreases i
        invariant 0 <= i < |bundles| && forall j :: i < j < |bundles| ==> bundles[j].name != name
      {
        i := i - 1;
      }
      LastBundleWins(bundles, i);
      assert IsLastBundle(bundles, name, i);
    }
  }

  lemma {:induction false} GivenAtLast(before: map<string, seq<ParameterSpec>>, rs: seq<Require>, n: string, j: nat)
    requires j < |rs| && GivesParameters(rs[j], n) && forall l :: j < l < |rs| ==> !GivesParameters(rs[l], n)
    ensures n in AdditionalOf(before, rs) && AdditionalOf(before, rs)[n] == rs[j].parameters
  {
    if j < |rs| - 1 {
      GivenAtLast(before, rs[..|rs| - 1], n, j);
      assert !GivesParameters(rs[|rs| - 1], n);
    }
  }

  lemma {:induction false} NoneGiven(before: map<string, seq<ParameterSpec>>, rs: seq<Require>, n: string)
    requires forall r :: r in rs ==> !GivesParameters(r, n)
    ensures At(AdditionalOf(before, rs), n) == At(before, n)
  {
    if rs != [] {
      NoneGiven(before, rs[..|rs| - 1], n);
      assert rs[|rs| - 1] in rs;
    }
  }

  lemma LastGiver(rs: seq<Require>, n: string) returns (j: nat)
    requires exists r :: r in rs && GivesParameters(r, n)
    ensures j < |rs| && GivesParameters(rs[j], n) && forall l :: j < l < |rs| ==> !GivesParameters(rs[l], n)
  {
    j := |rs| - 1;
    while !GivesParameters(rs[j], n)
      decreases j
      invariant 0 <= j < |rs| && forall l :: j < l < |rs| ==> !GivesParameters(rs[l], n)
    {
      j := j - 1;
    }
  }

  lemma GivenByEarlier(bundles: seq<Bundle>, n: string, ps: seq<ParameterSpec>)
    requires bundles != [] && AreGiven(bundles[..|bundles| - 1], n, ps)
    requires forall r :: r in bundles[|bundles| - 1].required ==> !GivesParameters(r, n)
    ensures AreGiven(bundles, n, ps)
  {
    var front := bundles[..|bundles| - 1];
    GivenBefore(bundles, n);
    if IsGivenFor(front, n) {
      var i: nat, j: nat :| GivesLast(front, n, i, j) && ps == front[i].required[j].parameters;
      StillGivesLast(bundles, n, i, j);
    }
  }

  lemma GivenBefore(bundles: seq<Bundle>, n: string)
    requires bundles != [] && forall r :: r in bundles[|bundles| - 1].required ==> !GivesParameters(r, n)
    ensures IsGivenFor(bundles, n) <==> IsGivenFor(bundles[..|bundles| - 1], n)
  {
    assert forall b :: b in bundles <==> b in bundles[..|bundles| - 1] || b == bundles[|bundles| - 1];
  }

  lemma StillGivesLast(bundles: seq<Bundle>, n: string, i: nat, j: nat)
    requires bundles != [] && forall r :: r in bundles[|bundles| - 1].required ==> !GivesParameters(r, n)
    requires GivesLast(bundles[..|bundles| - 1], n, i, j)
    ensures GivesLast(bundles, n, i, j) && bundles[i] == bundles[..|bundles| - 1][i]
  {
    var front := bundles[..|bundles| - 1];
    forall k, r | i < k < |bundles| && r in bundles[k].required ensures !GivesParameters(r, n) {
      assert k < |front| ==> front[k] == bundles[k];
    }
  }

  lemma {:induction false} GivenParameters(bundles: seq<Bundle>, n: string)
    ensures AreGiven(bundles, n, At(AdditionalParameters(bundles), n))
  {
    if bundles != [] {
      var front, last := bundles[..|bundles| - 1], bundles[|bundles| - 1];
      if exists r :: r in last.required && GivesParameters(r, n) {
        var j := LastGiver(last.required, n);
        GivenAtLast(AdditionalParameters(front), last.required, n, j);
        assert GivesLast(bundles, n, |bundles| - 1, j);
      } else {
        GivenParameters(front, n);
        NoneGiven(AdditionalParameters(front), last.required, n);
        GivenByEarlier(bundles, n, At(AdditionalParameters(front), n));
      }
    }
  }

  /**
   * The parameters that a new install of the application gets: those of the last bundle of its name,
   * followed, if the application is required, by those given last for the install, up to a clash.
   */
  ghost predicate AreDemanded(bundles: seq<Bundle>, apps: seq<Application>, a: Application, n: string,
                              ps: seq<ParameterSpec>)
  {
    exists own, given :: AreDemandedFrom(bundles, apps, a, n, own, given, ps)
  }

  ghost predicate AreDemandedFrom(bundles: seq<Bundle>, apps: seq<Application>, a: Application, n: string,
                                  own: seq<ParameterSpec>, given: seq<ParameterSpec>, ps: seq<ParameterSpec>)
  {
    && AreOwn(bundles, a.name, own)
    && (if IsRequired(apps, a.name) then AreGiven(bundles, n, given) else given == [])
    && P.Extended(own, given, ps)
  }

  /** All but the parameters of an install that the application asks for under the name. */
  ghost predicate IsInstallFor(apps: seq<Application>, a: Application, n: string, flavor: string, registry: string,
                               install: Install)
  {
    && install.application == a.name && install.version == a.version
    && install.flavor == flavor && install.registry == registry
    && HasSuffix(apps, a.name, install.suffix) && n == GetResourceName(a.name, install.suffix)
  }

  /** What an application asks for is what the manifest demands. */
  lemma AskedIsDemanded(bundles: seq<Bundle>, apps: seq<Application>, a: Application, n: string,
                        flavor: string, registry: string)
    requires DistinctNames(apps) && Asks(apps, a, n)
    ensures n in WantedBy(PlanOf(bundles, flavor, registry), apps, a)
    ensures
      var asked := WantedBy(PlanOf(bundles, flavor, registry), apps, a)[n];
      IsInstallFor(apps, a, n, flavor, registry, asked) && AreDemanded(bundles, apps, a, n, asked.parameters)
  {
    var plan := PlanOf(bundles, flavor, registry);
    var s :| s in InstallSuffixes(apps, a.name) && n == GetResourceName(a.name, s);
    SuffixIsRecovered(a.name, s);
    RequiredIffRecorded(apps, a.name);
    RecordedIffLast(apps, a.name, s);
    OwnParameters(bundles, a.name);
    GivenParameters(bundles, n);
    ExtendedAsDemanded(bundles, apps, a, n);
  }

  lemma ExtendedAsDemanded(bundles: seq<Bundle>, apps: seq<Application>, a: Application, n: string)
    requires AreOwn(bundles, a.name, At(BundleParameters(bundles), a.name))
    requires AreGiven(bundles, n, At(AdditionalParameters(bundles), n))
    ensures
      var own, given := At(BundleParameters(bundles), a.name), At(AdditionalParameters(bundles), n);
      AreDemanded(bundles, apps, a, n,
        if IsRequired(apps, a.name) && given != [] then P.WithAdditions(own, given) else own)
  {
    var own, given := At(BundleParameters(bundles), a.name), At(AdditionalParameters(bundles), n);
    NotExtended(own);
    P.AdditionsExtend(own, given);
    if IsRequired(apps, a.name) && given != [] {
      assert AreDemandedFrom(bundles, apps, a, n, own, given, P.WithAdditions(own, given));
    } else {
      assert AreDemandedFrom(bundles, apps, a, n, own, [], own);
    }
  }

  lemma NotExtended(own: seq<ParameterSpec>)
    ensures P.Extended(own, [], own)
  {
    assert P.ExtendedBy(own, [], 0, own);
  }

  // The installs after installing applications in turn: by name, and for a name that several ask for by who is
  // first and who is last.

  /** The application is installed under the name. */
  ghost predicate IsFor(apps: seq<Application>, a: Application, n: string) {
    exists s :: HasSuffix(apps, a.name, s) && n == GetResourceName(a.name, s)
  }

  /** `i` is the first application of those to be installed under the name. */
  ghost predicate IsFirstFor(apps: seq<Application>, n: string, i: nat) {
    i < |apps| && IsFor(apps, apps[i], n) && forall j :: 0 <= j < i ==> !IsFor(apps, apps[j], n)
  }

  /** `i` is the last application of those to be installed under the name. */
  ghost predicate IsLastFor(apps: seq<Application>, n: string, i: nat) {
    i < |apps| && IsFor(apps, apps[i], n) && forall j :: i < j < |apps| ==> !IsFor(apps, apps[j], n)
  }

  /**
   * There are the installs from before and those of the applications, and no others. An install keeps
   * its parameters; a new one has those demanded for the first application. All else is demanded for
   * the last one. What no application is for is as it was.
   */
  ghost predicate InstalledInTurn(before: Installs, bundles: seq<Bundle>, apps: seq<Application>, flavor: string,
                                  registry: string, after: Installs)
  {
    && (forall n :: n in after <==> n in before || exists a :: a in apps && IsFor(apps, a, n))
    && (forall n :: n in before && !(exists a :: a in apps && IsFor(apps, a, n)) ==>
          n in after && after[n] == before[n])
    && (forall n :: n in before ==> n in after && after[n].parameters == before[n].parameters)
    && (forall n, i: nat :: n !in before && IsFirstFor(apps, n, i) ==>
          n in after && AreDemanded(bundles, apps, apps[i], n, after[n].parameters))
    && (forall n, i: nat :: IsLastFor(apps, n, i) ==>
          n in after && IsInstallFor(apps, apps[i], n, flavor, registry, after[n]))
  }

  lemma IsForIff(apps: seq<Application>, n: string)
    requires DistinctNames(apps)
    ensures forall a :: IsFor(apps, a, n) <==> Asks(apps, a, n)
  {
    forall a ensures IsFor(apps, a, n) <==> Asks(apps, a, n) {
      AsksIff(apps, a, n);
    }
  }

  /** There is an install of the name exactly if there was one, or an application is for it. */
  lemma InstallIsThere(before: Installs, plan: Plan, apps: seq<Application>, n: string)
    requires DistinctNames(apps)
    ensures
      var after, wanted := AfterApps(before, plan, apps, apps), exists a :: a in apps && IsFor(apps, a, n);
      && (n in after <==> n in before || wanted)
      && (n in before ==> after[n].parameters == before[n].parameters)
      && (n in before && !wanted ==> after[n] == before[n])
  {
    IsForIff(apps, n);
    if a :| a in apps && IsFor(apps, a, n) {
      var i := FindFirstAsker(apps, apps, n);
      FirstSetsParameters(before, plan, apps, apps, n, i);
    } else {
      OthersAreLeftAlone(before, plan, apps, apps, n);
    }
  }

  lemma FirstIsDemanded(before: Installs, bundles: seq<Bundle>, apps: seq<Application>, flavor: string,
                        registry: string, n: string, i: nat)
    requires DistinctNames(apps) && n !in before && IsFirstFor(apps, n, i)
    ensures
      var after := AfterApps(before, PlanOf(bundles, flavor, registry), apps, apps);
      n in after && AreDemanded(bundles, apps, apps[i], n, after[n].parameters)
  {
    IsForIff(apps, n);
    FirstSetsParameters(before, PlanOf(bundles, flavor, registry), apps, apps, n, i);
    AskedIsDemanded(bundles, apps, apps[i], n, flavor, registry);
  }

  lemma LastIsDemanded(before: Installs, bundles: seq<Bundle>, apps: seq<Application>, flavor: string,
                       registry: string, n: string, i: nat)
    requires DistinctNames(apps) && IsLastFor(apps, n, i)
    ensures
      var after := AfterApps(before, PlanOf(bundles, flavor, registry), apps, apps);
      n in after && IsInstallFor(apps, apps[i], n, flavor, registry, after[n])
  {
    var plan := PlanOf(bundles, flavor, registry);
    IsForIff(apps, n);
    LastSetsTheRest(before, plan, apps, apps, n, i);
    AskedIsDemanded(bundles, apps, apps[i], n, flavor, registry);
    SameButParameters(AfterApps(before, plan, apps, apps)[n], WantedBy(plan, apps, apps[i])[n]);
  }

  lemma SameButParameters(x: Install, y: Install)
    requires x.(parameters := []) == y.(parameters := [])
    ensures x.application == y.application && x.version == y.version && x.suffix == y.suffix
    ensures x.flavor == y.flavor && x.registry == y.registry
  {
    assert x.(parameters := []).application == x.application && y.(parameters := []).application == y.application;
  }

  /** Installing the applications in turn leaves these installs. */
  lemma InstalledAsDemanded(before: Installs, bundles: seq<Bundle>, apps: seq<Application>, flavor: string,
                            registry: string)
    requires DistinctNames(apps)
    ensures
      var after := AfterApps(before, PlanOf(bundles, flavor, registry), apps, apps);
      InstalledInTurn(before, bundles, apps, flavor, registry, after)
  {
    var plan := PlanOf(bundles, flavor, registry);
    var after := AfterApps(before, plan, apps, apps);
    forall n
      ensures n in after <==> n in before || exists a :: a in apps && IsFor(apps, a, n)
      ensures n in before ==> after[n].parameters == before[n].parameters
      ensures n in before && !(exists a :: a in apps && IsFor(apps, a, n)) ==> after[n] == before[n]
    {
      InstallIsThere(before, plan, apps, n);
    }
    forall n, i: nat | n !in before && IsFirstFor(apps, n, i)
      ensures n in after && AreDemanded(bundles, apps, apps[i], n, after[n].parameters)
    {
      FirstIsDemanded(before, bundles, apps, flavor, registry, n, i);
    }
    forall n, i: nat | IsLastFor(apps, n, i)
      ensures n in after && IsInstallFor(apps, apps[i], n, flavor, registry, after[n])
    {
      LastIsDemanded(before, bundles, apps, flavor, registry, n, i);
    }
  }

  /** For a name that one application only is for, that one decides everything. */
  lemma OnlyOneDecides(before: Installs, bundles: seq<Bundle>, apps: seq<Application>, flavor: string,
                       registry: string, after: Installs, a: Application, n: string)
    requires InstalledInTurn(before, bundles, apps, flavor, registry, after) && DistinctNames(apps)
    requires a in apps && IsFor(apps, a, n) && forall b :: b in apps && IsFor(apps, b, n) ==> b == a
    ensures n in after && IsInstallFor(apps, a, n, flavor, registry, after[n])
    ensures n in before ==> after[n].parameters == before[n].parameters
    ensures n !in before ==> AreDemanded(bundles, apps, a, n, after[n].parameters)
  {
    var i :| 0 <= i < |apps| && apps[i] == a;
    forall j | 0 <= j < |apps| && j != i ensures !IsFor(apps, apps[j], n) {
      NamesDiffer(apps, if i < j then i else j, if i < j then j else i);
      assert apps[j] in apps;
    }
    assert IsFirstFor(apps, n, i) && IsLastFor(apps, n, i);
  }

  /** Wherever one application only is for a name, the install is as that application demands. */
  ghost predicate OnlyOnesDecide(before: Installs, bundles: seq<Bundle>, apps: seq<Application>, flavor: string,
                                 registry: string, after: Installs)
  {
    forall a, n :: a in apps && IsFor(apps, a, n) && (forall b :: b in apps && IsFor(apps, b, n) ==> b == a) ==>
      && n in after && IsInstallFor(apps, a, n, flavor, registry, after[n])
      && if n in before then after[n].parameters == before[n].parameters
         else AreDemanded(bundles, apps, a, n, after[n].parameters)
  }

  lemma SameSuffixes(p: seq<Application>, q: seq<Application>, name: string, s: string)
    requires forall a :: a in p <==> a in q
    ensures IsRequired(p, name) <==> IsRequired(q, name)
    ensures HasSuffix(p, name, s) <==> HasSuffix(q, name, s)
  {
    if x, i: nat :| x in p && IsLastRequirement(x.required, name, i) && x.required[i].suffix == s {
      assert x in q;
    }
    if x, i: nat :| x in q && IsLastRequirement(x.required, name, i) && x.required[i].suffix == s {
      assert x in p;
    }
  }

  lemma SameDemands(p: seq<Application>, q: seq<Application>, a: Application, n: string)
    requires forall a :: a in p <==> a in q
    ensures IsFor(p, a, n) <==> IsFor(q, a, n)
    ensures forall f, r, i :: IsInstallFor(p, a, n, f, r, i) <==> IsInstallFor(q, a, n, f, r, i)
    ensures forall bundles, ps :: AreDemanded(bundles, p, a, n, ps) <==> AreDemanded(bundles, q, a, n, ps)
  {
    forall s ensures HasSuffix(p, a.name, s) <==> HasSuffix(q, a.name, s)
      ensures IsRequired(p, a.name) <==> IsRequired(q, a.name)
    {
      SameSuffixes(p, q, a.name, s);
    }
    SameSuffixes(p, q, a.name, "");
    forall bundles, ps
      ensures AreDemanded(bundles, p, a, n, ps) <==> AreDemanded(bundles, q, a, n, ps)
    {
      forall own, given
        ensures
          AreDemandedFrom(bundles, p, a, n, own, given, ps) <==> AreDemandedFrom(bundles, q, a, n, own, given, ps)
      {
      }
    }
  }

  /** So it is whatever order they are installed in. */
  lemma OnlyOnesDecideInAnyOrder(before: Installs, bundles: seq<Bundle>, apps: seq<Application>, q: seq<Application>,
                                 flavor: string, registry: string, after: Installs)
    requires InstalledInTurn(before, bundles, q, flavor, registry, after)
    requires DistinctNames(apps) && Permutation(q, apps)
    ensures OnlyOnesDecide(before, bundles, apps, flavor, registry, after)
  {
    PermutationKeepsElements(q, apps);
    forall a, n | a in apps && IsFor(apps, a, n) && (forall b :: b in apps && IsFor(apps, b, n) ==> b == a)
      ensures n in after && IsInstallFor(apps, a, n, flavor, registry, after[n])
      ensures n in before ==> after[n].parameters == before[n].parameters
      ensures n !in before ==> AreDemanded(bundles, apps, a, n, after[n].parameters)
    {
      forall b ensures IsFor(q, b, n) <==> IsFor(apps, b, n) {
        SameDemands(q, apps, b, n);
      }
      SameDemands(q, apps, a, n);
      OnlyOneDecides(before, bundles, q, flavor, registry, after, a, n);
    }
  }
}
