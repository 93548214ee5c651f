/** Installation of a manifest: every application once for each suffix it is required with. */
module ManifestInstall {
  import opened Wrappers
  import opened Api
  import P = Parameters

  type Installs = map<string, Install>

  datatype Error = FlavorNotFound | TooFewNodes | ApiFailure

  /** The suffix that a list of requirements leaves recorded for `name`: the last one. */
  function LastSuffix(rs: seq<Require>, name: string): Option<string> {
    if rs == [] then None
    else if rs[|rs| - 1].name == name then Some(rs[|rs| - 1].suffix)
    else LastSuffix(rs[..|rs| - 1], name)
  }

  /** `i` is the last requirement of the name. */
  ghost predicate IsLastRequirement(rs: seq<Require>, name: string, i: nat) {
    i < |rs| && rs[i].name == name && forall j :: i < j < |rs| ==> rs[j].name != name
  }

  lemma {:induction false} LastSuffixAt(rs: seq<Require>, name: string)
    ensures forall i: nat :: IsLastRequirement(rs, name, i) ==> LastSuffix(rs, name) == Some(rs[i].suffix)
    ensures LastSuffix(rs, name).Some? ==> exists i: nat :: IsLastRequirement(rs, name, i)
    ensures LastSuffix(rs, name).None? <==> forall r :: r in rs ==> r.name != name
  {
    if rs != [] {
      var front, n := rs[..|rs| - 1], |rs| - 1;
      LastSuffixAt(front, name);
      assert forall r :: r in rs <==> r in front || r == rs[n];
      if rs[n].name == name {
        assert IsLastRequirement(rs, name, n);
      } else {
        forall i: nat ensures IsLastRequirement(rs, name, i) <==> IsLastRequirement(front, name, i) {
          SameLastRequirement(rs, name, i);
        }
      }
    }
  }

  lemma SameLastRequirement(rs: seq<Require>, name: string, i: nat)
    requires rs != [] && rs[|rs| - 1].name != name
    ensures IsLastRequirement(rs, name, i) <==> IsLastRequirement(rs[..|rs| - 1], name, i)
  {
  }

  function WithSuffix(before: map<string, string>, requirer: string, suffix: Option<string>): map<string, string> {
    if suffix.None? then before else before[requirer := suffix.value]
  }

  function SuffixesAt(m: map<string, map<string, string>>, name: string): map<string, string> {
    if name in m then m[name] else map[]
  }

  /** The suffixes recorded for `name`, keyed by the application that requires it. */
  function ByRequirer(apps: seq<Application>, name: string): map<string, string> {
    if apps == [] then map[]
    else
      var app := apps[|apps| - 1];
      WithSuffix(ByRequirer(apps[..|apps| - 1], name), app.name, LastSuffix(app.required, name))
  }

  /** The suffixes that `name` is installed with; without a requirer it is installed plainly. */
  function InstallSuffixes(apps: seq<Application>, name: string): set<string> {
    if ByRequirer(apps, name) == map[] then {""} else ByRequirer(apps, name).Values
  }

  /** What the manifest fixes for all installs. */
  datatype Plan = Plan(
    flavor: string,
    registry: string,
    parameters: map<string, seq<ParameterSpec>>,
    additional: map<string, seq<ParameterSpec>>)

  /** The plan of a manifest. */
  function PlanOf(bundles: seq<Bundle>, flavor: string, registry: string): Plan {
    Plan(flavor, registry, BundleParameters(bundles), AdditionalParameters(bundles))
  }

  function At(m: map<string, seq<ParameterSpec>>, key: string): seq<ParameterSpec> {
    if key in m then m[key] else []
  }

  /** The parameters each bundle of the manifest gives; a later bundle of the same name wins. */
  function BundleParameters(bundles: seq<Bundle>): map<string, seq<ParameterSpec>> {
    if bundles == [] then map[]
    else
      var b := bundles[|bundles| - 1];
      BundleParameters(bundles[..|bundles| - 1])[b.name := b.parameters]
  }

  function AdditionalOf(before: map<string, seq<ParameterSpec>>, rs: seq<Require>): map<string, seq<ParameterSpec>> {
    if rs == [] then before
    else
      var m, r := AdditionalOf(before, rs[..|rs| - 1]), rs[|rs| - 1];
      if r.parameters != [] then m[RequiredName(r) := r.parameters] else m
  }

  /** The parameters that requirements give for the installs they name. */
  function AdditionalParameters(bundles: seq<Bundle>): map<string, seq<ParameterSpec>> {
    if bundles == [] then map[]
    else AdditionalOf(AdditionalParameters(bundles[..|bundles| - 1]), bundles[|bundles| - 1].required)
  }

  /** A name has parameters exactly if a bundle has it. */
  lemma {:induction false} BundlesWithParameters(bundles: seq<Bundle>, name: string)
    ensures name in BundleParameters(bundles) <==> exists b :: b in bundles && b.name == name
  {
    if bundles != [] {
      var front, last := bundles[..|bundles| - 1], bundles[|bundles| - 1];
      BundlesWithParameters(front, name);
      assert forall b :: b in bundles <==> b in front || b == last;
    }
  }

  /** The last bundle of a name gives the parameters of that name. */
  lemma {:induction false} LastBundleWins(bundles: seq<Bundle>, i: nat)
    requires i < |bundles| && forall j :: i < j < |bundles| ==> bundles[j].name != bundles[i].name
    ensures bundles[i].name in BundleParameters(bundles)
    ensures BundleParameters(bundles)[bundles[i].name] == bundles[i].parameters
  {
    if i < |bundles| - 1 {
      LastBundleWins(bundles[..|bundles| - 1], i);
    }
  }

  /** All requirements of the bundles, in the order in which they stand. */
  function AllRequired(bundles: seq<Bundle>): seq<Require> {
    if bundles == [] then [] else AllRequired(bundles[..|bundles| - 1]) + bundles[|bundles| - 1].required
  }

  /** The requirement gives parameters for the install `n`. */
  predicate GivesParameters(r: Require, n: string) {
    RequiredName(r) == n && r.parameters != []
  }

  /** `i` is the last requirement that gives parameters for `n`. */
  ghost predicate IsLastGiver(rs: seq<Require>, n: string, i: nat) {
    i < |rs| && GivesParameters(rs[i], n) && forall j :: i < j < |rs| ==> !GivesParameters(rs[j], n)
  }

  lemma {:induction false} AdditionalOfConcat(before: map<string, seq<ParameterSpec>>, a: seq<Require>, b: seq<Require>)
    ensures AdditionalOf(before, a + b) == AdditionalOf(AdditionalOf(before, a), b)
  {
    if b == [] {
      assert a + b == a;
    } else {
      assert (a + b)[..|a + b| - 1] == a + b[..|b| - 1];
      AdditionalOfConcat(before, a, b[..|b| - 1]);
    }
  }

  /** The bundles do not matter for the additional parameters, only their requirements in a row. */
  lemma {:induction false} AdditionalInARow(bundles: seq<Bundle>)
    ensures AdditionalParameters(bundles) == AdditionalOf(map[], AllRequired(bundles))
  {
    if bundles != [] {
      AdditionalInARow(bundles[..|bundles| - 1]);
      AdditionalOfConcat(map[], AllRequired(bundles[..|bundles| - 1]), bundles[|bundles| - 1].required);
    }
  }

  lemma {:induction false} GivenInARow(rs: seq<Require>, n: string)
    ensures n in AdditionalOf(map[], rs) <==> exists r :: r in rs && GivesParameters(r, n)
  {
    if rs != [] {
      var front, last := rs[..|rs| - 1], rs[|rs| - 1];
      GivenInARow(front, n);
      assert n in AdditionalOf(map[], rs) <==> n in AdditionalOf(map[], front) || GivesParameters(last, n);
      assert forall r :: r in rs <==> r in front || r == last;
    }
  }

  lemma {:induction false} LastInARow(rs: seq<Require>, n: string, i: nat)
    requires IsLastGiver(rs, n, i)
    ensures n in AdditionalOf(map[], rs) && AdditionalOf(map[], rs)[n] == rs[i].parameters
  {
    if i < |rs| - 1 {
      LastInARow(rs[..|rs| - 1], n, i);
      assert !GivesParameters(rs[|rs| - 1], n);
    }
  }

  /**
   * An install has additional parameters exactly if a requirement gives some, and they are those of
   * the last one that does.
   */
  lemma LastRequirementWins(bundles: seq<Bundle>, n: string, i: nat)
    ensures n in AdditionalParameters(bundles) <==> exists r :: r in AllRequired(bundles) && GivesParameters(r, n)
    ensures IsLastGiver(AllRequired(bundles), n, i) ==>
      n in AdditionalParameters(bundles) && AdditionalParameters(bundles)[n] == AllRequired(bundles)[i].parameters
  {
    AdditionalInARow(bundles);
    GivenInARow(AllRequired(bundles), n);
    if IsLastGiver(AllRequired(bundles), n, i) {
      LastInARow(AllRequired(bundles), n, i);
    }
  }

  /** The install the manifest asks for; `required` says whether some application requires it. */
  function Wanted(plan: Plan, app: Application, suffix: string, required: bool): Install {
    var name := GetResourceName(app.name, suffix);
    var own := At(plan.parameters, app.name);
    Install(app.name, app.version, suffix, plan.flavor, plan.registry,
            if required && At(plan.additional, name) != [] then P.WithAdditions(own, plan.additional[name]) else own)
  }

  /** An install is written as asked for, except that an existing one keeps its parameters. */
  function Written(before: Installs, name: string, wanted: Install): Install {
    if name in before then wanted.(parameters := before[name].parameters) else wanted
  }

  /** The suffix under which an application got the install `name`. */
  function SuffixIn(appName: string, name: string): string {
    if |name| <= |appName| then "" else name[|appName| + 1..]
  }

  lemma SuffixIsRecovered(appName: string, suffix: string)
    ensures SuffixIn(appName, GetResourceName(appName, suffix)) == suffix
  {
    if suffix != "" {
      assert (appName + "-" + suffix)[|appName| + 1..] == suffix;
    }
  }

  /** The installs asked for on behalf of one application, by name. */
  function WantedMap(plan: Plan, app: Application, suffixes: set<string>, required: bool): Installs {
    map n | n in SuffixedNames(app.name, suffixes) :: Wanted(plan, app, SuffixIn(app.name, n), required)
  }

  function WantedBy(plan: Plan, all: seq<Application>, app: Application): Installs {
    WantedMap(plan, app, InstallSuffixes(all, app.name), ByRequirer(all, app.name) != map[])
  }

  /** All of the wanted installs written. */
  function AllWritten(before: Installs, wanted: Installs): Installs {
    before + map n | n in wanted :: Written(before, n, wanted[n])
  }

  /** The installs after the applications in `some`, which are among `all`, have been installed in turn. */
  function AfterApps(before: Installs, plan: Plan, all: seq<Application>, some: seq<Application>): Installs {
    if some == [] then before
    else AllWritten(AfterApps(before, plan, all, some[..|some| - 1]), WantedBy(plan, all, some[|some| - 1]))
  }

  /** Nothing was removed, and every install that was there kept its parameters. */
  ghost predicate ParametersKept(before: Installs, after: Installs) {
    forall n :: n in before ==> n in after && after[n].parameters == before[n].parameters
  }

  /** Writing one more wanted install, or one of them a second time, is the same as writing them all. */
  lemma OneMoreWritten(before: Installs, wanted: Installs, name: string, w: Install)
    requires name in wanted ==> wanted[name] == w
    ensures AllWritten(before, wanted)[name := Written(AllWritten(before, wanted), name, w)] ==
      AllWritten(before, wanted[name := w])
  {
    var now := AllWritten(before, wanted);
    assert name !in wanted ==> (name in now <==> name in before);
  }

  lemma OneMoreWanted(plan: Plan, app: Application, done: set<string>, s: string, required: bool)
    ensures
      var name, w := GetResourceName(app.name, s), Wanted(plan, app, s, required);
      var before := WantedMap(plan, app, done, required);
      (name in before ==> before[name] == w) && before[name := w] == WantedMap(plan, app, done + {s}, required)
  {
    SuffixIsRecovered(app.name, s);
    assert SuffixedNames(app.name, done + {s}) == SuffixedNames(app.name, done) + {GetResourceName(app.name, s)};
  }

  /** Writing the install of one more suffix extends the set of suffixes written. */
  lemma OneMoreInstall(before: Installs, plan: Plan, app: Application, done: set<string>, s: string, required: bool)
    ensures
      var now, name := AllWritten(before, WantedMap(plan, app, done, required)), GetResourceName(app.name, s);
      now[name := Written(now, name, Wanted(plan, app, s, required))] ==
        AllWritten(before, WantedMap(plan, app, done + {s}, required))
  {
    OneMoreWanted(plan, app, done, s, required);
    OneMoreWritten(before, WantedMap(plan, app, done, required), GetResourceName(app.name, s),
      Wanted(plan, app, s, required));
  }

  lemma WritingKeepsParameters(before: Installs, wanted: Installs)
    ensures ParametersKept(before, AllWritten(before, wanted))
  {
  }

  lemma NothingToWrite(before: Installs, plan: Plan, app: Application, required: bool)
    ensures AllWritten(before, WantedMap(plan, app, {}, required)) == before
  {
    assert WantedMap(plan, app, {}, required) == map[];
  }

  /** The installs when installation stops within application `k`, with some of its suffixes done. */
  ghost predicate StopsWithin(before: Installs, plan: Plan, apps: seq<Application>, k: nat, done: set<string>,
                              after: Installs)
  {
    && k < |apps| && done <= InstallSuffixes(apps, apps[k].name)
    && after == AllWritten(AfterApps(before, plan, apps, apps[..k]),
         WantedMap(plan, apps[k], done, ByRequirer(apps, apps[k].name) != map[]))
  }

  class InstallManager {
    const flavors: map<string, nat>
    const nodes: nat
    // Whether the cluster can always be reached.
    const reliable: bool
    var installs: Installs

    constructor (flavors: map<string, nat>, nodes: nat, reliable: bool, installs: Installs)
      ensures this.flavors == flavors && this.nodes == nodes && this.reliable == reliable && this.installs == installs
    {
      this.flavors, this.nodes, this.reliable, this.installs := flavors, nodes, reliable, installs;
    }

    predicate EnoughNodes(flavor: string) {
      flavor in flavors && nodes >= flavors[flavor]
    }

    /** Writes one install, preserving the parameters of one that exists. */
    method Install(appName: string, name: string, version: string, suffix: string, flavor: string, registry: string,
                   force: bool, parameters: seq<ParameterSpec>) returns (r: Result<Install, Error>)
      modifies this
      ensures !EnoughNodes(flavor) && !force ==> r.Err? && r.error != ApiFailure
      ensures EnoughNodes(flavor) || force ==> r.Ok? || (r == Err(ApiFailure) && !reliable)
      ensures r.Err? ==> installs == old(installs)
      ensures r.Ok? ==>
        var installName := GetResourceName(if name != "" then name else appName, suffix);
        && r.value ==
          Written(old(installs), installName, Api.Install(appName, version, suffix, flavor, registry, parameters))
        && installs == old(installs)[installName := r.value]
    {
      if flavor !in flavors {
        if !force {
          return Err(FlavorNotFound);
        }
      } else if nodes < flavors[flavor] {
        if !force {
          return Err(TooFewNodes);
        }
      }
      var installName := appName;
      if name != "" {
        installName := name;
      }
      if suffix != "" {
        installName := installName + "-" + suffix;
      }
      var listed: bool, applied: bool := *, *;
      if !listed && !reliable {
        return Err(ApiFailure);
      }
      var foundExisting := installName in installs;
      var install := Api.Install(appName, version, suffix, flavor, registry, []);
      if !foundExisting {
        install := install.(parameters := parameters);
      } else {
        install := install.(parameters := installs[installName].parameters);
      }
      if !applied && !reliable {
        return Err(ApiFailure);
      }
      installs := installs[installName := install];
      r := Ok(install);
    }
  }

  class ManifestManager {
    const installMgr: InstallManager
    const secret: P.GlobalSecret

    constructor (installMgr: InstallManager, secret: P.GlobalSecret)
      ensures this.installMgr == installMgr && this.secret == secret
    {
      this.installMgr, this.secret := installMgr, secret;
    }

    /** The flavor's demand of nodes is met, or of no concern. */
    predicate Allowed(plan: Plan, force: bool) {
      installMgr.EnoughNodes(plan.flavor) || force
    }

    /** The parameters of the bundles and the additional ones of their requirements. */
    method CollectParameters(bundles: seq<Bundle>)
      returns (parameters: map<string, seq<ParameterSpec>>, additional: map<string, seq<ParameterSpec>>)
      ensures parameters == BundleParameters(bundles) && additional == AdditionalParameters(bundles)
    {
      parameters, additional := map[], map[];
      for i := 0 to |bundles|
        invariant parameters == BundleParameters(bundles[..i]) && additional == AdditionalParameters(bundles[..i])
      {
        var bundle := bundles[i];
        parameters := parameters[bundle.name := bundle.parameters];
        ghost var before := additional;
        for j := 0 to |bundle.required|
          invariant additional == AdditionalOf(before, bundle.required[..j])
        {
          var require := bundle.required[j];
          if |require.parameters| > 0 {
            additional := additional[RequiredName(require) := require.parameters];
          }
          assert bundle.required[..j + 1][..j] == bundle.required[..j];
        }
        assert bundle.required[..|bundle.required|] == bundle.required;
        assert bundles[..i + 1][..i] == bundles[..i];
      }
      assert bundles[..|bundles|] == bundles;
    }

    /** The suffix map; each requirer keeps a single suffix per dependency. */
    method CollectSuffixes(apps: seq<Application>) returns (suffixes: map<string, map<string, string>>)
      ensures forall n :: SuffixesAt(suffixes, n) == ByRequirer(apps, n)
      ensures forall n :: n in suffixes ==> suffixes[n] != map[]
    {
      suffixes := map[];
      for i := 0 to |apps|
        invariant forall n :: SuffixesAt(suffixes, n) == ByRequirer(apps[..i], n)
        invariant forall n :: n in suffixes ==> suffixes[n] != map[]
      {
        var app := apps[i];
        ghost var before := suffixes;
        for j := 0 to |app.required|
          invariant forall n ::
            SuffixesAt(suffixes, n) == WithSuffix(SuffixesAt(before, n), app.name, LastSuffix(app.required[..j], n))
          invariant forall n :: n in suffixes ==> suffixes[n] != map[]
        {
          var require := app.required[j];
          assert app.required[..j + 1][..j] == app.required[..j];
          if require.name !in suffixes {
            suffixes := suffixes[require.name := map[]];
          }
          var entry := suffixes[require.name][app.name := require.suffix];
          assert app.name in entry;
          suffixes := suffixes[require.name := entry];
        }
        assert app.required[..|app.required|] == app.required;
        assert apps[..i + 1][..i] == apps[..i];
      }
      assert apps[..|apps|] == apps;
    }

    /** Installs one application under one suffix, with the additional parameters that its requirers give. */
    method InstallSuffixed(plan: Plan, app: Application, suffix: string, force: bool) returns (error: Option<Error>)
      modifies installMgr
      ensures error.None? ==>
        var name := GetResourceName(app.name, suffix);
        installMgr.installs ==
          old(installMgr.installs)[name := Written(old(installMgr.installs), name, Wanted(plan, app, suffix, true))]
      ensures error.Some? ==> installMgr.installs == old(installMgr.installs)
      ensures !Allowed(plan, force) ==> error.Some?
      ensures Allowed(plan, force) && installMgr.reliable ==> error.None?
    {
      var pm := new P.ParameterManager(secret, app.name, app.definitions, At(plan.parameters, app.name));
      var appParameters := pm.parameters;
      var suffixedResourceName := GetResourceName(app.name, suffix);
      if |At(plan.additional, suffixedResourceName)| > 0 {
        appParameters := pm.MergeAdditionalParameters(plan.additional[suffixedResourceName]);
      }
      var r := installMgr.Install(app.name, app.name, app.version, suffix, plan.flavor, plan.registry, force,
        appParameters);
      error := if r.Err? then Some(r.error) else None;
    }

    /** Installs one application for all of its requirers, which Go walks in no particular order. */
    method InstallForRequirers(plan: Plan, app: Application, byRequirer: map<string, string>, force: bool)
      returns (error: Option<Error>)
      modifies installMgr
      ensures error.None? ==>
        installMgr.installs == AllWritten(old(installMgr.installs), WantedMap(plan, app, byRequirer.Values, true))
      // A failure leaves the installs for some of the suffixes.
      ensures error.Some? ==>
        exists done :: done <= byRequirer.Values
          && installMgr.installs == AllWritten(old(installMgr.installs), WantedMap(plan, app, done, true))
      ensures ParametersKept(old(installMgr.installs), installMgr.installs)
      ensures !Allowed(plan, force) && byRequirer != map[] ==> error.Some?
      ensures Allowed(plan, force) && installMgr.reliable ==> error.None?
    {
      ghost var before := installMgr.installs;
      var left := byRequirer.Keys;
      ghost var done: set<string> := {};
      NothingToWrite(before, plan, app, true);
      while left != {}
        invariant left <= byRequirer.Keys
        invariant done == set q | q in byRequirer.Keys - left :: byRequirer[q]
        invariant !Allowed(plan, force) ==> left == byRequirer.Keys
        invariant installMgr.installs == AllWritten(before, WantedMap(plan, app, done, true))
        invariant ParametersKept(before, installMgr.installs)
      {
        var requirer :| requirer in left;
        var suffix := byRequirer[requirer];
        error := InstallSuffixed(plan, app, suffix, force);
        if error.Some? {
          assert done <= byRequirer.Values;
          return;
        }
        OneMoreInstall(before, plan, app, done, suffix, true);
        WritingKeepsParameters(before, WantedMap(plan, app, done + {suffix}, true));
        done := done + {suffix};
        left := left - {requirer};
      }
      assert done == byRequirer.Values;
      error := None;
    }

    /** Installs an application that nobody requires; additional parameters play no part. */
    method InstallPlain(plan: Plan, app: Application, force: bool) returns (error: Option<Error>)
      modifies installMgr
      ensures error.None? ==>
        installMgr.installs == AllWritten(old(installMgr.installs), WantedMap(plan, app, {""}, false))
      ensures error.Some? ==> installMgr.installs == old(installMgr.installs)
      ensures ParametersKept(old(installMgr.installs), installMgr.installs)
      ensures !Allowed(plan, force) ==> error.Some?
      ensures Allowed(plan, force) && installMgr.reliable ==> error.None?
    {
      var r := installMgr.Install(app.name, app.name, app.version, "", plan.flavor, plan.registry, force,
        At(plan.parameters, app.name));
      if r.Err? {
        return Some(r.error);
      }
      OneMoreInstall(old(installMgr.installs), plan, app, {}, "", false);
      assert {} + {""} == {""};
      NothingToWrite(old(installMgr.installs), plan, app, false);
      WritingKeepsParameters(old(installMgr.installs), WantedMap(plan, app, {""}, false));
      error := None;
    }

    /** Installs the applications; on success the outcome is the same for every order of the suffixes. */
    method InstallApps(plan: Plan, apps: seq<Application>, force: bool) returns (error: Option<Error>)
      modifies installMgr
      ensures error.None? ==> installMgr.installs == AfterApps(old(installMgr.installs), plan, apps, apps)
      ensures error.Some? ==>
        exists k, done :: StopsWithin(old(installMgr.installs), plan, apps, k, done, installMgr.installs)
      ensures ParametersKept(old(installMgr.installs), installMgr.installs)
      ensures !Allowed(plan, force) && apps != [] ==> error.Some?
      ensures Allowed(plan, force) && installMgr.reliable ==> error.None?
    {
      ghost var before := installMgr.installs;
      var suffixes := CollectSuffixes(apps);
      for i := 0 to |apps|
        invariant installMgr.installs == AfterApps(before, plan, apps, apps[..i])
        invariant ParametersKept(before, installMgr.installs)
        invariant !Allowed(plan, force) ==> i == 0
      {
        var app := apps[i];
        ghost var now := installMgr.installs;
        assert apps[..i + 1][..i] == apps[..i];
        if app.name in suffixes {
          assert suffixes[app.name] == ByRequirer(apps, app.name);
          error := InstallForRequirers(plan, app, suffixes[app.name], force);
          if error.Some? {
            ghost var done :| done <= suffixes[app.name].Values &&
              installMgr.installs == AllWritten(now, WantedMap(plan, app, done, true));
            assert StopsWithin(before, plan, apps, i, done, installMgr.installs);
            return;
          }
        } else {
          assert ByRequirer(apps, app.name) == map[];
          error := InstallPlain(plan, app, force);
          if error.Some? {
            NothingToWrite(now, plan, app, false);
            assert StopsWithin(before, plan, apps, i, {}, installMgr.installs);
            return;
          }
        }
      }
      assert apps[..|apps|] == apps;
      error := None;
    }
  }
}
