/** A manifest from its bundles to its installs: registration, then installation, then what deployment finds. */
module ManifestPipeline {
  import opened Wrappers
  import opened Api
  import R = Register
  import I = ManifestInstall
  import O = InstallOrder
  import Y = InstallLayers
  import S = Solver
  import L = InstallLookup
  import D = ManifestDeploy
  import X = InstallOutcome

  datatype Error =
    | InsufficientResources
    | RegistrationFailed(cause: R.Error)
    | InstallationFailed(reason: I.Error)
    | Crashed

  /** The bundle references of a manifest. */
  function RefsOf(bundles: seq<Bundle>): seq<BundleRef> {
    seq(|bundles|, i requires 0 <= i < |bundles| => BundleRef(bundles[i].name, bundles[i].version))
  }

  /** The applications are those of the bundles, by name and version. */
  ghost predicate AreRead(bundles: seq<Bundle>, source: map<BundleRef, Application>, batch: seq<Application>) {
    && |batch| == |bundles|
    && forall i :: 0 <= i < |bundles| ==>
      R.Reads(source, BundleRef(bundles[i].name, bundles[i].version), batch[i])
  }

  lemma BatchIsRead(bundles: seq<Bundle>, source: map<BundleRef, Application>, batch: seq<Application>)
    requires R.IsBatch(RefsOf(bundles), source, batch)
    ensures AreRead(bundles, source, batch)
  {
    forall i | 0 <= i < |bundles|
      ensures R.Reads(source, BundleRef(bundles[i].name, bundles[i].version), batch[i])
    {
      assert RefsOf(bundles)[i] == BundleRef(bundles[i].name, bundles[i].version);
    }
  }

  /** Self-named bundles are distinct applications under distinct names. */
  lemma SelfNamedIsDistinct(batch: seq<Application>)
    requires R.SelfNamed(batch)
    ensures O.DistinctNames(batch)
  {
    forall a ensures multiset(batch)[a] <= 1 {
      R.CountsOfDistinct(batch, a);
    }
    forall a, b | a in batch && b in batch && a.name == b.name ensures a == b {
      var i :| 0 <= i < |batch| && batch[i] == a;
      var j :| 0 <= j < |batch| && batch[j] == b;
      assert i == j;
    }
  }

  /** The order the applications come in does not matter for which installs they ask for. */
  lemma OrderKeepsRequests(batch: seq<Application>, apps: seq<Application>)
    requires O.DistinctNames(batch) && O.Permutation(apps, batch)
    ensures L.InstallNames(apps) == L.InstallNames(batch)
    ensures L.NoSuffixLost(apps) <==> L.NoSuffixLost(batch)
    ensures L.AppRequirements(apps) == L.AppRequirements(batch)
  {
    O.PermutationKeepsElements(apps, batch);
    forall a ensures O.InstallNamesOf(apps, a) == O.InstallNamesOf(batch, a) {
      O.SuffixesOfPermutation(batch, apps, a.name);
    }
    forall a, r | a in batch && r in a.required ensures L.Lost(apps, r) <==> L.Lost(batch, r) {
    }
  }

  /** What the installs of a batch are like, once it has been registered in some order. */
  lemma InstallsOfBatch(bundles: seq<Bundle>, before: I.Installs, plan: I.Plan, batch: seq<Application>,
                        apps: seq<Application>, store: R.Store)
    requires R.SelfNamed(batch) && O.IsInstallOrder(batch, apps) && L.AllStored(batch, store)
    ensures var installs := I.AfterApps(before, plan, apps, apps);
      && (O.NamesApart(batch) ==> installs == I.AfterApps(before, plan, batch, batch))
      && (O.OrderSettled(before, plan, batch, O.AppGraph(batch)) ==>
            forall q :: O.IsInstallOrder(batch, q) ==> installs == I.AfterApps(before, plan, q, q))
      && (D.Found(D.Cluster(installs, store), D.Lookups(bundles)) <==>
            D.Found(D.Cluster(before, store), L.Missed(bundles, batch)))
      && (L.Match(bundles, batch) && L.NoSuffixLost(batch) ==> D.Found(D.Cluster(installs, store), D.Lookups(bundles)))
  {
    SelfNamedIsDistinct(batch);
    O.PermutationKeepsElements(apps, batch);
    OrderKeepsRequests(batch, apps);
    if O.NamesApart(batch) {
      O.OrderDoesNotMatter(before, plan, batch, apps);
    }
    if O.OrderSettled(before, plan, batch, O.AppGraph(batch)) {
      O.InstallOrdersFollow(batch, apps);
      forall q | O.IsInstallOrder(batch, q)
        ensures I.AfterApps(before, plan, apps, apps) == I.AfterApps(before, plan, q, q)
      {
        O.InstallOrdersFollow(batch, q);
        O.SettledOrders(before, plan, batch, O.AppGraph(batch), apps, q);
      }
    }
    L.FoundIff(bundles, before, plan, apps, store);
    if L.Match(bundles, batch) && L.NoSuffixLost(batch) {
      L.DeployFindsEveryInstall(bundles, before, plan, apps, store);
    }
  }

  /** The registered applications go by the layers they were registered in. */
  lemma RegisteredByLayers(batch: seq<Application>, layers: seq<seq<string>>, apps: seq<Application>)
    requires R.SelfNamed(batch) && O.Permutation(apps, batch) && R.AppNamesInOrder(apps) == S.Flatten(layers)
    requires S.IsLayering(S.GraphOf(R.Entries(batch)), layers)
    ensures S.IsLayering(O.AppGraph(batch), layers) && Y.GoesByLayers(batch, layers, apps)
  {
    SelfNamedIsDistinct(batch);
    Y.SolvedGraph(batch);
    Y.FlattenIsFollowed(batch, layers, apps);
  }

  /** Where the layers settle who decides, every order that goes by them leaves the same installs. */
  lemma InstallsByLayers(before: I.Installs, plan: I.Plan, batch: seq<Application>,
                         layers: seq<seq<string>>, apps: seq<Application>, q: seq<Application>)
    requires R.SelfNamed(batch) && S.IsLayering(O.AppGraph(batch), layers)
    requires Y.LayersSettled(before, plan, batch, layers)
    requires Y.GoesByLayers(batch, layers, apps) && Y.GoesByLayers(batch, layers, q)
    ensures I.AfterApps(before, plan, apps, apps) == I.AfterApps(before, plan, q, q)
  {
    SelfNamedIsDistinct(batch);
    Y.LayeredOrderIndependence(before, plan, batch, layers);
  }

  /** What comes back from registration has distinct names. */
  lemma FinishedAreDistinct(store: R.Store, batch: seq<Application>, layers: seq<seq<string>>,
                            apps: seq<Application>)
    requires R.OneProvided(batch) && R.IsFinished(store, batch, S.Flatten(layers), apps)
    requires S.IsLayering(S.GraphOf(R.Entries(batch)), layers)
    ensures O.DistinctNames(apps)
  {
    var names := R.AppNamesInOrder(apps);
    forall i, j | 0 <= i < j < |apps| ensures apps[i].name != apps[j].name {
      assert names[i] != names[j];
    }
    forall a ensures multiset(apps)[a] <= 1 {
      R.CountsOfDistinct(apps, a);
    }
  }

  /** What the installation of self-named bundles that were registered along the layers has led to. */
  ghost predicate IsOutcome(bundles: seq<Bundle>, before: I.Installs, flavor: string, registry: string,
                            batch: seq<Application>, layers: seq<seq<string>>, after: D.Cluster)
  {
    var plan := I.PlanOf(bundles, flavor, registry);
    && X.OnlyOnesDecide(before, bundles, batch, flavor, registry, after.installs)
    // No order matters that the code leaves open, unless two applications compete for an install,
    && (O.NamesApart(batch) ==> after.installs == I.AfterApps(before, plan, batch, batch))
    && (O.OrderSettled(before, plan, batch, O.AppGraph(batch)) ==>
          forall q :: O.IsInstallOrder(batch, q) ==> after.installs == I.AfterApps(before, plan, q, q))
    && S.IsLayering(O.AppGraph(batch), layers) && S.IsEarliest(O.AppGraph(batch), layers)
    && (Y.LayersSettled(before, plan, batch, layers) ==>
          forall q :: Y.GoesByLayers(batch, layers, q) ==> after.installs == I.AfterApps(before, plan, q, q))
    // and deployment finds its installs exactly when those not created now were there before.
    && (D.Found(after, D.Lookups(bundles)) <==>
          D.Found(D.Cluster(before, after.apps), L.Missed(bundles, batch)))
    && (L.Match(bundles, batch) && L.NoSuffixLost(batch) ==> D.Found(after, D.Lookups(bundles)))
  }

  lemma OutcomeOfInstall(bundles: seq<Bundle>, before: I.Installs, flavor: string, registry: string,
                         batch: seq<Application>, layers: seq<seq<string>>, apps: seq<Application>, store: R.Store)
    requires R.SelfNamed(batch) && R.IsFinished(store, batch, S.Flatten(layers), apps)
    requires S.IsLayering(S.GraphOf(R.Entries(batch)), layers) && S.IsEarliest(S.GraphOf(R.Entries(batch)), layers)
    ensures
      var after := I.AfterApps(before, I.PlanOf(bundles, flavor, registry), apps, apps);
      IsOutcome(bundles, before, flavor, registry, batch, layers, D.Cluster(after, store))
  {
    var plan := I.PlanOf(bundles, flavor, registry);
    var after := I.AfterApps(before, plan, apps, apps);
    R.SelfNamedProvides(batch);
    R.SelfNamedReaches(batch);
    SelfNamedIsDistinct(batch);
    FinishedAreDistinct(store, batch, layers, apps);
    X.InstalledAsDemanded(before, bundles, apps, flavor, registry);
    X.OnlyOnesDecideInAnyOrder(before, bundles, batch, apps, flavor, registry, after);
    RegisteredByLayers(batch, layers, apps);
    Y.SolvedGraph(batch);
    if Y.LayersSettled(before, plan, batch, layers) {
      forall q | Y.GoesByLayers(batch, layers, q) ensures after == I.AfterApps(before, plan, q, q) {
        InstallsByLayers(before, plan, batch, layers, apps, q);
      }
    }
    InstallsOfBatch(bundles, before, plan, batch, apps, store);
  }

  /** What was registered along the layers has been installed in turn, as the manifest demands. */
  ghost predicate IsInstalled(bundles: seq<Bundle>, before: I.Installs, flavor: string, registry: string,
                              batch: seq<Application>, layers: seq<seq<string>>, after: D.Cluster)
  {
    && R.OneProvided(batch)
    && exists apps ::
      && R.IsFinished(after.apps, batch, S.Flatten(layers), apps)
      && X.InstalledInTurn(before, bundles, apps, flavor, registry, after.installs)
  }

  lemma Installed(bundles: seq<Bundle>, before: I.Installs, flavor: string, registry: string,
                  batch: seq<Application>, layers: seq<seq<string>>, apps: seq<Application>, store: R.Store)
    requires R.OneProvided(batch) && R.IsFinished(store, batch, S.Flatten(layers), apps)
    requires S.IsLayering(S.GraphOf(R.Entries(batch)), layers) && S.IsEarliest(S.GraphOf(R.Entries(batch)), layers)
    ensures
      var after := D.Cluster(I.AfterApps(before, I.PlanOf(bundles, flavor, registry), apps, apps), store);
      && IsInstalled(bundles, before, flavor, registry, batch, layers, after)
      && (R.SelfNamed(batch) ==> IsOutcome(bundles, before, flavor, registry, batch, layers, after))
  {
    FinishedAreDistinct(store, batch, layers, apps);
    X.InstalledAsDemanded(before, bundles, apps, flavor, registry);
    if R.SelfNamed(batch) {
      OutcomeOfInstall(bundles, before, flavor, registry, batch, layers, apps, store);
    }
  }

  class ManifestManager {
    const registerMgr: R.RegisterManager
    const install: I.ManifestManager

    constructor (registerMgr: R.RegisterManager, install: I.ManifestManager)
      ensures this.registerMgr == registerMgr && this.install == install
    {
      this.registerMgr, this.install := registerMgr, install;
    }

    /**
     * Installs a manifest. The order of suffixes never matters, that within a layer only where two
     * applications compete for an install, and what deployment finds does not depend on either.
     */
    method Install(bundles: seq<Bundle>, source: map<BundleRef, Application>, flavor: string, registry: string,
                   sufficient: bool, force: bool)
      returns (error: Option<Error>, ghost batch: seq<Application>, ghost layers: seq<seq<string>>)
      requires registerMgr.Valid()
      modifies registerMgr, install.installMgr
      ensures registerMgr.Valid()
      ensures !sufficient && !force ==> error == Some(InsufficientResources)
      ensures error == Some(InsufficientResources) ==> registerMgr.apps == old(registerMgr.apps)
      ensures error.None? || error.value.InstallationFailed? ==> R.IsBatch(RefsOf(bundles), source, batch)
      ensures error.None? ==> AreRead(bundles, source, batch)
      ensures I.ParametersKept(old(install.installMgr.installs), install.installMgr.installs)
      ensures error.Some? && !error.value.InstallationFailed? ==>
        install.installMgr.installs == old(install.installMgr.installs)
      // With reliable managers it succeeds exactly if resources and nodes suffice and the bundles can be registered.
      ensures registerMgr.reliable && install.installMgr.reliable ==>
        (error.None? <==>
           && (sufficient || force) && install.Allowed(I.PlanOf(bundles, flavor, registry), force)
           && R.CanRegister(old(registerMgr.apps), RefsOf(bundles), source, batch))
      // On success, with one specification per metadata name, what was registered is installed in turn, as demanded.
      ensures error.None? && R.SameKeySameSpec(old(registerMgr.apps), batch) ==>
        IsInstalled(bundles, old(install.installMgr.installs), flavor, registry, batch, layers,
          D.Cluster(install.installMgr.installs, registerMgr.apps))
      // If bundles provide themselves as well, the order is of no concern where that is settled, and so on.
      ensures error.None? && R.SelfNamed(batch) && R.SameKeySameSpec(old(registerMgr.apps), batch) ==>
        IsOutcome(bundles, old(install.installMgr.installs), flavor, registry, batch, layers,
          D.Cluster(install.installMgr.installs, registerMgr.apps))
    {
      batch, layers := [], [];
      if !sufficient && !force {
        return Some(InsufficientResources), batch, layers;
      }
      var parameters, additional := install.CollectParameters(bundles);
      ghost var store, installs := registerMgr.apps, install.installMgr.installs;
      var registered;
      registered, batch, layers := registerMgr.RegisterAll(RefsOf(bundles), source);
      match registered
      case Panicked => return Some(Crashed), batch, layers;
      case Failed(cause) => return Some(RegistrationFailed(cause)), batch, layers;
      case Done(apps) =>
        var failed := install.InstallApps(I.Plan(flavor, registry, parameters, additional), apps, force);
        if failed.Some? {
          return Some(InstallationFailed(failed.value)), batch, layers;
        }
        if R.SameKeySameSpec(store, batch) {
          Installed(bundles, installs, flavor, registry, batch, layers, apps, registerMgr.apps);
        }
        BatchIsRead(bundles, source, batch);
        error := None;
    }
  }
}
