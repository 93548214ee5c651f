# kube-bundler, modelled and verified

kube-bundler packages services as bundles, registers them in a cluster as applications, installs
them, and deploys the installs by running jobs. This project models the parts of it that keep state
and proves what they promise over every input and every run:

- **The manifest pipeline.** `Register.dfy` registers bundles in dependency order, `ManifestInstall.dfy`
  fans them out into suffixed installs, `ManifestDeploy.dfy` builds the dependency graph over the
  installs, layers it and deploys it with a stop at the first failure. `InstallOutcome.dfy` reads the
  installs off the manifest and its applications. `InstallOrder.dfy` says when the
  outcome depends on an order of the applications, `InstallLayers.dfy` when it depends on the order
  within layers, `InstallLookup.dfy` when deployment finds what installation created, `Redundancy.dfy`
  what the second-level edges of the graph are worth, and `ManifestPipeline.dfy` composes registration
  and installation. `Graphs.dfy`, `Solver.dfy` and `Layers.dfy` hold the graph theory and a layered
  topological sort, proved against the contract that the callers assume of their library.
- **Parameters and configuration.** `Parameters.dfy` merges defaults, overrides and generated secrets;
  `Config.dfy` adds Get, List, Set and Remove, and the laws that connect them over runs.
- **The supervisors.** `Supervisor.dfy` is an interleaved transition system for the application
  supervisor and for the node supervisor, with every access to a shared map as a step of its own;
  `Reporting.dfy` says what they get done.
- **Bundle files.** `BundleSource.dfy` is the versioned directory with its "latest" pointer, and the
  search over several directories; `TarExtract.dfy` extracts an archive into a tree.
- **One deploy run.** `DeployJob.dfy` deletes, creates and polls a job in a cluster that moves between
  the calls; `Rollout.dfy` waits for the rollout of the resources.

Code that changes state in the source is a class with methods here, proved against specification
functions; the laws are lemmas about those functions. A call on the cluster that can fail does so at
its own choosing, unless its manager is `reliable`: what a method is then bound to achieve is part of
its contract. Where a verdict rests on what the cluster answered, the answers are recorded in a ghost
field, and the contract reads the verdict off them.

Where the code does less than its comments or its names suggest, the model follows the code, a lemma
exhibits the gap and, where there is one, an if-and-only-if draws the line:

- Deploying a manifest holds an install back for what its application requires. What only the manifest
  says is enforced exactly when the graph leads there anyway (`ManifestIsEnforcedIff`); it need not
  (`ManifestOnlyRequirementIsMisplaced`). The edges that are added for the requirements of requirements
  change something exactly when they lead where the applications' requirements do not
  (`SecondLevelEdgesAreRedundantIff`).
- An application that requires the same bundle under two suffixes keeps the last one when installing.
  On a fresh cluster deployment finds all its installs exactly when no suffix is lost that way
  (`FreshInstallIsFoundIff`, `TwoSuffixesAreMissed`).
- A batch is layered by the names that bundles provide, and created, validated and looked up by the
  names they have. A requirement that is installed but outside the batch passes validation and is then
  refused as circular (`IncompleteIff`, `OutsideRequirementIsRefused`). A provided name that is no
  application's is a crash as soon as its turn comes (`RegisterAll`, `RegisterForeign`). And two bundles
  that provide each other's names can be created before what they require: every legal order is in
  order exactly when the graph leads from each node to what its application requires (`InOrderIff`,
  `SwappedNamesAreOutOfOrder`), and goes through closed stores only exactly when it leads to what is
  not in the cluster already, and no installed application has the metadata name of that (`ClosedIff`,
  `SwappedNamesAreLeftOpen`, `CollidingKeysLeaveOpen`).
- Applications that compete for an install name are settled by their order: the first sets the
  parameters, the last the rest. Among the orders that put requirements first this makes a difference
  exactly when the requirements leave open who is last, or leave open who is first among askers with
  different parameters (`OrderIndependence`). A layered sort takes fewer orders; among these it is the
  highest and the lowest layer of the askers that decide (`LayeredOrderIndependence`). The bundles "db"
  and "db-web", required as "web-a" and as "a", make a difference in both (`CompetitorsExist`,
  `CompetitorsDependOnOrder`, `CompetitorsDependOnLayerOrder`). The order of the suffixes of one
  application never does.
- After a successful Set, Get gives the value exactly when no override of the key is a generated secret
  and none follows the one that was written, or when the value was there before (`SetThenGet`).
  Removing an override turns it into a stored secret if there is one (`SetThenRemove`).
- Two installs can share a secret when their names contain dots (`SecretsStayApart`, `SecretsCanMeet`).
- The additional parameters of a requirement are dropped from the first one on that clashes, whether
  they clash or not (`ClashDropsTheRest`).
- Removing an override where there is no global secret yet creates one without data, and so does a
  failed generation (`RemoveLeavesNoData`, `GetSecretValue`). It never gets any data from then on
  (`RunKeepsNoData`), and nothing that is missing is generated anymore: the value would be entered into
  a map that is not there, which is a crash (`NothingIsGeneratedAnymore`).
- A search over several sources never gets past the first one unless "latest" is asked for, because a
  missing file is not reported as "not found" (`ExplicitVersionStopsAtFirstSource`, `SearchFindsIff`).
  Two bundles can share a file when versions contain dashes (`FilenamesCanMeet`,
  `GetReturnsLastPutIff`, `GetLatestReturnsLastPutIff`).
- A file of another size is reported as an error during extraction, although the comment there speaks
  of overwriting; a directory can pass for a file (`SuccessMeansExactSizes`, `DirectoryCanPassForFile`),
  and then extracting again succeeds only if the sizes agree by chance (`ExtractionIsIdempotentIff`).
- The loop that is to wait for the deletion of a job ends after its first look in every case, and its
  success means that the job is gone only if nothing was found (`ResourceManager.Delete`). It is the
  failing creation that keeps a leftover job from being polled.
- A smoketest creates a job of its own and then polls the job of the last apply
  (`DeployManager.Deploy`, `DeployManager.DeploySmoketest`).
- A service entry ends the wait for the rollout, whatever comes after it (`RolloutStatusManager.Wait`).
- The supervisor of nodes deletes the results of the nodes it drops, the one of applications leaves that
  to the workers (`PassDeletesResults`); in both a worker that is cancelled while it holds a result
  stores it all the same (`HeldUntilStored`). An application is reported on as it was listed last
  (`PassTracksLastItems`), a node as it was when its worker was started (`WorkersKeepTheirItem`).
- The worker for a supervisor's own node never ends, not even when it is cancelled
  (`OwnStatusWorkersStay`).

## Model

| member | source | states |
|---|---|---|
| Solver.LayeredTopologicalSort | managers/manifest.go:279-283 | gives layers exactly when there is an entry, no cycle and no missing relationship; the layers are a legal order, each node's needs lie in strictly earlier layers, and no node could stand in an earlier one |
| Layers.LayersAreUnique | managers/manifest.go:279-283 | layers in which nobody could stand earlier put each node into the layer that the graph alone decides |
| Layers.SameLayerGraph | managers/manifest.go:279-283 | so all of them allow the same orders |
| Layers.FlattenGoesByLayers | managers/manifest.go:286-288 | the layers one after the other are a legal order of the graph in which every node needs all of the lower layers |
| Layers.LegalIffNeverDescends | managers/manifest.go:286-288 | the legal orders of that graph are the lists of all nodes along which the layers never go down |
| Layers.LowerIffReached | managers/manifest.go:286-288 | it leads from one node to another exactly if the other stands in a lower layer |
| Graphs.StuckIsUnsolvable | managers/manifest.go:279-283 | if every node still to be placed waits for another one, the graph has a cycle or a missing relationship |
| Graphs.OrderedIsSolvable | managers/manifest.go:279-283 | a graph with a legal order is complete and acyclic |
| Api.SuffixesStayApart | managers/util.go:40-46 | one application's installs have different names for different suffixes |
| Api.NamesOfTwoApplicationsCanMeet | managers/util.go:40-46 | two applications with suffixes can have the same install name |
| Register.ReadApplication | managers/source.go:128-163 | decoding fills in a missing provides list with the bundle's own name, refuses more than one, and changes nothing else |
| Register.RegisterManager.CreateIfNotExists | managers/resource.go:68-84 | an object that exists is left alone and handed back, a new one is stored under its key, and a failure changes nothing |
| Register.RegisterManager.ValidateDependencies | managers/register.go:144-173 | success means that each requirement is installed or in the batch and nobody requires itself; an error names the requirement for which that is false, and the application |
| Register.RegisterManager.Register | managers/register.go:48-76 | a single registration keeps the store closed under requires, whatever the bundle holds, adds at most the bundle's application, and where the cluster can be reached succeeds if and only if the bundle can be read and its requirements are in order |
| Register.RegisterManager.ReadBundles | managers/register.go:81-109 | the batch read, its solver entries and the map by name, or the error of the first bundle that is missing or unreadable |
| Register.RegisterManager.RegisterAll | managers/register.go:79-142 | fails, apart from calls that cannot reach the cluster, exactly for an unreadable bundle, a requirement that offends, or a batch that cannot be layered; otherwise crashes if some provided name is no application's and is done if there is none; so where the cluster can be reached it is done if and only if none of these is the case; on success the applications come back along earliest layers, as a permutation of the batch if and only if names are distinct and all provided; dependency-ordered if the graph leads from applications to what they require, and closed at every single creation, also when cut short, if it leads to what is not in the cluster already, and whose metadata name is not taken there |
| Register.RegisterManager.RegisterBatch | managers/register.go:111-141 | the same from the batch that was read |
| Register.RegisterManager.RegisterLayers | managers/register.go:121-141 | following the layers, the store grows by applications of the batch only, is that of the names created in turn, and stays closed after each creation; a crash means that a name of the layers is no application's |
| Register.RegisterManager.RegisterLayer | managers/register.go:129-139 | the same for one layer |
| Register.RegisterManager.RegisterNamed | managers/register.go:130-138 | the same for one name; it is a crash if and only if the name is no application's |
| Register.RegisterManager.RunCalls | managers/register.go:48-142 | any sequence of Register and RegisterAll calls, failing ones included, passes through closed stores only, if in each batch the graph leads from applications to what they require |
| Register.CreateKeepsClosed | managers/register.go:68-76 | creating an application whose requirements are registered keeps the store closed |
| Register.EdgesOfSelfNamed | managers/register.go:99-118 | when bundles provide themselves, a node of the graph needs exactly what its application requires |
| Register.NodesAreProvided | managers/register.go:99-118 | the nodes of the graph are the names that the bundles provide |
| Register.EdgesAreRequired | managers/register.go:99-118 | a node needs exactly what the applications require that provide its name |
| Register.IncompleteIff | managers/register.go:116-119 | the graph misses a relationship if and only if some requirement is provided by nobody in the batch |
| Register.OutsideRequirementIsRefused | managers/register.go:116-119 | so self-named bundles that require something outside the batch cannot be layered, installed or not |
| Register.RequirementsAreRegistered | managers/register.go:122-141 | once the nodes that a node reaches are handled, its application's requirements are registered |
| Register.FinishedPermutedIff | managers/register.go:122-141 | following a legal order, the batch comes back permuted if and only if its names are distinct and each is provided by some bundle |
| Register.FinishedInOrder | managers/register.go:122-141 | following a legal order, each application comes after those it requires, if the graph leads to them |
| Register.InOrderIff | managers/register.go:99-141 | every legal order lists each application after those it requires if and only if the graph leads from its node to all of them |
| Register.NamesStored | managers/register.go:122-141 | creating the applications of some names adds exactly those whose metadata name was not taken by an installed application |
| Register.ClosedIff | managers/register.go:111-141 | for a batch that passes validation and sorting, whose metadata names differ, every legal order goes through closed stores only if and only if the graph leads from each node to what its application requires and no installed application has the metadata name of that, unless either is in the cluster already |
| Register.SwappedNamesAreOutOfOrder | managers/register.go:99-141 | two bundles that provide each other's names: nothing is refused and nothing crashes, but some legal order creates the first before what it requires |
| Register.SwappedNamesAreLeftOpen | managers/register.go:99-141 | and some legal order then leaves the store open on an empty cluster |
| Register.CollidingKeysLeaveOpen | managers/register.go:68-142 | an instance: an installed application has the metadata name of one in the batch, which is therefore not created; what requires it is, and the store is left open |
| Register.ForeignNameIsUnknown | managers/register.go:130-138 | a bundle that provides another name than its own passes validation and sorting, and its node is no application's |
| Register.RegisterForeign | managers/register.go:79-142 | registering that bundle crashes on every cluster that can be reached |
| Register.GrowthIsConsistent | managers/register.go:48-142 | registering bundles of a source keeps metadata names meaning one application name |
| ManifestInstall.InstallManager.Install | managers/install.go:53-124 | writes exactly one install under its suffixed name; an existing install keeps its parameters; flavor checks refuse it unless forced; nothing else fails where the cluster can be reached |
| ManifestInstall.LastSuffixAt | managers/manifest.go:136 | the suffix recorded for a dependency is that of the last requirement that names it |
| ManifestInstall.LastBundleWins | managers/manifest.go:80-84 | the parameters of a name are those of the last bundle of that name |
| ManifestInstall.BundlesWithParameters | managers/manifest.go:80-84 | exactly the names of bundles have an entry |
| ManifestInstall.LastRequirementWins | managers/manifest.go:81-90 | an install has additional parameters exactly if some requirement of some bundle gives it any, and then those of the last one that does |
| ManifestInstall.ManifestManager.CollectSuffixes | managers/manifest.go:128-138 | for each dependency one suffix per requirer, the last it names |
| ManifestInstall.ManifestManager.InstallSuffixed | managers/manifest.go:145-153 | one install, with the additional parameters given for its suffixed name; it fails if the nodes do not suffice, and where the cluster can be reached for no other reason |
| ManifestInstall.ManifestManager.InstallForRequirers | managers/manifest.go:143-154 | in whatever order the map is walked, and also when requirers share a suffix, the outcome is the same: each suffix installed as wanted; a failure leaves some of the suffixes installed |
| ManifestInstall.ManifestManager.InstallPlain | managers/manifest.go:155-161 | an application nobody requires is installed under its own name |
| ManifestInstall.ManifestManager.InstallApps | managers/manifest.go:140-163 | the installs after all applications, and after a failure those of the applications before and of some suffixes of the next; installs that existed keep their parameters in any case; where the cluster can be reached it succeeds if and only if the nodes suffice or it is forced |
| InstallOutcome.AsksIff | managers/manifest.go:128-161 | an application is installed under its name with each suffix that is the last under which some application requires it, or plainly if none does |
| InstallOutcome.AskedIsDemanded | managers/manifest.go:80-161 | the install asked for has the version of the application, the suffix of the requirement, flavor and registry of the manifest, and the parameters of the last bundle of the name, followed, if the application is required, by name and value of those that the last requirement gives for this install, up to the first clash |
| InstallOutcome.InstalledAsDemanded | managers/manifest.go:78-163 | after installing applications in turn there are the installs from before and these, no others: new ones have the parameters demanded for the first application of the name, old ones keep theirs, and all else is demanded for the last application of the name |
| InstallOutcome.OnlyOneDecides | managers/manifest.go:78-163 | where one application only is for a name, that one decides everything |
| InstallOutcome.OnlyOnesDecideInAnyOrder | managers/manifest.go:140-163 | and does so in any order of the applications |
| ManifestInstall.OneMoreWritten | managers/manifest.go:143-154 | applying one more install, or the same one twice, amounts to writing the set of them |
| ManifestInstall.SuffixIsRecovered | managers/install.go:62-69 | the suffix can be read off the install name |
| InstallOrder.RequirerOf | managers/manifest.go:128-138 | who is recorded as a requirer, and with which suffix |
| InstallOrder.SuffixesOfPermutation | managers/manifest.go:128-138 | the suffix map does not depend on the order of the applications |
| InstallOrder.OrderDoesNotMatter | managers/manifest.go:128-163 | when no two applications share an install name, every order leaves the same installs |
| InstallOrder.NamesAreLegal | managers/register.go:121-141 | orders of the applications that put requirements first are legal orders of their graph |
| InstallOrder.LegalIsInstallOrder | managers/register.go:121-141 | and permutations along a legal order of the graph put requirements first |
| InstallOrder.InstallOrdersFollow | managers/register.go:121-141 | so the orders that put requirements first are those that follow the graph |
| InstallOrder.CanBeFollowed | managers/register.go:121-141 | every legal order of a graph over the names is followed by some order of the applications |
| InstallOrder.FirstSetsParameters | managers/install.go:78-99 | of several applications that ask for an install, the first sets its parameters, unless it was there before |
| InstallOrder.LastSetsTheRest | managers/install.go:78-99 | the last sets all but the parameters |
| InstallOrder.AskersCan | managers/manifest.go:140-163 | in every order that follows a graph the first and the last to ask are among those whom the graph does not keep from it |
| InstallOrder.OrderWithFirst | managers/manifest.go:140-163 | whoever the graph does not keep from being first is first in some order |
| InstallOrder.OrderWithLast | managers/manifest.go:140-163 | whoever the graph does not keep from being last is last in some order |
| InstallOrder.NamesApartIsSettled | managers/manifest.go:140-163 | applications that share no install name leave nothing open |
| InstallOrder.OrderIndependence | managers/manifest.go:128-163 | all orders that put requirements first leave the same installs if and only if for every install one application can be the last to ask, and all that can be the first ask for the same parameters or the install was there before |
| InstallOrder.OrdersAgreeIff | managers/manifest.go:128-163 | the same for the orders that follow any graph over the applications |
| InstallLayers.LayersFollow | managers/manifest.go:128-163 | an order goes layer by layer if and only if it follows the graph of the layers |
| InstallLayers.LayeredOrderIndependence | managers/manifest.go:128-163 | all orders that go layer by layer leave the same installs if and only if one application asks for each in the highest layer, and those in the lowest ask for the same parameters or it was there before |
| InstallLayers.SolvedGraph | managers/register.go:99-118 | for self-named bundles the graph that is layered is the graph of requirements |
| InstallLayers.CompetitorsDependOnOrder | managers/manifest.go:128-163 | two bundles that require nothing and a third that requires both under one install name: two orders that put requirements first leave different installs |
| InstallLayers.CompetitorsDependOnLayerOrder | managers/manifest.go:128-163 | and so do two orders that go layer by layer |
| InstallLayers.CompetitorsExist | managers/util.go:40-46 | such bundles: "db" and "db-web", required as "web-a" and as "a" |
| InstallLookup.InstallSuffixesAreDeployed | managers/manifest.go:128-244 | installation uses only suffixes that deployment looks for, and all of them when none is lost |
| InstallLookup.SuffixesAgree | managers/manifest.go:128-244 | the suffixes agree for every name if and only if no suffix is lost to a second one of the same requirer |
| InstallLookup.LostSuffixIsMissed | managers/manifest.go:136 | when a suffix is lost, some name is installed with strictly fewer suffixes than deployment looks for |
| InstallLookup.LostInstallIsMissed | managers/manifest.go:136 | an install under a lost suffix is looked up and not created |
| InstallLookup.FoundIff | managers/manifest.go:191-251 | after installation deployment finds everything exactly when what it looks up and was not created now was there before |
| InstallLookup.FreshInstallIsFoundIff | managers/manifest.go:128-251 | on a fresh cluster deployment finds everything if and only if no suffix is lost |
| InstallLookup.TwoSuffixesAreMissed | managers/manifest.go:128-251 | a manifest of two bundles after whose installation deployment misses an install |
| InstallLookup.OneSuffixLosesNone | managers/manifest.go:136 | no suffix is lost when each requirer uses one suffix per dependency |
| InstallLookup.InstalledIsLookedUp | managers/manifest.go:128-244 | the installs created are among the installs looked up, and without losses are the same |
| InstallLookup.DeployFindsEveryInstall | managers/manifest.go:191-251 | when no suffix is lost, the installs created are those looked up, and deployment finds each and the application behind it |
| ManifestPipeline.ManifestManager.Install | managers/manifest.go:60-166 | registration and installation together: with reliable managers it succeeds if and only if resources and nodes suffice, or are forced, and the bundles of these names and versions can be registered; what was registered is then installed in turn as the manifest demands; the final installs are those of every order that puts requirements first, or that goes by the layers, when those agree; deployment finds all of them exactly when those not created now were there before; stored parameters are kept on every outcome |
| ManifestDeploy.ManifestManager.CollectSuffixes | managers/manifest.go:189-206 | for each bundle the set of suffixes it is required under |
| ManifestDeploy.ManifestManager.CollectDependencies | managers/manifest.go:209-224 | for each bundle the installs it requires according to the manifest |
| ManifestDeploy.InLookups | managers/manifest.go:189-240 | looked up is each bundle under every suffix that the manifest requires it with, or plainly if it is required by none |
| ManifestDeploy.InManifestRequires | managers/manifest.go:209-224 | what a bundle requires according to the manifest are the requirements of all bundles of its name |
| ManifestDeploy.InSolverDeps | managers/manifest.go:253-268 | the solver is told what the application requires, and what the manifest says the bundles it names require |
| ManifestDeploy.ManifestManager.EntryDeps | managers/manifest.go:253-268 | an entry needs what the application requires and what the manifest says those require |
| ManifestDeploy.ManifestManager.BuildBundleEntries | managers/manifest.go:232-277 | one entry per suffix of a bundle, or an error if and only if an install or its application is missing |
| ManifestDeploy.ManifestManager.BuildEntries | managers/manifest.go:227-277 | the entries denote the solver graph over all installs looked up |
| ManifestDeploy.ManifestManager.Deploy | managers/manifest.go:179-311 | the whole run: when it fails before any deploy, when the graph is refused, that it follows a legal order in full or up to the first failure, that requirements are deployed first, and that the deployed set is dependency-closed on every outcome |
| ManifestDeploy.ManifestManager.ProcessLayers | managers/manifest.go:286-308 | the calls made are those of a faultless run over the flattened layers, up to the first failure |
| ManifestDeploy.ManifestManager.ProcessLayer | managers/manifest.go:287-307 | the same for one layer |
| ManifestDeploy.ManifestManager.DeploySmoketest | managers/deploysmoketest.go:41-59 | a smoketest follows a deploy that succeeded, and only then |
| ManifestDeploy.RunIsSound | managers/manifest.go:286-308 | a run that follows a legal order and stops at the first failure deploys requirements first and leaves a closed set |
| ManifestDeploy.StepsRespectOrder | managers/manifest.go:286-308 | in a faultless run every apply starts after all its requirements were deployed |
| ManifestDeploy.StepsInOrder | managers/manifest.go:286-308 | a faultless run applies each install once, in the order, and smoketests it right after if that was asked for |
| ManifestDeploy.PrefixIsClosed | managers/manifest.go:286-308 | what has been deployed when a run stops is closed under requires |
| Redundancy.SecondLevelEdgesAreRedundantIff | managers/manifest.go:253-268 | the second-level edges leave the transitive closure as it is if and only if the requirements lead wherever they lead, and the legal orders under the same condition or when there is none |
| Redundancy.SecondLevelEdgesAreRedundant | managers/manifest.go:253-268 | in particular when the manifest says no more than the applications and all requirements are entries |
| Redundancy.ManifestIsEnforcedIff | managers/manifest.go:227-283 | every legal order respects what the manifest says bundles require if and only if the solver graph leads from each install to what its bundle is said to require |
| Redundancy.ManifestWithinApplicationsIsEnforced | managers/manifest.go:227-283 | what the applications require as well is always enforced |
| Redundancy.SolverEdgesAreShortcuts | managers/manifest.go:253-268 | then each extra edge only cuts short two edges that are there |
| Redundancy.ManifestOnlyRequirementIsMisplaced | managers/manifest.go:253-268 | an input where the edges exclude an order, and still allow one that breaks the manifest's own requirement |
| Graphs.ForcedIff | managers/manifest.go:279-283 | every legal order puts one node before another if and only if the other reaches it |
| Graphs.LegalOrder | managers/manifest.go:279-283 | a complete graph without a cycle has a legal order, and one that begins with any set of nodes that holds all they need |
| Graphs.SameOrdersIff | managers/manifest.go:253-268 | more edges leave the legal orders as they are if and only if they lead nowhere new or there was no order |
| Graphs.SameClosureIff | managers/manifest.go:253-268 | more edges leave reachability as it is if and only if they lead nowhere new |
| Graphs.ShortcutsAreReached | managers/manifest.go:253-268 | edges that cut short two others lead nowhere new |
| Parameters.ParameterManager.GetSecretValue | managers/parameter.go:154-181 | a stored secret is returned and nothing changes; a missing one is generated and stored, and only it; where the global secret has no data, no secret is ever generated; where there is none, a failed generation leaves one without data |
| Parameters.ParameterManager.GetMergedMap | managers/parameter.go:63-91 | each name has the value of its last item, overrides after definitions; secrets are only ever added, for generating items of this install; failure only for a missing secret, and not where all that is missing can be generated; without data in the global secret success only with nothing to generate, and it stays without |
| Parameters.GenerateSecretValue | managers/parameter.go:205-227 | exactly the formats other than "hex" and "rsa" are refused, by name; generation fails only where the sources do |
| Parameters.SecretsStayApart | managers/parameter.go:160-161 | installs whose names hold no dot never share a secret |
| Parameters.SecretsCanMeet | managers/parameter.go:160-161 | with dots they can |
| Parameters.MergedAt | managers/parameter.go:63-91 | the merged value of a name is that of its last item |
| Parameters.MergedKeys | managers/parameter.go:63-91 | the merged names are the names defined or overridden |
| Parameters.MergedIsStable | managers/parameter.go:63-91 | merging depends on the secrets only through those it asks for |
| Parameters.MergeWithNothingMissing | managers/parameter.go:63-91 | a merge with no secret missing succeeds, changes nothing and has one result |
| Parameters.ParameterManager.MergeAdditionalParameters | managers/parameter.go:110-135 | the original list followed by the name and value of the additions before the first clash |
| Parameters.AdditionsOnlyAdd | managers/parameter.go:110-135 | the originals are kept in place, names stay distinct and nothing is overridden |
| Parameters.ClashDropsTheRest | managers/parameter.go:112-123 | an addition arrives exactly if it comes before the first clash; all that clash with nothing arrive if and only if whatever comes behind the first clash clashes; otherwise their names are missing |
| Parameters.AdditionsExtend | managers/parameter.go:110-135 | what comes out is the original list followed by name and value of the first additions, none of which clashes, up to one that does |
| Parameters.ParameterManager.Validate | managers/parameter.go:137-152 | passes if and only if the last override of every required parameter holds more than white space; the default does not count |
| Parameters.BlankIff | managers/parameter.go:146 | nothing is left of a value without the white space at its ends if and only if it holds nothing else |
| Parameters.LastValueAt | managers/parameter.go:138-145 | the value looked at is that of the last override of the name, or empty |
| Parameters.GivenIff | managers/parameter.go:137-149 | so it counts as set if and only if the last override holds more than white space |
| Parameters.ParameterManager.GetParameterDesc | managers/parameter.go:94-108 | the descriptions of the definitions with the overrides' values |
| Parameters.DescribedNames | managers/parameter.go:94-108 | described are the names defined or overridden |
| Parameters.DescribedAsDefined | managers/parameter.go:94-99 | default and description are those of the last definition, whatever overrides it |
| Parameters.DescribedValue | managers/parameter.go:100-105 | the value is that of the last override, and without one the default |
| Parameters.UndefinedIsBare | managers/parameter.go:102-105 | what is only overridden has neither default nor description |
| Parameters.DescriptionsAgreeWithMerged | managers/parameter.go:63-108 | describing and merging agree on names, and on values where nothing is generated |
| Config.ConfigManager.List | managers/config.go:71-91 | lists by one merge and changes nothing but secrets; it succeeds where all that is missing can be generated |
| Config.ConfigManager.Get | managers/config.go:40-69 | the listed value of the key, or the error for an unknown one; where the install can be listed it succeeds if and only if a definition or override has the key |
| Config.ConfigManager.Set | managers/config.go:93-135 | overwrites the first parameter of the name or appends one; unknown keys are refused, and where the install can be listed no others |
| Config.ConfigManager.Remove | managers/config.go:137-177 | drops the parameters of the name, or resets them to the stored secret; leaves a global secret without data where there was none |
| Config.RunKeepsNamesDistinct | managers/config.go:93-177 | over any run of the four operations parameter names stay distinct |
| Config.RunKeepsSecrets | managers/parameter.go:154-181 | over any run a stored secret is neither dropped nor changed |
| Config.RunKeepsAllButParameters | managers/config.go:40-177 | over any run no install comes or goes, and none changes but for its parameters |
| Config.RunKeepsNoData | managers/parameter.go:154-203 | over any run a global secret without data stays without |
| Config.NothingIsGeneratedAnymore | managers/parameter.go:154-203 | and from then on a listing succeeds only if the install has nothing to generate |
| Config.ListingSettles | managers/parameter.go:63-91 | a listing that succeeds leaves a state in which the install lists as that map, with no secret left to generate |
| Config.ListIsStable | managers/parameter.go:63-91 | once a merge has succeeded, listing the unchanged install after any run gives the same map and changes nothing |
| Config.GetAnswersFromListing | managers/config.go:40-69 | once an install has been listed, Get answers from that listing and changes nothing |
| Config.SetChangesOne | managers/config.go:93-135 | from any state, a Set that succeeds gives the first parameter of the key the value, or appends one where there is none, and leaves everything else as it was; one that fails leaves all parameters |
| Config.SetSucceedsIff | managers/config.go:93-101 | where the install has been listed, Set succeeds if and only if the key is listed |
| Config.RemoveDropsOrResets | managers/config.go:137-177 | from any state, Remove fails if and only if there is no such install; without a stored secret all parameters of the key are gone and the others remain in their order; with one each parameter of the key stands in its place with the secret as its value and its generate section; nothing else changes |
| Config.RemoveThenGet | managers/config.go:40-177 | from any state, after a Remove the key answers with its definition, default or generated secret, or as unknown, if no secret is stored for it; with the secret if one is and the key was overridden; every other key from the same item as before |
| Config.RemoveThenList | managers/config.go:71-177 | where the install has been listed, it lists as before after Remove but for the key, which has the stored secret, its default, or is gone |
| Config.SetThenList | managers/config.go:93-135 | after a Set from any state the install lists as it did in Set, with the new value of the key exactly if no override of the key is a generated secret or follows the one written |
| Config.SetThenGet | managers/config.go:40-135 | then Get returns the value that was set, and if not, exactly when the key had that value before |
| Config.SetThenGetOther | managers/config.go:40-135 | and of any other key what it was |
| Config.LastAfterSet | managers/config.go:111-127 | Set changes the override that counts only of its key, and only if no other override of the key follows |
| Config.SetThenRemove | managers/config.go:93-177 | from any state, Set and Remove of a key without an override restore what Set listed if and only if a secret stored for the key equals the listed value |
| Config.RemoveUndoesSet | managers/config.go:93-177 | they do restore it when secrets are stored only for generating definitions |
| Config.DuplicateNamesHideSet | managers/config.go:111-119 | an instance: with a name twice in the list, the first is set and the last is read |
| Supervisor.RunsKeepInv | managers/status_app.go:80-194 | the invariant of tracker, workers, results and control holds in every state of every interleaving |
| Supervisor.StepKeepsInv | cmd/cluster-status/main.go:79-202 | each single step of either supervisor or of a worker keeps it |
| Supervisor.ResultsHaveWriters | managers/status_app.go:125-194 | each result key belongs to a worker that has not left and deletes the key when it does |
| Supervisor.TrackedAndUncancelledCorrespond | managers/status_app.go:80-123 | between passes tracked names and uncancelled workers correspond one to one |
| Supervisor.PassTracksItsList | managers/status_app.go:80-123 | when a pass ends, exactly the names on its list are tracked |
| Supervisor.ResultsSettle | managers/status_app.go:80-194 | between passes, once cancelled workers have gone, only tracked names have results |
| Supervisor.CancelledCanLeave | cmd/cluster-status/main.go:167-202 | between passes the cancelled workers can always leave by steps of their own, which settles the results |
| Supervisor.OwnStatusWorkersStay | cmd/cluster-status/main.go:150-164 | the worker for the node's own status is there for good |
| Reporting.CheckIsStored | managers/status_app.go:127-180 | a check of a tracked application, or of a node, holds a result that can be stored, and once stored is the one for the name: about the tracked item, or the one the node was started with |
| Reporting.CheckWithoutSubject | managers/status_app.go:127-128 | a check of an application that is not tracked stores nothing |
| Reporting.HeldUntilStored | cmd/cluster-status/main.go:167-191 | whatever happens in between, what a worker stores is what it held |
| Reporting.PassTracksLastItems | managers/status_app.go:80-123 | when a pass over applications ends, each name is tracked with the item listed last for it |
| Reporting.WorkersKeepTheirItem | cmd/cluster-status/main.go:87-100 | a worker keeps the item it was started with, however often its name is listed anew |
| Reporting.ItemsWereListed | managers/status_app.go:80-123 | what is tracked, and what workers were started with, was on one of the lists |
| Reporting.PassDeletesResults | cmd/cluster-status/main.go:102-113 | a pass on its own deletes the results of the nodes that were tracked and are not listed, and no others; the one over applications deletes none |
| Reporting.PassCanEnd | managers/status_app.go:80-123 | from every state the supervisor can end its pass by steps of its own |
| Reporting.WorkersCanCatchUp | managers/status_app.go:125-194 | between passes the workers on their own can bring the results up to date: exactly the tracked names that are checked have one, each about what its worker reports on |
| Reporting.ResultsCanCatchUp | managers/status_app.go:80-194 | from every state of every run, any list can be gone over next, after which exactly its names, but for the own node, have results, those of applications about the item listed last |
| BundleSource.FilenameIsInjective | managers/source.go:69-71 | without dashes in versions the file name determines name and version |
| BundleSource.FilenamesCanMeet | managers/source.go:69-71 | with dashes it does not |
| BundleSource.DirectorySource.Get | managers/source.go:238-262 | answers from the file of the version, "latest" through the metadata |
| BundleSource.AnswerIff | managers/source.go:238-262 | a bundle is answered if and only if the file of the version, for "latest" that of the metadata, holds it, and goes by the name and version inside; "not found" means exactly that there is no metadata for "latest" |
| BundleSource.DirectorySource.Put | managers/source.go:264-308 | writes the bundle and the pointer; a failure leaves the file of the bundle as it was, broken or complete and touches no other, and there is none where writing does not fail |
| BundleSource.GetReturnsLastPut | managers/source.go:238-308 | after any puts a version is answered with its last put, if no other bundle shares its file |
| BundleSource.GetReturnsLastPutIff | managers/source.go:238-308 | in general exactly if no later put of another bundle took the file |
| BundleSource.GetLatestReturnsLastPut | managers/source.go:238-308 | "latest" is answered with the last put of the name, if no other bundle shares its file |
| BundleSource.GetLatestReturnsLastPutIff | managers/source.go:238-308 | in general exactly if no later put took the file of the last put of the name |
| BundleSource.DashFreeFilesAreOwn | managers/source.go:69-71 | without dashes no two bundles share a file |
| BundleSource.PutLeavesOthers | managers/source.go:264-308 | a put leaves the answers for other files alone |
| BundleSource.MultiSource.Get | managers/source.go:210-223 | the first answer other than "not found" |
| BundleSource.FirstOtherAnswer | managers/source.go:210-223 | that of the first source that does not say "not found", whatever it is; "not found" if all do |
| BundleSource.ExplicitVersionStopsAtFirstSource | managers/source.go:210-262 | a version other than "latest" is looked for in the first source only |
| BundleSource.SearchFindsIff | managers/source.go:210-262 | the first source that has the bundle is reached if and only if it is the first one, or "latest" is asked for and no earlier source has metadata for the name |
| TarExtract.Extractor.ExtractTarToDir | managers/registry.go:494-551 | the loop over the archive has the outcome of entry-wise extraction and keeps everything that was there |
| TarExtract.EntryOnlyAdds | managers/registry.go:505-548 | one entry only adds: directories on its path, or the file of its path with its data |
| TarExtract.MkdirAllIff | managers/registry.go:513 | making a directory fails if and only if a file stands at its path or on the way to it, and otherwise adds it and all that is missing on the way |
| TarExtract.EntrySucceedsIff | managers/registry.go:511-548 | a directory entry succeeds if and only if no file is at or above its path; a regular one if and only if its path is taken by something of the announced size, or is free in an existing directory with complete data; any other always |
| TarExtract.EndsAtFirstFailure | managers/registry.go:499-549 | the first entry for which that is not so ends the extraction, with its error and its tree |
| TarExtract.ExtractionSucceedsIff | managers/registry.go:494-551 | extraction succeeds if and only if the archive is intact and each entry succeeds on the tree left by those before |
| TarExtract.ExtractionKeeps | managers/registry.go:494-551 | no file or directory that existed changes, on success or failure |
| TarExtract.SuccessSatisfies | managers/registry.go:494-551 | on success each directory entry is a directory and each regular entry's path is taken |
| TarExtract.SuccessMeansExactSizes | managers/registry.go:522-542 | after a success all regular entries are files of exactly the header's size if and only if no regular entry's path was a directory or lies on the path of a directory entry |
| TarExtract.NewFilesHoldTheirData | managers/registry.go:516-546 | a new file holds the data of the first regular entry for its path |
| TarExtract.ExtractionIsIdempotent | managers/registry.go:494-551 | extracting again onto the result succeeds and changes nothing, if files are apart from directories |
| TarExtract.ExtractionIsIdempotentIff | managers/registry.go:494-551 | extracting again never changes anything, and succeeds if and only if each directory in the place of a file has the size announced for the file |
| TarExtract.DirectoryCanPassForFile | managers/registry.go:522-531 | a directory whose stat size is the header's passes for the file |
| DeployJob.ResourceManager.Delete | managers/resource.go:126-155 | success takes one look, and means that the job is gone exactly if nothing was found; if something was, the job is still there; it succeeds where the cluster can be reached |
| DeployJob.ResourceManager.Create | managers/resource.go:59-66 | creates a job with an id no job had, and only if there is no job of that name |
| DeployJob.DeployManager.CreateOrPatchConfigmap | managers/deploy.go:287-331 | the config map holds the merged parameters, and its failures leave the config maps alone |
| DeployJob.DeployManager.PollJob | managers/deploy.go:434-491 | success, failure and timeout by the last condition of the last answer, all before it being jobs without a condition; of the job that had the polled name at the start; the bound on the number of reads |
| DeployJob.MaxReadsIsCeiling | managers/deploy.go:456-470 | the bound is the timeout in seconds rounded up, and at least one |
| DeployJob.SmoketestHasItsOwnName | managers/util.go:48-54 | the name a job is created under is the polled one if and only if the action is not the smoketest |
| DeployJob.RunsAreInOrder | managers/deploy.go:151-173 | of a whole run and of every beginning of it: deletions are only asked for the job to be created, which comes after the deletion, a look at it and the config map; what is read after it is the install's own job; a smoketest never deletes that |
| DeployJob.DeployManager.ReplaceJob | managers/deploy.go:151-167 | delete, config map and create in this order, a failure leaving a beginning of them; on success the job of that name is the new one; where nothing can fail by itself, only a job that is still there does |
| DeployJob.DeployManager.RunJob | managers/deploy.go:151-173 | the job read last is the one created here if and only if the action is not the smoketest, and the verdict is read off the answers |
| DeployJob.DeployManager.WaitForRollout | managers/rollout.go:54-110 | waits in the namespace of the merged parameters, generates no secret and cannot fail to merge after the config map was written; an error of the rollout is that of the first resource that was not waited for |
| DeployJob.DeployManager.Deploy | managers/deploy.go:89-184 | success means complete as read off the job created in this call, for the smoketest off one that was there before; on every outcome deletions, creation, config map and reads are for the right names in the right order; once the job was created the last answer decides, and after a success the rollout; nothing is touched unless the install can be deployed, and where the cluster can be reached exactly then |
| DeployJob.DeployManager.DeploySmoketest | managers/deploysmoketest.go:41-59 | it ends as the deploy does if that fails, and otherwise as the smoketest; when both succeed, the smoketest's verdict was read off the apply job, not off the job the smoketest created |
| Rollout.DoneDeployment | helpers/rolloutstatus/rollout_status.go:40-73 | a deployment reported done is observed and runs no old replica; if no more are available than run, all are updated and available and enough |
| Rollout.DoneWithErrorOnlyWhenNotRolling | helpers/rolloutstatus/rollout_status.go:76-133 | done and an error come together only for objects that do not roll |
| Rollout.DoneIff | helpers/rolloutstatus/rollout_status.go:40-133 | done without an error means, for each kind, exactly that the object is observed and rolled out: enough updated, available or ready replicas, none old, the partition reached or the revisions equal, the last condition complete, not suspended; and which objects end the wait with which error |
| Rollout.RolloutStatusManager.WaitFor | resources/deployment_resource.go:262-290 | ends with the first look that decides: done, an error, or unreachable for the kinds that are not polled again; with a timeout if and only if none does, after the whole time; there is at least one look, if there is time at all |
| Rollout.RolloutStatusManager.WaitForKubegres | resources/kubegres_resource.go:228-239 | fails if the sets cannot be listed, and otherwise ends with the first set that is not done; on success each set listed was seen done, in order |
| Rollout.RolloutStatusManager.Wait | managers/rollout.go:54-110 | success means that every resource before the first service entry was waited on in order; failure that all before the failing one were, and that the looks at that one say so |
| Rollout.WaitedResourcesAreReady | managers/rollout.go:74-109 | each object behind the resources before the first service entry was seen rolled out, as an object of the kind named and under the suffixed name |
| Rollout.WaitedDeploymentsAreUp | managers/rollout.go:79-109 | each deployment among them was seen up under its suffixed name |

## Left out

- The dependency solver library is not part of this model; the sort proved here merges entries that share an identifier and gives nothing for an empty list, a cycle or a missing relationship, and puts each node into the earliest layer it can stand in.
- Register.RegisterManager.RegisterAll: what comes back is described when a metadata name stands for one specification; two applications of one batch that share a metadata name but not a name are left out of the claims about closedness.
- Parameters.GenerateSecretValue: the value generated is arbitrary; random bytes, keys and their encoding, and the numbers of bytes and bits they fail for, are not modelled.
- Supervisor.StepKeepsInv: the contents of results are reduced to the name and a revision of the item they belong to; health checks, timers and the HTTP handlers are not modelled.
- Rollout.RolloutStatusManager.WaitFor: the wait loops of the resource kinds differ only in their status test and in whether a failed read is retried, and are one loop here; a cron job without a suspend field, which the source dereferences, does not occur.
- DeployJob.DeployManager.PollJob: printing the logs only lets time pass; the wait for pods inside it, which has no deadline after a failure, is assumed to end.
- DeployJob.DeployManager.CreateOrPatchConfigmap: the JSON encoding and the deploy image and registry fields that are written along are not modelled.
- ManifestDeploy.ManifestManager.Deploy: the lookups fail for missing objects only, and a single deploy is an event with an outcome; DeployJob says what is behind it.
- Parameters.GlobalSecret.Fetch: that a secret stored with empty data comes back without a map is how the cluster API encodes optional fields; it is taken as given.
- Config.ConfigManager.Set: API failures on writing are not modelled, neither here nor in Remove or in the merge.
- All objects live in one namespace, and one command at a time changes the cluster; only the cluster's own controllers and the supervisors' workers run beside it.
- Real time is a clock that only moves forward; sleeps and calls advance it by at least what they take.
- The append in MergeAdditionalParameters may write into spare capacity of the caller's slice in the source; lists are values here.
- Paths are lists of components: separators inside names, links and permissions are not modelled.
- The cluster-wide CPU and memory check of a manifest is a boolean input.
- Sources other than directories (S3, lists of files), codecs for YAML, JSON and zip, Go templates, Docker and registry calls, pod exec, log streaming, metrics and table printing would only add input and output.
- Diff, Describe, the node status of status_node.go, status calculation, name sanitising and sorting of rows would add easy members only.
- The controllers are stubs.
