/** One deploy run: replace a job, poll it, and wait for the rollout of what it deployed. */
module DeployJob {
  import opened Wrappers
  import opened Api
  import M = ManifestDeploy
  import P = Parameters
  import R = Rollout

  const APPLY_OUTPUTS := "apply outputs"
  const DELETE := "delete"
  const SMOKETEST := "smoketest"

  datatype Error =
    | InstallNotFound | FlavorNotFound | ApplicationNotFound
    | Invalid(parameter: P.Error) | JobNotDeleted | NotMerged(merge: P.Error) | ConfigNotWritten
    | JobNotCreated | JobNotRead | DeployFailed | TimeoutExpired | RolloutFailed(rollout: R.Error)

  datatype Job = Job(uid: nat, conditions: seq<R.JobCondition>)

  type Jobs = map<string, Job>

  /** The contents of the config map that a job mounts. */
  datatype Config = Config(parameters: map<string, string>, install: Install, required: seq<Require>, flavor: string)

  datatype Answer = Found(job: Job) | NotFound | Unavailable

  /** The error that comes with an answer. */
  datatype ApiError = NoError | NotFoundError | OtherError

  function ErrorOf(answer: Answer): ApiError {
    match answer
    case Found(_) => NoError
    case NotFound => NotFoundError
    case Unavailable => OtherError
  }

  function IgnoreNotFound(error: ApiError): ApiError {
    if error == NotFoundError then NoError else error
  }

  /** A call that the manager makes on the cluster. */
  datatype Call = Delete(name: string) | WriteConfig(name: string) | Create(name: string) | Read(name: string)

  /** What the cluster may do to jobs on its own: change their conditions and remove them. */
  predicate Moves(before: Jobs, after: Jobs) {
    forall n :: n in after ==> n in before && after[n].uid == before[n].uid
  }

  /** As `Moves`, except that what is called `name`, if anything, is the job with the given id. */
  ghost predicate Replaced(before: Jobs, after: Jobs, name: string, uid: nat) {
    forall n :: n in after ==> if n == name then after[n].uid == uid else n in before && after[n].uid == before[n].uid
  }

  function NameWithAction(name: string, action: string): string {
    if action == SMOKETEST then name + "-smoketest" else name
  }

  function ConfigName(name: string): string {
    GetResourceName(name, "") + "-config"
  }

  function Reads(name: string, n: nat): seq<Call> {
    seq(n, _ => Read(name))
  }

  /** The calls of a whole run: the job is deleted, looked at once, created anew and then polled. */
  function FullRun(name: string, action: string, polls: nat): seq<Call> {
    var job := NameWithAction(name, action);
    [Delete(job), Read(job), WriteConfig(ConfigName(name)), Create(job)] + Reads(name, polls)
  }

  /** The name that a run creates its job under. */
  ghost predicate IsJobName(name: string, action: string, job: string) {
    job == if action == "smoketest" then name + "-smoketest" else name
  }

  /**
   * The calls of one run, on the job to be replaced and the one to be polled: deletions are only ever
   * asked for the first; it is created only after it was deleted and then looked at and the config map
   * was written; whatever is read after that is the second, and before that the first.
   */
  ghost predicate InOrder(run: seq<Call>, job: string, polled: string, config: string) {
    forall i :: 0 <= i < |run| ==>
      match run[i]
      case Delete(n) => n == job && i == 0
      case WriteConfig(n) => n == config && Before(run, Delete(job), Read(job), i)
      case Create(n) => n == job && Before(run, Read(job), WriteConfig(config), i)
      case Read(n) => n == if Create(job) in run[..i] then polled else job
  }

  /** The one call was made before the other, and both before the call at `i`, which is the first of its kind. */
  ghost predicate Before(run: seq<Call>, first: Call, second: Call, i: nat)
    requires i < |run|
  {
    && run[i] !in run[..i]
    && exists j, k :: 0 <= j < k < i && run[j] == first && run[k] == second
  }

  /** Every beginning of a whole run is in this order, and a smoketest never deletes the job it polls. */
  lemma RunsAreInOrder(name: string, action: string, polls: nat, run: seq<Call>)
    requires run <= FullRun(name, action, polls)
    ensures exists job :: IsJobName(name, action, job) && InOrder(run, job, name, name + "-config")
    ensures action == "smoketest" ==> Delete(name) !in run
  {
    var job, config := NameWithAction(name, action), ConfigName(name);
    assert ConfigName(name) == name + "-config";
    var head := [Delete(job), Read(job), WriteConfig(config), Create(job)];
    assert FullRun(name, action, polls)[..4] == head;
    forall i | 0 <= i < |run| ensures run[i] == if i < 4 then head[i] else Read(name) {
    }
    CallsAreInOrder(run, job, name, config);
    SmoketestHasItsOwnName(name, action);
  }

  lemma CallsAreInOrder(run: seq<Call>, job: string, polled: string, config: string)
    requires forall i :: 0 <= i < |run| ==>
      run[i] == if i == 0 then Delete(job) else if i == 1 then Read(job) else if i == 2 then WriteConfig(config)
                else if i == 3 then Create(job) else Read(polled)
    ensures InOrder(run, job, polled, config)
  {
    if |run| > 2 {
      assert run[0] == Delete(job) && run[1] == Read(job);
      assert Before(run, Delete(job), Read(job), 2);
    }
    if |run| > 3 {
      assert run[1] == Read(job) && run[2] == WriteConfig(config);
      assert Before(run, Read(job), WriteConfig(config), 3);
    }
    forall i | 4 <= i < |run| ensures Create(job) in run[..i] {
      assert run[..i][3] == Create(job);
    }
  }

  /** The error is one of polling, which comes after the job was created. */
  predicate Created(error: Error) {
    error in {DeployFailed, TimeoutExpired, JobNotRead}
  }

  predicate EndsWith(job: Job, condition: R.JobCondition) {
    job.conditions != [] && job.conditions[|job.conditions| - 1] == condition
  }

  /** What the last condition of a job means for the run. */
  function VerdictOf(job: Job): Option<Error> {
    if EndsWith(job, R.Complete) then None
    else if EndsWith(job, R.Failed) then Some(DeployFailed)
    else Some(TimeoutExpired)
  }

  /** All of the answers are jobs without a condition. */
  ghost predicate AllUndecided(answers: seq<Answer>) {
    forall i :: 0 <= i < |answers| ==> answers[i].Found? && answers[i].job.conditions == []
  }

  /** The verdict of a poll goes by the last answer, and all before it were jobs without a condition. */
  ghost predicate Verdict(answers: seq<Answer>, error: Option<Error>, last: Option<Job>) {
    && answers != [] && AllUndecided(answers[..|answers| - 1])
    && match answers[|answers| - 1]
       case Found(job) =>
         if job.conditions == [] then error == Some(TimeoutExpired) && last.None?
         else
           && last == Some(job)
           && (error.None? <==> EndsWith(job, R.Complete))
           && (error == Some(DeployFailed) <==> EndsWith(job, R.Failed))
       case _ => error == Some(JobNotRead) && last.None?
  }

  lemma LastDecides(before: seq<Answer>, answer: Answer, error: Option<Error>, last: Option<Job>)
    requires AllUndecided(before) && (answer.Found? ==> answer.job.conditions != [])
    requires if answer.Found? then error == VerdictOf(answer.job) && last == Some(answer.job)
             else error == Some(JobNotRead) && last.None?
    ensures Verdict(before + [answer], error, last)
  {
    assert (before + [answer])[..|before|] == before;
  }

  /** How often a job is read at most: once for every second begun, and at least once. */
  function MaxReads(timeout: int): nat {
    if timeout <= R.SECOND then 1 else (timeout + R.SECOND - 1) / R.SECOND
  }

  lemma MaxReadsIsCeiling(timeout: int, n: nat)
    ensures n < MaxReads(timeout) <==> n == 0 || n * R.SECOND < timeout
  {
    var m := MaxReads(timeout);
    if timeout > R.SECOND {
      assert (m - 1) * R.SECOND < timeout <= m * R.SECOND;
    }
  }

  /** The name under which a smoketest is created is never the one that is polled. */
  lemma SmoketestHasItsOwnName(name: string, action: string)
    ensures NameWithAction(name, action) == name <==> action != SMOKETEST
  {
    assert |name + "-smoketest"| == |name| + |"-smoketest"|;
  }

  /** A replaced job stays replaced while the cluster moves. */
  lemma ReplacedStays(before: Jobs, middle: Jobs, after: Jobs, name: string, uid: nat)
    requires Replaced(before, middle, name, uid) && Moves(middle, after)
    ensures Replaced(before, after, name, uid)
  {
  }

  /** The client for the cluster's jobs and config maps. */
  class ResourceManager {
    var jobs: Jobs
    var configs: map<string, Config>
    var next: nat
    // Whether the cluster can always be reached.
    const reliable: bool
    ghost var calls: seq<Call>
    // What the reads have found.
    ghost var answers: seq<Answer>

    /** No job has the id that the next one will get. */
    predicate Valid()
      reads this
    {
      forall n :: n in jobs ==> jobs[n].uid < next
    }

    constructor (reliable: bool)
      ensures Valid() && jobs == map[] && configs == map[] && this.reliable == reliable
    {
      jobs, configs, next, this.reliable := map[], map[], 0, reliable;
      calls, answers := [], [];
    }

    /** The cluster moves on. */
    method Settle()
      requires Valid()
      modifies this`jobs
      ensures Valid() && Moves(old(jobs), jobs)
    {
      var now: Jobs := *;
      if Moves(jobs, now) {
        jobs := now;
      }
    }

    method Get(name: string) returns (answer: Answer)
      requires Valid()
      modifies this`jobs, this`calls, this`answers
      ensures Valid() && Moves(old(jobs), jobs) && calls == old(calls) + [Read(name)]
      ensures answers == old(answers) + [answer]
      ensures answer.Found? ==> name in jobs && answer.job == jobs[name]
      ensures answer.NotFound? ==> name !in jobs
      ensures reliable ==> !answer.Unavailable?
    {
      Settle();
      calls := calls + [Read(name)];
      var reachable: bool := *;
      answer := if !reachable && !reliable then Unavailable else if name in jobs then Found(jobs[name]) else NotFound;
      answers := answers + [answer];
    }

    /** Fails as long as there is a job of this name. */
    method Create(name: string) returns (ok: bool)
      requires Valid()
      modifies this`jobs, this`next, this`calls
      ensures Valid() && calls == old(calls) + [Call.Create(name)]
      ensures ok ==> next == old(next) + 1 && name in jobs && Replaced(old(jobs), jobs, name, old(next))
      ensures !ok ==> next == old(next) && Moves(old(jobs), jobs)
      ensures reliable && !ok ==> name in jobs
    {
      Settle();
      calls := calls + [Call.Create(name)];
      var reachable: bool := *;
      ok := (reachable || reliable) && name !in jobs;
      if ok {
        jobs := jobs[name := Job(next, [])];
        next := next + 1;
      }
    }

    /**
     * Asks for the deletion of a job and looks at it until the exit test is met, which is on the first
     * look that can be taken, whether the job is gone or still there. Success means that it is gone
     * exactly if nothing was found.
     */
    method Delete(name: string) returns (ok: bool, answer: Answer)
      requires Valid()
      modifies this`jobs, this`calls, this`answers
      ensures Valid() && Moves(old(jobs), jobs)
      ensures reliable ==> ok
      ensures |answers| >= |old(answers)|
      ensures ok ==> calls == old(calls) + [Call.Delete(name)] + Reads(name, 1)
      ensures calls == old(calls) + [Call.Delete(name)] || calls == old(calls) + [Call.Delete(name)] + Reads(name, 1)
      ensures ok ==> (answer == NotFound && name !in jobs) || (name in jobs && answer == Found(jobs[name]))
      ensures !ok ==> answer == Unavailable
    {
      calls := calls + [Call.Delete(name)];
      answer := Unavailable;
      Settle();
      var reachable: bool, removed: bool := *, *;
      if !reachable && !reliable {
        return false, answer;
      }
      if removed {
        jobs := jobs - {name};
      }
      var met := false;
      while !met
        invariant Valid() && Moves(old(jobs), jobs) && |answers| >= |old(answers)|
        invariant calls == old(calls) + [Call.Delete(name)] + Reads(name, if met then 1 else 0)
        invariant met ==> (answer == NotFound && name !in jobs) || (name in jobs && answer == Found(jobs[name]))
        decreases !met
      {
        answer := Get(name);
        var err := ErrorOf(answer);
        if IgnoreNotFound(err) == NoError {
          met := true;
        } else if err != NoError {
          return false, answer;
        }
      }
      ok := true;
    }

    method CreateOrPatch(name: string, config: Config) returns (ok: bool)
      requires Valid()
      modifies this`jobs, this`configs, this`calls
      ensures Valid() && Moves(old(jobs), jobs) && calls == old(calls) + [WriteConfig(name)]
      ensures configs == if ok then old(configs)[name := config] else old(configs)
      ensures reliable ==> ok
    {
      Settle();
      calls := calls + [WriteConfig(name)];
      ok := *;
      ok := ok || reliable;
      if ok {
        configs := configs[name := config];
      }
    }
  }

  function At(m: map<string, string>, key: string): string {
    if key in m then m[key] else ""
  }

  /** One deploy that was made, and how it ended. */
  datatype Deployed = Deployed(name: string, action: string, error: Option<Error>)

  class DeployManager {
    const cluster: M.Cluster
    const flavors: set<string>
    const resourceMgr: ResourceManager
    const rolloutStatusManager: R.RolloutStatusManager
    const secret: P.GlobalSecret
    // The deploys made so far.
    ghost var made: seq<Deployed>

    constructor (cluster: M.Cluster, flavors: set<string>, resourceMgr: ResourceManager,
                 rolloutStatusManager: R.RolloutStatusManager, secret: P.GlobalSecret)
      ensures this.cluster == cluster && this.flavors == flavors && this.resourceMgr == resourceMgr
      ensures this.rolloutStatusManager == rolloutStatusManager && this.secret == secret
    {
      this.cluster, this.flavors := cluster, flavors;
      this.resourceMgr, this.rolloutStatusManager, this.secret := resourceMgr, rolloutStatusManager, secret;
      made := [];
    }

    /** The items that the parameters of an install are merged from. */
    function ItemsOf(name: string): seq<P.Item>
      requires cluster.Has(name)
    {
      P.Items(cluster.AppOf(name).definitions, cluster.installs[name].parameters)
    }

    /** What the config map of an install should hold. */
    ghost function ConfigOf(name: string, secrets: P.Secrets): Config
      requires cluster.Has(name) && P.SecretsPresent(name, ItemsOf(name), secrets)
    {
      var install := cluster.installs[name];
      Config(P.Merged(name, ItemsOf(name), secrets), install, cluster.AppOf(name).required, install.flavor)
    }

    /** Everything the run needs is there, and each required parameter has been given a value. */
    ghost predicate Deployable(name: string) {
      && cluster.Has(name)
      && cluster.installs[name].flavor in flavors
      && forall d :: d in cluster.AppOf(name).definitions && d.required ==>
        P.IsGiven(cluster.installs[name].parameters, d.name)
    }

    /** Nothing that the run does itself can fail, except for creating a job that is still there. */
    ghost predicate Faultless(name: string, store: Option<P.Secrets>)
      requires cluster.Has(name)
    {
      resourceMgr.reliable && secret.reliable && P.CanGenerate(name, ItemsOf(name), store)
    }

    /** Looks up what a deploy needs. A lookup also fails when the cluster cannot be reached. */
    method LookUp(name: string) returns (error: Option<Error>)
      ensures error.None? ==> cluster.Has(name) && cluster.installs[name].flavor in flavors
      ensures error.Some? ==> error.value in {InstallNotFound, FlavorNotFound, ApplicationNotFound}
      ensures resourceMgr.reliable ==>
        (error.None? <==> cluster.Has(name) && cluster.installs[name].flavor in flavors)
    {
      var install: bool, flavor: bool, app: bool := *, *, *;
      if resourceMgr.reliable {
        install, flavor, app := true, true, true;
      }
      if !install || name !in cluster.installs {
        return Some(InstallNotFound);
      }
      if !flavor || cluster.installs[name].flavor !in flavors {
        return Some(FlavorNotFound);
      }
      if !app || cluster.AppKey(name) !in cluster.apps {
        return Some(ApplicationNotFound);
      }
      error := None;
    }

    method Parameters(name: string) returns (pm: P.ParameterManager)
      requires cluster.Has(name)
      ensures fresh(pm) && pm.secret == secret && pm.installName == name
      ensures pm.definitions == cluster.AppOf(name).definitions && pm.parameters == cluster.installs[name].parameters
    {
      pm := new P.ParameterManager(secret, name, cluster.AppOf(name).definitions, cluster.installs[name].parameters);
    }

    /** Merges the parameters and writes them down for the job. */
    method CreateOrPatchConfigmap(name: string) returns (error: Option<Error>)
      requires resourceMgr.Valid() && cluster.Has(name)
      modifies resourceMgr`jobs, resourceMgr`configs, resourceMgr`calls, secret
      ensures resourceMgr.Valid() && Moves(old(resourceMgr.jobs), resourceMgr.jobs)
      ensures P.Generated(name, ItemsOf(name), old(secret.Data()), secret.Data())
      ensures error.Some? ==>
        resourceMgr.configs == old(resourceMgr.configs) && (error.value.NotMerged? || error.value == ConfigNotWritten)
      ensures error.Some? && error.value.NotMerged? ==> resourceMgr.calls == old(resourceMgr.calls)
      ensures error.None? || error.value == ConfigNotWritten ==>
        resourceMgr.calls == old(resourceMgr.calls) + [WriteConfig(ConfigName(name))]
      ensures error.None? ==>
        && P.SecretsPresent(name, ItemsOf(name), secret.Data())
        && resourceMgr.configs == old(resourceMgr.configs)[ConfigName(name) := ConfigOf(name, secret.Data())]
      ensures Faultless(name, old(secret.stored)) ==>
        error.None?
    {
      var pm := Parameters(name);
      var merged := pm.GetMergedMap();
      if merged.Err? {
        return Some(NotMerged(merged.error));
      }
      var install := cluster.installs[name];
      var ok := resourceMgr.CreateOrPatch(ConfigName(name),
        Config(merged.value, install, cluster.AppOf(name).required, install.flavor));
      error := if ok then None else Some(ConfigNotWritten);
    }

    /** Reads a job once a second until it shows a condition. The last answer alone decides. */
    method PollJob(name: string, timeout: int) returns (error: Option<Error>, last: Option<Job>, polls: nat)
      requires resourceMgr.Valid()
      modifies resourceMgr`jobs, resourceMgr`calls, resourceMgr`answers, rolloutStatusManager`clock
      ensures resourceMgr.Valid() && Moves(old(resourceMgr.jobs), resourceMgr.jobs)
      ensures resourceMgr.calls == old(resourceMgr.calls) + Reads(name, polls)
      ensures |resourceMgr.answers| == |old(resourceMgr.answers)| + polls
      ensures Verdict(resourceMgr.answers[|old(resourceMgr.answers)|..], error, last)
      ensures 1 <= polls <= MaxReads(timeout)
      ensures last.Some? ==> last.value.conditions != []
      ensures last.Some? ==> name in old(resourceMgr.jobs) && last.value.uid == old(resourceMgr.jobs)[name].uid
      ensures error.None? <==> last.Some? && EndsWith(last.value, R.Complete)
      ensures error == Some(DeployFailed) <==> last.Some? && EndsWith(last.value, R.Failed)
      ensures error.Some? ==> error.value in {DeployFailed, TimeoutExpired, JobNotRead}
      ensures error == Some(TimeoutExpired) && last.None? ==>
        rolloutStatusManager.clock >= old(rolloutStatusManager.clock) + timeout
    {
      var start := rolloutStatusManager.clock;
      rolloutStatusManager.Pass(0);
      resourceMgr.Settle();
      last, polls := None, 0;
      var firstTry := true;
      ghost var n := |resourceMgr.answers|;
      while firstTry || rolloutStatusManager.clock - start < timeout
        invariant resourceMgr.Valid() && Moves(old(resourceMgr.jobs), resourceMgr.jobs)
        invariant resourceMgr.calls == old(resourceMgr.calls) + Reads(name, polls)
        invariant |resourceMgr.answers| == n + polls && AllUndecided(resourceMgr.answers[n..])
        invariant last.None? && (firstTry <==> polls == 0)
        invariant rolloutStatusManager.clock - start >= polls * R.SECOND
        invariant polls <= MaxReads(timeout)
        decreases firstTry, timeout - (rolloutStatusManager.clock - start)
      {
        MaxReadsIsCeiling(timeout, polls);
        ghost var before := resourceMgr.answers[n..];
        var answer := resourceMgr.Get(name);
        assert Reads(name, polls + 1) == Reads(name, polls) + [Read(name)];
        assert resourceMgr.answers[n..] == before + [answer];
        polls := polls + 1;
        if !answer.Found? {
          LastDecides(before, answer, Some(JobNotRead), None);
          return Some(JobNotRead), None, polls;
        }
        if answer.job.conditions != [] {
          last := Some(answer.job);
          error := VerdictOf(answer.job);
          LastDecides(before, answer, error, last);
          return;
        }
        rolloutStatusManager.Pass(R.SECOND);
        firstTry := false;
      }
      error := Some(TimeoutExpired);
    }

    /** Waits for the resources of an install, in the namespace that its merged parameters name. */
    method WaitForRollout(name: string, timeout: int)
      returns (error: Option<Error>, namespace: string, waited: seq<R.Waited>, ghost stretch: seq<R.Look>)
      requires cluster.Has(name) && P.SecretsPresent(name, ItemsOf(name), secret.Data())
      modifies rolloutStatusManager, secret
      ensures secret.Data() == old(secret.Data())
      ensures error.Some? && error.value.RolloutFailed? ==>
        R.StoppedWaiting(cluster.AppOf(name).resources, cluster.installs[name].suffix, timeout,
          stretch, Some(error.value.rollout), waited)
      ensures rolloutStatusManager.looks == old(rolloutStatusManager.looks) + stretch
      ensures resourceMgr.reliable && error.Some? ==> error.value.RolloutFailed?
      ensures error.None? ==>
        R.WaitedInTurn(cluster.AppOf(name).resources, cluster.installs[name].suffix, timeout, stretch, waited)
      ensures error.None? ==>
        && namespace == At(P.Merged(name, ItemsOf(name), secret.Data()), "namespace")
        && var resources := cluster.AppOf(name).resources;
           R.WaitedInOrder(resources, cluster.installs[name].suffix, R.FirstService(resources), waited)
      ensures error.Some? ==> error.value in {InstallNotFound, ApplicationNotFound} || error.value.RolloutFailed?
    {
      namespace, waited, stretch := "", [], [];
      var install: bool, app: bool := *, *;
      if !install && !resourceMgr.reliable {
        return Some(InstallNotFound), namespace, waited, stretch;
      }
      if !app && !resourceMgr.reliable {
        return Some(ApplicationNotFound), namespace, waited, stretch;
      }
      var pm := Parameters(name);
      var merged := pm.GetMergedMap();
      P.MergeWithNothingMissing(name, ItemsOf(name), old(secret.Data()), secret.Data(), merged);
      namespace := At(merged.value, "namespace");
      var failure;
      failure, waited, stretch :=
        rolloutStatusManager.Wait(cluster.AppOf(name).resources, cluster.installs[name].suffix, timeout);
      error := if failure.Some? then Some(RolloutFailed(failure.value)) else None;
    }

    /** Deletes the job, writes the config map and creates the job anew. A failure leaves a beginning of these calls. */
    method ReplaceJob(name: string, action: string) returns (error: Option<Error>, ghost run: seq<Call>)
      requires resourceMgr.Valid() && cluster.Has(name)
      modifies resourceMgr, secret
      ensures resourceMgr.Valid()
      ensures resourceMgr.calls == old(resourceMgr.calls) + run && run != [] && run <= FullRun(name, action, 0)
      ensures |resourceMgr.answers| >= |old(resourceMgr.answers)|
      ensures Faultless(name, old(secret.stored)) ==>
        error.None? || (error == Some(JobNotCreated) && NameWithAction(name, action) in resourceMgr.jobs)
      ensures P.Generated(name, ItemsOf(name), old(secret.Data()), secret.Data())
      ensures error.Some? ==>
        resourceMgr.next == old(resourceMgr.next) && Moves(old(resourceMgr.jobs), resourceMgr.jobs)
      ensures error.Some? ==> error.value in {JobNotDeleted, ConfigNotWritten, JobNotCreated} || error.value.NotMerged?
      ensures error.None? ==>
        && run == FullRun(name, action, 0)
        && resourceMgr.next == old(resourceMgr.next) + 1
        && Replaced(old(resourceMgr.jobs), resourceMgr.jobs, NameWithAction(name, action), old(resourceMgr.next))
      ensures error.None? ==>
        && P.SecretsPresent(name, ItemsOf(name), secret.Data())
        && resourceMgr.configs == old(resourceMgr.configs)[ConfigName(name) := ConfigOf(name, secret.Data())]
    {
      var job := NameWithAction(name, action);
      var ok, _ := resourceMgr.Delete(job);
      run := resourceMgr.calls[|old(resourceMgr.calls)|..];
      if !ok {
        return Some(JobNotDeleted), run;
      }
      error := CreateOrPatchConfigmap(name);
      if error.Some? {
        run := resourceMgr.calls[|old(resourceMgr.calls)|..];
        return;
      }
      ok := resourceMgr.Create(job);
      run := FullRun(name, action, 0);
      error := if ok then None else Some(JobNotCreated);
    }

    /** Looks everything up and checks that the required parameters have been given. */
    method Check(name: string) returns (error: Option<Error>)
      ensures error.None? ==> Deployable(name)
      ensures error.Some? ==>
        error.value in {InstallNotFound, FlavorNotFound, ApplicationNotFound} || error.value.Invalid?
      ensures error.Some? && error.value.Invalid? ==> cluster.Has(name) && !Deployable(name)
      ensures resourceMgr.reliable ==> (error.None? <==> Deployable(name))
    {
      error := LookUp(name);
      if error.None? {
        var pm := Parameters(name);
        var invalid := pm.Validate();
        error := if invalid.Some? then Some(Invalid(invalid.value)) else None;
      }
    }

    /** Replaces the job and polls it. Only a smoketest polls a job other than the one created here. */
    method RunJob(name: string, action: string, timeout: int)
      returns (error: Option<Error>, last: Option<Job>, polls: nat, ghost run: seq<Call>)
      requires resourceMgr.Valid() && cluster.Has(name)
      modifies resourceMgr, rolloutStatusManager, secret
      ensures resourceMgr.Valid()
      ensures resourceMgr.next == old(resourceMgr.next) ==> Moves(old(resourceMgr.jobs), resourceMgr.jobs)
      ensures resourceMgr.next != old(resourceMgr.next) ==>
        && resourceMgr.next == old(resourceMgr.next) + 1
        && Replaced(old(resourceMgr.jobs), resourceMgr.jobs, NameWithAction(name, action), old(resourceMgr.next))
      ensures resourceMgr.calls == old(resourceMgr.calls) + run && run != [] && run <= FullRun(name, action, polls)
      ensures polls <= MaxReads(timeout)
      ensures polls > 0 ==>
        && polls <= |resourceMgr.answers|
        && Verdict(resourceMgr.answers[|resourceMgr.answers| - polls..], error, last)
      ensures polls == 0 ==> error.Some? && last.None? && !Created(error.value)
      ensures error.Some? ==> !error.value.RolloutFailed?
      ensures Faultless(name, old(secret.stored)) ==>
        polls > 0 || error == Some(JobNotCreated)
      ensures P.Generated(name, ItemsOf(name), old(secret.Data()), secret.Data())
      ensures rolloutStatusManager.looks == old(rolloutStatusManager.looks)
      ensures error.None? ==>
        && run == FullRun(name, action, polls)
        && resourceMgr.next == old(resourceMgr.next) + 1
        && P.SecretsPresent(name, ItemsOf(name), secret.Data())
        && resourceMgr.configs == old(resourceMgr.configs)[ConfigName(name) := ConfigOf(name, secret.Data())]
      ensures error.None? <==> last.Some? && EndsWith(last.value, R.Complete)
      ensures error == Some(DeployFailed) <==> last.Some? && EndsWith(last.value, R.Failed)
      ensures last.Some? && action == SMOKETEST ==>
        name in old(resourceMgr.jobs) && last.value.uid == old(resourceMgr.jobs)[name].uid
      ensures last.Some? ==> (last.value.uid == old(resourceMgr.next) <==> action != SMOKETEST)
    {
      last, polls := None, 0;
      error, run := ReplaceJob(name, action);
      if error.Some? {
        return;
      }
      SmoketestHasItsOwnName(name, action);
      ghost var replaced := resourceMgr.jobs;
      error, last, polls := PollJob(name, timeout);
      ReplacedStays(old(resourceMgr.jobs), replaced, resourceMgr.jobs, NameWithAction(name, action),
        old(resourceMgr.next));
      assert FullRun(name, action, polls) == run + Reads(name, polls);
      run := FullRun(name, action, polls);
    }

    /** One deploy run. A success says that a job was read as complete: for every action but the smoketest the job
        created by this very call, for the smoketest one that had been there before it. */
    method Deploy(name: string, action: string, timeout: int)
      returns (error: Option<Error>, last: Option<Job>, polls: nat, namespace: string, waited: seq<R.Waited>,
        ghost run: seq<Call>)
      requires resourceMgr.Valid()
      modifies this, resourceMgr, rolloutStatusManager, secret
      ensures resourceMgr.Valid() && made == old(made) + [Deployed(name, action, error)]
      // The calls are in order on every outcome, and a smoketest never asks for the deletion of the job it polls.
      ensures exists job :: IsJobName(name, action, job) && InOrder(run, job, name, name + "-config")
      ensures action == "smoketest" ==> Delete(name) !in run
      ensures resourceMgr.next == old(resourceMgr.next) ==> Moves(old(resourceMgr.jobs), resourceMgr.jobs)
      ensures resourceMgr.next != old(resourceMgr.next) ==>
        && resourceMgr.next == old(resourceMgr.next) + 1
        && Replaced(old(resourceMgr.jobs), resourceMgr.jobs, NameWithAction(name, action), old(resourceMgr.next))
      ensures resourceMgr.calls == old(resourceMgr.calls) + run && run <= FullRun(name, action, polls)
      ensures polls <= MaxReads(timeout)
      ensures !Deployable(name) ==> error.Some? && run == []
      ensures resourceMgr.reliable ==> (run != [] <==> Deployable(name))
      // Once the job was created, the last answer decides; after a success the rollout does.
      ensures polls > 0 ==> polls <= |resourceMgr.answers| && exists verdict ::
        && Verdict(resourceMgr.answers[|resourceMgr.answers| - polls..], verdict, last)
        && (verdict.Some? ==> error == verdict)
        && (verdict.None? && action == DELETE ==> error.None?)
        && (verdict.None? && resourceMgr.reliable && error.Some? ==> error.value.RolloutFailed?)
      ensures run != [] && Faultless(name, old(secret.stored)) ==> polls > 0 || error == Some(JobNotCreated)
      ensures error.Some? && error.value.RolloutFailed? ==>
        cluster.Has(name) && exists stretch ::
          && rolloutStatusManager.looks == old(rolloutStatusManager.looks) + stretch
          && R.StoppedWaiting(cluster.AppOf(name).resources, cluster.installs[name].suffix, timeout, stretch,
               Some(error.value.rollout), waited)
      ensures run != [] ==> P.Generated(name, ItemsOf(name), old(secret.Data()), secret.Data())
      ensures run == [] ==> resourceMgr.configs == old(resourceMgr.configs) && secret.Data() == old(secret.Data())
      ensures error.None? ==> run == FullRun(name, action, polls) && resourceMgr.next == old(resourceMgr.next) + 1
      ensures error.None? ==> last.Some? && EndsWith(last.value, R.Complete)
      ensures error.None? && action == SMOKETEST ==>
        name in old(resourceMgr.jobs) && last.value.uid == old(resourceMgr.jobs)[name].uid
      ensures error.None? ==> (last.value.uid == old(resourceMgr.next) <==> action != SMOKETEST)
      ensures error == Some(DeployFailed) ==> last.Some? && EndsWith(last.value, R.Failed)
      ensures error.None? ==>
        && P.SecretsPresent(name, ItemsOf(name), secret.Data())
        && resourceMgr.configs == old(resourceMgr.configs)[ConfigName(name) := ConfigOf(name, secret.Data())]
      // The config map holds the install, what its application requires, and its flavor beside the parameters.
      ensures error.None? ==>
        && resourceMgr.configs[ConfigName(name)].install == cluster.installs[name]
        && resourceMgr.configs[ConfigName(name)].required == cluster.AppOf(name).required
        && resourceMgr.configs[ConfigName(name)].flavor == cluster.installs[name].flavor
      ensures error.None? && action != DELETE ==>
        && namespace == At(resourceMgr.configs[ConfigName(name)].parameters, "namespace")
        && var resources := cluster.AppOf(name).resources;
           R.WaitedInOrder(resources, cluster.installs[name].suffix, R.FirstService(resources), waited)
    {
      last, polls, namespace, waited, run := None, 0, "", [], [];
      error := Check(name);
      if error.None? {
        error, last, polls, run := RunJob(name, action, timeout);
        if error.None? && action != DELETE {
          ghost var stretch;
          error, namespace, waited, stretch := WaitForRollout(name, timeout);
        }
      }
      RunsAreInOrder(name, action, polls, run);
      made := made + [Deployed(name, action, error)];
    }

    /**
     * A deploy followed by a smoketest. When both succeed, the smoketest's verdict was read off the
     * apply job again.
     */
    method DeploySmoketest(name: string, timeout: int)
      returns (error: Option<Error>, applied: Option<Job>, tested: Option<Job>)
      requires resourceMgr.Valid()
      modifies this, resourceMgr, rolloutStatusManager, secret
      ensures resourceMgr.Valid()
      // It fails as the deploy does, without a smoketest, and otherwise ends as the smoketest does.
      ensures
        || (error.Some? && made == old(made) + [Deployed(name, "apply outputs", error)])
        || made == old(made) + [Deployed(name, "apply outputs", None), Deployed(name, "smoketest", error)]
      ensures error.None? ==>
        && resourceMgr.next == old(resourceMgr.next) + 2
        && applied.Some? && EndsWith(applied.value, R.Complete)
        && tested.Some? && EndsWith(tested.value, R.Complete)
        && applied.value.uid == tested.value.uid == old(resourceMgr.next)
    {
      var polls, namespace, waited;
      ghost var run;
      tested := None;
      error, applied, polls, namespace, waited, run := Deploy(name, APPLY_OUTPUTS, timeout);
      if error.Some? {
        return;
      }
      error, tested, polls, namespace, waited, run := Deploy(name, SMOKETEST, timeout);
    }
  }
}
