/** Waiting for the resources of an install to be rolled out. */
module Rollout {
  import opened Wrappers
  import opened Api

  const SECOND := 1_000_000_000
  const POLL_INTERVAL := 5 * SECOND

  datatype Error =
    | RevisionUnreadable | WrongRevision | ProgressDeadlineExceeded | NotRolling
    | Unreachable | TimeoutExpired | UnrecognizedType(kind: string)

  /** What a status viewer says: whether it is done, and the error it reports beside. */
  datatype Status = Status(done: bool, error: Option<Error>)

  datatype Condition = Condition(kind: string, reason: string)

  datatype Deployment = Deployment(
    generation: int,
    revision: Option<int>,
    specReplicas: Option<int>,
    observedGeneration: int,
    replicas: int,
    updatedReplicas: int,
    availableReplicas: int,
    conditions: seq<Condition>)

  datatype DaemonSet = DaemonSet(
    rolling: bool,
    generation: int,
    observedGeneration: int,
    updatedNumberScheduled: int,
    desiredNumberScheduled: int,
    numberAvailable: int)

  /** `rollingUpdate` is the optional section of the update strategy, with its optional partition. */
  datatype StatefulSet = StatefulSet(
    rolling: bool,
    rollingUpdate: Option<Option<int>>,
    generation: int,
    specReplicas: Option<int>,
    observedGeneration: int,
    readyReplicas: int,
    updatedReplicas: int,
    updateRevision: string,
    currentRevision: string)

  const DONE := Status(true, None)
  const NOT_DONE := Status(false, None)

  function Fails(e: Error): Status {
    Status(false, Some(e))
  }

  function GetCondition(cs: seq<Condition>, kind: string): Option<Condition> {
    if cs == [] then None
    else if cs[0].kind == kind then Some(cs[0])
    else GetCondition(cs[1..], kind)
  }

  function DeploymentStatus(d: Deployment, revision: int): Status {
    if revision > 0 && d.revision.None? then Fails(RevisionUnreadable)
    else if revision > 0 && d.revision.value != revision then Fails(WrongRevision)
    else if d.generation <= d.observedGeneration then
      var cond := GetCondition(d.conditions, "Progressing");
      if cond.Some? && cond.value.reason == "ProgressDeadlineExceeded" then Fails(ProgressDeadlineExceeded)
      else if d.specReplicas.Some? && d.updatedReplicas < d.specReplicas.value then NOT_DONE
      else if d.replicas > d.updatedReplicas then NOT_DONE
      else if d.availableReplicas < d.updatedReplicas then NOT_DONE
      else DONE
    else NOT_DONE
  }

  function DaemonSetStatus(d: DaemonSet): Status {
    if !d.rolling then Status(true, Some(NotRolling))
    else if d.generation <= d.observedGeneration then
      if d.updatedNumberScheduled < d.desiredNumberScheduled then NOT_DONE
      else if d.numberAvailable < d.desiredNumberScheduled then NOT_DONE
      else DONE
    else NOT_DONE
  }

  function StatefulSetStatus(s: StatefulSet): Status {
    if !s.rolling then Status(true, Some(NotRolling))
    else if s.observedGeneration == 0 || s.generation > s.observedGeneration then NOT_DONE
    else if s.specReplicas.Some? && s.readyReplicas < s.specReplicas.value then NOT_DONE
    else if s.rollingUpdate.Some? then
      if s.specReplicas.Some? && s.rollingUpdate.value.Some? &&
        s.updatedReplicas < s.specReplicas.value - s.rollingUpdate.value.value
      then NOT_DONE
      else DONE
    else if s.updateRevision != s.currentRevision then NOT_DONE
    else DONE
  }

  datatype JobCondition = Complete | Failed | Suspended

  /** A resource as one poll finds it. */
  datatype Snapshot =
    | DeploymentAt(d: Deployment)
    | StatefulSetAt(s: StatefulSet)
    | DaemonSetAt(ds: DaemonSet)
    | JobAt(conditions: seq<JobCondition>)
    | CronJobAt(suspended: bool)

  datatype Kind = DeploymentKind | StatefulSetKind | DaemonSetKind | JobKind | CronJobKind

  predicate IsOf(snapshot: Snapshot, kind: Kind) {
    match kind
    case DeploymentKind => snapshot.DeploymentAt?
    case StatefulSetKind => snapshot.StatefulSetAt?
    case DaemonSetKind => snapshot.DaemonSetAt?
    case JobKind => snapshot.JobAt?
    case CronJobKind => snapshot.CronJobAt?
  }

  function StatusOf(snapshot: Snapshot): Status {
    match snapshot
    case DeploymentAt(d) => DeploymentStatus(d, 0)
    case StatefulSetAt(s) => StatefulSetStatus(s)
    case DaemonSetAt(ds) => DaemonSetStatus(ds)
    case JobAt(conditions) => if conditions != [] && conditions[|conditions| - 1] == Complete then DONE else NOT_DONE
    case CronJobAt(suspended) => if suspended then NOT_DONE else DONE
  }

  /** Jobs and cron jobs that cannot be read are polled again; for the other kinds that is an error. */
  predicate Retries(kind: Kind) {
    kind.JobKind? || kind.CronJobKind?
  }

  /**
   * A deployment reported done has been observed and runs no old replica; all it runs are up to date
   * and available, and enough.
   */
  lemma DoneDeployment(d: Deployment)
    requires DeploymentStatus(d, 0) == DONE
    ensures IsUp(d)
  {
  }

  /** The first condition on progress says that the deadline has passed. */
  ghost predicate PastDeadline(d: Deployment) {
    exists i: nat :: IsFirstOfKind(d.conditions, "Progressing", "ProgressDeadlineExceeded", i)
  }

  /** `i` is the first condition of the kind, and has the reason. */
  ghost predicate IsFirstOfKind(cs: seq<Condition>, kind: string, reason: string, i: nat) {
    i < |cs| && cs[i] == Condition(kind, reason) && forall j :: 0 <= j < i ==> cs[j].kind != kind
  }

  lemma {:induction false} FirstOfKind(cs: seq<Condition>, kind: string, reason: string)
    ensures (GetCondition(cs, kind).Some? && GetCondition(cs, kind).value.reason == reason) <==>
      exists i: nat :: IsFirstOfKind(cs, kind, reason, i)
    ensures GetCondition(cs, kind).Some? ==> GetCondition(cs, kind).value.kind == kind
  {
    if cs != [] && cs[0].kind == kind {
      assert cs[0].reason == reason ==> IsFirstOfKind(cs, kind, reason, 0);
    } else if cs != [] {
      FirstOfKind(cs[1..], kind, reason);
      if i: nat :| IsFirstOfKind(cs, kind, reason, i) {
        assert IsFirstOfKind(cs[1..], kind, reason, i - 1);
      }
      if i: nat :| IsFirstOfKind(cs[1..], kind, reason, i) {
        assert forall j :: 0 < j <= i + 1 ==> cs[j] == cs[1..][j - 1];
        assert IsFirstOfKind(cs, kind, reason, i + 1);
      }
    }
  }

  /** The object has been rolled out, by its kind. */
  ghost predicate IsReady(snapshot: Snapshot) {
    match snapshot
    case DeploymentAt(d) =>
      && d.observedGeneration >= d.generation && !PastDeadline(d)
      && (d.specReplicas.Some? ==> d.updatedReplicas >= d.specReplicas.value)
      && d.replicas <= d.updatedReplicas <= d.availableReplicas
    case StatefulSetAt(s) =>
      && s.rolling && s.observedGeneration != 0 && s.observedGeneration >= s.generation
      && (s.specReplicas.Some? ==> s.readyReplicas >= s.specReplicas.value)
      && (s.rollingUpdate.None? ==> s.currentRevision == s.updateRevision)
      && (s.rollingUpdate.Some? && s.rollingUpdate.value.Some? && s.specReplicas.Some? ==>
            s.updatedReplicas + s.rollingUpdate.value.value >= s.specReplicas.value)
    case DaemonSetAt(ds) =>
      && ds.rolling && ds.observedGeneration >= ds.generation
      && ds.updatedNumberScheduled >= ds.desiredNumberScheduled
      && ds.numberAvailable >= ds.desiredNumberScheduled
    case JobAt(conditions) => exists cs :: conditions == cs + [Complete]
    case CronJobAt(suspended) => !suspended
  }

  /** The error that ends the wait for the object, if any does. */
  ghost function Breaks(snapshot: Snapshot): Option<Error> {
    match snapshot
    case DeploymentAt(d) =>
      if d.observedGeneration >= d.generation && PastDeadline(d) then Some(ProgressDeadlineExceeded) else None
    case StatefulSetAt(s) => if s.rolling then None else Some(NotRolling)
    case DaemonSetAt(ds) => if ds.rolling then None else Some(NotRolling)
    case _ => None
  }

  /** An object is reported done without an error if and only if it has been rolled out. */
  lemma DoneIff(snapshot: Snapshot)
    ensures StatusOf(snapshot) == DONE <==> IsReady(snapshot)
    ensures StatusOf(snapshot).error == Breaks(snapshot)
  {
    match snapshot
    case DeploymentAt(d) => FirstOfKind(d.conditions, "Progressing", "ProgressDeadlineExceeded");
    case JobAt(conditions) =>
      if conditions != [] {
        assert conditions == conditions[..|conditions| - 1] + [conditions[|conditions| - 1]];
      }
    case _ =>
  }

  /** A done report is never contradicted by an error, except for objects that do not roll. */
  lemma DoneWithErrorOnlyWhenNotRolling(snapshot: Snapshot)
    ensures StatusOf(snapshot).done && StatusOf(snapshot).error.Some? ==>
      (snapshot.StatefulSetAt? && !snapshot.s.rolling) || (snapshot.DaemonSetAt? && !snapshot.ds.rolling)
  {
  }

  /** One object found done, under the name it was polled by. */
  datatype Sighting = Sighting(name: string, snapshot: Snapshot)

  /** One look at the cluster, and what it found. */
  datatype Look =
    | Polled(name: string, kind: Kind, found: Option<Snapshot>)
    | Listed(name: string, sets: Option<seq<string>>)

  /** What was found does not end the wait. */
  ghost predicate Undecided(kind: Kind, found: Option<Snapshot>) {
    if found.None? then kind == JobKind || kind == CronJobKind else !IsReady(found.value) && Breaks(found.value).None?
  }

  /** All of the looks are at the one object. */
  ghost predicate ArePolls(name: string, kind: Kind, looks: seq<Look>) {
    forall i :: 0 <= i < |looks| ==>
      && looks[i].Polled? && looks[i].name == name && looks[i].kind == kind
      && (looks[i].found.Some? ==> IsOf(looks[i].found.value, kind))
  }

  /**
   * How the wait for one object ends, given what was found: with the first look that decides, or, if
   * none does, when the time is up. There is a look at least every interval, and at least one.
   */
  ghost predicate Ends(name: string, kind: Kind, timeout: int, looks: seq<Look>, error: Option<Error>,
                       seen: seq<Sighting>)
  {
    && ArePolls(name, kind, looks)
    && (forall i :: 0 <= i < |looks| - 1 ==> Undecided(kind, looks[i].found))
    && (looks == [] <==> timeout <= 0) && (looks != [] ==> (|looks| - 1) * POLL_INTERVAL < timeout)
    && if looks == [] || Undecided(kind, looks[|looks| - 1].found)
       then error == Some(TimeoutExpired) && seen == []
       else EndsWith(name, looks[|looks| - 1].found, error, seen)
  }

  /** All looks so far are at the object, none decides, and they took their time. */
  ghost predicate SoFar(name: string, kind: Kind, timeout: int, looks: seq<Look>, elapsed: int) {
    && ArePolls(name, kind, looks)
    && (forall i :: 0 <= i < |looks| ==> Undecided(kind, looks[i].found))
    && elapsed >= |looks| * POLL_INTERVAL
    && (looks == [] ==> elapsed == 0)
    && (looks != [] ==> timeout > (|looks| - 1) * POLL_INTERVAL)
  }

  /** A look that decides ends the wait. */
  lemma DecidedNow(name: string, kind: Kind, timeout: int, looks: seq<Look>, elapsed: int, found: Option<Snapshot>,
                   error: Option<Error>, seen: seq<Sighting>)
    requires SoFar(name, kind, timeout, looks, elapsed) && elapsed < timeout
    requires (found.Some? ==> IsOf(found.value, kind)) && !Undecided(kind, found)
    requires EndsWith(name, found, error, seen)
    ensures Ends(name, kind, timeout, looks + [Polled(name, kind, found)], error, seen)
    ensures error.None? ==> AllDone(kind, [name], seen)
  {
    if error.None? {
      DoneIff(found.value);
    }
  }

  lemma OneMoreLook(name: string, kind: Kind, timeout: int, looks: seq<Look>, elapsed: int, found: Option<Snapshot>,
                    later: int)
    requires SoFar(name, kind, timeout, looks, elapsed) && elapsed < timeout && later >= elapsed + POLL_INTERVAL
    requires (found.Some? ==> IsOf(found.value, kind)) && Undecided(kind, found)
    ensures SoFar(name, kind, timeout, looks + [Polled(name, kind, found)], later)
  {
  }

  /** What a look that decides leads to. */
  ghost predicate EndsWith(name: string, found: Option<Snapshot>, error: Option<Error>, seen: seq<Sighting>) {
    match found
    case None => error == Some(Unreachable) && seen == []
    case Some(snapshot) =>
      if Breaks(snapshot).Some? then error == Breaks(snapshot) && seen == []
      else error.None? && seen == [Sighting(name, snapshot)]
  }

  function Concat(parts: seq<seq<Look>>): seq<Look> {
    if parts == [] then [] else Concat(parts[..|parts| - 1]) + parts[|parts| - 1]
  }

  lemma ConcatOneMore(parts: seq<seq<Look>>, part: seq<Look>)
    ensures Concat(parts + [part]) == Concat(parts) + part
  {
    assert (parts + [part])[..|parts|] == parts;
  }

  /** The stateful sets were waited for one after the other, each to its end. */
  ghost predicate SetsInTurn(names: seq<string>, timeout: int, looks: seq<Look>, seen: seq<Sighting>) {
    exists parts :: Concat(parts) == looks && SetsByParts(names, timeout, parts, seen)
  }

  ghost predicate SetsByParts(names: seq<string>, timeout: int, parts: seq<seq<Look>>, seen: seq<Sighting>) {
    && |parts| == |names| == |seen|
    && forall i: nat :: i < |names| ==> SetPart(names, timeout, parts, seen, i)
  }

  /** The part at `i` is the wait for the set at `i`. */
  ghost predicate SetPart(names: seq<string>, timeout: int, parts: seq<seq<Look>>, seen: seq<Sighting>, i: nat)
    requires |parts| == |names| == |seen| && i < |names|
  {
    Ends(names[i], StatefulSetKind, timeout, parts[i], None, [seen[i]])
  }

  /** One resource waited for: the objects behind it, and the sightings that ended the wait for each. */
  datatype Waited = Waited(name: string, kind: string, objects: seq<string>, seen: seq<Sighting>)

  function KindOf(kind: string): Option<Kind> {
    if kind == "deployment" then Some(DeploymentKind)
    else if kind == "statefulset" then Some(StatefulSetKind)
    else if kind == "job" then Some(JobKind)
    else if kind == "daemonset" then Some(DaemonSetKind)
    else if kind == "cronjob" then Some(CronJobKind)
    else None
  }

  /** Each of the objects was seen with its kind, done and without an error, in the order they are listed. */
  ghost predicate AllDone(kind: Kind, objects: seq<string>, seen: seq<Sighting>) {
    && |seen| == |objects|
    && forall i :: 0 <= i < |seen| ==>
      seen[i].name == objects[i] && IsOf(seen[i].snapshot, kind) && StatusOf(seen[i].snapshot) == DONE
  }

  /** A kubegres resource stands for its stateful sets, any other resource for the object of its name. */
  ghost predicate Confirmed(w: Waited) {
    var kind := if w.kind == "kubegres" then Some(StatefulSetKind) else KindOf(w.kind);
    kind.Some? && (w.kind != "kubegres" ==> w.objects == [w.name]) && AllDone(kind.value, w.objects, w.seen)
  }

  /** The position of the first service entry, where the wait ends. */
  function FirstService(rs: seq<Resource>): (k: nat)
    ensures k <= |rs| && (k < |rs| ==> rs[k].kind == "service") && forall i :: 0 <= i < k ==> rs[i].kind != "service"
  {
    if rs == [] || rs[0].kind == "service" then 0 else 1 + FirstService(rs[1..])
  }

  function ResourceName(r: Resource, suffix: string): string {
    if suffix == "" then r.name else r.name + ("-" + suffix)
  }

  /** The resources in front of `k` were waited for, one after the other, under their suffixed names. */
  ghost predicate WaitedInOrder(rs: seq<Resource>, suffix: string, k: nat, waited: seq<Waited>) {
    && k <= |rs| && |waited| == k
    && forall i :: 0 <= i < k ==>
      waited[i].name == ResourceName(rs[i], suffix) && waited[i].kind == rs[i].kind && Confirmed(waited[i])
  }

  /** How the wait for a kubegres cluster ends: with its listing, or with the first of its sets that is not done. */
  ghost predicate KubegresEnds(name: string, timeout: int, looks: seq<Look>, error: Option<Error>, sets: seq<string>,
                               seen: seq<Sighting>)
  {
    && looks != [] && looks[0].Listed? && looks[0].name == name
    && match looks[0].sets
       case None => |looks| == 1 && error == Some(Unreachable)
       case Some(listed) =>
         && sets == listed
         && if error.None? then SetsInTurn(sets, timeout, looks[1..], seen)
            else SetsEnd(sets, timeout, looks[1..], seen, error)
  }

  /** Some sets were waited for in turn, and the next one ends the wait. */
  ghost predicate SetsEnd(sets: seq<string>, timeout: int, looks: seq<Look>, seen: seq<Sighting>,
                          error: Option<Error>)
  {
    exists i, k ::
      && 0 <= i < |sets| && 0 <= k <= |looks|
      && SetsInTurn(sets[..i], timeout, looks[..k], seen)
      && Ends(sets[i], StatefulSetKind, timeout, looks[k..], error, [])
  }

  lemma OneMoreSet(sets: seq<string>, timeout: int, body: seq<Look>, part: seq<Look>, seen: seq<Sighting>,
                   more: seq<Sighting>, i: nat)
    requires i < |sets| && SetsInTurn(sets[..i], timeout, body, seen)
    requires Ends(sets[i], StatefulSetKind, timeout, part, None, more)
    ensures SetsInTurn(sets[..i + 1], timeout, body + part, seen + more)
  {
    var parts :| Concat(parts) == body && SetsByParts(sets[..i], timeout, parts, seen);
    ConcatOneMore(parts, part);
    assert more == [more[0]];
    var names, longer, all := sets[..i + 1], parts + [part], seen + more;
    forall j: nat | j < |names| ensures SetPart(names, timeout, longer, all, j) {
      if j < i {
        assert SetPart(sets[..i], timeout, parts, seen, j);
      }
    }
    assert SetsByParts(names, timeout, longer, all);
  }

  lemma SetsEndWith(sets: seq<string>, timeout: int, body: seq<Look>, part: seq<Look>, seen: seq<Sighting>, i: nat,
                    error: Error)
    requires i < |sets| && SetsInTurn(sets[..i], timeout, body, seen)
    requires Ends(sets[i], StatefulSetKind, timeout, part, Some(error), [])
    ensures SetsEnd(sets, timeout, body + part, seen, Some(error))
  {
    assert (body + part)[..|body|] == body && (body + part)[|body|..] == part;
  }

  /** How the wait for one resource ends. */
  ghost predicate ResourceEnds(r: Resource, suffix: string, timeout: int, looks: seq<Look>, error: Option<Error>,
                               waited: Waited)
  {
    && waited.name == ResourceName(r, suffix) && waited.kind == r.kind
    && if r.kind == "kubegres" then KubegresEnds(waited.name, timeout, looks, error, waited.objects, waited.seen)
       else if KindOf(r.kind).None? then error == Some(UnrecognizedType(r.kind)) && looks == []
       else
         && waited.objects == [waited.name]
         && Ends(waited.name, KindOf(r.kind).value, timeout, looks, error, waited.seen)
  }

  /** A wait that ends without an error has seen the object done. */
  lemma EndedIsDone(name: string, kind: Kind, timeout: int, looks: seq<Look>, seen: seq<Sighting>)
    requires Ends(name, kind, timeout, looks, None, seen)
    ensures AllDone(kind, [name], seen)
  {
    DoneIff(seen[0].snapshot);
  }

  lemma SetsAreDone(names: seq<string>, timeout: int, looks: seq<Look>, seen: seq<Sighting>)
    requires SetsInTurn(names, timeout, looks, seen)
    ensures AllDone(StatefulSetKind, names, seen)
  {
    var parts :| Concat(parts) == looks && SetsByParts(names, timeout, parts, seen);
    forall i | 0 <= i < |seen|
      ensures seen[i].name == names[i] && IsOf(seen[i].snapshot, StatefulSetKind) && StatusOf(seen[i].snapshot) == DONE
    {
      assert SetPart(names, timeout, parts, seen, i);
      EndedIsDone(names[i], StatefulSetKind, timeout, parts[i], [seen[i]]);
      assert [seen[i]][0] == seen[i];
    }
  }

  lemma EndedIsConfirmed(r: Resource, suffix: string, timeout: int, looks: seq<Look>, waited: Waited)
    requires ResourceEnds(r, suffix, timeout, looks, None, waited)
    ensures Confirmed(waited)
  {
    if r.kind == "kubegres" {
      SetsAreDone(waited.objects, timeout, looks[1..], waited.seen);
    } else {
      EndedIsDone(waited.name, KindOf(r.kind).value, timeout, looks, waited.seen);
    }
  }

  /** The first resources were waited for one after the other, each to its end. */
  ghost predicate WaitedInTurn(rs: seq<Resource>, suffix: string, timeout: int, looks: seq<Look>,
                               waited: seq<Waited>)
  {
    exists parts :: Concat(parts) == looks && WaitedByParts(rs, suffix, timeout, parts, waited)
  }

  ghost predicate WaitedByParts(rs: seq<Resource>, suffix: string, timeout: int, parts: seq<seq<Look>>,
                                waited: seq<Waited>)
  {
    && |parts| == |waited| <= |rs|
    && forall i: nat :: i < |waited| ==> ResourcePart(rs, suffix, timeout, parts, waited, i)
  }

  /** The part at `i` is the wait for the resource at `i`. */
  ghost predicate ResourcePart(rs: seq<Resource>, suffix: string, timeout: int, parts: seq<seq<Look>>,
                               waited: seq<Waited>, i: nat)
    requires |parts| == |waited| <= |rs| && i < |waited|
  {
    ResourceEnds(rs[i], suffix, timeout, parts[i], None, waited[i])
  }

  lemma InTurnIsInOrder(rs: seq<Resource>, suffix: string, timeout: int, looks: seq<Look>, waited: seq<Waited>)
    requires WaitedInTurn(rs, suffix, timeout, looks, waited)
    ensures WaitedInOrder(rs, suffix, |waited|, waited)
  {
    var parts :| Concat(parts) == looks && WaitedByParts(rs, suffix, timeout, parts, waited);
    forall i | 0 <= i < |waited|
      ensures waited[i].name == ResourceName(rs[i], suffix) && waited[i].kind == rs[i].kind && Confirmed(waited[i])
    {
      assert ResourcePart(rs, suffix, timeout, parts, waited, i);
      EndedIsConfirmed(rs[i], suffix, timeout, parts[i], waited[i]);
    }
  }

  /** The resource after those waited for ended the wait with the error. */
  ghost predicate StoppedWaiting(rs: seq<Resource>, suffix: string, timeout: int, looks: seq<Look>,
                                 error: Option<Error>, waited: seq<Waited>)
  {
    && |waited| < |rs|
    && exists cut, one ::
      && 0 <= cut <= |looks|
      && WaitedInTurn(rs, suffix, timeout, looks[..cut], waited)
      && ResourceEnds(rs[|waited|], suffix, timeout, looks[cut..], error, one)
  }

  lemma OneMoreInTurn(rs: seq<Resource>, suffix: string, timeout: int, looks: seq<Look>, part: seq<Look>,
                      waited: seq<Waited>, one: Waited)
    requires WaitedInTurn(rs, suffix, timeout, looks, waited) && |waited| < |rs|
    requires ResourceEnds(rs[|waited|], suffix, timeout, part, None, one)
    ensures WaitedInTurn(rs, suffix, timeout, looks + part, waited + [one])
  {
    var parts :| Concat(parts) == looks && WaitedByParts(rs, suffix, timeout, parts, waited);
    ConcatOneMore(parts, part);
    forall i: nat | i < |waited| + 1 ensures ResourcePart(rs, suffix, timeout, parts + [part], waited + [one], i) {
      if i < |waited| {
        assert ResourcePart(rs, suffix, timeout, parts, waited, i);
      }
    }
    assert WaitedByParts(rs, suffix, timeout, parts + [part], waited + [one]);
  }

  lemma StopsWith(rs: seq<Resource>, suffix: string, timeout: int, looks: seq<Look>, part: seq<Look>,
                  error: Option<Error>, waited: seq<Waited>, one: Waited)
    requires WaitedInTurn(rs, suffix, timeout, looks, waited) && |waited| < |rs|
    requires ResourceEnds(rs[|waited|], suffix, timeout, part, error, one)
    ensures StoppedWaiting(rs, suffix, timeout, looks + part, error, waited)
  {
    var all := looks + part;
    assert all[..|looks|] == looks && all[|looks|..] == part;
  }

  class RolloutStatusManager {
    var clock: int
    ghost var looks: seq<Look>

    constructor ()
    {
      looks := [];
    }

    /** Time passes, at least as much as is given. */
    method Pass(least: int)
      modifies this`clock
      ensures clock >= old(clock) + least
    {
      var now: int := *;
      clock := if now < clock + least then clock + least else now;
    }

    /** Reads a resource of the given kind from the cluster, which may hold anything by now. */
    method Poll(name: string, kind: Kind) returns (r: Option<Snapshot>)
      modifies this
      ensures clock >= old(clock) && looks == old(looks) + [Polled(name, kind, r)]
      ensures r.Some? ==> IsOf(r.value, kind)
    {
      Pass(0);
      var found: Snapshot := *;
      r := if IsOf(found, kind) then Some(found) else None;
      looks := looks + [Polled(name, kind, r)];
    }

    /** Lists the stateful sets of a kubegres cluster, which may fail. */
    method ListSets(name: string) returns (r: Option<seq<string>>)
      modifies this
      ensures clock >= old(clock) && looks == old(looks) + [Listed(name, r)]
    {
      Pass(0);
      r := *;
      looks := looks + [Listed(name, r)];
    }

    /** Polls a resource until it is reported done or the time is up. */
    method WaitFor(name: string, kind: Kind, timeout: int)
      returns (error: Option<Error>, seen: seq<Sighting>, ghost stretch: seq<Look>)
      modifies this
      ensures clock >= old(clock) && looks == old(looks) + stretch
      ensures Ends(name, kind, timeout, stretch, error, seen)
      ensures error.None? ==> AllDone(kind, [name], seen)
      ensures error == Some(TimeoutExpired) ==> clock >= old(clock) + timeout
      ensures error.Some? ==> seen == [] && !error.value.UnrecognizedType?
    {
      var start := clock;
      seen, stretch := [], [];
      while clock - start < timeout
        invariant clock >= start == old(clock) && looks == old(looks) + stretch
        invariant SoFar(name, kind, timeout, stretch, clock - start)
        decreases timeout - (clock - start)
      {
        ghost var elapsed := clock - start;
        var found := Poll(name, kind);
        ghost var before := stretch;
        stretch := before + [Polled(name, kind, found)];
        if found.None? {
          if !Retries(kind) {
            DecidedNow(name, kind, timeout, before, elapsed, found, Some(Unreachable), []);
            return Some(Unreachable), [], stretch;
          }
        } else {
          var status := StatusOf(found.value);
          DoneIff(found.value);
          if status.error.Some? {
            DecidedNow(name, kind, timeout, before, elapsed, found, status.error, []);
            return status.error, [], stretch;
          }
          if status.done {
            DecidedNow(name, kind, timeout, before, elapsed, found, None, [Sighting(name, found.value)]);
            return None, [Sighting(name, found.value)], stretch;
          }
        }
        Pass(POLL_INTERVAL);
        OneMoreLook(name, kind, timeout, before, elapsed, found, clock - start);
      }
      error := Some(TimeoutExpired);
    }

    /** Waits for each stateful set in turn, each with the whole timeout. */
    method WaitForSets(sets: seq<string>, timeout: int)
      returns (error: Option<Error>, seen: seq<Sighting>, ghost stretch: seq<Look>)
      modifies this
      ensures clock >= old(clock) && looks == old(looks) + stretch
      ensures error.None? ==> SetsInTurn(sets, timeout, stretch, seen)
      ensures error.Some? ==> SetsEnd(sets, timeout, stretch, seen, error) && !error.value.UnrecognizedType?
    {
      seen, stretch := [], [];
      assert Concat([]) == [] && SetsByParts(sets[..0], timeout, [], []);
      for i := 0 to |sets|
        invariant clock >= old(clock) && looks == old(looks) + stretch
        invariant |seen| == i && SetsInTurn(sets[..i], timeout, stretch, seen)
      {
        var more;
        ghost var part;
        error, more, part := WaitFor(sets[i], StatefulSetKind, timeout);
        assert looks == old(looks) + (stretch + part);
        if error.Some? {
          SetsEndWith(sets, timeout, stretch, part, seen, i, error.value);
          stretch := stretch + part;
          return;
        }
        OneMoreSet(sets, timeout, stretch, part, seen, more, i);
        seen, stretch := seen + more, stretch + part;
      }
      assert sets[..|sets|] == sets;
      error := None;
    }

    /** Waits for the stateful sets of a kubegres cluster. */
    method WaitForKubegres(name: string, timeout: int)
      returns (error: Option<Error>, sets: seq<string>, seen: seq<Sighting>, ghost stretch: seq<Look>)
      modifies this
      ensures clock >= old(clock) && looks == old(looks) + stretch
      ensures KubegresEnds(name, timeout, stretch, error, sets, seen)
      ensures error.None? ==> AllDone(StatefulSetKind, sets, seen)
      ensures error.Some? ==> !error.value.UnrecognizedType?
    {
      seen, sets := [], [];
      var listed := ListSets(name);
      stretch := [Listed(name, listed)];
      if listed.None? {
        return Some(Unreachable), sets, seen, stretch;
      }
      sets := listed.value;
      ghost var body;
      error, seen, body := WaitForSets(sets, timeout);
      stretch := stretch + body;
      assert stretch[1..] == body && looks == old(looks) + stretch;
      if error.None? {
        SetsAreDone(sets, timeout, body, seen);
      }
    }

    /** Waits for one resource; the boolean says that the rest of the list is to be left alone. */
    method WaitForResource(resource: Resource, suffix: string, timeout: int)
      returns (error: Option<Error>, stop: bool, waited: Waited, ghost stretch: seq<Look>)
      modifies this
      ensures clock >= old(clock) && looks == old(looks) + stretch
      ensures stop <==> resource.kind == "service"
      ensures stop ==> error.None? && stretch == []
      ensures !stop ==> ResourceEnds(resource, suffix, timeout, stretch, error, waited)
      ensures error.None? && !stop ==> Confirmed(waited)
      ensures error.Some? && error.value.UnrecognizedType? <==>
        !stop && resource.kind != "kubegres" && KindOf(resource.kind).None?
      ensures error.Some? && error.value.UnrecognizedType? ==> error.value.kind == resource.kind
    {
      var name := ResourceName(resource, suffix);
      waited, stretch := Waited(name, resource.kind, [name], []), [];
      stop := resource.kind == "service";
      if stop {
        return None, stop, waited, stretch;
      }
      var objects, seen := [name], [];
      if resource.kind == "kubegres" {
        error, objects, seen, stretch := WaitForKubegres(name, timeout);
      } else if KindOf(resource.kind).None? {
        error := Some(UnrecognizedType(resource.kind));
      } else {
        error, seen, stretch := WaitFor(name, KindOf(resource.kind).value, timeout);
      }
      waited := Waited(name, resource.kind, objects, seen);
    }

    /** Waits for the resources in order. A service entry ends the wait; whatever follows is not looked at. */
    method Wait(resources: seq<Resource>, suffix: string, timeout: int)
      returns (error: Option<Error>, waited: seq<Waited>, ghost stretch: seq<Look>)
      modifies this
      ensures clock >= old(clock) && looks == old(looks) + stretch
      ensures error.None? ==> WaitedInOrder(resources, suffix, FirstService(resources), waited)
      ensures error.None? ==> WaitedInTurn(resources, suffix, timeout, stretch, waited)
      ensures error.Some? ==> |waited| < FirstService(resources) && WaitedInOrder(resources, suffix, |waited|, waited)
      ensures error.Some? ==> StoppedWaiting(resources, suffix, timeout, stretch, error, waited)
      ensures error.Some? && error.value.UnrecognizedType? ==> error.value.kind == resources[|waited|].kind
    {
      waited, stretch := [], [];
      assert Concat([]) == [] && WaitedByParts(resources, suffix, timeout, [], []);
      for i := 0 to |resources|
        invariant clock >= old(clock) && looks == old(looks) + stretch
        invariant i <= FirstService(resources)
        invariant |waited| == i && WaitedInTurn(resources, suffix, timeout, stretch, waited)
      {
        var stop, one;
        ghost var part;
        error, stop, one, part := WaitForResource(resources[i], suffix, timeout);
        if stop {
          InTurnIsInOrder(resources, suffix, timeout, stretch, waited);
          return;
        }
        if error.Some? {
          InTurnIsInOrder(resources, suffix, timeout, stretch, waited);
          assert looks == old(looks) + (stretch + part);
          StopsWith(resources, suffix, timeout, stretch, part, error, waited, one);
          stretch := stretch + part;
          return;
        }
        OneMoreInTurn(resources, suffix, timeout, stretch, part, waited, one);
        assert looks == old(looks) + (stretch + part);
        waited, stretch := waited + [one], stretch + part;
      }
      InTurnIsInOrder(resources, suffix, timeout, stretch, waited);
      error := None;
    }
  }

  /** What a rolled out deployment looks like. */
  ghost predicate IsUp(d: Deployment) {
    && d.generation <= d.observedGeneration
    && d.replicas <= d.updatedReplicas
    && (d.availableReplicas <= d.replicas ==>
          && d.availableReplicas == d.updatedReplicas == d.replicas
          && (d.specReplicas.Some? ==> d.replicas >= d.specReplicas.value))
  }

  /** Whether the snapshot is one of an object of the kind that a resource names. */
  ghost predicate IsOfNamed(kind: string, snapshot: Snapshot) {
    match snapshot
    case DeploymentAt(_) => kind == "deployment"
    case StatefulSetAt(_) => kind == "statefulset" || kind == "kubegres"
    case DaemonSetAt(_) => kind == "daemonset"
    case JobAt(_) => kind == "job"
    case CronJobAt(_) => kind == "cronjob"
  }

  /**
   * What the end of a wait says about the resources before the first service entry: each object behind
   * them was seen rolled out, as an object of the kind and under the suffixed name.
   */
  lemma {:induction false} WaitedResourcesAreReady(rs: seq<Resource>, suffix: string, waited: seq<Waited>, i: nat)
    requires WaitedInOrder(rs, suffix, FirstService(rs), waited) && i < FirstService(rs)
    ensures waited[i].name == GetResourceName(rs[i].name, suffix)
    ensures waited[i].kind != "kubegres" ==> waited[i].objects == [waited[i].name]
    ensures |waited[i].seen| == |waited[i].objects|
    ensures forall j :: 0 <= j < |waited[i].seen| ==>
      var sighting := waited[i].seen[j];
      && sighting.name == waited[i].objects[j]
      && IsOfNamed(rs[i].kind, sighting.snapshot) && IsReady(sighting.snapshot)
  {
    assert rs[i].name + "-" + suffix == rs[i].name + ("-" + suffix);
    assert Confirmed(waited[i]);
    forall j | 0 <= j < |waited[i].seen|
      ensures IsOfNamed(rs[i].kind, waited[i].seen[j].snapshot) && IsReady(waited[i].seen[j].snapshot)
    {
      DoneIff(waited[i].seen[j].snapshot);
    }
  }

  /** What the end of a wait says about the deployments before the first service entry. */
  lemma WaitedDeploymentsAreUp(rs: seq<Resource>, suffix: string, waited: seq<Waited>, i: nat)
    requires WaitedInOrder(rs, suffix, FirstService(rs), waited)
    requires i < FirstService(rs) && rs[i].kind == "deployment"
    ensures |waited[i].seen| == 1 && waited[i].seen[0].name == ResourceName(rs[i], suffix)
    ensures waited[i].seen[0].snapshot.DeploymentAt? && IsUp(waited[i].seen[0].snapshot.d)
  {
    DeploymentSeen(waited[i]);
    DoneDeployment(waited[i].seen[0].snapshot.d);
  }

  lemma DeploymentSeen(w: Waited)
    requires Confirmed(w) && w.kind == "deployment"
    ensures |w.seen| == 1 && w.seen[0].name == w.name && w.seen[0].snapshot.DeploymentAt?
    ensures DeploymentStatus(w.seen[0].snapshot.d, 0) == DONE
  {
    assert KindOf(w.kind) == Some(DeploymentKind);
    assert |w.seen| == 1;
    assert IsOf(w.seen[0].snapshot, DeploymentKind);
  }
}
