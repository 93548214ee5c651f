/**
 * The two supervisors that keep one worker per listed name, as interleaved transition systems: the
 * one for application checks and the one for node checks. Every access to a shared map is a step.
 */
module Supervisor {

  /** Which supervisor; the node one treats the node it runs on, `self`, differently. */
  datatype Variant = Apps | Nodes(self: string)

  /** An application or node as the list shows it; `revision` stands for all but its name. */
  datatype Item = Item(name: string, revision: int)

  /** Where a worker stands in its loop. */
  datatype Phase =
    | AtTop                 // about to look up or check its subject
    | Holding(item: Item)   // has a result that is not stored yet
    | Waiting               // in the select on timer and cancellation
    | Exited
    | Forever               // the loop for the node's own status, which ignores cancellation

  datatype Worker = Worker(item: Item, cancelled: bool, phase: Phase)

  /** A tracked name: the item last seen and the worker whose cancel function is stored. */
  datatype Tracked = Tracked(item: Item, worker: nat)

  datatype Control =
    | Sleeping(listed: set<string>)
    | Adding(todo: seq<Item>, updated: set<string>, listed: set<string>)
    | Spawning(item: Item, worker: nat, todo: seq<Item>, updated: set<string>, listed: set<string>)
    | Sweeping(left: set<string>, listed: set<string>)
    | Dropping(key: string, left: set<string>, listed: set<string>)
    | Purging(key: string, left: set<string>, listed: set<string>)

  datatype State = State(
    tracker: map<string, Tracked>,
    workers: map<nat, Worker>,
    results: map<string, Item>,
    control: Control,
    next: nat)

  const INITIAL := State(map[], map[], map[], Sleeping({}), 0)

  datatype Action =
    | StartPass(list: seq<Item>) | Add | Spawn | BeginSweep
    | Keep(key: string) | Cancel(key: string) | Drop | Purge | EndPass
    | Load(worker: nat) | Store(worker: nat) | Tick(worker: nat) | Quit(worker: nat)

  function NamesOf(list: seq<Item>): set<string> {
    set it | it in list :: it.name
  }

  predicate WorkerIn(s: State, w: nat, phase: Phase) {
    w in s.workers && s.workers[w].phase == phase
  }

  predicate Enabled(v: Variant, s: State, a: Action) {
    match a
    case StartPass(_) => s.control.Sleeping?
    case Add => s.control.Adding? && s.control.todo != []
    case Spawn => s.control.Spawning?
    case BeginSweep => s.control.Adding? && s.control.todo == []
    case Keep(key) => s.control.Sweeping? && key in s.control.left && key in s.control.listed
    case Cancel(key) => s.control.Sweeping? && key in s.control.left && key !in s.control.listed
      && key in s.tracker && s.tracker[key].worker in s.workers
    case Drop => s.control.Dropping?
    case Purge => s.control.Purging?
    case EndPass => s.control.Sweeping? && s.control.left == {}
    case Load(w) => WorkerIn(s, w, AtTop)
    case Store(w) => w in s.workers && s.workers[w].phase.Holding?
    case Tick(w) => WorkerIn(s, w, Waiting)
    case Quit(w) => WorkerIn(s, w, Waiting) && s.workers[w].cancelled
  }

  function SetPhase(s: State, w: nat, phase: Phase): State
    requires w in s.workers
  {
    s.(workers := s.workers[w := s.workers[w].(phase := phase)])
  }

  /** One item of the list: a new name is tracked, a known one has its item refreshed. */
  function DoAdd(v: Variant, s: State): State
    requires s.control.Adding? && s.control.todo != []
  {
    var it, rest, updated := s.control.todo[0], s.control.todo[1..], s.control.updated + {s.control.todo[0].name};
    if it.name !in s.tracker then
      s.(tracker := s.tracker[it.name := Tracked(it, s.next)], next := s.next + 1,
         control := Spawning(it, s.next, rest, updated, s.control.listed))
    else if v.Apps? then
      s.(tracker := s.tracker[it.name := s.tracker[it.name].(item := it)],
        control := Adding(rest, updated, s.control.listed))
    else
      s.(control := Adding(rest, updated, s.control.listed))
  }

  function FirstPhase(v: Variant, name: string): Phase {
    if v.Nodes? && name == v.self then Forever else AtTop
  }

  /** A worker that checks: application workers look themselves up first, node workers do not. */
  function DoLoad(v: Variant, s: State, w: nat): State
    requires w in s.workers
  {
    var name := s.workers[w].item.name;
    if v.Nodes? then SetPhase(s, w, Holding(s.workers[w].item))
    else if name in s.tracker then SetPhase(s, w, Holding(s.tracker[name].item))
    else SetPhase(s, w, Waiting)
  }

  function Do(v: Variant, s: State, a: Action): State
    requires Enabled(v, s, a)
  {
    match a
    case StartPass(list) => s.(control := Adding(list, {}, NamesOf(list)))
    case Add => DoAdd(v, s)
    case Spawn =>
      s.(workers := s.workers[s.control.worker := Worker(s.control.item, false, FirstPhase(v, s.control.item.name))],
         control := Adding(s.control.todo, s.control.updated, s.control.listed))
    case BeginSweep => s.(control := Sweeping(s.tracker.Keys, s.control.updated))
    case Keep(key) => s.(control := Sweeping(s.control.left - {key}, s.control.listed))
    case Cancel(key) =>
      var w := s.tracker[key].worker;
      s.(workers := s.workers[w := s.workers[w].(cancelled := true)],
        control := Dropping(key, s.control.left - {key}, s.control.listed))
    case Drop =>
      s.(tracker := s.tracker - {s.control.key},
         control :=
           if v.Apps? then Sweeping(s.control.left, s.control.listed)
           else Purging(s.control.key, s.control.left, s.control.listed))
    case Purge => s.(results := s.results - {s.control.key}, control := Sweeping(s.control.left, s.control.listed))
    case EndPass => s.(control := Sleeping(s.control.listed))
    case Load(w) => DoLoad(v, s, w)
    case Store(w) =>
      var item := s.workers[w].phase.item;
      SetPhase(s.(results := s.results[item.name := item]), w, Waiting)
    case Tick(w) => SetPhase(s, w, AtTop)
    case Quit(w) => SetPhase(s.(results := s.results - {s.workers[w].item.name}), w, Exited)
  }

  /** A worker that will still delete its key from the results when it leaves. */
  predicate Writes(w: Worker) {
    !w.phase.Exited? && !w.phase.Forever?
  }

  ghost predicate HasWriter(s: State, name: string) {
    exists w :: w in s.workers && s.workers[w].item.name == name && Writes(s.workers[w])
  }

  /** The worker that is tracked under a name is there, carries the name, and is not cancelled. */
  predicate TrackedRuns(s: State, key: string)
    requires key in s.tracker
  {
    var w := s.tracker[key].worker;
    w in s.workers && s.workers[w].item.name == key && !s.workers[w].cancelled
  }

  ghost predicate TrackerInv(s: State) {
    && (forall k :: k in s.tracker ==> s.tracker[k].item.name == k && s.tracker[k].worker < s.next)
    && forall k :: k in s.tracker ==>
      || TrackedRuns(s, k)
      || (s.control.Spawning? && s.control.item.name == k)
      || (s.control.Dropping? && s.control.key == k)
  }

  ghost predicate WorkerInv(v: Variant, s: State) {
    forall w :: w in s.workers ==>
      && w < s.next
      && (!s.workers[w].cancelled ==>
            s.workers[w].item.name in s.tracker && s.tracker[s.workers[w].item.name].worker == w)
      && (s.workers[w].phase.Exited? ==> s.workers[w].cancelled)
      && (s.workers[w].phase.Holding? ==> s.workers[w].phase.item.name == s.workers[w].item.name)
      && (s.workers[w].phase.Forever? <==> v.Nodes? && s.workers[w].item.name == v.self)
  }

  ghost predicate ResultInv(s: State) {
    forall k :: k in s.results ==> s.results[k].name == k && HasWriter(s, k)
  }

  ghost predicate ControlInv(s: State) {
    match s.control
    case Sleeping(listed) => s.tracker.Keys == listed
    case Adding(todo, updated, listed) => updated <= s.tracker.Keys && listed == updated + NamesOf(todo)
    case Spawning(item, w, todo, updated, listed) =>
      && updated <= s.tracker.Keys && listed == updated + NamesOf(todo)
      && item.name in s.tracker && s.tracker[item.name].worker == w && w !in s.workers
    case Sweeping(left, listed) => listed <= s.tracker.Keys && left <= s.tracker.Keys && s.tracker.Keys <= listed + left
    case Dropping(key, left, listed) =>
      && key in s.tracker && key !in listed && key !in left
      && listed <= s.tracker.Keys && left <= s.tracker.Keys && s.tracker.Keys <= listed + left + {key}
      && s.tracker[key].worker in s.workers && s.workers[s.tracker[key].worker].cancelled
    case Purging(key, left, listed) =>
      && key !in s.tracker && listed <= s.tracker.Keys && left <= s.tracker.Keys && s.tracker.Keys <= listed + left
  }

  ghost predicate Inv(v: Variant, s: State) {
    TrackerInv(s) && WorkerInv(v, s) && ResultInv(s) && ControlInv(s) && (s.control.Purging? ==> v.Nodes?)
  }

  ghost predicate IsStep(v: Variant, run: seq<State>, actions: seq<Action>, i: nat)
    requires i < |actions| && i + 1 < |run|
  {
    Enabled(v, run[i], actions[i]) && run[i + 1] == Do(v, run[i], actions[i])
  }

  ghost predicate IsRun(v: Variant, run: seq<State>, actions: seq<Action>) {
    && |run| == |actions| + 1 && run[0] == INITIAL
    && forall i :: 0 <= i < |actions| ==> IsStep(v, run, actions, i)
  }

  /** Steps other than leaving keep every writer of a result. */
  lemma WritersStay(v: Variant, s: State, a: Action, name: string)
    requires Enabled(v, s, a) && HasWriter(s, name)
    requires a.Quit? ==> s.workers[a.worker].item.name != name
    requires a.Spawn? ==> s.control.worker !in s.workers
    requires WorkerInv(v, s)
    ensures HasWriter(Do(v, s, a), name)
  {
    var w :| w in s.workers && s.workers[w].item.name == name && Writes(s.workers[w]);
    var s' := Do(v, s, a);
    assert w in s'.workers && s'.workers[w].item.name == name && Writes(s'.workers[w]);
  }

  lemma ResultsKeepWriters(v: Variant, s: State, a: Action)
    requires Inv(v, s) && Enabled(v, s, a)
    ensures ResultInv(Do(v, s, a))
  {
    var s' := Do(v, s, a);
    forall k | k in s'.results ensures s'.results[k].name == k && HasWriter(s', k) {
      if a.Store? && k == s.workers[a.worker].item.name {
        assert Writes(s'.workers[a.worker]);
      } else {
        assert k in s.results;
        WritersStay(v, s, a, k);
      }
    }
  }

  predicate ByWorker(a: Action) {
    a.Load? || a.Store? || a.Tick? || a.Quit?
  }

  /** A worker's step leaves all but the results and its own phase alone. */
  lemma WorkerStep(v: Variant, s: State, a: Action)
    requires Enabled(v, s, a) && ByWorker(a)
    ensures var s' := Do(v, s, a);
      && s'.tracker == s.tracker && s'.control == s.control && s'.next == s.next && s'.workers.Keys == s.workers.Keys
      && forall w :: w in s.workers ==>
        s'.workers[w].item == s.workers[w].item && s'.workers[w].cancelled == s.workers[w].cancelled
  {
  }

  lemma TrackerIsKeptByWorkers(v: Variant, s: State, a: Action)
    requires Inv(v, s) && Enabled(v, s, a) && ByWorker(a)
    ensures TrackerInv(Do(v, s, a)) && ControlInv(Do(v, s, a))
  {
    WorkerStep(v, s, a);
    var s' := Do(v, s, a);
    assert forall k :: k in s.tracker && TrackedRuns(s, k) ==> TrackedRuns(s', k);
  }

  lemma TrackerIsKeptBySupervisor(v: Variant, s: State, a: Action)
    requires Inv(v, s) && Enabled(v, s, a) && !ByWorker(a)
    ensures TrackerInv(Do(v, s, a))
  {
  }

  lemma WorkersAreKeptByWorkers(v: Variant, s: State, a: Action)
    requires Inv(v, s) && Enabled(v, s, a) && ByWorker(a)
    ensures WorkerInv(v, Do(v, s, a))
  {
  }

  lemma WorkersAreKeptBySupervisor(v: Variant, s: State, a: Action)
    requires Inv(v, s) && Enabled(v, s, a) && !ByWorker(a)
    ensures WorkerInv(v, Do(v, s, a))
  {
  }

  lemma ControlIsKeptBySupervisor(v: Variant, s: State, a: Action)
    requires TrackerInv(s) && WorkerInv(v, s) && ControlInv(s) && Enabled(v, s, a) && !ByWorker(a)
    ensures ControlInv(Do(v, s, a))
  {
    if a.Add? {
      var todo := s.control.todo;
      assert todo == [todo[0]] + todo[1..];
      assert NamesOf(todo) == {todo[0].name} + NamesOf(todo[1..]);
    }
  }

  lemma StepKeepsInv(v: Variant, s: State, a: Action)
    requires Inv(v, s) && Enabled(v, s, a)
    ensures Inv(v, Do(v, s, a))
  {
    ResultsKeepWriters(v, s, a);
    if ByWorker(a) {
      TrackerIsKeptByWorkers(v, s, a);
      WorkersAreKeptByWorkers(v, s, a);
    } else {
      TrackerIsKeptBySupervisor(v, s, a);
      WorkersAreKeptBySupervisor(v, s, a);
      ControlIsKeptBySupervisor(v, s, a);
    }
  }

  /** Every interleaving keeps the invariant. */
  lemma {:induction false} RunsKeepInv(v: Variant, run: seq<State>, actions: seq<Action>, i: nat)
    requires IsRun(v, run, actions) && i < |run|
    ensures Inv(v, run[i])
  {
    if i > 0 {
      RunsKeepInv(v, run, actions, i - 1);
      var s, a := run[i - 1], actions[i - 1];
      assert IsStep(v, run, actions, i - 1);
      StepKeepsInv(v, s, a);
    }
  }

  /** In every interleaving each result key belongs to a worker that deletes it when it leaves. */
  lemma ResultsHaveWriters(v: Variant, run: seq<State>, actions: seq<Action>, i: nat, k: string)
    requires IsRun(v, run, actions) && i < |run| && k in run[i].results
    ensures run[i].results[k].name == k
    ensures exists w :: w in run[i].workers && run[i].workers[w].item.name == k && Writes(run[i].workers[w])
  {
    RunsKeepInv(v, run, actions, i);
  }

  ghost predicate Uncancelled(s: State, w: nat) {
    w in s.workers && !s.workers[w].cancelled
  }

  /** Between passes, tracked names and uncancelled workers correspond one to one. */
  lemma TrackedAndUncancelledCorrespond(v: Variant, run: seq<State>, actions: seq<Action>, i: nat)
    requires IsRun(v, run, actions) && i < |run| && run[i].control.Sleeping?
    ensures forall k :: k in run[i].tracker ==>
      Uncancelled(run[i], run[i].tracker[k].worker) && run[i].workers[run[i].tracker[k].worker].item.name == k
    ensures forall w :: Uncancelled(run[i], w) ==>
      run[i].workers[w].item.name in run[i].tracker && run[i].tracker[run[i].workers[w].item.name].worker == w
    ensures forall w :: Uncancelled(run[i], w) ==> !run[i].workers[w].phase.Exited?
  {
    RunsKeepInv(v, run, actions, i);
    assert forall k :: k in run[i].tracker ==> TrackedRuns(run[i], k);
  }

  function ListedOf(c: Control): set<string> {
    c.listed
  }

  lemma StepKeepsListed(v: Variant, s: State, a: Action)
    requires ControlInv(s) && Enabled(v, s, a) && !a.StartPass?
    ensures ListedOf(Do(v, s, a).control) == ListedOf(s.control)
  {
  }

  lemma {:induction false} PassKeepsItsList(v: Variant, run: seq<State>, actions: seq<Action>, i: nat, j: nat)
    requires IsRun(v, run, actions) && i < j < |run|
    requires actions[i].StartPass? && forall k :: i < k < j ==> !actions[k].StartPass?
    ensures ListedOf(run[j].control) == NamesOf(actions[i].list)
  {
    assert IsStep(v, run, actions, j - 1);
    if i < j - 1 {
      PassKeepsItsList(v, run, actions, i, j - 1);
      RunsKeepInv(v, run, actions, j - 1);
      StepKeepsListed(v, run[j - 1], actions[j - 1]);
    }
  }

  /** When a pass ends, exactly the names of its list are tracked. */
  lemma PassTracksItsList(v: Variant, run: seq<State>, actions: seq<Action>, i: nat, j: nat)
    requires IsRun(v, run, actions) && i < j < |actions|
    requires actions[i].StartPass? && actions[j].EndPass? && forall k :: i < k < j ==> !actions[k].StartPass?
    ensures run[j + 1].tracker.Keys == NamesOf(actions[i].list)
  {
    PassKeepsItsList(v, run, actions, i, j + 1);
    RunsKeepInv(v, run, actions, j + 1);
    assert IsStep(v, run, actions, j);
  }

  /** No cancelled worker is left that could still write. */
  ghost predicate CancelledAreGone(s: State) {
    forall w :: w in s.workers && s.workers[w].cancelled ==> !Writes(s.workers[w])
  }

  /** Between passes, once the cancelled workers have gone, only tracked names have results. */
  lemma ResultsSettle(v: Variant, run: seq<State>, actions: seq<Action>, i: nat)
    requires IsRun(v, run, actions) && i < |run|
    requires run[i].control.Sleeping? && CancelledAreGone(run[i])
    ensures run[i].results.Keys <= run[i].tracker.Keys
  {
    RunsKeepInv(v, run, actions, i);
    SettledResults(v, run[i]);
  }

  lemma SettledResults(v: Variant, s: State)
    requires Inv(v, s) && s.control.Sleeping? && CancelledAreGone(s)
    ensures s.results.Keys <= s.tracker.Keys
  {
    forall k | k in s.results ensures k in s.tracker {
      assert HasWriter(s, k);
      var w :| w in s.workers && s.workers[w].item.name == k && Writes(s.workers[w]);
    }
  }

  // The cancelled workers, by where they stand.

  ghost function AtTopOf(s: State): set<nat> {
    set w | w in s.workers && s.workers[w].cancelled && s.workers[w].phase.AtTop?
  }

  ghost function HoldingOf(s: State): set<nat> {
    set w | w in s.workers && s.workers[w].cancelled && s.workers[w].phase.Holding?
  }

  ghost function WaitingOf(s: State): set<nat> {
    set w | w in s.workers && s.workers[w].cancelled && s.workers[w].phase.Waiting?
  }

  /** The run of the given actions from a state. */
  ghost predicate Leads(v: Variant, s: State, actions: seq<Action>, s': State)
    decreases |actions|
  {
    if actions == [] then s' == s
    else Enabled(v, s, actions[0]) && Leads(v, Do(v, s, actions[0]), actions[1..], s')
  }

  /** The workers that are not cancelled are the same, and stand where they stood. */
  ghost predicate SameUncancelled(s: State, s': State) {
    forall w :: Uncancelled(s, w) ==> w in s'.workers && s'.workers[w] == s.workers[w]
  }

  /** The next step of a cancelled worker on its way out. */
  lemma OneStepOut(v: Variant, s: State, w: nat) returns (a: Action)
    requires w in s.workers && s.workers[w].cancelled && Writes(s.workers[w])
    requires s.workers[w].phase.AtTop? || (AtTopOf(s) == {} && (s.workers[w].phase.Holding? || HoldingOf(s) == {}))
    ensures Enabled(v, s, a) && ByWorker(a)
    ensures Do(v, s, a).control == s.control && Do(v, s, a).tracker == s.tracker
    ensures SameUncancelled(s, Do(v, s, a))
    ensures var s' := Do(v, s, a);
      (AtTopOf(s), HoldingOf(s), WaitingOf(s) decreases to AtTopOf(s'), HoldingOf(s'), WaitingOf(s'))
  {
    match s.workers[w].phase
    case AtTop =>
      a := Load(w);
      assert w in AtTopOf(s) && AtTopOf(Do(v, s, a)) == AtTopOf(s) - {w};
    case Holding(_) =>
      a := Store(w);
      assert w in HoldingOf(s) && HoldingOf(Do(v, s, a)) == HoldingOf(s) - {w};
      assert AtTopOf(Do(v, s, a)) == AtTopOf(s);
    case Waiting =>
      a := Quit(w);
      assert w in WaitingOf(s) && WaitingOf(Do(v, s, a)) == WaitingOf(s) - {w};
      assert AtTopOf(Do(v, s, a)) == AtTopOf(s) && HoldingOf(Do(v, s, a)) == HoldingOf(s);
  }

  /** Between passes the cancelled workers can all leave by steps of their own, which settles the results. */
  lemma {:induction false} CancelledCanLeave(v: Variant, s: State) returns (actions: seq<Action>, s': State)
    requires Inv(v, s) && s.control.Sleeping?
    ensures Leads(v, s, actions, s') && forall a :: a in actions ==> ByWorker(a)
    ensures CancelledAreGone(s') && s'.tracker == s.tracker && s'.control == s.control
    ensures Inv(v, s') && SameUncancelled(s, s')
    ensures s'.results.Keys <= s.tracker.Keys
    decreases AtTopOf(s), HoldingOf(s), WaitingOf(s)
  {
    if CancelledAreGone(s) {
      SettledResults(v, s);
      return [], s;
    }
    var w :| w in s.workers && s.workers[w].cancelled && Writes(s.workers[w]);
    if AtTopOf(s) != {} {
      w :| w in AtTopOf(s);
    } else if HoldingOf(s) != {} {
      w :| w in HoldingOf(s);
    } else {
      assert w in WaitingOf(s) + HoldingOf(s) + AtTopOf(s);
    }
    var a := OneStepOut(v, s, w);
    var next := Do(v, s, a);
    StepKeepsInv(v, s, a);
    var rest;
    rest, s' := CancelledCanLeave(v, next);
    actions := [a] + rest;
    assert actions[1..] == rest;
  }

  /** The loop for the node's own status never ends, so each time its node is listed anew one more runs. */
  lemma {:induction false} OwnStatusWorkersStay(v: Variant, run: seq<State>, actions: seq<Action>, i: nat, j: nat,
                                                w: nat)
    requires IsRun(v, run, actions) && i <= j < |run|
    requires w in run[i].workers && run[i].workers[w].phase.Forever?
    ensures w in run[j].workers && run[j].workers[w].phase.Forever?
    decreases j - i
  {
    if i < j {
      RunsKeepInv(v, run, actions, i);
      assert IsStep(v, run, actions, i);
      OwnStatusWorkersStay(v, run, actions, i + 1, j, w);
    }
  }
}
