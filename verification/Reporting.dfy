/** What the supervisors get done: results are stored, passes end, and the results catch up with the list. */
module Reporting {
  import opened Supervisor

  // A check of a name that is tracked ends in a stored result.

  /** What the worker's next check reports on: the tracked item, or for nodes the one it was started with. */
  ghost function Subject(v: Variant, s: State, w: nat): Item
    requires w in s.workers && (v.Apps? ==> s.workers[w].item.name in s.tracker)
  {
    if v.Apps? then s.tracker[s.workers[w].item.name].item else s.workers[w].item
  }

  /** A check that finds its subject holds a result, which can be stored and then is the one for the name. */
  lemma CheckIsStored(v: Variant, s: State, w: nat)
    requires Inv(v, s) && Enabled(v, s, Load(w)) && (v.Apps? ==> s.workers[w].item.name in s.tracker)
    ensures
      var s1 := Do(v, s, Load(w));
      && s1 == s.(workers := s1.workers) && Enabled(v, s1, Store(w))
      && var s2 := Do(v, s1, Store(w));
         && s2.results == s.results[s.workers[w].item.name := Subject(v, s, w)]
         && WorkerIn(s2, w, Waiting)
         && s2 == s.(results := s2.results, workers := s.workers[w := s.workers[w].(phase := Waiting)])
  {
    var s1 := Do(v, s, Load(w));
    assert s1.workers[w := s1.workers[w].(phase := Waiting)] == s.workers[w := s.workers[w].(phase := Waiting)];
  }

  /** Without a subject, which happens to applications only, it goes on waiting and stores nothing. */
  lemma CheckWithoutSubject(v: Variant, s: State, w: nat)
    requires Inv(v, s) && Enabled(v, s, Load(w)) && v.Apps? && s.workers[w].item.name !in s.tracker
    ensures Do(v, s, Load(w)) == s.(workers := s.workers[w := s.workers[w].(phase := Waiting)])
  {
  }

  predicate OfWorker(a: Action, w: nat) {
    ByWorker(a) && a.worker == w
  }

  /** Whatever happens in between, what a worker stores is what it held. */
  lemma {:induction false} HeldUntilStored(v: Variant, run: seq<State>, actions: seq<Action>, i: nat, j: nat, w: nat)
    requires IsRun(v, run, actions) && i <= j < |run|
    requires w in run[i].workers && run[i].workers[w].phase.Holding?
    requires forall k :: i <= k < j ==> !OfWorker(actions[k], w)
    ensures w in run[j].workers && run[j].workers[w].phase == run[i].workers[w].phase
    ensures Enabled(v, run[j], Store(w))
    ensures var item := run[i].workers[w].phase.item;
      item.name == run[i].workers[w].item.name && Do(v, run[j], Store(w)).results == run[j].results[item.name := item]
    decreases j - i
  {
    RunsKeepInv(v, run, actions, i);
    if i < j {
      assert IsStep(v, run, actions, i);
      assert !OfWorker(actions[i], w);
      HeldUntilStored(v, run, actions, i + 1, j, w);
    }
  }

  // What the tracker holds when a pass ends.

  /** The item of the list is the last one of its name. */
  ghost predicate IsLastListed(list: seq<Item>, it: Item) {
    exists i :: 0 <= i < |list| && list[i] == it && forall j :: i < j < |list| ==> list[j].name != it.name
  }

  /** Each name of the list is tracked with its last item. */
  ghost predicate TracksLast(s: State, list: seq<Item>) {
    forall it :: IsLastListed(list, it) ==> it.name in s.tracker && s.tracker[it.name].item == it
  }

  /** How far the pass over the list has come. */
  ghost predicate PassOver(s: State, list: seq<Item>) {
    && ListedOf(s.control) == NamesOf(list)
    && match s.control
       case Adding(todo, updated, _) => Rest(list, todo) && TracksLast(s, list[..|list| - |todo|])
         && updated == NamesOf(list[..|list| - |todo|])
       case Spawning(_, _, todo, updated, _) => Rest(list, todo) && TracksLast(s, list[..|list| - |todo|])
         && updated == NamesOf(list[..|list| - |todo|])
       case _ => TracksLast(s, list)
  }

  /** What is to be done is the end of the list. */
  ghost predicate Rest(list: seq<Item>, todo: seq<Item>) {
    |todo| <= |list| && list[|list| - |todo|..] == todo
  }

  lemma LastOfLonger(list: seq<Item>, n: nat, it: Item)
    requires n < |list|
    ensures IsLastListed(list[..n + 1], it) <==>
      it == list[n] || (IsLastListed(list[..n], it) && it.name != list[n].name)
  {
    var longer, shorter := list[..n + 1], list[..n];
    if IsLastListed(longer, it) && it != list[n] {
      var i :| 0 <= i < |longer| && longer[i] == it && forall j :: i < j < |longer| ==> longer[j].name != it.name;
      assert shorter[i] == it && longer[n].name != it.name;
      assert forall j :: i < j < n ==> shorter[j] == longer[j];
    }
    if it == list[n] {
      assert longer[n] == it;
    } else if IsLastListed(shorter, it) && it.name != list[n].name {
      var i :| 0 <= i < |shorter| && shorter[i] == it && forall j :: i < j < |shorter| ==> shorter[j].name != it.name;
      assert longer[i] == it;
      assert forall j :: i < j < n ==> longer[j] == shorter[j];
    }
  }

  /** Adding one more item of the list leaves the beginning up to it tracked. */
  lemma AddTracksLast(s: State, list: seq<Item>, n: nat, s': State)
    requires n < |list| && TracksLast(s, list[..n]) && list[n].name in s'.tracker
    requires s'.tracker[list[n].name].item == list[n]
    requires forall k :: k in s.tracker && k != list[n].name ==> k in s'.tracker && s'.tracker[k] == s.tracker[k]
    ensures TracksLast(s', list[..n + 1])
  {
    forall it | IsLastListed(list[..n + 1], it) ensures it.name in s'.tracker && s'.tracker[it.name].item == it {
      LastOfLonger(list, n, it);
    }
  }

  lemma NamesOfLonger(list: seq<Item>, n: nat)
    requires n < |list|
    ensures NamesOf(list[..n + 1]) == NamesOf(list[..n]) + {list[n].name}
  {
    assert list[..n + 1] == list[..n] + [list[n]];
  }

  lemma AddKeepsPass(s: State, list: seq<Item>)
    requires PassOver(s, list) && s.control.Adding? && s.control.todo != []
    ensures PassOver(DoAdd(Apps, s), list)
  {
    var s', n := DoAdd(Apps, s), |list| - |s.control.todo|;
    assert s.control.todo[0] == list[n] && s.control.todo[1..] == list[n + 1..];
    AddTracksLast(s, list, n, s');
    NamesOfLonger(list, n);
  }

  lemma StepKeepsPass(s: State, list: seq<Item>, a: Action)
    requires Inv(Apps, s) && PassOver(s, list) && Enabled(Apps, s, a) && !a.StartPass?
    ensures PassOver(Do(Apps, s, a), list)
  {
    if a.Add? {
      AddKeepsPass(s, list);
    } else if a.BeginSweep? {
      assert list[..|list|] == list;
    } else if a.Drop? {
      DropKeepsListed(s, list);
    }
  }

  lemma DropKeepsListed(s: State, list: seq<Item>)
    requires Inv(Apps, s) && PassOver(s, list) && s.control.Dropping?
    ensures TracksLast(Do(Apps, s, Drop), list)
  {
    var key := s.control.key;
    forall it | IsLastListed(list, it) ensures it.name in s.tracker && it.name != key && s.tracker[it.name].item == it {
      assert it in list;
      assert it.name in NamesOf(list);
    }
    assert Do(Apps, s, Drop).tracker == s.tracker - {key};
  }

  lemma StartsOver(s: State, list: seq<Item>)
    requires s.control.Sleeping?
    ensures PassOver(Do(Apps, s, StartPass(list)), list)
  {
    assert list[..0] == [] && NamesOf([]) == {};
  }

  lemma {:induction false} PassGoesOver(run: seq<State>, actions: seq<Action>, i: nat, j: nat)
    requires IsRun(Apps, run, actions) && i < j < |run|
    requires actions[i].StartPass? && forall k :: i < k < j ==> !actions[k].StartPass?
    ensures PassOver(run[j], actions[i].list)
  {
    assert IsStep(Apps, run, actions, j - 1);
    if i < j - 1 {
      PassGoesOver(run, actions, i, j - 1);
      RunsKeepInv(Apps, run, actions, j - 1);
      StepKeepsPass(run[j - 1], actions[i].list, actions[j - 1]);
    } else {
      StartsOver(run[i], actions[i].list);
    }
  }

  /** When a pass over the applications ends, each name is tracked with the item listed last for it. */
  lemma PassTracksLastItems(run: seq<State>, actions: seq<Action>, i: nat, j: nat)
    requires IsRun(Apps, run, actions) && i < j < |actions|
    requires actions[i].StartPass? && actions[j].EndPass? && forall k :: i < k < j ==> !actions[k].StartPass?
    ensures TracksLast(run[j + 1], actions[i].list)
  {
    PassGoesOver(run, actions, i, j + 1);
    assert IsStep(Apps, run, actions, j);
  }

  /** A worker keeps the item it was started with, however often its name is listed anew. */
  lemma {:induction false} WorkersKeepTheirItem(v: Variant, run: seq<State>, actions: seq<Action>, i: nat, j: nat,
                                                w: nat)
    requires IsRun(v, run, actions) && i <= j < |run| && w in run[i].workers
    ensures w in run[j].workers && run[j].workers[w].item == run[i].workers[w].item
    decreases j - i
  {
    if i < j {
      RunsKeepInv(v, run, actions, i);
      assert IsStep(v, run, actions, i);
      WorkersKeepTheirItem(v, run, actions, i + 1, j, w);
    }
  }

  /** Whether the pass is still over the list, or already over the tracker. */
  ghost predicate IsAdding(c: Control) {
    c.Adding? || c.Spawning?
  }

  /** The items on the lists that passes have gone over. */
  ghost function ItemsListed(actions: seq<Action>): set<Item> {
    set a, it | a in actions && a.StartPass? && it in a.list :: it
  }

  /** Whatever the supervisor has in hand, tracks or has started a worker with is among the items. */
  ghost predicate AllAmong(s: State, items: set<Item>) {
    && (forall k :: k in s.tracker ==> s.tracker[k].item in items)
    && (forall w :: w in s.workers ==> s.workers[w].item in items)
    && (IsAdding(s.control) ==> forall it :: it in s.control.todo ==> it in items)
    && (s.control.Spawning? ==> s.control.item in items)
  }

  lemma StepKeepsAmong(v: Variant, s: State, a: Action, items: set<Item>)
    requires Enabled(v, s, a) && AllAmong(s, items) && (a.StartPass? ==> forall it :: it in a.list ==> it in items)
    ensures AllAmong(Do(v, s, a), items)
  {
    if a.Add? {
      assert s.control.todo[0] in s.control.todo && forall it :: it in s.control.todo[1..] ==> it in s.control.todo;
    }
  }

  /** Tracked items and those of workers stem from the lists. */
  lemma {:induction false} ItemsWereListed(v: Variant, run: seq<State>, actions: seq<Action>, i: nat)
    requires IsRun(v, run, actions) && i < |run|
    ensures AllAmong(run[i], ItemsListed(actions[..i]))
  {
    if i > 0 {
      ItemsWereListed(v, run, actions, i - 1);
      assert IsStep(v, run, actions, i - 1);
      var items := ItemsListed(actions[..i]);
      assert actions[..i] == actions[..i - 1] + [actions[i - 1]];
      assert AllAmong(run[i - 1], items);
      StepKeepsAmong(v, run[i - 1], actions[i - 1], items);
    }
  }

  // What the supervisor itself does to the results during a pass: nothing for applications, and for nodes
  // it deletes those of the names it drops.

  /** The names dropped since the start of the pass whose results have been deleted. */
  ghost function Purged(start: State, s: State): set<string> {
    start.tracker.Keys - s.tracker.Keys - if s.control.Purging? then {s.control.key} else {}
  }

  /** The results as the supervisor has left them so far, out of those at the start of the pass. */
  ghost predicate Swept(v: Variant, start: State, s: State) {
    && s.results == (if v.Apps? then start.results else start.results - Purged(start, s))
    && (s.control.Adding? || s.control.Spawning? ==> start.tracker.Keys <= s.tracker.Keys)
    && (s.control.Dropping? || s.control.Purging? ==> s.control.key in start.tracker)
    && s.tracker.Keys <= start.tracker.Keys + s.control.listed
  }

  lemma StepKeepsSwept(v: Variant, start: State, s: State, a: Action)
    requires Inv(v, s) && Enabled(v, s, a) && !ByWorker(a) && !a.StartPass? && Swept(v, start, s)
    ensures Swept(v, start, Do(v, s, a))
  {
    if a.Add? {
      assert s.control.todo[0] in s.control.todo;
      assert s.control.todo[0].name in NamesOf(s.control.todo);
    }
    var s' := Do(v, s, a);
    if a.Drop? && v.Nodes? {
      assert Purged(start, s') == Purged(start, s);
    } else if a.Purge? {
      assert Purged(start, s') == Purged(start, s) + {s.control.key};
      assert start.results - Purged(start, s') == start.results - Purged(start, s) - {s.control.key};
    } else {
      assert Purged(start, s') == Purged(start, s) || v.Apps?;
    }
  }

  lemma {:induction false} PassSweeps(v: Variant, run: seq<State>, actions: seq<Action>, i: nat, j: nat)
    requires IsRun(v, run, actions) && i < j < |run| && actions[i].StartPass?
    requires forall k :: i < k < j ==> !actions[k].StartPass? && !ByWorker(actions[k])
    ensures Swept(v, run[i], run[j])
  {
    assert IsStep(v, run, actions, j - 1);
    if i < j - 1 {
      PassSweeps(v, run, actions, i, j - 1);
      RunsKeepInv(v, run, actions, j - 1);
      StepKeepsSwept(v, run[i], run[j - 1], actions[j - 1]);
    } else {
      assert Purged(run[i], run[j]) == {};
    }
  }

  /**
   * A pass on its own leaves the results of applications alone, and deletes those of the nodes that
   * were tracked and are not listed anymore, and no others.
   */
  lemma PassDeletesResults(v: Variant, run: seq<State>, actions: seq<Action>, i: nat, j: nat)
    requires IsRun(v, run, actions) && i < j < |actions| && actions[i].StartPass? && actions[j].EndPass?
    requires forall k :: i < k < j ==> !actions[k].StartPass? && !ByWorker(actions[k])
    ensures v.Apps? ==> run[j + 1].results == run[i].results
    ensures v.Nodes? ==>
      run[j + 1].results == run[i].results - (run[i].tracker.Keys - NamesOf(actions[i].list))
  {
    PassSweeps(v, run, actions, i, j + 1);
    PassTracksItsList(v, run, actions, i, j);
    assert IsStep(v, run, actions, j);
  }

  // Passes can end, workers can report, and so the results can catch up with any list.

  lemma {:induction false} LeadsOn(v: Variant, s: State, first: seq<Action>, s': State, more: seq<Action>, s'': State)
    requires Leads(v, s, first, s') && Leads(v, s', more, s'')
    ensures Leads(v, s, first + more, s'')
    decreases |first|
  {
    if first == [] {
      assert first + more == more;
    } else {
      assert (first + more)[1..] == first[1..] + more;
      LeadsOn(v, Do(v, s, first[0]), first[1..], s', more, s'');
    }
  }

  lemma {:induction false} LeadsKeepsInv(v: Variant, s: State, actions: seq<Action>, s': State)
    requires Inv(v, s) && Leads(v, s, actions, s')
    ensures Inv(v, s')
    decreases |actions|
  {
    if actions != [] {
      StepKeepsInv(v, s, actions[0]);
      LeadsKeepsInv(v, Do(v, s, actions[0]), actions[1..], s');
    }
  }

  ghost function ToDo(c: Control): nat {
    if IsAdding(c) then |c.todo| else 0
  }

  ghost function Left(c: Control): set<string> {
    if IsAdding(c) || c.Sleeping? then {} else c.left
  }

  /** How far the item or name in hand is from being done. */
  ghost function InHand(c: Control): nat {
    match c
    case Spawning(_, _, _, _, _) => 1
    case Dropping(_, _, _) => 2
    case Purging(_, _, _) => 1
    case _ => 0
  }

  lemma NextOfSweep(v: Variant, s: State) returns (a: Action)
    requires TrackerInv(s) && ControlInv(s) && s.control.Sweeping? && s.control.left != {}
    ensures Enabled(v, s, a) && (a.Keep? || a.Cancel?)
    ensures !IsAdding(Do(v, s, a).control) && !Do(v, s, a).control.Sleeping?
    ensures Left(Do(v, s, a).control) < Left(s.control)
  {
    var key :| key in s.control.left;
    assert TrackedRuns(s, key);
    a := if key in s.control.listed then Keep(key) else Cancel(key);
    assert s.control.left - {key} < s.control.left;
  }

  /** The supervisor can always go on with its pass. */
  lemma NextOfPass(v: Variant, s: State) returns (a: Action)
    requires Inv(v, s) && !s.control.Sleeping?
    ensures Enabled(v, s, a) && !ByWorker(a) && !a.StartPass?
    ensures var c, c' := s.control, Do(v, s, a).control;
      c'.Sleeping? ||
      (IsAdding(c), ToDo(c), Left(c), InHand(c) decreases to IsAdding(c'), ToDo(c'), Left(c'), InHand(c'))
  {
    match s.control
    case Adding(todo, _, _) => a := if todo == [] then BeginSweep else Add;
    case Spawning(_, _, _, _, _) => a := Spawn;
    case Sweeping(left, _) =>
      if left == {} {
        a := EndPass;
      } else {
        a := NextOfSweep(v, s);
      }
    case Dropping(_, _, _) => a := Drop;
    case Purging(_, _, _) => a := Purge;
  }

  /** From every state the supervisor can end its pass by steps of its own. */
  lemma {:induction false} PassCanEnd(v: Variant, s: State) returns (actions: seq<Action>, s': State)
    requires Inv(v, s)
    ensures Leads(v, s, actions, s') && Inv(v, s')
    ensures forall a :: a in actions ==> !ByWorker(a) && !a.StartPass?
    ensures s'.control == Sleeping(ListedOf(s.control))
    ensures forall list :: v.Apps? && PassOver(s, list) ==> PassOver(s', list)
    decreases !s.control.Sleeping?, IsAdding(s.control), ToDo(s.control), Left(s.control), InHand(s.control)
  {
    if s.control.Sleeping? {
      return [], s;
    }
    var a := NextOfPass(v, s);
    var next := Do(v, s, a);
    StepKeepsInv(v, s, a);
    StepKeepsListed(v, s, a);
    forall list | v.Apps? && PassOver(s, list) ensures PassOver(next, list) {
      StepKeepsPass(s, list, a);
    }
    var rest;
    rest, s' := PassCanEnd(v, next);
    actions := [a] + rest;
    assert actions[1..] == rest;
  }

  /** The names whose tracked worker checks: all but the node's own. */
  ghost function Checked(v: Variant, s: State): set<string> {
    s.tracker.Keys - if v.Nodes? then {v.self} else {}
  }

  /** What the worker tracked under a name reports on. */
  ghost function Reported(v: Variant, s: State, k: string): Item
    requires k in s.tracker
  {
    if v.Nodes? && s.tracker[k].worker in s.workers then s.workers[s.tracker[k].worker].item else s.tracker[k].item
  }

  /** All but the results and the phase of one worker is the same. */
  ghost predicate OnlyWorked(s: State, s': State) {
    && s'.tracker == s.tracker && s'.control == s.control && s'.workers.Keys == s.workers.Keys
    && forall w :: w in s.workers ==>
      s'.workers[w].item == s.workers[w].item && s'.workers[w].cancelled == s.workers[w].cancelled
  }

  /** The second state can be reached from the first by steps of workers alone. */
  ghost predicate WorkersLead(v: Variant, s: State, s': State) {
    exists actions :: Leads(v, s, actions, s') && forall a :: a in actions ==> ByWorker(a)
  }

  lemma WorkersLeadOn(v: Variant, s: State, mid: State, s': State)
    requires WorkersLead(v, s, mid) && WorkersLead(v, mid, s')
    ensures WorkersLead(v, s, s')
  {
    var first :| Leads(v, s, first, mid) && forall a :: a in first ==> ByWorker(a);
    var more :| Leads(v, mid, more, s') && forall a :: a in more ==> ByWorker(a);
    LeadsOn(v, s, first, mid, more, s');
    assert forall a :: a in first + more ==> ByWorker(a);
  }

  lemma OneStepLeads(v: Variant, s: State, a: Action)
    requires Inv(v, s) && Enabled(v, s, a) && ByWorker(a)
    ensures WorkersLead(v, s, Do(v, s, a)) && Inv(v, Do(v, s, a)) && OnlyWorked(s, Do(v, s, a))
  {
    StepKeepsInv(v, s, a);
    WorkerStep(v, s, a);
    assert [a][1..] == [];
    assert Leads(v, s, [a], Do(v, s, a));
  }

  /** What a report of the worker tracked under a name leads to. */
  ghost predicate Reports(v: Variant, s: State, k: string, s': State)
    requires k in s.tracker
  {
    WorkersLead(v, s, s') && Inv(v, s') && OnlyWorked(s, s') && s'.results == s.results[k := Reported(v, s, k)]
  }

  /** A worker that holds a result stores it. */
  lemma StoreHeld(v: Variant, s: State, w: nat) returns (s': State)
    requires Inv(v, s) && w in s.workers && s.workers[w].phase.Holding?
    ensures WorkersLead(v, s, s') && Inv(v, s') && OnlyWorked(s, s') && WorkerIn(s', w, Waiting)
    ensures var item := s.workers[w].phase.item;
      item.name == s.workers[w].item.name && s'.results == s.results[item.name := item]
  {
    OneStepLeads(v, s, Store(w));
    s' := Do(v, s, Store(w));
  }

  /** One at the top of its loop comes to hold what there is to report. */
  lemma CheckTracked(v: Variant, s: State, k: string) returns (s': State)
    requires Inv(v, s) && k in s.tracker && WorkerIn(s, s.tracker[k].worker, AtTop) && TrackedRuns(s, k)
    ensures WorkersLead(v, s, s') && Inv(v, s') && OnlyWorked(s, s') && s'.results == s.results
    ensures WorkerIn(s', s.tracker[k].worker, Holding(Reported(v, s, k)))
  {
    var load := Load(s.tracker[k].worker);
    OneStepLeads(v, s, load);
    s' := Do(v, s, load);
  }

  lemma OnlyWorkedOn(s: State, mid: State, s': State)
    requires OnlyWorked(s, mid) && OnlyWorked(mid, s')
    ensures OnlyWorked(s, s')
  {
  }

  /** A worker at the top of its loop checks and stores. */
  lemma ReportFromTop(v: Variant, s: State, k: string) returns (s': State)
    requires Inv(v, s) && k in s.tracker && WorkerIn(s, s.tracker[k].worker, AtTop) && TrackedRuns(s, k)
    ensures Reports(v, s, k, s')
  {
    var mid := CheckTracked(v, s, k);
    s' := StoreHeld(v, mid, s.tracker[k].worker);
    WorkersLeadOn(v, s, mid, s');
    OnlyWorkedOn(s, mid, s');
  }

  /** One that waits wakes. */
  lemma Wake(v: Variant, s: State, w: nat) returns (s': State)
    requires Inv(v, s) && WorkerIn(s, w, Waiting)
    ensures WorkersLead(v, s, s') && Inv(v, s') && OnlyWorked(s, s') && s'.results == s.results
    ensures WorkerIn(s', w, AtTop)
  {
    OneStepLeads(v, s, Tick(w));
    s' := Do(v, s, Tick(w));
  }

  /** One that waits is woken first. */
  lemma ReportFromWaiting(v: Variant, s: State, k: string) returns (s': State)
    requires Inv(v, s) && k in s.tracker && WorkerIn(s, s.tracker[k].worker, Waiting) && TrackedRuns(s, k)
    ensures Reports(v, s, k, s')
  {
    var mid := Wake(v, s, s.tracker[k].worker);
    s' := ReportFromTop(v, mid, k);
    WorkersLeadOn(v, s, mid, s');
    OnlyWorkedOn(s, mid, s');
  }

  /** One that holds a result stores it first. */
  lemma ReportFromHolding(v: Variant, s: State, k: string) returns (s': State)
    requires Inv(v, s) && k in s.tracker && TrackedRuns(s, k)
    requires s.workers[s.tracker[k].worker].phase.Holding?
    ensures Reports(v, s, k, s')
  {
    var mid := StoreHeld(v, s, s.tracker[k].worker);
    StillTracked(v, s, mid, k);
    s' := ReportFromWaiting(v, mid, k);
    OverwrittenAgain(s.results, k, s.workers[s.tracker[k].worker].phase.item, Reported(v, s, k));
    WorkersLeadOn(v, s, mid, s');
    OnlyWorkedOn(s, mid, s');
  }

  lemma StillTracked(v: Variant, s: State, s': State, k: string)
    requires OnlyWorked(s, s') && k in s.tracker && TrackedRuns(s, k)
    ensures k in s'.tracker && TrackedRuns(s', k) && Reported(v, s', k) == Reported(v, s, k)
  {
  }

  lemma OverwrittenAgain(m: map<string, Item>, k: string, x: Item, y: Item)
    ensures m[k := x][k := y] == m[k := y]
  {
  }

  /** Between passes the worker of a tracked name can report, by steps of its own. */
  lemma WorkerCanReport(v: Variant, s: State, k: string) returns (s': State)
    requires Inv(v, s) && s.control.Sleeping? && k in Checked(v, s)
    ensures Reports(v, s, k, s')
  {
    assert TrackedRuns(s, k);
    var w := s.tracker[k].worker;
    if s.workers[w].phase.AtTop? {
      s' := ReportFromTop(v, s, k);
    } else if s.workers[w].phase.Waiting? {
      s' := ReportFromWaiting(v, s, k);
    } else {
      s' := ReportFromHolding(v, s, k);
    }
  }

  /** What there is to report about the names. */
  ghost function AllReports(v: Variant, s: State, names: set<string>): map<string, Item>
    requires names <= s.tracker.Keys
  {
    map k | k in names :: Reported(v, s, k)
  }

  lemma OneMoreReport(v: Variant, s: State, mid: State, k: string, names: set<string>)
    requires OnlyWorked(s, mid) && names <= s.tracker.Keys && k in names
    requires mid.results == s.results[k := Reported(v, s, k)]
    ensures mid.results + AllReports(v, mid, names - {k}) == s.results + AllReports(v, s, names)
  {
    assert AllReports(v, mid, names - {k}) == AllReports(v, s, names - {k});
  }

  lemma {:induction false} AllCanReport(v: Variant, s: State, names: set<string>) returns (s': State)
    requires Inv(v, s) && s.control.Sleeping? && names <= Checked(v, s)
    ensures WorkersLead(v, s, s') && Inv(v, s') && OnlyWorked(s, s')
    ensures s'.results == s.results + AllReports(v, s, names)
    decreases names
  {
    if names == {} {
      assert Leads(v, s, [], s);
      return s;
    }
    var k :| k in names;
    var mid := WorkerCanReport(v, s, k);
    OneMoreReport(v, s, mid, k, names);
    s' := AllCanReport(v, mid, names - {k});
    WorkersLeadOn(v, s, mid, s');
  }

  /** The results are those of the tracked names that are checked, each about what its worker reports on. */
  ghost predicate UpToDate(v: Variant, s: State) {
    s.results == AllReports(v, s, Checked(v, s))
  }

  lemma OwnHasNoResult(v: Variant, s: State)
    requires Inv(v, s) && v.Nodes?
    ensures v.self !in s.results
  {
    assert v.self in s.results ==> HasWriter(s, v.self);
  }

  /** Between passes the workers on their own can bring the results up to date. */
  lemma WorkersCanCatchUp(v: Variant, s: State) returns (s': State)
    requires Inv(v, s) && s.control.Sleeping?
    ensures WorkersLead(v, s, s') && Inv(v, s') && UpToDate(v, s')
    ensures s'.tracker == s.tracker && s'.control == s.control
  {
    var leave, mid := CancelledCanLeave(v, s);
    assert WorkersLead(v, s, mid);
    s' := AllCanReport(v, mid, Checked(v, mid));
    WorkersLeadOn(v, s, mid, s');
    if v.Nodes? {
      OwnHasNoResult(v, mid);
    }
    Overwritten(mid.results, AllReports(v, mid, Checked(v, mid)));
    SameReports(v, mid, s');
  }

  lemma SameReports(v: Variant, s: State, s': State)
    requires OnlyWorked(s, s')
    ensures AllReports(v, s', Checked(v, s')) == AllReports(v, s, Checked(v, s))
  {
  }

  lemma Overwritten(m: map<string, Item>, over: map<string, Item>)
    requires m.Keys <= over.Keys
    ensures m + over == over
  {
  }

  /** From every state the supervisor can end its pass and go over any list next. */
  lemma AnyListCanBeNext(v: Variant, s: State, list: seq<Item>) returns (actions: seq<Action>, s': State)
    requires Inv(v, s)
    ensures Leads(v, s, actions, s') && Inv(v, s') && s'.control == Sleeping(NamesOf(list))
    ensures v.Apps? ==> TracksLast(s', list)
  {
    var end, s1 := PassCanEnd(v, s);
    var start := StartPass(list);
    var s2 := Do(v, s1, start);
    StepKeepsInv(v, s1, start);
    StartsOver(s1, list);
    var over;
    over, s' := PassCanEnd(v, s2);
    assert ([start] + over)[1..] == over;
    actions := end + ([start] + over);
    LeadsOn(v, s, end, s1, [start] + over, s');
  }

  /**
   * From every state that a run can reach, whatever the supervisor is at, it can go over any list
   * next, after which the workers can bring the results up to date: exactly the listed names have
   * results, except for the node's own, and those of applications are about the item listed last.
   */
  lemma ResultsCanCatchUp(v: Variant, run: seq<State>, done: seq<Action>, list: seq<Item>)
    returns (actions: seq<Action>, s': State)
    requires IsRun(v, run, done)
    ensures Leads(v, run[|run| - 1], actions, s') && UpToDate(v, s')
    ensures s'.results.Keys == NamesOf(list) - if v.Nodes? then {v.self} else {}
    ensures v.Apps? ==> forall it :: IsLastListed(list, it) ==> it.name in s'.results && s'.results[it.name] == it
  {
    var s := run[|run| - 1];
    RunsKeepInv(v, run, done, |run| - 1);
    var first, mid := AnyListCanBeNext(v, s, list);
    s' := WorkersCanCatchUp(v, mid);
    var more :| Leads(v, mid, more, s') && forall a :: a in more ==> ByWorker(a);
    actions := first + more;
    LeadsOn(v, s, first, mid, more, s');
    assert mid.tracker.Keys == NamesOf(list);
    forall it | IsLastListed(list, it) ensures it.name in NamesOf(list) {
      assert it in list;
    }
  }
}
