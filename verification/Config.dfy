/** Reading and editing the configuration of an install. */
module Config {
  import opened Wrappers
  import opened Api
  import P = Parameters

  datatype Error = InstallNotFound | ApplicationNotFound | UnknownConfig(key: string) | MergeFailed(cause: P.Error)

  /** The installs and the global secret, which may not be there or be there without data. */
  datatype State = State(installs: map<string, Install>, stored: Option<P.Secrets>) {
    function Secrets(): P.Secrets {
      P.DataOf(stored)
    }
  }

  type Apps = map<string, Application>

  function AppKey(install: Install): string {
    ApplicationKey(install.application, install.version)
  }

  predicate Known(apps: Apps, s: State, install: string) {
    install in s.installs && AppKey(s.installs[install]) in apps
  }

  function ParametersOf(s: State, install: string): seq<ParameterSpec>
    requires install in s.installs
  {
    s.installs[install].parameters
  }

  function ItemsOf(apps: Apps, s: State, install: string): seq<P.Item>
    requires Known(apps, s, install)
  {
    P.Items(apps[AppKey(s.installs[install])].definitions, ParametersOf(s, install))
  }

  function WithParameters(s: State, install: string, ps: seq<ParameterSpec>): State
    requires install in s.installs
  {
    s.(installs := s.installs[install := s.installs[install].(parameters := ps)])
  }

  /** The first parameter with the given name, or the length of the list. */
  function FirstIndex(ps: seq<ParameterSpec>, key: string): (i: nat)
    ensures i <= |ps|
    ensures forall j :: 0 <= j < i ==> ps[j].name != key
    ensures i < |ps| ==> ps[i].name == key
  {
    if ps == [] || ps[0].name == key then 0 else 1 + FirstIndex(ps[1..], key)
  }

  /** Overwrites the value of the first parameter of that name, or appends one. */
  function SetParameter(ps: seq<ParameterSpec>, key: string, value: string): seq<ParameterSpec> {
    var i := FirstIndex(ps, key);
    if i < |ps| then ps[i := ps[i].(value := value)] else ps + [ParameterSpec(key, value, NO_SECRET)]
  }

  /** Drops the parameters of that name, or resets them to the stored secret if there is one. */
  function RemoveParameter(ps: seq<ParameterSpec>, install: string, key: string, secrets: P.Secrets): seq<ParameterSpec>
  {
    if ps == [] then []
    else
      var front, p := RemoveParameter(ps[..|ps| - 1], install, key, secrets), ps[|ps| - 1];
      if p.name != key then front + [p]
      else if P.SecretKey(install, key) in secrets then front + [p.(value := secrets[P.SecretKey(install, key)])]
      else front
  }

  // The four operations, as relations between the states before and after and the answer.

  ghost predicate Lists(apps: Apps, s: State, install: string, s': State, r: Result<map<string, string>, Error>) {
    && s'.installs == s.installs
    && if install !in s.installs then s' == s && r == Err(InstallNotFound)
       else if !Known(apps, s, install) then s' == s && r == Err(ApplicationNotFound)
       else match r
         case Ok(m) => P.MergeResult(install, ItemsOf(apps, s, install), s.stored, s'.stored, Ok(m))
         case Err(MergeFailed(e)) => P.MergeResult(install, ItemsOf(apps, s, install), s.stored, s'.stored, Err(e))
         case Err(_) => false
  }

  function Picked(listed: Result<map<string, string>, Error>, key: string): Result<string, Error> {
    match listed
    case Err(e) => Err(e)
    case Ok(m) => if key in m then Ok(m[key]) else Err(UnknownConfig(key))
  }

  ghost predicate Gets(apps: Apps, s: State, install: string, key: string, s': State, r: Result<string, Error>) {
    exists listed :: Lists(apps, s, install, s', listed) && r == Picked(listed, key)
  }

  ghost predicate Sets(apps: Apps, s: State, install: string, key: string, value: string, s': State,
                       error: Option<Error>)
  {
    exists listed, mid :: Lists(apps, s, install, mid, listed) &&
      if listed.Err? then s' == mid && error == Some(listed.error)
      else if key !in listed.value then s' == mid && error == Some(UnknownConfig(key))
      else error == None && s' == WithParameters(mid, install, SetParameter(ParametersOf(mid, install), key, value))
  }

  ghost predicate Removes(s: State, install: string, key: string, s': State, error: Option<Error>) {
    if install !in s.installs then s' == s && error == Some(InstallNotFound)
    else
      var kept := RemoveParameter(ParametersOf(s, install), install, key, s.Secrets());
      error == None && s' == WithParameters(s, install, kept).(stored := Some(s.Secrets()))
  }

  /** One operation on any install, whatever its outcome. */
  ghost predicate Step(apps: Apps, s: State, s': State) {
    || (exists install, r :: Lists(apps, s, install, s', r))
    || (exists install, key, r :: Gets(apps, s, install, key, s', r))
    || (exists install, key, value, error :: Sets(apps, s, install, key, value, s', error))
    || (exists install, key, error :: Removes(s, install, key, s', error))
  }

  ghost predicate StepAt(apps: Apps, run: seq<State>, i: nat)
    requires i + 1 < |run|
  {
    Step(apps, run[i], run[i + 1])
  }

  ghost predicate IsRun(apps: Apps, run: seq<State>) {
    run != [] && forall i :: 0 <= i < |run| - 1 ==> StepAt(apps, run, i)
  }

  /** No install has two parameters of the same name. */
  ghost predicate AllNamesDistinct(s: State) {
    forall n :: n in s.installs ==> P.NamesDistinct(s.installs[n].parameters)
  }

  lemma {:induction false} RemovedNames(ps: seq<ParameterSpec>, install: string, key: string, secrets: P.Secrets)
    requires P.NamesDistinct(ps)
    ensures P.NamesDistinct(RemoveParameter(ps, install, key, secrets))
    ensures forall q :: q in RemoveParameter(ps, install, key, secrets) ==> exists p :: p in ps && p.name == q.name
  {
    if ps != [] {
      var front, p := ps[..|ps| - 1], ps[|ps| - 1];
      RemovedNames(front, install, key, secrets);
      var rest := RemoveParameter(front, install, key, secrets);
      forall q | q in rest ensures q.name != p.name {
        var o :| o in front && o.name == q.name;
      }
      forall q | q in RemoveParameter(ps, install, key, secrets) ensures exists o :: o in ps && o.name == q.name {
        if q in rest {
          var o :| o in front && o.name == q.name;
          assert o in ps;
        } else {
          assert p in ps && p.name == q.name;
        }
      }
    }
  }

  lemma StepKeepsNamesDistinct(apps: Apps, s: State, s': State)
    requires Step(apps, s, s') && AllNamesDistinct(s)
    ensures AllNamesDistinct(s')
  {
    if install, key, value, error :| Sets(apps, s, install, key, value, s', error) {
      SetKeepsNamesDistinct(apps, s, install, key, value, s', error);
    } else if install, key, error :| Removes(s, install, key, s', error) {
      if install in s.installs {
        RemovedNames(ParametersOf(s, install), install, key, s.Secrets());
      }
    }
  }

  lemma SetKeepsNamesDistinct(apps: Apps, s: State, install: string, key: string, value: string, s': State,
                              error: Option<Error>)
    requires Sets(apps, s, install, key, value, s', error) && AllNamesDistinct(s)
    ensures AllNamesDistinct(s')
  {
    if s'.installs != s.installs {
      assert s'.installs ==
        s.installs[install := s.installs[install].(parameters := SetParameter(ParametersOf(s, install), key, value))];
      assert P.NamesDistinct(SetParameter(ParametersOf(s, install), key, value));
    }
  }

  /** Over any run, names that start distinct stay distinct. */
  lemma {:induction false} RunKeepsNamesDistinct(apps: Apps, run: seq<State>, i: nat)
    requires IsRun(apps, run) && AllNamesDistinct(run[0]) && i < |run|
    ensures AllNamesDistinct(run[i])
  {
    if i > 0 {
      RunKeepsNamesDistinct(apps, run, i - 1);
      assert StepAt(apps, run, i - 1);
      StepKeepsNamesDistinct(apps, run[i - 1], run[i]);
    }
  }

  lemma StepKeepsSecrets(apps: Apps, s: State, s': State)
    requires Step(apps, s, s')
    ensures P.Submap(s.Secrets(), s'.Secrets())
  {
  }

  /** Over any run, a secret once stored is neither dropped nor changed. */
  lemma {:induction false} RunKeepsSecrets(apps: Apps, run: seq<State>, i: nat, j: nat)
    requires IsRun(apps, run) && i <= j < |run|
    ensures P.Submap(run[i].Secrets(), run[j].Secrets())
    decreases j - i
  {
    if i < j {
      assert StepAt(apps, run, i);
      StepKeepsSecrets(apps, run[i], run[i + 1]);
      RunKeepsSecrets(apps, run, i + 1, j);
    }
  }

  lemma StepKeepsNoData(apps: Apps, s: State, s': State)
    requires Step(apps, s, s') && s.stored == Some(map[])
    ensures s'.stored == Some(map[])
  {
  }

  /** Over any run, a global secret without data stays without, whatever is asked of it. */
  lemma {:induction false} RunKeepsNoData(apps: Apps, run: seq<State>, i: nat, j: nat)
    requires IsRun(apps, run) && i <= j < |run| && run[i].stored == Some(map[])
    ensures run[j].stored == Some(map[])
    decreases j - i
  {
    if i < j {
      assert StepAt(apps, run, i);
      StepKeepsNoData(apps, run[i], run[i + 1]);
      RunKeepsNoData(apps, run, i + 1, j);
    }
  }

  /** So from then on every listing of an install that has a secret to generate fails. */
  lemma NothingIsGeneratedAnymore(apps: Apps, run: seq<State>, i: nat, j: nat, install: string,
                                  s': State, r: Result<map<string, string>, Error>)
    requires IsRun(apps, run) && i <= j < |run| && run[i].stored == Some(map[])
    requires Known(apps, run[j], install) && exists it :: it in ItemsOf(apps, run[j], install) && it.Generates()
    requires Lists(apps, run[j], install, s', r)
    ensures r.Err? && s' == run[j]
  {
    RunKeepsNoData(apps, run, i, j);
    if r.Ok? {
      P.NoDataNoSecrets(install, ItemsOf(apps, run[j], install), s'.stored, Ok(r.value));
    }
  }

  /** Remove leaves such a secret where there was none. */
  lemma RemoveLeavesNoData(s: State, install: string, key: string, s': State)
    requires s.stored.None? && Removes(s, install, key, s', None)
    ensures s'.stored == Some(map[])
  {
  }

  /** The install lists as `m`, with no secret left to generate. */
  ghost predicate Listed(apps: Apps, s: State, install: string, m: map<string, string>) {
    && Known(apps, s, install)
    && P.SecretsPresent(install, ItemsOf(apps, s, install), s.Secrets())
    && m == P.Merged(install, ItemsOf(apps, s, install), s.Secrets())
  }

  /** A listing that succeeds leaves such a state. */
  lemma ListingSettles(apps: Apps, s: State, install: string, s': State, m: map<string, string>)
    requires Lists(apps, s, install, s', Ok(m))
    ensures Listed(apps, s', install, m)
  {
  }

  /**
   * Once a merge has succeeded, listing the same install again gives the same map and leaves the
   * state alone, whatever happened to other installs in between.
   */
  lemma ListIsStable(apps: Apps, run: seq<State>, install: string, m: map<string, string>, s': State,
                     r: Result<map<string, string>, Error>)
    requires IsRun(apps, run) && Listed(apps, run[0], install, m)
    requires Lists(apps, run[|run| - 1], install, s', r)
    requires install in run[|run| - 1].installs && run[|run| - 1].installs[install] == run[0].installs[install]
    ensures s' == run[|run| - 1] && r == Ok(m)
  {
    var last := run[|run| - 1];
    RunKeepsSecrets(apps, run, 0, |run| - 1);
    P.MergedIsStable(install, ItemsOf(apps, last, install), run[0].Secrets(), last.Secrets());
    RepeatedList(apps, last, install, m, s', r);
  }

  /** Once listed, an install is listed again with one outcome. */
  lemma RepeatedList(apps: Apps, s: State, install: string, m: map<string, string>, s': State,
                     r: Result<map<string, string>, Error>)
    requires Listed(apps, s, install, m) && Lists(apps, s, install, s', r)
    ensures s' == s && r == Ok(m)
  {
    if r.Ok? {
      P.MergeWithNothingMissing(install, ItemsOf(apps, s, install), s.Secrets(), s'.Secrets(), Ok(r.value));
    }
  }

  /** The last item of a name, which is the one that decides its merged value. */
  function LastItem(items: seq<P.Item>, name: string): Option<P.Item> {
    if items == [] then None
    else if items[|items| - 1].name == name then Some(items[|items| - 1])
    else LastItem(items[..|items| - 1], name)
  }

  lemma {:induction false} MergedIsLast(install: string, items: seq<P.Item>, secrets: P.Secrets, name: string)
    requires P.SecretsPresent(install, items, secrets)
    ensures name in P.Merged(install, items, secrets) <==> LastItem(items, name).Some?
    ensures var last := LastItem(items, name);
      last.Some? ==>
        && last.value in items && last.value.name == name
        && P.Merged(install, items, secrets)[name] == P.ItemValue(install, last.value, secrets)
  {
    if items != [] {
      assert forall it :: it in items[..|items| - 1] ==> it in items;
      MergedIsLast(install, items[..|items| - 1], secrets, name);
    }
  }

  lemma {:induction false} LastOfConcat(a: seq<P.Item>, b: seq<P.Item>, name: string)
    ensures LastItem(a + b, name) == if LastItem(b, name).Some? then LastItem(b, name) else LastItem(a, name)
  {
    if b == [] {
      assert a + b == a;
    } else {
      assert (a + b)[..|a + b| - 1] == a + b[..|b| - 1];
      LastOfConcat(a, b[..|b| - 1], name);
    }
  }

  /** Overwriting the item at `i` shows exactly if no later item has its name. */
  lemma {:induction false} LastOfUpdate(items: seq<P.Item>, i: nat, x: P.Item, name: string)
    requires i < |items| && x.name == items[i].name
    ensures LastItem(items[i := x], name) ==
      if name == x.name && forall j :: i < j < |items| ==> items[j].name != name then Some(x) else LastItem(items, name)
  {
    var front := items[..|items| - 1];
    if i < |front| {
      assert items[i := x][..|items| - 1] == front[i := x];
      LastOfUpdate(front, i, x, name);
      assert forall j :: i < j < |front| ==> front[j] == items[j];
    } else {
      assert items[i := x][..|items| - 1] == front;
    }
  }

  lemma {:induction false} NoLast(items: seq<P.Item>, name: string)
    ensures LastItem(items, name).None? <==> forall it :: it in items ==> it.name != name
  {
    if items != [] {
      var front := items[..|items| - 1];
      NoLast(front, name);
      assert forall it :: it in items <==> it in front || it == items[|items| - 1];
    }
  }

  /** At most one override has the name. */
  predicate OverriddenOnce(ps: seq<ParameterSpec>, key: string) {
    forall i :: 0 <= i < |ps| && ps[i].name == key ==> i == FirstIndex(ps, key)
  }

  /** No override of the key is a generated secret, and none follows the one that Set writes. */
  predicate SetShows(ps: seq<ParameterSpec>, key: string) {
    OverriddenOnce(ps, key) && forall p :: p in ps && p.name == key ==> p.generate.format == ""
  }

  /** What Set does to the last override of any name. */
  lemma LastAfterSet(ps: seq<ParameterSpec>, key: string, value: string, name: string)
    ensures
      var before := LastItem(P.OverrideItems(ps), name);
      LastItem(P.OverrideItems(SetParameter(ps, key, value)), name) ==
        if name != key then before
        else if before.None? then Some(P.Item(key, value, NO_SECRET))
        else if OverriddenOnce(ps, key) then Some(before.value.(plain := value))
        else before
  {
    var items, i := P.OverrideItems(ps), FirstIndex(ps, key);
    if i < |ps| {
      var x := items[i].(plain := value);
      assert P.OverrideItems(SetParameter(ps, key, value)) == items[i := x];
      assert forall j :: 0 <= j < |items| ==> items[j].name == ps[j].name;
      LastOfUpdate(items, i, x, name);
      assert items[i := items[i]] == items;
      LastOfUpdate(items, i, items[i], name);
      if name == key {
        NoLast(items, key);
        assert items[i] in items;
      }
    } else {
      assert P.OverrideItems(SetParameter(ps, key, value)) == items + [P.Item(key, value, NO_SECRET)];
      LastOfConcat(items, [P.Item(key, value, NO_SECRET)], name);
      assert forall it :: it in items ==> it.name != key;
      NoLast(items, key);
    }
  }

  /** In such a state Get answers from the same map, and changes nothing. */
  lemma GetAnswersFromListing(apps: Apps, s: State, install: string, m: map<string, string>, key: string, s': State,
                              r: Result<string, Error>)
    requires Listed(apps, s, install, m) && Gets(apps, s, install, key, s', r)
    ensures s' == s && r == if key in m then Ok(m[key]) else Err(UnknownConfig(key))
  {
    var listed :| Lists(apps, s, install, s', listed) && r == Picked(listed, key);
    RepeatedList(apps, s, install, m, s', listed);
  }

  /** A successful Set has listed the install, and changes one list of parameters. */
  lemma SetLists(apps: Apps, s: State, install: string, key: string, value: string, s1: State)
    returns (mid: State, m: map<string, string>)
    requires Sets(apps, s, install, key, value, s1, None)
    ensures Lists(apps, s, install, mid, Ok(m)) && Listed(apps, mid, install, m) && key in m
    ensures s1 == WithParameters(mid, install, SetParameter(ParametersOf(s, install), key, value))
  {
    var listed, middle :| Lists(apps, s, install, middle, listed) &&
      if listed.Err? then s1 == middle && None == Some(listed.error)
      else if key !in listed.value then s1 == middle && None == Some(UnknownConfig(key))
      else s1 == WithParameters(middle, install, SetParameter(ParametersOf(middle, install), key, value));
    mid, m := middle, listed.value;
    ListingSettles(apps, s, install, mid, m);
  }

  /** What Set does to the merged value of any name: what was set if it is the key and Set shows, and nothing if not. */
  lemma ValueAfterSet(install: string, ds: seq<P.Item>, ps: seq<ParameterSpec>, key: string, value: string,
                      secrets: P.Secrets, name: string)
    requires P.SecretsPresent(install, ds + P.OverrideItems(ps), secrets)
    requires P.SecretsPresent(install, ds + P.OverrideItems(SetParameter(ps, key, value)), secrets)
    ensures
      var m := P.Merged(install, ds + P.OverrideItems(ps), secrets);
      var m1 := P.Merged(install, ds + P.OverrideItems(SetParameter(ps, key, value)), secrets);
      if name == key && SetShows(ps, key) then name in m1 && m1[name] == value
      else (name in m1 <==> name in m) && (name in m ==> m1[name] == m[name])
  {
    MergedIsLast(install, ds + P.OverrideItems(ps), secrets, name);
    MergedIsLast(install, ds + P.OverrideItems(SetParameter(ps, key, value)), secrets, name);
    LastItemAfterSet(ds, ps, key, value, name);
  }

  /** Set puts a plain item of the value last for the key, if it shows, and else no other item than before. */
  lemma LastItemAfterSet(ds: seq<P.Item>, ps: seq<ParameterSpec>, key: string, value: string, name: string)
    ensures
      var before := LastItem(ds + P.OverrideItems(ps), name);
      var after := LastItem(ds + P.OverrideItems(SetParameter(ps, key, value)), name);
      if name == key && SetShows(ps, key) then after.Some? && !after.value.Generates() && after.value.plain == value
      else
        || after == before
        || (before.Some? && before.value.Generates() && after == Some(before.value.(plain := value)))
  {
    LastOfConcat(ds, P.OverrideItems(ps), name);
    LastOfConcat(ds, P.OverrideItems(SetParameter(ps, key, value)), name);
    LastAfterSet(ps, key, value, name);
    LastOverride(ps, key);
  }

  /** The last override of a key that is overridden once generates if and only if some override does. */
  lemma LastOverride(ps: seq<ParameterSpec>, key: string)
    ensures LastItem(P.OverrideItems(ps), key).None? <==> forall p :: p in ps ==> p.name != key
    ensures OverriddenOnce(ps, key) && LastItem(P.OverrideItems(ps), key).Some? ==>
      (LastItem(P.OverrideItems(ps), key).value.Generates() <==> !SetShows(ps, key))
  {
    var items, i := P.OverrideItems(ps), FirstIndex(ps, key);
    NoLast(items, key);
    if i < |ps| {
      assert items[i] in items && ps[i] in ps;
      assert forall j :: 0 <= j < |items| ==> items[j].name == ps[j].name;
      assert items[i := items[i]] == items;
      LastOfUpdate(items, i, items[i], key);
    } else {
      assert forall it :: it in items ==> it.name != key;
    }
  }

  /**
   * A successful Set has listed the install as `m`, and afterwards the install lists without any
   * further secret: as `m` with the value that was set, if Set shows, and otherwise just as `m`.
   */
  lemma SetThenList(apps: Apps, s: State, install: string, key: string, value: string, s1: State)
    returns (mid: State, m: map<string, string>, m1: map<string, string>)
    requires Sets(apps, s, install, key, value, s1, None)
    ensures Lists(apps, s, install, mid, Ok(m)) && mid.stored == s1.stored && key in m
    ensures Listed(apps, s1, install, m1)
    ensures m1 == if SetShows(ParametersOf(s, install), key) then m[key := value] else m
  {
    mid, m := SetLists(apps, s, install, key, value, s1);
    var ps, ds := ParametersOf(s, install), P.DefinitionItems(apps[AppKey(s.installs[install])].definitions);
    NewItemsArePresent(install, ps, key, value, ds, s1.Secrets());
    m1 := P.Merged(install, ds + P.OverrideItems(SetParameter(ps, key, value)), s1.Secrets());
    var expected := if SetShows(ps, key) then m[key := value] else m;
    forall n ensures (n in m1 <==> n in expected) && (n in expected ==> m1[n] == expected[n]) {
      ValueAfterSet(install, ds, ps, key, value, s1.Secrets(), n);
    }
    assert m1.Keys == expected.Keys;
  }

  /**
   * After a successful Set, from whatever state, Get gives the value exactly if Set shows or the value
   * was there before.
   */
  lemma SetThenGet(apps: Apps, s: State, install: string, key: string, value: string, s1: State,
                   s2: State, r: Result<string, Error>)
    requires Sets(apps, s, install, key, value, s1, None) && Gets(apps, s1, install, key, s2, r)
    ensures s2 == s1 && (SetShows(ParametersOf(s, install), key) ==> r == Ok(value))
    ensures exists mid, m ::
      && Lists(apps, s, install, mid, Ok(m)) && mid.stored == s1.stored && key in m
      && (r == Ok(value) <==> SetShows(ParametersOf(s, install), key) || m[key] == value)
  {
    var mid, m, m1 := SetThenList(apps, s, install, key, value, s1);
    GetAnswersFromListing(apps, s1, install, m1, key, s2, r);
  }

  /** And Get of any other key gives what the listing in Set gave. */
  lemma SetThenGetOther(apps: Apps, s: State, install: string, key: string, value: string, s1: State,
                        other: string, s2: State, r: Result<string, Error>)
    requires Sets(apps, s, install, key, value, s1, None) && Gets(apps, s1, install, other, s2, r) && other != key
    ensures s2 == s1
    ensures exists mid, m ::
      && Lists(apps, s, install, mid, Ok(m)) && mid.stored == s1.stored
      && r == if other in m then Ok(m[other]) else Err(UnknownConfig(other))
  {
    var mid, m, m1 := SetThenList(apps, s, install, key, value, s1);
    GetAnswersFromListing(apps, s1, install, m1, other, s2, r);
  }

  /** Set asks for no secret that was not asked for before. */
  lemma NewItemsArePresent(install: string, ps: seq<ParameterSpec>, key: string, value: string, ds: seq<P.Item>,
                           secrets: P.Secrets)
    requires P.SecretsPresent(install, ds + P.OverrideItems(ps), secrets)
    ensures P.SecretsPresent(install, ds + P.OverrideItems(SetParameter(ps, key, value)), secrets)
  {
    var asked, asking := ds + P.OverrideItems(ps), ds + P.OverrideItems(SetParameter(ps, key, value));
    forall it | it in asking && it.Generates() ensures P.SecretKey(install, it.name) in secrets {
      var j :| 0 <= j < |asking| && asking[j] == it;
      assert j < |asked|;
      assert asked[j] in asked && asked[j].Generates() && asked[j].name == it.name;
    }
  }

  /**
   * Set and Remove on a key without an override: the install lists as it did in Set if and only if
   * no other secret is stored for the key.
   */
  lemma SetThenRemove(apps: Apps, s: State, install: string, key: string, value: string, s1: State, s2: State)
    returns (mid: State, m: map<string, string>, m2: map<string, string>)
    requires Sets(apps, s, install, key, value, s1, None) && Removes(s1, install, key, s2, None)
    requires forall p :: p in ParametersOf(s, install) ==> p.name != key
    ensures Lists(apps, s, install, mid, Ok(m)) && mid.stored == s1.stored && key in m
    ensures Listed(apps, s2, install, m2)
    ensures m2 == m <==>
      (P.SecretKey(install, key) in s1.Secrets() ==> s1.Secrets()[P.SecretKey(install, key)] == m[key])
  {
    mid, m := SetLists(apps, s, install, key, value, s1);
    RemoveAfterSet(mid, install, key, value, s1, s2);
    m2 := ListWithRest(apps, mid, install, m, key, s2);
  }

  /** The state after Set and Remove: the override is gone up to its rest. */
  lemma RemoveAfterSet(s: State, install: string, key: string, value: string, s1: State, s2: State)
    requires install in s.installs && forall p :: p in ParametersOf(s, install) ==> p.name != key
    requires s1 == WithParameters(s, install, SetParameter(ParametersOf(s, install), key, value))
    requires Removes(s1, install, key, s2, None)
    ensures
      s2.installs == WithParameters(s, install, ParametersOf(s, install) + Rest(install, key, s.Secrets())).installs
    ensures s2.Secrets() == s.Secrets()
  {
    var ps, added := ParametersOf(s, install), ParameterSpec(key, value, NO_SECRET);
    SetAppends(ps, key, value);
    RemoveAppended(ps, added, install, s.Secrets());
  }

  lemma SetAppends(ps: seq<ParameterSpec>, key: string, value: string)
    requires forall p :: p in ps ==> p.name != key
    ensures SetParameter(ps, key, value) == ps + [ParameterSpec(key, value, NO_SECRET)]
  {
    assert FirstIndex(ps, key) == |ps|;
  }

  // What Set, Remove and the runs of them do to the lists of parameters, element by element.

  /** What remains is what was there under other names, in the same order, and nothing else. */
  ghost predicate OnlyOthersRemain(ps: seq<ParameterSpec>, kept: seq<ParameterSpec>, key: string) {
    exists places :: ArePlaces(ps, kept, key, places)
  }

  /** `places` says where in `ps` each element of `kept` stood; all elements of other names are placed. */
  ghost predicate ArePlaces(ps: seq<ParameterSpec>, kept: seq<ParameterSpec>, key: string, places: seq<nat>) {
    && |places| == |kept|
    && (forall i, j :: 0 <= i < j < |places| ==> places[i] < places[j])
    && (forall i :: 0 <= i < |places| ==> places[i] < |ps| && kept[i] == ps[places[i]] && kept[i].name != key)
    && forall j :: 0 <= j < |ps| && ps[j].name != key ==> j in places
  }

  /** Each parameter of that name has the value, and is otherwise as it was, like all others. */
  ghost predicate OnlyResets(ps: seq<ParameterSpec>, kept: seq<ParameterSpec>, key: string, value: string) {
    && |kept| == |ps|
    && forall i :: 0 <= i < |ps| ==>
      kept[i] == if ps[i].name == key then ParameterSpec(key, value, ps[i].generate) else ps[i]
  }

  lemma {:induction false} RemovedWithoutSecret(ps: seq<ParameterSpec>, install: string, key: string,
                                                secrets: P.Secrets) returns (places: seq<nat>)
    requires P.SecretKey(install, key) !in secrets
    ensures ArePlaces(ps, RemoveParameter(ps, install, key, secrets), key, places)
  {
    places := [];
    if ps != [] {
      var front, p := ps[..|ps| - 1], ps[|ps| - 1];
      places := RemovedWithoutSecret(front, install, key, secrets);
      var rest := RemoveParameter(front, install, key, secrets);
      assert RemoveParameter(ps, install, key, secrets) == if p.name != key then rest + [p] else rest;
      OneMorePlace(ps, rest, key, places);
      places := if p.name != key then places + [|ps| - 1] else places;
    }
  }

  lemma OneMorePlace(ps: seq<ParameterSpec>, rest: seq<ParameterSpec>, key: string, places: seq<nat>)
    requires ps != [] && ArePlaces(ps[..|ps| - 1], rest, key, places)
    ensures
      var n := |ps| - 1;
      if ps[n].name == key then ArePlaces(ps, rest, key, places)
      else ArePlaces(ps, rest + [ps[n]], key, places + [n])
  {
    var n := |ps| - 1;
    assert forall j :: j in places ==> j in places + [n];
    assert (places + [n])[|places|] == n;
  }

  lemma {:induction false} RemovedWithSecret(ps: seq<ParameterSpec>, install: string, key: string,
                                             secrets: P.Secrets)
    requires P.SecretKey(install, key) in secrets
    ensures
      OnlyResets(ps, RemoveParameter(ps, install, key, secrets), key, secrets[P.SecretKey(install, key)])
  {
    if ps != [] {
      RemovedWithSecret(ps[..|ps| - 1], install, key, secrets);
    }
  }

  /** Nothing but the parameters of one install is different. */
  ghost predicate OnlyParametersOf(s: State, install: string, s': State) {
    && s'.installs.Keys == s.installs.Keys
    && (forall n :: n in s.installs && n != install ==> s'.installs[n] == s.installs[n])
    && (install in s.installs ==>
          s'.installs[install].(parameters := []) == s.installs[install].(parameters := []))
  }

  /**
   * From any state, Remove fails if and only if there is no such install. Otherwise it drops all the
   * parameters of the key, or resets each to the stored secret if there is one; everything else stays.
   */
  lemma RemoveDropsOrResets(s: State, install: string, key: string, s': State, error: Option<Error>)
    requires Removes(s, install, key, s', error)
    ensures error.None? <==> install in s.installs
    ensures error.Some? ==> s' == s && error == Some(InstallNotFound)
    ensures error.None? ==> OnlyParametersOf(s, install, s') && s'.Secrets() == s.Secrets()
    ensures error.None? ==>
      var k, ps, kept := P.SecretKey(install, key), ParametersOf(s, install), ParametersOf(s', install);
      if k in s.Secrets() then OnlyResets(ps, kept, key, s.Secrets()[k]) else OnlyOthersRemain(ps, kept, key)
  {
    if error.None? {
      var ps := ParametersOf(s, install);
      if P.SecretKey(install, key) in s.Secrets() {
        RemovedWithSecret(ps, install, key, s.Secrets());
      } else {
        var places := RemovedWithoutSecret(ps, install, key, s.Secrets());
      }
    }
  }

  /** The first parameter of the key has the value and is otherwise as it was; all others are as they were. */
  ghost predicate FirstOverwritten(ps: seq<ParameterSpec>, ps': seq<ParameterSpec>, key: string, value: string) {
    exists i :: 0 <= i < |ps| && ps[i].name == key && (forall j :: 0 <= j < i ==> ps[j].name != key)
      && ps' == ps[..i] + [ParameterSpec(key, value, ps[i].generate)] + ps[i + 1..]
  }

  /**
   * From any state, a Set that succeeds overwrites the first parameter of the key, or appends one where
   * there is none, and leaves everything else; one that fails leaves all parameters alone.
   */
  lemma SetChangesOne(apps: Apps, s: State, install: string, key: string, value: string, s': State,
                      error: Option<Error>)
    requires Sets(apps, s, install, key, value, s', error)
    ensures error.Some? ==> s'.installs == s.installs
    ensures error.None? ==> install in s.installs && OnlyParametersOf(s, install, s')
    ensures error.None? ==>
      var ps, ps' := ParametersOf(s, install), ParametersOf(s', install);
      if exists p :: p in ps && p.name == key then FirstOverwritten(ps, ps', key, value)
      else ps' == ps + [ParameterSpec(key, value, NO_SECRET)]
  {
    if error.None? {
      var mid, m := SetLists(apps, s, install, key, value, s');
      SetOverwritesFirst(ParametersOf(s, install), key, value);
    }
  }

  lemma SetOverwritesFirst(ps: seq<ParameterSpec>, key: string, value: string)
    ensures
      if exists p :: p in ps && p.name == key then FirstOverwritten(ps, SetParameter(ps, key, value), key, value)
      else SetParameter(ps, key, value) == ps + [ParameterSpec(key, value, NO_SECRET)]
  {
    var i := FirstIndex(ps, key);
    if i < |ps| {
      assert SetParameter(ps, key, value) == ps[..i] + [ParameterSpec(key, value, ps[i].generate)] + ps[i + 1..];
      assert ps[i] in ps;
    }
  }

  /** Where the install has been listed as `m`, Set succeeds if and only if the key is known. */
  lemma SetSucceedsIff(apps: Apps, s: State, install: string, m: map<string, string>, key: string, value: string,
                       s': State, error: Option<Error>)
    requires Listed(apps, s, install, m) && Sets(apps, s, install, key, value, s', error)
    ensures error.None? <==> key in m
    ensures error.Some? ==> s' == s && error == Some(UnknownConfig(key))
    ensures s'.stored == s.stored
  {
    var listed, mid :| Lists(apps, s, install, mid, listed) &&
      if listed.Err? then s' == mid && error == Some(listed.error)
      else if key !in listed.value then s' == mid && error == Some(UnknownConfig(key))
      else error == None && s' == WithParameters(mid, install, SetParameter(ParametersOf(mid, install), key, value));
    RepeatedList(apps, s, install, m, mid, listed);
  }

  /** The installs are the same up to their parameters. */
  ghost predicate SameUpToParameters(s: State, s': State) {
    && s'.installs.Keys == s.installs.Keys
    && forall n :: n in s.installs ==> s'.installs[n].(parameters := []) == s.installs[n].(parameters := [])
  }

  lemma StepKeepsAllButParameters(apps: Apps, s: State, s': State)
    requires Step(apps, s, s')
    ensures SameUpToParameters(s, s')
  {
    if install, key, value, error :| Sets(apps, s, install, key, value, s', error) {
      SetChangesOne(apps, s, install, key, value, s', error);
    } else if install, key, error :| Removes(s, install, key, s', error) {
      RemoveDropsOrResets(s, install, key, s', error);
    }
  }

  /** Over any run no install comes or goes, and none changes but for its parameters. */
  lemma {:induction false} RunKeepsAllButParameters(apps: Apps, run: seq<State>, i: nat, j: nat)
    requires IsRun(apps, run) && i <= j < |run|
    ensures SameUpToParameters(run[i], run[j])
    decreases j - i
  {
    if i < j {
      assert StepAt(apps, run, i);
      StepKeepsAllButParameters(apps, run[i], run[i + 1]);
      RunKeepsAllButParameters(apps, run, i + 1, j);
    }
  }

  /** What Remove does to the last override of any name. */
  lemma {:induction false} LastAfterRemove(ps: seq<ParameterSpec>, install: string, key: string,
                                           secrets: P.Secrets, name: string)
    ensures
      var before, k := LastItem(P.OverrideItems(ps), name), P.SecretKey(install, key);
      LastItem(P.OverrideItems(RemoveParameter(ps, install, key, secrets)), name) ==
        if name != key then before
        else if k !in secrets || before.None? then None
        else Some(before.value.(plain := secrets[k]))
  {
    if ps != [] {
      var front, p := ps[..|ps| - 1], ps[|ps| - 1];
      var rest := RemoveParameter(front, install, key, secrets);
      LastAfterRemove(front, install, key, secrets, name);
      LastOverrideOneMore(front, p, name);
      assert front + [p] == ps;
      if p.name != key {
        LastOverrideOneMore(rest, p, name);
      } else if P.SecretKey(install, key) in secrets {
        LastOverrideOneMore(rest, p.(value := secrets[P.SecretKey(install, key)]), name);
      }
    }
  }

  lemma LastOverrideOneMore(ps: seq<ParameterSpec>, p: ParameterSpec, name: string)
    ensures LastItem(P.OverrideItems(ps + [p]), name) ==
      if p.name == name then Some(P.OverrideItem(p)) else LastItem(P.OverrideItems(ps), name)
  {
    assert P.OverrideItems(ps + [p]) == P.OverrideItems(ps) + [P.OverrideItem(p)];
    var items := P.OverrideItems(ps) + [P.OverrideItem(p)];
    assert items[..|items| - 1] == P.OverrideItems(ps);
  }

  /** What a name is answered with, given the last item of that name: its secret, its plain value, or unknown. */
  ghost predicate Answers(install: string, last: Option<P.Item>, name: string, secrets: P.Secrets,
                          r: Result<string, Error>)
  {
    var k := P.SecretKey(install, name);
    match last
    case None => r == Err(UnknownConfig(name))
    case Some(it) =>
      if it.Generates() then k in secrets && r == Ok(secrets[k]) else r == Ok(it.plain)
  }

  /** The items that the definitions of an install's application give. */
  function DefinedItems(apps: Apps, s: State, install: string): seq<P.Item>
    requires Known(apps, s, install)
  {
    P.DefinitionItems(apps[AppKey(s.installs[install])].definitions)
  }

  /** Get answers from the last item, if nothing it asks for is missing. */
  lemma GetAnswersFromLast(apps: Apps, s: State, install: string, name: string, s': State, r: Result<string, Error>)
    requires Known(apps, s, install) && Gets(apps, s, install, name, s', r) && (r.Ok? || r.error.UnknownConfig?)
    ensures Answers(install, LastItem(ItemsOf(apps, s, install), name), name, s'.Secrets(), r)
  {
    var listed :| Lists(apps, s, install, s', listed) && r == Picked(listed, name);
    MergedIsLast(install, ItemsOf(apps, s, install), s'.Secrets(), name);
  }

  /**
   * After Remove, from whatever state, Get answers for the key with its definition, if no secret is
   * stored for it: with the default, or a secret generated now, or as unknown. If one is stored, an
   * overridden key answers with the secret. Every other key answers from the same item as before.
   */
  lemma RemoveThenGet(apps: Apps, s: State, install: string, key: string, s1: State, name: string, s2: State,
                      r: Result<string, Error>)
    requires Known(apps, s, install) && Removes(s, install, key, s1, None)
    requires Gets(apps, s1, install, name, s2, r) && (r.Ok? || r.error.UnknownConfig?)
    ensures name != key ==> Answers(install, LastItem(ItemsOf(apps, s, install), name), name, s2.Secrets(), r)
    ensures name == key && P.SecretKey(install, key) !in s.Secrets() ==>
      Answers(install, LastItem(DefinedItems(apps, s, install), key), key, s2.Secrets(), r)
    ensures name == key && P.SecretKey(install, key) in s.Secrets() ==>
      if exists p :: p in ParametersOf(s, install) && p.name == key
      then r == Ok(s.Secrets()[P.SecretKey(install, key)])
      else Answers(install, LastItem(DefinedItems(apps, s, install), key), key, s2.Secrets(), r)
  {
    var ds, ps := DefinedItems(apps, s, install), ParametersOf(s, install);
    GetAnswersFromLast(apps, s1, install, name, s2, r);
    LastAfterRemove(ps, install, key, s.Secrets(), name);
    LastOfConcat(ds, P.OverrideItems(ps), name);
    LastOfConcat(ds, P.OverrideItems(ParametersOf(s1, install)), name);
    LastOverride(ps, key);
    GetKeepsSecrets(apps, s1, install, name, s2, r);
  }

  lemma GetKeepsSecrets(apps: Apps, s: State, install: string, name: string, s': State, r: Result<string, Error>)
    requires Gets(apps, s, install, name, s', r)
    ensures P.Submap(s.Secrets(), s'.Secrets())
  {
    StepKeepsSecrets(apps, s, s');
  }

  /** Where the install has been listed as `m`, it lists as follows after Remove, with no secret to generate. */
  lemma RemoveThenList(apps: Apps, s: State, install: string, m: map<string, string>, key: string, s1: State)
    returns (m1: map<string, string>)
    requires Listed(apps, s, install, m) && Removes(s, install, key, s1, None)
    ensures Listed(apps, s1, install, m1)
    ensures
      var k, defined := P.SecretKey(install, key), LastItem(DefinedItems(apps, s, install), key);
      m1 ==
        if forall p :: p in ParametersOf(s, install) ==> p.name != key then m
        else if k in s.Secrets() then m[key := s.Secrets()[k]]
        else if defined.Some? then m[key := defined.value.plain]
        else m - {key}
  {
    var ds, ps, k := DefinedItems(apps, s, install), ParametersOf(s, install), P.SecretKey(install, key);
    var defined := LastItem(ds, key);
    var kept := RemoveParameter(ps, install, key, s.Secrets());
    KeptItemsArePresent(install, ds, ps, key, s.Secrets());
    m1 := P.Merged(install, ds + P.OverrideItems(kept), s.Secrets());
    var expected :=
      if forall p :: p in ps ==> p.name != key then m
      else if k in s.Secrets() then m[key := s.Secrets()[k]]
      else if defined.Some? then m[key := defined.value.plain]
      else m - {key};
    forall n ensures (n in m1 <==> n in expected) && (n in expected ==> m1[n] == expected[n]) {
      ValueAfterRemove(install, ds, ps, key, s.Secrets(), n);
    }
    assert m1.Keys == expected.Keys;
  }

  /** Remove asks for no secret that was not asked for before. */
  lemma {:induction false} KeptItemsArePresent(install: string, ds: seq<P.Item>, ps: seq<ParameterSpec>, key: string,
                                               secrets: P.Secrets)
    requires P.SecretsPresent(install, ds + P.OverrideItems(ps), secrets)
    ensures P.SecretsPresent(install, ds + P.OverrideItems(RemoveParameter(ps, install, key, secrets)), secrets)
  {
    var kept := RemoveParameter(ps, install, key, secrets);
    var asked, asking := ds + P.OverrideItems(ps), ds + P.OverrideItems(kept);
    forall it | it in asking && it.Generates() ensures P.SecretKey(install, it.name) in secrets {
      var j :| 0 <= j < |asking| && asking[j] == it;
      if j < |ds| {
        assert asked[j] == it;
      } else {
        var i := KeptFrom(ps, install, key, secrets, j - |ds|);
        assert asked[|ds| + i] in asked && asked[|ds| + i].Generates() && asked[|ds| + i].name == it.name;
      }
    }
  }

  /** Each parameter that Remove keeps stems from one with the same name and generate section. */
  lemma KeptFrom(ps: seq<ParameterSpec>, install: string, key: string, secrets: P.Secrets, j: nat) returns (i: nat)
    requires j < |RemoveParameter(ps, install, key, secrets)|
    ensures i < |ps|
    ensures
      var kept := RemoveParameter(ps, install, key, secrets);
      kept[j].name == ps[i].name && kept[j].generate == ps[i].generate
  {
    if P.SecretKey(install, key) in secrets {
      RemovedWithSecret(ps, install, key, secrets);
      i := j;
    } else {
      var places := RemovedWithoutSecret(ps, install, key, secrets);
      i := places[j];
    }
  }

  /** What Remove does to the merged value of any name. */
  lemma ValueAfterRemove(install: string, ds: seq<P.Item>, ps: seq<ParameterSpec>, key: string, secrets: P.Secrets,
                         name: string)
    requires P.SecretsPresent(install, ds + P.OverrideItems(ps), secrets)
    requires P.SecretsPresent(install, ds + P.OverrideItems(RemoveParameter(ps, install, key, secrets)), secrets)
    ensures
      var m := P.Merged(install, ds + P.OverrideItems(ps), secrets);
      var m1 := P.Merged(install, ds + P.OverrideItems(RemoveParameter(ps, install, key, secrets)), secrets);
      var k, defined := P.SecretKey(install, key), LastItem(ds, key);
      if name != key || forall p :: p in ps ==> p.name != key
      then (name in m1 <==> name in m) && (name in m ==> m1[name] == m[name])
      else if k in secrets then name in m1 && m1[name] == secrets[k]
      else (name in m1 <==> defined.Some?) && (defined.Some? ==> m1[name] == defined.value.plain)
  {
    var kept := RemoveParameter(ps, install, key, secrets);
    MergedIsLast(install, ds + P.OverrideItems(ps), secrets, name);
    MergedIsLast(install, ds + P.OverrideItems(kept), secrets, name);
    LastOfConcat(ds, P.OverrideItems(ps), name);
    LastOfConcat(ds, P.OverrideItems(kept), name);
    LastAfterRemove(ps, install, key, secrets, name);
    LastOverride(ps, key);
    LastIsElement(ds, key);
  }

  /** What is left of an appended override: nothing, or the stored secret as a plain value. */
  function Rest(install: string, key: string, secrets: P.Secrets): seq<ParameterSpec> {
    var k := P.SecretKey(install, key);
    if k in secrets then [ParameterSpec(key, secrets[k], NO_SECRET)] else []
  }

  lemma RemoveAppended(ps: seq<ParameterSpec>, added: ParameterSpec, install: string, secrets: P.Secrets)
    requires forall p :: p in ps ==> p.name != added.name
    requires added.generate == NO_SECRET
    ensures RemoveParameter(ps + [added], install, added.name, secrets) == ps + Rest(install, added.name, secrets)
  {
    var all := ps + [added];
    assert all[..|all| - 1] == ps && all[|all| - 1] == added;
    NothingToRemove(ps, install, added.name, secrets);
  }

  /** Listing after the rest has been appended. */
  lemma ListWithRest(apps: Apps, s: State, install: string, m: map<string, string>, key: string, s2: State)
    returns (m2: map<string, string>)
    requires Listed(apps, s, install, m) && key in m
    requires
      s2.installs == WithParameters(s, install, ParametersOf(s, install) + Rest(install, key, s.Secrets())).installs
    requires s2.Secrets() == s.Secrets()
    ensures Listed(apps, s2, install, m2)
    ensures m2 == m <==> (P.SecretKey(install, key) in s.Secrets() ==> s.Secrets()[P.SecretKey(install, key)] == m[key])
  {
    var k, items := P.SecretKey(install, key), ItemsOf(apps, s, install);
    if k in s.Secrets() {
      var reset := P.Item(key, s.Secrets()[k], NO_SECRET);
      P.MergedOneMore(install, items, reset, s.Secrets());
      assert ItemsOf(apps, s2, install) == items + [reset];
      m2 := m[key := s.Secrets()[k]];
    } else {
      assert ParametersOf(s, install) + [] == ParametersOf(s, install);
      assert ItemsOf(apps, s2, install) == items;
      m2 := m;
    }
  }

  lemma {:induction false} NothingToRemove(ps: seq<ParameterSpec>, install: string, key: string, secrets: P.Secrets)
    requires forall p :: p in ps ==> p.name != key
    ensures RemoveParameter(ps, install, key, secrets) == ps
  {
    if ps != [] {
      NothingToRemove(ps[..|ps| - 1], install, key, secrets);
    }
  }

  /** The global secret holds a key for a parameter only if its definition generates it. */
  ghost predicate SecretsOnlyForGenerating(install: string, ds: seq<ParameterDefinition>, secrets: P.Secrets) {
    forall d :: d in ds && P.SecretKey(install, d.name) in secrets ==> d.generate.format != ""
  }

  /** Under that condition Remove undoes Set, for plain defaults and generated secrets alike. */
  lemma RemoveUndoesSet(apps: Apps, s: State, install: string, key: string, value: string, s1: State, s2: State)
    returns (mid: State, m: map<string, string>)
    requires Sets(apps, s, install, key, value, s1, None) && Removes(s1, install, key, s2, None)
    requires forall p :: p in ParametersOf(s, install) ==> p.name != key
    requires install in s.installs && AppKey(s.installs[install]) in apps
    requires SecretsOnlyForGenerating(install, apps[AppKey(s.installs[install])].definitions, s1.Secrets())
    ensures Lists(apps, s, install, mid, Ok(m)) && mid.stored == s1.stored && Listed(apps, s2, install, m)
  {
    var m2;
    mid, m, m2 := SetThenRemove(apps, s, install, key, value, s1, s2);
    ListingSettles(apps, s, install, mid, m);
    RestIsListed(apps, mid, install, m, key);
  }

  /**
   * Where secrets are stored only for generating definitions, a key without an override lists as the
   * secret stored for it.
   */
  lemma RestIsListed(apps: Apps, s: State, install: string, m: map<string, string>, key: string)
    requires Listed(apps, s, install, m) && key in m
    requires forall p :: p in ParametersOf(s, install) ==> p.name != key
    requires SecretsOnlyForGenerating(install, apps[AppKey(s.installs[install])].definitions, s.Secrets())
    ensures P.SecretKey(install, key) in s.Secrets() ==> s.Secrets()[P.SecretKey(install, key)] == m[key]
  {
    var app, ps := apps[AppKey(s.installs[install])], ParametersOf(s, install);
    var ds := P.DefinitionItems(app.definitions);
    MergedIsLast(install, ItemsOf(apps, s, install), s.Secrets(), key);
    LastOfConcat(ds, P.OverrideItems(ps), key);
    assert forall it :: it in P.OverrideItems(ps) ==> it.name != key;
    NoLast(P.OverrideItems(ps), key);
    LastIsElement(ds, key);
    if P.SecretKey(install, key) in s.Secrets() {
      var it := LastItem(ds, key).value;
      var i :| 0 <= i < |ds| && ds[i] == it;
      assert app.definitions[i] in app.definitions;
    }
  }

  lemma {:induction false} LastIsElement(items: seq<P.Item>, name: string)
    ensures LastItem(items, name).Some? ==>
      LastItem(items, name).value in items && LastItem(items, name).value.name == name
  {
    if items != [] {
      LastIsElement(items[..|items| - 1], name);
    }
  }

  /** A name that occurs twice hides what Set wrote: the first is overwritten, the last is read. */
  lemma DuplicateNamesHideSet(install: string, key: string, a: string, b: string, value: string)
    ensures var ps := [ParameterSpec(key, a, NO_SECRET), ParameterSpec(key, b, NO_SECRET)];
      var items := P.Items([], SetParameter(ps, key, value));
      P.SecretsPresent(install, items, map[]) && P.Merged(install, items, map[]) == map[key := b]
  {
    var first, second := P.Item(key, value, NO_SECRET), P.Item(key, b, NO_SECRET);
    var ps := [ParameterSpec(key, a, NO_SECRET), ParameterSpec(key, b, NO_SECRET)];
    assert P.Items([], SetParameter(ps, key, value)) == [first] + [second];
    P.MergedOneMore(install, [], first, map[]);
    assert [] + [first] == [first];
    P.MergedOneMore(install, [first], second, map[]);
  }

  /** The install and its application are there, and all that is missing to list it can be generated. */
  ghost predicate CanList(apps: Apps, s: State, install: string) {
    Known(apps, s, install) && P.CanGenerate(install, ItemsOf(apps, s, install), s.stored)
  }

  lemma ListedKeys(apps: Apps, s: State, install: string, key: string, s': State, m: map<string, string>)
    requires Lists(apps, s, install, s', Ok(m))
    ensures Known(apps, s, install) && (key in m <==> HasKey(apps, s, install, key))
  {
    P.MergedKeys(install, ItemsOf(apps, s, install), s'.Secrets());
  }

  /** Some definition or override of the install has the key. */
  ghost predicate HasKey(apps: Apps, s: State, install: string, key: string)
    requires Known(apps, s, install)
  {
    exists it :: it in ItemsOf(apps, s, install) && it.name == key
  }

  class ConfigManager {
    const apps: Apps
    const secret: P.GlobalSecret
    var installs: map<string, Install>

    function Current(): State
      reads this, secret
    {
      State(installs, secret.stored)
    }

    constructor (apps: Apps, secret: P.GlobalSecret, installs: map<string, Install>)
      ensures this.apps == apps && this.secret == secret && this.installs == installs
    {
      this.apps, this.secret, this.installs := apps, secret, installs;
    }

    method List(install: string) returns (r: Result<map<string, string>, Error>)
      modifies secret
      ensures Lists(apps, old(Current()), install, Current(), r)
      ensures secret.reliable && CanList(apps, old(Current()), install) ==> r.Ok?
      ensures old(secret.stored) == Some(map[]) ==> secret.stored == Some(map[])
    {
      if install !in installs {
        return Err(InstallNotFound);
      }
      var found := installs[install];
      if AppKey(found) !in apps {
        return Err(ApplicationNotFound);
      }
      var pm := new P.ParameterManager(secret, install, apps[AppKey(found)].definitions, found.parameters);
      var m := pm.GetMergedMap();
      r := if m.Ok? then Ok(m.value) else Err(MergeFailed(m.error));
    }

    method Get(install: string, key: string) returns (r: Result<string, Error>)
      modifies secret
      ensures Gets(apps, old(Current()), install, key, Current(), r)
      ensures secret.reliable && CanList(apps, old(Current()), install) ==>
        (r.Ok? <==> HasKey(apps, old(Current()), install, key))
      ensures old(secret.stored) == Some(map[]) ==> secret.stored == Some(map[])
    {
      var listed := List(install);
      if listed.Err? {
        return Err(listed.error);
      }
      ListedKeys(apps, old(Current()), install, key, Current(), listed.value);
      if key !in listed.value {
        return Err(UnknownConfig(key));
      }
      ghost var middle := Current();
      var pm := new P.ParameterManager(secret, install, apps[AppKey(installs[install])].definitions,
        installs[install].parameters);
      var m := pm.GetMergedMap();
      P.MergeWithNothingMissing(install, ItemsOf(apps, middle, install), middle.Secrets(), Current().Secrets(), m);
      r := Ok(m.value[key]);
    }

    method Set(install: string, key: string, value: string) returns (error: Option<Error>)
      modifies this, secret
      ensures Sets(apps, old(Current()), install, key, value, Current(), error)
      ensures secret.reliable && CanList(apps, old(Current()), install) ==>
        (error.None? <==> HasKey(apps, old(Current()), install, key))
      ensures old(secret.stored) == Some(map[]) ==> secret.stored == Some(map[])
    {
      var listed := List(install);
      ghost var mid := Current();
      assert Lists(apps, old(Current()), install, mid, listed);
      if listed.Err? {
        return Some(listed.error);
      }
      ListedKeys(apps, old(Current()), install, key, mid, listed.value);
      if key !in listed.value {
        return Some(UnknownConfig(key));
      }
      var parameters := installs[install].parameters;
      var found := false;
      var i := 0;
      while i < |parameters|
        invariant 0 <= i <= |parameters| && parameters == installs[install].parameters
        invariant forall j :: 0 <= j < i ==> parameters[j].name != key
        invariant !found
      {
        if parameters[i].name == key {
          parameters := parameters[i := parameters[i].(value := value)];
          found := true;
          break;
        }
        i := i + 1;
      }
      if !found {
        parameters := parameters + [ParameterSpec(key, value, NO_SECRET)];
      }
      installs := installs[install := installs[install].(parameters := parameters)];
      error := None;
    }

    method Remove(install: string, key: string) returns (error: Option<Error>)
      modifies this, secret
      ensures Removes(old(Current()), install, key, Current(), error)
      // Where there was no secret, there is one without data now.
      ensures error.None? && old(secret.stored).None? ==> secret.stored == Some(map[])
      ensures old(secret.stored) == Some(map[]) ==> secret.stored == Some(map[])
    {
      if install !in installs {
        return Some(InstallNotFound);
      }
      var original := installs[install].parameters;
      var kept: seq<ParameterSpec> := [];
      var data, _ := secret.Fetch();
      for i := 0 to |original|
        invariant kept == RemoveParameter(original[..i], install, key, data)
      {
        assert original[..i + 1][..i] == original[..i];
        if original[i].name != key {
          kept := kept + [original[i]];
        } else if P.SecretKey(install, original[i].name) in data {
          kept := kept + [ParameterSpec(key, data[P.SecretKey(install, original[i].name)], original[i].generate)];
        }
      }
      assert original[..|original|] == original;
      installs := installs[install := installs[install].(parameters := kept)];
      error := None;
    }
  }
}
