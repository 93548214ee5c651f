/** Registration of bundles as applications, one at a time or as a batch in dependency order. */
module Register {
  import opened Wrappers
  import opened Api
  import opened Graphs
  import opened Layers
  import opened Solver

  /** The applications in the cluster, by metadata name. */
  type Store = map<string, Application>

  datatype Error =
    | BundleNotFound(ref: BundleRef)
    | TooManyProvides(name: string)
    | DependencyNotFound(dependency: string, app: string)
    | RequiresItself(name: string)
    | Circular
    | ListFailed
    | CreateFailed(name: string)

  /** What a call ends in; dereferencing an application that is not in the map is a panic. */
  datatype Outcome<+T> = Done(value: T) | Failed(error: Error) | Panicked

  function Key(app: Application): string {
    ApplicationKey(app.name, app.version)
  }

  function Names(store: Store): set<string> {
    set k | k in store :: store[k].name
  }

  function AppNames(apps: seq<Application>): set<string> {
    set a | a in apps :: a.name
  }

  /** Every requirement of a registered application is the name of a registered application. */
  ghost predicate Closed(store: Store) {
    forall k, r :: k in store && r in store[k].required ==> r.name in Names(store)
  }

  /** Decoding fills in a missing provides list and refuses a long one. */
  function ReadApplication(contents: Application): (r: Result<Application, Error>)
    ensures r.Ok? <==> |contents.provided| <= 1
    ensures r.Err? ==> r.error == TooManyProvides(contents.name)
    ensures r.Ok? ==> |r.value.provided| == 1 && r.value.(provided := contents.provided) == contents
    ensures r.Ok? && contents.provided == [] ==> r.value.provided[0] == contents.name
  {
    if |contents.provided| > 1 then Err(TooManyProvides(contents.name))
    else if contents.provided == [] then Ok(contents.(provided := [contents.name]))
    else Ok(contents)
  }

  function RequireNames(app: Application): seq<string> {
    seq(|app.required|, i requires 0 <= i < |app.required| => app.required[i].name)
  }

  function EntryOf(app: Application): Entry
    requires |app.provided| == 1
  {
    Entry(app.provided[0], RequireNames(app))
  }

  function Entries(apps: seq<Application>): seq<Entry>
    requires forall a :: a in apps ==> |a.provided| == 1
  {
    seq(|apps|, i requires 0 <= i < |apps| => EntryOf(apps[i]))
  }

  /** The batch that the references stand for, when every bundle is there and readable. */
  ghost predicate IsBatch(refs: seq<BundleRef>, source: map<BundleRef, Application>, batch: seq<Application>) {
    && |batch| == |refs|
    && forall i :: 0 <= i < |refs| ==> refs[i] in source && ReadApplication(source[refs[i]]) == Ok(batch[i])
  }

  /** Every bundle is there and can be read. */
  ghost predicate Readable(refs: seq<BundleRef>, source: map<BundleRef, Application>) {
    forall i :: 0 <= i < |refs| ==> refs[i] in source && ReadApplication(source[refs[i]]).Ok?
  }

  /** The error is that of the first bundle that is not there or cannot be read. */
  ghost predicate IsUnreadable(refs: seq<BundleRef>, source: map<BundleRef, Application>, error: Error) {
    exists i :: 0 <= i < |refs| && Readable(refs[..i], source) &&
      if refs[i] !in source then error == BundleNotFound(refs[i]) else ReadApplication(source[refs[i]]) == Err(error)
  }

  /** Every bundle provides itself and no two share a name. */
  ghost predicate SelfNamed(batch: seq<Application>) {
    && (forall a :: a in batch ==> a.provided == [a.name])
    && forall i, j :: 0 <= i < j < |batch| ==> batch[i].name != batch[j].name
  }

  /** One metadata name stands for one application, within the batch and against the store. */
  ghost predicate SameKeySameSpec(store: Store, batch: seq<Application>) {
    && (forall a :: a in batch && Key(a) in store ==> store[Key(a)] == a)
    && forall a, b :: a in batch && b in batch && Key(a) == Key(b) ==> a == b
  }

  /** As SameKeySameSpec, but only for the application's own name. */
  ghost predicate SameKeySameName(store: Store, batch: seq<Application>) {
    && (forall a :: a in batch && Key(a) in store ==> store[Key(a)].name == a.name)
    && KeysApart(batch)
  }

  /** Applications of the batch under different names have different metadata names. */
  ghost predicate KeysApart(batch: seq<Application>) {
    forall a, b :: a in batch && b in batch && Key(a) == Key(b) ==> a.name == b.name
  }

  /** `apps` lists every application after those it requires by name. */
  ghost predicate DependencyOrdered(apps: seq<Application>) {
    forall i, r :: 0 <= i < |apps| && r in apps[i].required ==> r.name in AppNames(apps[..i])
  }

  /** Creating an application whose requirements are registered keeps the store closed. */
  lemma CreateKeepsClosed(store: Store, app: Application)
    requires Closed(store) && Key(app) !in store
    requires forall r :: r in app.required ==> r.name in Names(store)
    ensures Closed(store[Key(app) := app])
  {
    var after := store[Key(app) := app];
    forall n | n in Names(store) ensures n in Names(after) {
      var k :| k in store && store[k].name == n;
      assert k in after && after[k].name == n;
    }
  }

  lemma {:induction false} CountsOfDistinct<T>(s: seq<T>, x: T)
    requires Distinct(s)
    ensures multiset(s)[x] == if x in s then 1 else 0
  {
    if s != [] {
      assert s == [s[0]] + s[1..];
      CountsOfDistinct(s[1..], x);
    }
  }

  /** Two repetition-free lists of the same things are permutations of each other. */
  lemma DistinctListsArePermutations<T>(s: seq<T>, t: seq<T>)
    requires Distinct(s) && Distinct(t)
    requires forall x :: x in s <==> x in t
    ensures multiset(s) == multiset(t)
  {
    forall x ensures multiset(s)[x] == multiset(t)[x] {
      CountsOfDistinct(s, x);
      CountsOfDistinct(t, x);
    }
  }

  /** When bundles provide themselves, the nodes of the graph are the applications of the batch. */
  lemma NodesOfSelfNamed(batch: seq<Application>)
    requires SelfNamed(batch)
    ensures GraphOf(Entries(batch)).Keys == AppNames(batch)
  {
    var es := Entries(batch);
    forall n ensures n in Ids(es) <==> n in AppNames(batch) {
      if n in Ids(es) {
        var i :| 0 <= i < |es| && es[i].id == n;
        assert batch[i] in batch && batch[i].name == n;
      }
      if n in AppNames(batch) {
        var i :| 0 <= i < |batch| && batch[i].name == n;
        assert es[i] in es && es[i].id == n;
      }
    }
  }

  /** A node needs exactly what its application requires. */
  lemma EdgesOfSelfNamed(batch: seq<Application>, a: Application, d: string)
    requires SelfNamed(batch) && a in batch
    ensures d in DepsOf(Entries(batch), a.name) <==> exists r :: r in a.required && r.name == d
  {
    var es := Entries(batch);
    var i :| 0 <= i < |batch| && batch[i] == a;
    assert es[i] in es && es[i].id == a.name;
    RequireNamesOf(a, d);
    if d in DepsOf(es, a.name) {
      var j :| 0 <= j < |es| && es[j].id == a.name && d in es[j].deps;
      assert batch[j].name == batch[i].name;
    }
    if d in RequireNames(a) {
      assert es[i].deps == RequireNames(a);
    }
  }

  lemma RequireNamesOf(a: Application, d: string)
    ensures d in RequireNames(a) <==> exists r :: r in a.required && r.name == d
  {
    if d in RequireNames(a) {
      var k :| 0 <= k < |a.required| && RequireNames(a)[k] == d;
      assert a.required[k] in a.required;
    }
    if r :| r in a.required && r.name == d {
      var k :| 0 <= k < |a.required| && a.required[k] == r;
      assert RequireNames(a)[k] == d;
    }
  }

  /** The store has only grown, and only by applications of the batch under their own keys. */
  ghost predicate Grown(before: Store, after: Store, batch: seq<Application>) {
    && (forall k :: k in before ==> k in after && after[k] == before[k])
    && forall k :: k in after && k !in before ==> after[k] in batch && Key(after[k]) == k
  }

  /** `registered` holds the stored applications of the names in `done`. */
  ghost predicate Handled(store: Store, appMap: map<string, Application>, done: seq<string>,
                          registered: seq<Application>)
  {
    && |registered| == |done|
    && forall i :: 0 <= i < |done| ==>
      done[i] in appMap && Key(appMap[done[i]]) in store && registered[i] == store[Key(appMap[done[i]])]
  }

  /** How far registration has come: the names done, their applications, and the store they are in. */
  ghost predicate Progress(before: Store, now: Store, batch: seq<Application>, appMap: map<string, Application>,
                           done: seq<string>, registered: seq<Application>)
  {
    && Grown(before, now, batch) && Handled(now, appMap, done, registered)
    && now == StoreAfter(before, appMap, done)
  }

  lemma GrownOneMore(before: Store, now: Store, after: Store, batch: seq<Application>, app: Application)
    requires Grown(before, now, batch) && app in batch
    requires after == if Key(app) in now then now else now[Key(app) := app]
    ensures Grown(before, after, batch)
  {
  }

  lemma HandledOneMore(now: Store, after: Store, appMap: map<string, Application>, done: seq<string>,
                       registered: seq<Application>, name: string)
    requires Handled(now, appMap, done, registered) && name in appMap
    requires forall k :: k in now ==> k in after && after[k] == now[k]
    requires Key(appMap[name]) in after
    ensures Handled(after, appMap, done + [name], registered + [after[Key(appMap[name])]])
  {
  }

  ghost predicate IsAppMap(appMap: map<string, Application>, batch: seq<Application>) {
    && appMap.Keys == AppNames(batch)
    && forall n :: n in appMap ==> appMap[n] in batch && appMap[n].name == n
  }

  lemma AppMapOneMore(appMap: map<string, Application>, batch: seq<Application>, app: Application)
    requires IsAppMap(appMap, batch)
    ensures IsAppMap(appMap[app.name := app], batch + [app])
  {
    assert AppNames(batch + [app]) == AppNames(batch) + {app.name};
  }

  ghost predicate OneProvided(batch: seq<Application>) {
    forall a :: a in batch ==> |a.provided| == 1
  }

  /** The graph leads from every application that is a node to all it requires. */
  ghost predicate NeedsReached(batch: seq<Application>) {
    && OneProvided(batch)
    && forall a, r :: a in batch && a.name in GraphOf(Entries(batch)) && r in a.required ==>
      Reaches(GraphOf(Entries(batch)), a.name, r.name)
  }

  /**
   * Whatever an application requires is in the cluster already, unless the application is, or the graph
   * leads to it and no other application has its metadata name there.
   */
  ghost predicate NeedsMet(before: Store, batch: seq<Application>) {
    && OneProvided(batch)
    && forall a, r :: a in batch && a.name in GraphOf(Entries(batch)) && r in a.required ==>
      || Key(a) in before || r.name in Names(before)
      || (&& Reaches(GraphOf(Entries(batch)), a.name, r.name)
          && forall b :: b in batch && b.name == r.name ==> Key(b) !in before)
  }

  lemma SelfNamedReaches(batch: seq<Application>)
    requires SelfNamed(batch)
    ensures NeedsReached(batch)
  {
    forall a, r | a in batch && a.name in GraphOf(Entries(batch)) && r in a.required
      ensures Reaches(GraphOf(Entries(batch)), a.name, r.name)
    {
      EdgesOfSelfNamed(batch, a, r.name);
      EdgeReaches(GraphOf(Entries(batch)), a.name, r.name);
    }
  }

  /** The solver can order the batch. */
  ghost predicate Solvable(batch: seq<Application>)
    requires OneProvided(batch)
  {
    batch != [] && !Cyclic(GraphOf(Entries(batch))) && !Incomplete(GraphOf(Entries(batch)))
  }

  /** Every provided name is the name of an application of the batch. */
  ghost predicate NamesKnown(batch: seq<Application>)
    requires OneProvided(batch)
  {
    forall a :: a in batch ==> a.provided[0] in AppNames(batch)
  }

  lemma NodesAreProvided(batch: seq<Application>, n: string)
    requires OneProvided(batch)
    ensures n in GraphOf(Entries(batch)) <==> exists a :: a in batch && a.provided[0] == n
  {
    var es := Entries(batch);
    if n in Ids(es) {
      var i :| 0 <= i < |es| && es[i].id == n;
      assert batch[i] in batch;
    }
    if a :| a in batch && a.provided[0] == n {
      var i :| 0 <= i < |batch| && batch[i] == a;
      assert es[i] in es;
    }
  }

  /** A node needs exactly what the applications require that provide its name. */
  lemma EdgesAreRequired(batch: seq<Application>, n: string, d: string)
    requires OneProvided(batch)
    ensures d in DepsOf(Entries(batch), n) <==>
      exists a :: a in batch && a.provided[0] == n && d in RequireNames(a)
  {
    var es := Entries(batch);
    if d in DepsOf(es, n) {
      var i :| 0 <= i < |es| && es[i].id == n && d in es[i].deps;
      assert batch[i] in batch;
    }
    if a :| a in batch && a.provided[0] == n && d in RequireNames(a) {
      var i :| 0 <= i < |batch| && batch[i] == a;
      assert es[i] in es && es[i] == EntryOf(a);
    }
  }

  /** Something is missing from the graph exactly if some requirement is not provided within the batch. */
  lemma IncompleteIff(batch: seq<Application>)
    requires OneProvided(batch)
    ensures Incomplete(GraphOf(Entries(batch))) <==>
      exists a, r :: a in batch && r in a.required && forall b :: b in batch ==> b.provided[0] != r.name
  {
    var es, g := Entries(batch), GraphOf(Entries(batch));
    if Incomplete(g) {
      var x, d :| x in g && d in g[x] && d !in g;
      var i :| 0 <= i < |es| && es[i].id == x && d in es[i].deps;
      RequireNamesOf(batch[i], d);
      NodesAreProvided(batch, d);
      assert batch[i] in batch;
    }
    if a, r :| a in batch && r in a.required && forall b :: b in batch ==> b.provided[0] != r.name {
      var i :| 0 <= i < |batch| && batch[i] == a;
      RequireNamesOf(a, r.name);
      assert es[i] in es && r.name in es[i].deps;
      NodesAreProvided(batch, r.name);
      assert es[i].id in g && r.name in g[es[i].id];
    }
  }

  /** So a batch of self-named bundles that require one outside it is refused, also when that one is installed. */
  lemma OutsideRequirementIsRefused(batch: seq<Application>, a: Application, r: Require)
    requires SelfNamed(batch) && a in batch && r in a.required && r.name !in AppNames(batch)
    ensures !Solvable(batch)
  {
    IncompleteIff(batch);
    forall b | b in batch ensures b.provided[0] != r.name {
    }
  }

  /** The requirements of an application are registered once all that its node reaches is handled. */
  lemma RequirementsAreRegistered(before: Store, after: Store, batch: seq<Application>,
                                  appMap: map<string, Application>, done: seq<string>, registered: seq<Application>,
                                  app: Application, q: Require)
    requires Grown(before, after, batch) && Handled(after, appMap, done, registered)
    requires NeedsMet(before, batch) && KeysApart(batch) && IsAppMap(appMap, batch)
    requires app in batch && Key(app) !in before && Ready(batch, app.name, done)
    requires q in app.required
    ensures q.name in Names(after)
  {
    if q.name in Names(before) {
      var k :| k in before && before[k].name == q.name;
      assert k in after && after[k].name == q.name;
    } else {
      assert Reaches(GraphOf(Entries(batch)), app.name, q.name);
      var i :| 0 <= i < |done| && done[i] == q.name;
      var k := Key(appMap[q.name]);
      assert k in after && after[k].name == q.name;
    }
  }

  /** When equal keys mean equal applications, handling a name yields the batch's own application. */
  lemma HandledAreOwn(before: Store, after: Store, batch: seq<Application>, appMap: map<string, Application>,
                      order: seq<string>, registered: seq<Application>)
    requires SameKeySameSpec(before, batch) && IsAppMap(appMap, batch)
    requires Grown(before, after, batch) && Handled(after, appMap, order, registered)
    ensures forall i :: 0 <= i < |order| ==> registered[i] == appMap[order[i]]
  {
    forall i | 0 <= i < |order| ensures registered[i] == appMap[order[i]] {
      var k := Key(appMap[order[i]]);
      assert k in before ==> before[k] == appMap[order[i]];
    }
  }

  function AppNamesInOrder(q: seq<Application>): seq<string> {
    seq(|q|, i requires 0 <= i < |q| => q[i].name)
  }

  /** What was registered for the names of an order: the application of each name. */
  ghost predicate Looked(appMap: map<string, Application>, order: seq<string>, registered: seq<Application>) {
    && |registered| == |order|
    && forall i :: 0 <= i < |order| ==> order[i] in appMap && registered[i] == appMap[order[i]]
  }

  /** No two bundles share a name, and each name is provided by some bundle. */
  ghost predicate NamesProvided(batch: seq<Application>)
    requires OneProvided(batch)
  {
    && (forall i, j :: 0 <= i < j < |batch| ==> batch[i].name != batch[j].name)
    && AppNames(batch) <= GraphOf(Entries(batch)).Keys
  }

  lemma SelfNamedProvides(batch: seq<Application>)
    requires SelfNamed(batch)
    ensures NamesProvided(batch)
  {
    NodesOfSelfNamed(batch);
  }

  /** Following a legal order, the batch comes back permuted if and only if its names are distinct and all provided. */
  lemma FinishedPermutedIff(batch: seq<Application>, appMap: map<string, Application>,
                            order: seq<string>, registered: seq<Application>)
    requires OneProvided(batch) && IsAppMap(appMap, batch) && Looked(appMap, order, registered)
    requires IsOrder(GraphOf(Entries(batch)), order)
    ensures multiset(registered) == multiset(batch) <==> NamesProvided(batch)
  {
    forall i, j | 0 <= i < j < |registered| ensures registered[i].name != registered[j].name {
      assert order[i] != order[j];
    }
    if NamesProvided(batch) {
      forall a | a in batch ensures a in registered {
        assert a.name in GraphOf(Entries(batch));
        var i :| 0 <= i < |order| && order[i] == a.name;
        assert registered[i] == a;
      }
      DistinctListsArePermutations(registered, batch);
    }
    if multiset(registered) == multiset(batch) {
      PermutedNames(registered, batch);
      forall a | a in batch ensures a.name in GraphOf(Entries(batch)) {
        assert a in multiset(registered);
        var i :| 0 <= i < |registered| && registered[i] == a;
      }
    }
  }

  /** A permutation of a list with distinct names has distinct names. */
  lemma PermutedNames(s: seq<Application>, t: seq<Application>)
    requires multiset(s) == multiset(t)
    requires forall i, j :: 0 <= i < j < |s| ==> s[i].name != s[j].name
    ensures forall i, j :: 0 <= i < j < |t| ==> t[i].name != t[j].name
  {
    forall i, j | 0 <= i < j < |t| ensures t[i].name != t[j].name {
      if t[i] == t[j] {
        OccursTwice(t, i, j);
        CountsOfDistinct(s, t[i]);
      } else {
        assert t[i] in multiset(s) && t[j] in multiset(s);
        var k :| 0 <= k < |s| && s[k] == t[i];
        var l :| 0 <= l < |s| && s[l] == t[j];
      }
    }
  }

  lemma {:induction false} OccursTwice<T>(s: seq<T>, i: nat, j: nat)
    requires i < j < |s| && s[i] == s[j]
    ensures multiset(s)[s[i]] >= 2
  {
    var a, b := s[..j], s[j..];
    assert s == a + b && a[i] == s[i] && b[0] == s[i];
    assert multiset(s) == multiset(a) + multiset(b);
    assert a[i] in multiset(a) && b[0] in multiset(b);
  }

  /** Everything in the batch is in the store, as it is in the batch. */
  lemma FinishedStored(after: Store, batch: seq<Application>, appMap: map<string, Application>,
                       order: seq<string>, registered: seq<Application>)
    requires OneProvided(batch) && NamesProvided(batch) && IsAppMap(appMap, batch)
    requires Handled(after, appMap, order, registered) && Looked(appMap, order, registered)
    requires IsOrder(GraphOf(Entries(batch)), order)
    ensures forall a :: a in batch ==> Key(a) in after && after[Key(a)] == a
  {
    forall a | a in batch ensures Key(a) in after && after[Key(a)] == a {
      assert a.name in GraphOf(Entries(batch));
      var i :| 0 <= i < |order| && order[i] == a.name;
      assert appMap[a.name] == a;
    }
  }

  /** The registered applications are dependency ordered exactly if the order puts what each requires before it. */
  lemma OrderedByName(batch: seq<Application>, appMap: map<string, Application>,
                      order: seq<string>, registered: seq<Application>)
    requires IsAppMap(appMap, batch) && Looked(appMap, order, registered) && Distinct(order)
    ensures DependencyOrdered(registered) <==>
      forall x, r :: x in order && r in appMap[x].required ==> Precedes(order, r.name, x)
  {
    if DependencyOrdered(registered) {
      forall x, r | x in order && r in appMap[x].required ensures Precedes(order, r.name, x) {
        var i :| 0 <= i < |order| && order[i] == x;
        assert r in registered[i].required && r.name in AppNames(registered[..i]);
        var b :| b in registered[..i] && b.name == r.name;
        var j :| 0 <= j < i && registered[j] == b;
        assert order[..i][j] == r.name;
      }
    }
    if forall x, r :: x in order && r in appMap[x].required ==> Precedes(order, r.name, x) {
      forall i, r | 0 <= i < |registered| && r in registered[i].required
        ensures r.name in AppNames(registered[..i])
      {
        assert Precedes(order, r.name, order[i]);
        var k :| 0 <= k < |order| && order[k] == order[i] && r.name in order[..k];
        var j :| 0 <= j < i && order[j] == r.name;
        assert registered[..i][j] in registered[..i];
      }
    }
  }

  /** Following a legal order, each application comes after those it requires, if the graph leads to them. */
  lemma FinishedInOrder(batch: seq<Application>, appMap: map<string, Application>,
                        order: seq<string>, registered: seq<Application>)
    requires NeedsReached(batch) && IsAppMap(appMap, batch) && Looked(appMap, order, registered)
    requires IsOrder(GraphOf(Entries(batch)), order)
    ensures DependencyOrdered(registered)
  {
    forall x, r | x in order && r in appMap[x].required ensures Precedes(order, r.name, x) {
      assert appMap[x] in batch && appMap[x].name in GraphOf(Entries(batch));
      ReachedPrecedes(GraphOf(Entries(batch)), order, x, r.name);
    }
    OrderedByName(batch, appMap, order, registered);
  }

  /** Whatever is registered following a legal order is dependency ordered. */
  ghost predicate AlwaysInOrder(g: Graph, appMap: map<string, Application>) {
    forall order, registered :: IsOrder(g, order) && Looked(appMap, order, registered) ==> DependencyOrdered(registered)
  }

  /** The graph leads from each node to what the application of the node requires. */
  ghost predicate MappedNeedsReached(g: Graph, appMap: map<string, Application>)
    requires g.Keys <= appMap.Keys
  {
    forall x, r :: x in g && r in appMap[x].required ==> Reaches(g, x, r.name)
  }

  lemma ReachedIsInOrder(g: Graph, batch: seq<Application>, appMap: map<string, Application>,
                         order: seq<string>, registered: seq<Application>)
    requires IsAppMap(appMap, batch) && g.Keys <= appMap.Keys && MappedNeedsReached(g, appMap)
    requires IsOrder(g, order) && Looked(appMap, order, registered)
    ensures DependencyOrdered(registered)
  {
    forall x, r | x in order && r in appMap[x].required ensures Precedes(order, r.name, x) {
      ReachedPrecedes(g, order, x, r.name);
    }
    OrderedByName(batch, appMap, order, registered);
  }

  lemma InOrderIsReached(g: Graph, batch: seq<Application>, appMap: map<string, Application>, x: string, r: Require)
    requires IsAppMap(appMap, batch) && g.Keys <= appMap.Keys && !Cyclic(g) && !Incomplete(g)
    requires AlwaysInOrder(g, appMap) && x in g && r in appMap[x].required
    ensures Reaches(g, x, r.name)
  {
    forall order | IsOrder(g, order) ensures Precedes(order, r.name, x) {
      var registered := LookUpAll(appMap, order);
      OrderedByName(batch, appMap, order, registered);
    }
    ForcedIff(g, x, r.name);
  }

  /** Every legal order is in order if and only if the graph leads from each node to what its application requires. */
  lemma InOrderIff(batch: seq<Application>, appMap: map<string, Application>)
    requires OneProvided(batch) && Solvable(batch) && IsAppMap(appMap, batch)
    requires GraphOf(Entries(batch)).Keys <= appMap.Keys
    ensures AlwaysInOrder(GraphOf(Entries(batch)), appMap) <==> MappedNeedsReached(GraphOf(Entries(batch)), appMap)
  {
    var g := GraphOf(Entries(batch));
    forall order, registered | MappedNeedsReached(g, appMap) && IsOrder(g, order) && Looked(appMap, order, registered)
      ensures DependencyOrdered(registered)
    {
      ReachedIsInOrder(g, batch, appMap, order, registered);
    }
    forall x, r | AlwaysInOrder(g, appMap) && x in g && r in appMap[x].required ensures Reaches(g, x, r.name) {
      InOrderIsReached(g, batch, appMap, x, r);
    }
  }

  ghost function LookUpAll(appMap: map<string, Application>, order: seq<string>): (registered: seq<Application>)
    requires forall x :: x in order ==> x in appMap
    ensures Looked(appMap, order, registered)
  {
    seq(|order|, i requires 0 <= i < |order| => appMap[order[i]])
  }

  /** The store once the applications of the names have been created one after the other. */
  ghost function StoreAfter(store: Store, appMap: map<string, Application>, done: seq<string>): Store
    requires forall x :: x in done ==> x in appMap
  {
    if done == [] then store
    else
      var now, app := StoreAfter(store, appMap, done[..|done| - 1]), appMap[done[|done| - 1]];
      if Key(app) in now then now else now[Key(app) := app]
  }

  lemma {:induction false} WhatIsStored(store: Store, appMap: map<string, Application>, done: seq<string>)
    requires forall x :: x in done ==> x in appMap
    ensures
      var after := StoreAfter(store, appMap, done);
      && (forall k :: k in store ==> k in after && after[k] == store[k])
      && (forall k :: k in after && k !in store ==>
            exists x :: x in done && after[k] == appMap[x] && Key(appMap[x]) == k)
      && forall x :: x in done ==> Key(appMap[x]) in after
  {
    if done != [] {
      var front, x := done[..|done| - 1], done[|done| - 1];
      WhatIsStored(store, appMap, front);
      assert done == front + [x];
    }
  }

  /** What is stored under an application's key, if nothing was, is the application. */
  lemma StoredIsOwn(store: Store, batch: seq<Application>, appMap: map<string, Application>, done: seq<string>,
                      x: string)
    requires IsAppMap(appMap, batch) && KeysApart(batch) && x in done
    requires forall y :: y in done ==> y in appMap
    ensures
      var after, k := StoreAfter(store, appMap, done), Key(appMap[x]);
      k in after && (k !in store ==> after[k] == appMap[x])
  {
    WhatIsStored(store, appMap, done);
  }

  /** The metadata name of the application is taken in the cluster, by itself or by another one. */
  ghost predicate Taken(store: Store, appMap: map<string, Application>, n: string) {
    n in appMap && Key(appMap[n]) in store
  }

  /** The names in the store are those that were there, and those created whose metadata name was not taken. */
  lemma NamesStored(store: Store, batch: seq<Application>, appMap: map<string, Application>, done: seq<string>,
                    n: string)
    requires IsAppMap(appMap, batch) && KeysApart(batch)
    requires forall x :: x in done ==> x in appMap
    ensures n in Names(StoreAfter(store, appMap, done)) <==>
      n in Names(store) || (n in done && !Taken(store, appMap, n))
  {
    var after := StoreAfter(store, appMap, done);
    WhatIsStored(store, appMap, done);
    if n in Names(store) {
      var k :| k in store && store[k].name == n;
      assert k in after && after[k].name == n;
    }
    if n in done && !Taken(store, appMap, n) {
      StoredIsOwn(store, batch, appMap, done, n);
    }
    if n in Names(after) {
      var k :| k in after && after[k].name == n;
      assert k in store ==> after[k] == store[k];
    }
  }

  /** Every legal order goes through closed stores only. */
  ghost predicate AlwaysClosed(store: Store, g: Graph, appMap: map<string, Application>)
    requires g.Keys <= appMap.Keys
  {
    forall order, i :: IsOrder(g, order) && 0 <= i <= |order| ==> Closed(StoreAfter(store, appMap, order[..i]))
  }

  /**
   * The graph leads from each node to what its application requires, whose metadata name is not taken,
   * unless either is in the cluster already.
   */
  ghost predicate MappedNeedsMet(store: Store, g: Graph, appMap: map<string, Application>)
    requires g.Keys <= appMap.Keys
  {
    forall x, r :: x in g && r in appMap[x].required ==>
      Taken(store, appMap, x) || r.name in Names(store) || (Reaches(g, x, r.name) && !Taken(store, appMap, r.name))
  }

  /** What the next application of a legal order requires is stored. */
  lemma RequirementIsStored(store: Store, batch: seq<Application>, g: Graph, appMap: map<string, Application>,
                            order: seq<string>, i: nat, r: Require)
    requires IsAppMap(appMap, batch) && KeysApart(batch) && g.Keys <= appMap.Keys
    requires MappedNeedsMet(store, g, appMap) && IsOrder(g, order) && i < |order|
    requires !Taken(store, appMap, order[i]) && r in appMap[order[i]].required
    ensures r.name in Names(StoreAfter(store, appMap, order[..i]))
  {
    if r.name !in Names(store) {
      ReachedPrecedes(g, order, order[i], r.name);
    }
    NamesStored(store, batch, appMap, order[..i], r.name);
  }

  lemma NextStaysClosed(store: Store, batch: seq<Application>, g: Graph, appMap: map<string, Application>,
                        order: seq<string>, i: nat)
    requires IsAppMap(appMap, batch) && KeysApart(batch) && g.Keys <= appMap.Keys
    requires MappedNeedsMet(store, g, appMap) && IsOrder(g, order) && i < |order|
    requires Closed(StoreAfter(store, appMap, order[..i]))
    ensures Closed(StoreAfter(store, appMap, order[..i + 1]))
  {
    var now, app := StoreAfter(store, appMap, order[..i]), appMap[order[i]];
    assert order[..i + 1][..i] == order[..i];
    if Key(app) !in now {
      WhatIsStored(store, appMap, order[..i]);
      forall r | r in app.required ensures r.name in Names(now) {
        RequirementIsStored(store, batch, g, appMap, order, i, r);
      }
      CreateKeepsClosed(now, app);
    }
  }

  lemma {:induction false} StaysClosed(store: Store, batch: seq<Application>, g: Graph,
                                       appMap: map<string, Application>, order: seq<string>, i: nat)
    requires IsAppMap(appMap, batch) && KeysApart(batch) && g.Keys <= appMap.Keys
    requires Closed(store) && MappedNeedsMet(store, g, appMap) && IsOrder(g, order) && i <= |order|
    ensures Closed(StoreAfter(store, appMap, order[..i]))
    decreases i
  {
    if i > 0 {
      StaysClosed(store, batch, g, appMap, order, i - 1);
      NextStaysClosed(store, batch, g, appMap, order, i - 1);
    }
  }

  /** Creating an application, and not what it requires, with neither in the cluster, leaves the store open. */
  lemma LeftOpen(store: Store, batch: seq<Application>, appMap: map<string, Application>, done: seq<string>,
                 x: string, r: Require)
    requires IsAppMap(appMap, batch) && KeysApart(batch)
    requires (forall y :: y in done ==> y in appMap) && x in done && r in appMap[x].required
    requires !Taken(store, appMap, x) && r.name !in Names(store)
    requires r.name !in done || Taken(store, appMap, r.name)
    ensures !Closed(StoreAfter(store, appMap, done))
  {
    StoredIsOwn(store, batch, appMap, done, x);
    NamesStored(store, batch, appMap, done, r.name);
  }

  lemma SomewhereOpen(store: Store, batch: seq<Application>, g: Graph, appMap: map<string, Application>,
                      x: string, r: Require)
    requires IsAppMap(appMap, batch) && KeysApart(batch) && g.Keys <= appMap.Keys
    requires !Cyclic(g) && !Incomplete(g) && x in g && r in appMap[x].required && r.name != x
    requires !Taken(store, appMap, x) && r.name !in Names(store)
    requires !Reaches(g, x, r.name) || Taken(store, appMap, r.name)
    ensures !AlwaysClosed(store, g, appMap)
  {
    var order, i := OrderUpTo(g, x, r.name);
    LeftOpen(store, batch, appMap, order[..i], x, r);
    assert IsOrder(g, order) && 0 <= i <= |order|;
  }

  /** A legal order with `x` at the end of a stretch, in which `d` is missing if it can be. */
  lemma OrderUpTo(g: Graph, x: string, d: string) returns (order: seq<string>, i: nat)
    requires !Cyclic(g) && !Incomplete(g) && x in g && d != x
    ensures IsOrder(g, order) && i <= |order| && x in order[..i] && (Reaches(g, x, d) || d !in order[..i])
  {
    if Reaches(g, x, d) {
      order := LegalOrder(g, {});
      i := |order|;
      assert order[..i] == order;
    } else {
      order, i := OrderWithout(g, x, d);
      assert order[..i + 1] == order[..i] + [x];
      i := i + 1;
    }
  }

  /** A legal order in which `d` is not before `x`. */
  lemma OrderWithout(g: Graph, x: string, d: string) returns (order: seq<string>, i: nat)
    requires !Cyclic(g) && !Incomplete(g) && x in g && !Reaches(g, x, d)
    ensures IsOrder(g, order) && i < |order| && order[i] == x && d !in order[..i]
  {
    ForcedIff(g, x, d);
    order :| IsOrder(g, order) && !Precedes(order, d, x);
    i :| 0 <= i < |order| && order[i] == x;
  }

  /**
   * Every legal order goes through closed stores only, if and only if the graph leads from each node to
   * what its application requires, whose metadata name is not taken, unless either is in the cluster already.
   */
  lemma ClosedIff(store: Store, batch: seq<Application>, appMap: map<string, Application>)
    requires OneProvided(batch) && Solvable(batch) && IsAppMap(appMap, batch)
    requires GraphOf(Entries(batch)).Keys <= appMap.Keys
    requires Closed(store) && NoOffense(store, batch) && KeysApart(batch)
    ensures AlwaysClosed(store, GraphOf(Entries(batch)), appMap) <==>
      MappedNeedsMet(store, GraphOf(Entries(batch)), appMap)
  {
    var g := GraphOf(Entries(batch));
    if MappedNeedsMet(store, g, appMap) {
      forall order, i | IsOrder(g, order) && 0 <= i <= |order|
        ensures Closed(StoreAfter(store, appMap, order[..i]))
      {
        StaysClosed(store, batch, g, appMap, order, i);
      }
    } else {
      var x, r :| x in g && r in appMap[x].required &&
        !(Taken(store, appMap, x) || r.name in Names(store) ||
          (Reaches(g, x, r.name) && !Taken(store, appMap, r.name)));
      SomewhereOpen(store, batch, g, appMap, x, r);
    }
  }

  /** One command line call: a single bundle or a batch. */
  datatype Call = One(ref: BundleRef) | Many(refs: seq<BundleRef>)

  /** Whether reading `ref` can yield `a`. */
  predicate Reads(source: map<BundleRef, Application>, ref: BundleRef, a: Application) {
    ref in source && ReadApplication(source[ref]) == Ok(a)
  }

  /** Metadata names mean the same application name everywhere: among the bundles and in the store. */
  ghost predicate Consistent(source: map<BundleRef, Application>, store: Store) {
    && (forall x, y, a, b :: Reads(source, x, a) && Reads(source, y, b) && Key(a) == Key(b) ==> a.name == b.name)
    && forall x, a :: Reads(source, x, a) && Key(a) in store ==> store[Key(a)].name == a.name
  }

  /** In every batch among the calls the graph leads from applications to what they require. */
  ghost predicate ReachingCalls(source: map<BundleRef, Application>, calls: seq<Call>) {
    forall i, batch :: 0 <= i < |calls| && calls[i].Many? && IsBatch(calls[i].refs, source, batch) ==>
      NeedsReached(batch)
  }

  lemma ReachingIsSound(source: map<BundleRef, Application>, store: Store, refs: seq<BundleRef>,
                        batch: seq<Application>)
    requires Closed(store) && Consistent(source, store) && IsBatch(refs, source, batch) && NeedsReached(batch)
    ensures Sound(store, batch)
  {
    BatchIsConsistent(source, store, refs, batch);
    forall b | b in batch && Key(b) in store ensures b.name in Names(store) {
      assert store[Key(b)].name == b.name;
    }
  }

  lemma BatchIsConsistent(source: map<BundleRef, Application>, store: Store, refs: seq<BundleRef>,
                          batch: seq<Application>)
    requires Consistent(source, store) && IsBatch(refs, source, batch)
    ensures SameKeySameName(store, batch)
  {
    forall a | a in batch ensures exists x :: Reads(source, x, a) {
      var i :| 0 <= i < |batch| && batch[i] == a;
      assert Reads(source, refs[i], a);
    }
  }

  /** Growing the store by bundles that were read keeps the names consistent. */
  lemma GrowthIsConsistent(source: map<BundleRef, Application>, before: Store, after: Store,
                           refs: seq<BundleRef>, batch: seq<Application>)
    requires Consistent(source, before) && IsBatch(refs, source, batch) && Grown(before, after, batch)
    ensures Consistent(source, after)
  {
    forall x, a | Reads(source, x, a) && Key(a) in after ensures after[Key(a)].name == a.name {
      if Key(a) !in before {
        var b := after[Key(a)];
        var i :| 0 <= i < |batch| && batch[i] == b;
        assert Reads(source, refs[i], b);
      }
    }
  }

  /** The error names the requirement `r` of `a`, and what is wrong with it. */
  predicate IsOffense(store: Store, batch: seq<Application>, a: Application, r: Require, error: Error) {
    && a in batch && r in a.required
    && match error
       case DependencyNotFound(dependency, app) =>
         dependency == r.name && app == Key(a) && r.name !in Names(store) && r.name !in AppNames(batch)
       case RequiresItself(name) => name == r.name && r.name == a.name
       case _ => false
  }

  /** Every requirement is installed or in the batch, and nobody requires itself. */
  ghost predicate NoOffense(store: Store, batch: seq<Application>) {
    forall a, r :: a in batch && r in a.required ==>
      r.name != a.name && (r.name in Names(store) || r.name in AppNames(batch))
  }

  lemma OffenseMeans(store: Store, batch: seq<Application>, error: Error)
    ensures (exists a, r :: IsOffense(store, batch, a, r, error)) ==> !NoOffense(store, batch)
  {
  }

  /** The bundles can be read, their requirements are in order, and they can be layered and looked up. */
  ghost predicate CanRegister(store: Store, refs: seq<BundleRef>, source: map<BundleRef, Application>,
                              batch: seq<Application>)
  {
    && Readable(refs, source) && OneProvided(batch)
    && NoOffense(store, batch) && Solvable(batch) && NamesKnown(batch)
  }

  class RegisterManager {
    var apps: Store
    ghost var history: seq<Store>
    // Whether the cluster can always be reached.
    const reliable: bool

    ghost predicate Valid()
      reads this
    {
      history != [] && history[|history| - 1] == apps
    }

    /** The current store is closed, and so is every store recorded since the given moment. */
    ghost predicate ClosedSince(moment: nat)
      reads this
    {
      Closed(apps) && forall i :: moment <= i < |history| ==> Closed(history[i])
    }

    constructor (cluster: Store, reliable: bool)
      ensures Valid() && apps == cluster && history == [cluster] && this.reliable == reliable
    {
      apps, history, this.reliable := cluster, [cluster], reliable;
    }

    method CreateIfNotExists(app: Application, ghost moment: nat) returns (r: Result<Application, Error>)
      requires Valid()
      modifies this
      ensures Valid()
      ensures r.Err? ==> r.error.CreateFailed? && apps == old(apps) && history == old(history)
      ensures r.Ok? && Key(app) in old(apps) ==> apps == old(apps) && history == old(history)
      ensures r.Ok? && Key(app) !in old(apps) ==> apps == old(apps)[Key(app) := app] && history == old(history) + [apps]
      ensures r.Ok? ==> Key(app) in apps && r.value == apps[Key(app)]
      ensures old(ClosedSince(moment)) && Closed(apps) ==> ClosedSince(moment)
      ensures reliable ==> r.Ok?
    {
      var reachable: bool := *;
      if !reachable && !reliable {
        return Err(CreateFailed(app.name));
      }
      if Key(app) !in apps {
        apps := apps[Key(app) := app];
        history := history + [apps];
      }
      r := Ok(apps[Key(app)]);
    }

    /** Nothing when all requirements are installed or about to be, and nobody requires itself. */
    method ValidateDependencies(batch: seq<Application>) returns (error: Option<Error>)
      ensures error.None? ==> NoOffense(apps, batch)
      ensures error.Some? ==> error.value == ListFailed || exists a, r :: IsOffense(apps, batch, a, r, error.value)
      ensures reliable ==> error != Some(ListFailed)
    {
      var reachable: bool := *;
      if !reachable && !reliable {
        return Some(ListFailed);
      }
      var installed := Names(apps);
      var toBeInstalled := AppNames(batch);
      for i := 0 to |batch|
        invariant forall a, r :: a in batch[..i] && r in a.required ==>
          r.name != a.name && (r.name in installed || r.name in toBeInstalled)
      {
        var app := batch[i];
        for j := 0 to |app.required|
          invariant forall r :: r in app.required[..j] ==>
            r.name != app.name && (r.name in installed || r.name in toBeInstalled)
        {
          var requirement := app.required[j];
          if requirement.name !in installed && requirement.name !in toBeInstalled {
            assert IsOffense(apps, batch, app, requirement, DependencyNotFound(requirement.name, Key(app)));
            return Some(DependencyNotFound(requirement.name, Key(app)));
          }
          if requirement.name == app.name {
            assert IsOffense(apps, batch, app, requirement, RequiresItself(requirement.name));
            return Some(RequiresItself(requirement.name));
          }
        }
      }
      assert batch[..|batch|] == batch;
      error := None;
    }

    /** Registers one bundle; the store stays closed whatever the bundle holds. */
    method Register(ref: BundleRef, source: map<BundleRef, Application>) returns (r: Outcome<Application>)
      requires Valid()
      modifies this
      ensures Valid() && !r.Panicked? && old(history) <= history <= old(history) + [apps]
      ensures r.Failed? ==> apps == old(apps)
      ensures r.Done? ==> ref in source && ReadApplication(source[ref]).Ok?
      ensures r.Done? ==>
        var app := ReadApplication(source[ref]).value;
        && apps == (if Key(app) in old(apps) then old(apps) else old(apps)[Key(app) := app])
        && r.value == apps[Key(app)]
      ensures Closed(old(apps)) ==> Closed(apps)
      ensures reliable ==> (r.Done? <==> ref in source && ReadApplication(source[ref]).Ok? &&
                                         NoOffense(old(apps), [ReadApplication(source[ref]).value]))
    {
      if ref !in source {
        return Failed(BundleNotFound(ref));
      }
      var read := ReadApplication(source[ref]);
      if read.Err? {
        return Failed(read.error);
      }
      var app := read.value;
      var invalid := ValidateDependencies([app]);
      if invalid.Some? {
        return Failed(invalid.value);
      }
      var created := CreateIfNotExists(app, |history|);
      if created.Err? {
        return Failed(created.error);
      }
      if Closed(old(apps)) && Key(app) !in old(apps) {
        forall q | q in app.required ensures q.name in Names(old(apps)) {
          assert app in [app];
          assert AppNames([app]) == {app.name};
        }
        CreateKeepsClosed(old(apps), app);
      }
      r := Done(created.value);
    }

    /** Reads the bundles and builds one solver entry for each. */
    method ReadBundles(refs: seq<BundleRef>, source: map<BundleRef, Application>)
      returns (error: Option<Error>, batch: seq<Application>, entries: seq<Entry>, appMap: map<string, Application>)
      ensures error.None? ==> IsBatch(refs, source, batch)
      ensures error.None? ==> OneProvided(batch) && entries == Entries(batch)
      ensures error.None? ==> IsAppMap(appMap, batch)
      ensures error.None? <==> Readable(refs, source)
      ensures error.Some? ==> !IsBatch(refs, source, batch) && IsUnreadable(refs, source, error.value)
    {
      error, batch, entries, appMap := None, [], [], map[];
      for i := 0 to |refs|
        invariant IsBatch(refs[..i], source, batch)
        invariant forall a :: a in batch ==> |a.provided| == 1
        invariant entries == Entries(batch)
        invariant IsAppMap(appMap, batch)
      {
        assert Readable(refs[..i], source);
        if refs[i] !in source {
          return Some(BundleNotFound(refs[i])), batch, entries, appMap;
        }
        var read := ReadApplication(source[refs[i]]);
        if read.Err? {
          return Some(read.error), batch, entries, appMap;
        }
        var app := read.value;
        AppMapOneMore(appMap, batch, app);
        appMap := appMap[app.name := app];
        batch := batch + [app];
        entries := entries + [EntryOf(app)];
      }
      assert refs[..|refs|] == refs;
    }

    /**
     * Registers a batch in dependency order. If the graph leads from the applications to what they
     * require and is not there already, the store stays closed at every single creation, also when the
     * batch is cut short.
     */
    method RegisterAll(refs: seq<BundleRef>, source: map<BundleRef, Application>)
      returns (r: Outcome<seq<Application>>, ghost batch: seq<Application>, ghost layers: seq<seq<string>>)
      requires Valid()
      modifies this
      ensures Valid() && old(history) <= history
      ensures IsBatch(refs, source, batch) <==> Readable(refs, source)
      ensures !IsBatch(refs, source, batch) ==> r.Failed? && apps == old(apps) && history == old(history)
      ensures !IsBatch(refs, source, batch) ==> IsUnreadable(refs, source, r.error)
      ensures IsBatch(refs, source, batch) ==> OneProvided(batch)
      ensures Grown(old(apps), apps, batch)
      // Apart from calls that cannot reach the cluster, it fails for an offending requirement or an unsolvable graph,
      ensures IsBatch(refs, source, batch) && r.Failed? ==> IsRefusal(old(apps), batch, r.error)
      // otherwise it crashes if a provided name is no application's, and is done if there is none.
      ensures !r.Failed? ==> Solvable(batch) && NoOffense(old(apps), batch)
      ensures r.Panicked? ==> !NamesKnown(batch)
      ensures r.Done? ==> NamesKnown(batch)
      // On a reliable cluster it is done exactly if the batch is readable, valid and solvable, with known names.
      ensures reliable ==> !(r.Failed? && (r.error == ListFailed || r.error.CreateFailed?))
      ensures reliable ==> (r.Done? <==> CanRegister(old(apps), refs, source, batch))
      ensures Sound(old(apps), batch) ==> ClosedSince(|old(history)|)
      // What comes back follows layers in which each application stands as early as it can.
      ensures r.Done? ==> IsLayering(GraphOf(Entries(batch)), layers) && IsEarliest(GraphOf(Entries(batch)), layers)
      ensures r.Done? && SameKeySameSpec(old(apps), batch) ==> IsFinished(apps, batch, Flatten(layers), r.value)
      ensures r.Done? ==> r.value != []
    {
      layers := [];
      var error, read, entries, appMap := ReadBundles(refs, source);
      batch := read;
      if error.Some? {
        return Failed(error.value), batch, layers;
      }
      r, layers := RegisterBatch(read, entries, appMap);
    }

    /** Validates the batch that was read, layers it and creates it. */
    method RegisterBatch(batch: seq<Application>, entries: seq<Entry>, appMap: map<string, Application>)
      returns (r: Outcome<seq<Application>>, ghost layers: seq<seq<string>>)
      requires Valid() && OneProvided(batch) && entries == Entries(batch) && IsAppMap(appMap, batch)
      modifies this
      ensures Valid() && old(history) <= history
      ensures Grown(old(apps), apps, batch)
      ensures r.Failed? ==> IsRefusal(old(apps), batch, r.error)
      ensures reliable && r.Failed? ==> !(Solvable(batch) && NoOffense(old(apps), batch))
      ensures reliable ==> !(r.Failed? && (r.error == ListFailed || r.error.CreateFailed?))
      ensures !r.Failed? ==> Solvable(batch) && NoOffense(old(apps), batch)
      ensures !r.Failed? ==> (r.Done? <==> NamesKnown(batch))
      ensures Sound(old(apps), batch) ==> ClosedSince(|old(history)|)
      ensures r.Done? ==> IsLayering(GraphOf(Entries(batch)), layers) && IsEarliest(GraphOf(Entries(batch)), layers)
      ensures r.Done? && SameKeySameSpec(old(apps), batch) ==> IsFinished(apps, batch, Flatten(layers), r.value)
      ensures r.Done? ==> r.value != []
    {
      layers := [];
      var invalid := ValidateDependencies(batch);
      if invalid.Some? {
        OffenseMeans(apps, batch, invalid.value);
        return Failed(invalid.value), layers;
      }
      var sorted := LayeredTopologicalSort(entries);
      if sorted.None? {
        return Failed(Circular), layers;
      }
      layers := sorted.value;
      r := RegisterLayers(batch, appMap, sorted.value);
      LayersCompleted(old(apps), apps, batch, appMap, Flatten(layers), r);
      if r.Done? {
        SomethingIsHandled(apps, batch, appMap, Flatten(layers), r.value);
      }
    }

    /** Looks up and creates the application a node stands for. */
    method RegisterNamed(batch: seq<Application>, appMap: map<string, Application>, name: string,
                         ghost before: Store, ghost moment: nat, ghost done: seq<string>,
                         ghost registered: seq<Application>)
      returns (r: Outcome<Application>)
      requires Valid() && IsAppMap(appMap, batch) && moment <= |history|
      requires OneProvided(batch)
      requires Ready(batch, name, done)
      requires Progress(before, apps, batch, appMap, done, registered)
      modifies this
      ensures Valid() && old(history) <= history
      ensures Grown(before, apps, batch)
      ensures r.Done? ==> Progress(before, apps, batch, appMap, done + [name], registered + [r.value])
      ensures r.Panicked? <==> name !in appMap
      ensures r.Failed? ==> r.error.CreateFailed? && !reliable
      ensures Sound(before, batch) && old(ClosedSince(moment)) ==> ClosedSince(moment)
    {
      if name !in appMap {
        return Panicked;
      }
      var created := CreateIfNotExists(appMap[name], moment);
      if created.Ok? {
        OneMoreRegistered(before, old(apps), apps, batch, appMap, done, registered, name);
        assert (done + [name])[..|done|] == done;
      }
      r := if created.Ok? then Done(created.value) else Failed(created.error);
    }

    /** Creates the applications layer by layer. */
    method RegisterLayers(batch: seq<Application>, appMap: map<string, Application>, layers: seq<seq<string>>)
      returns (r: Outcome<seq<Application>>)
      requires Valid()
      requires OneProvided(batch)
      requires IsAppMap(appMap, batch)
      requires IsLayering(GraphOf(Entries(batch)), layers)
      modifies this
      ensures Valid() && old(history) <= history
      ensures Grown(old(apps), apps, batch)
      ensures r.Done? ==> Progress(old(apps), apps, batch, appMap, Flatten(layers), r.value)
      ensures r.Panicked? ==> exists x :: x in Flatten(layers) && x !in appMap
      ensures r.Failed? ==> r.error.CreateFailed? && !reliable
      ensures Sound(old(apps), batch) ==> ClosedSince(|old(history)|)
    {
      ghost var before := apps;
      var registered: seq<Application> := [];
      for i := 0 to |layers|
        invariant Valid() && old(history) <= history
        invariant Progress(before, apps, batch, appMap, Flatten(layers[..i]), registered)
        invariant Sound(before, batch) ==> ClosedSince(|old(history)|)
      {
        LayerIsReady(batch, layers, i);
        r := RegisterLayer(batch, appMap, layers[i], before, |old(history)|, Flatten(layers[..i]), registered);
        if !r.Done? {
          if x :| x in layers[i] && x !in appMap {
            InFlatten(layers, i, x);
          }
          return;
        }
        registered := r.value;
        assert layers[..i + 1][..i] == layers[..i];
      }
      assert layers[..|layers|] == layers;
      r := Done(registered);
    }

    /** Creates the applications of one layer, all of whose requirements are in the layers done. */
    method RegisterLayer(batch: seq<Application>, appMap: map<string, Application>, layer: seq<string>,
                         ghost before: Store, ghost moment: nat, ghost done: seq<string>, registered: seq<Application>)
      returns (r: Outcome<seq<Application>>)
      requires Valid() && IsAppMap(appMap, batch) && moment <= |history|
      requires OneProvided(batch)
      requires forall x :: x in layer ==> Ready(batch, x, done)
      requires Progress(before, apps, batch, appMap, done, registered)
      modifies this
      ensures Valid() && old(history) <= history
      ensures Grown(before, apps, batch)
      ensures r.Done? ==> Progress(before, apps, batch, appMap, done + layer, r.value)
      ensures r.Panicked? ==> exists x :: x in layer && x !in appMap
      ensures r.Failed? ==> r.error.CreateFailed? && !reliable
      ensures Sound(before, batch) && old(ClosedSince(moment)) ==> ClosedSince(moment)
    {
      var all := registered;
      assert done + layer[..0] == done;
      for j := 0 to |layer|
        invariant Valid() && old(history) <= history
        invariant Progress(before, apps, batch, appMap, done + layer[..j], all)
        invariant Sound(before, batch) && old(ClosedSince(moment)) ==> ClosedSince(moment)
      {
        ReadyWithMore(batch, layer[j], done, layer[..j]);
        var created := RegisterNamed(batch, appMap, layer[j], before, moment, done + layer[..j], all);
        if !created.Done? {
          return if created.Panicked? then Panicked else Failed(created.error);
        }
        all := all + [created.value];
        OneMoreDone(done, layer, j);
      }
      assert layer[..|layer|] == layer;
      r := Done(all);
    }

    /** Any sequence of calls, failing ones included, goes through closed stores only. */
    method RunCalls(calls: seq<Call>, source: map<BundleRef, Application>)
      requires Valid()
      modifies this
      ensures Valid() && old(history) <= history
      ensures Closed(old(apps)) && Consistent(source, old(apps)) && ReachingCalls(source, calls) ==>
        ClosedSince(|old(history)|)
    {
      ghost var sound := Closed(apps) && Consistent(source, apps) && ReachingCalls(source, calls);
      for i := 0 to |calls|
        invariant Valid() && old(history) <= history
        invariant sound ==> Consistent(source, apps) && ClosedSince(|old(history)|)
      {
        match calls[i]
        case One(ref) =>
          ghost var store := apps;
          var r := Register(ref, source);
          if sound && r.Done? {
            ghost var app := ReadApplication(source[ref]).value;
            GrowthIsConsistent(source, store, apps, [ref], [app]);
          }
        case Many(refs) =>
          ghost var store := apps;
          var _, batch, _ := RegisterAll(refs, source);
          if sound && IsBatch(refs, source, batch) {
            ReachingIsSound(source, store, refs, batch);
            GrowthIsConsistent(source, store, apps, refs, batch);
          }
      }
    }
  }

  /** A node without an application is a provided name that is no application's. */
  lemma NodesOfOrder(batch: seq<Application>, appMap: map<string, Application>, order: seq<string>)
    requires OneProvided(batch) && IsAppMap(appMap, batch) && IsOrder(GraphOf(Entries(batch)), order)
    ensures NamesKnown(batch) <==> forall x :: x in order ==> x in appMap
  {
    forall x ensures x in order <==> exists a :: a in batch && a.provided[0] == x {
      NodesAreProvided(batch, x);
    }
  }

  /** Why a batch that can be read is not registered; the first two are calls that cannot reach the cluster. */
  ghost predicate IsRefusal(store: Store, batch: seq<Application>, error: Error)
    requires OneProvided(batch)
  {
    || error == ListFailed || error.CreateFailed?
    || (error == Circular && !Solvable(batch) && NoOffense(store, batch))
    || exists a, r :: IsOffense(store, batch, a, r, error)
  }

  /**
   * The applications come back under the names of the order. They are the batch exactly if its names
   * are distinct and all provided, and in dependency order if the graph leads to what they require.
   */
  ghost predicate IsFinished(after: Store, batch: seq<Application>, order: seq<string>, registered: seq<Application>)
    requires OneProvided(batch)
  {
    && AppNamesInOrder(registered) == order
    && (multiset(registered) == multiset(batch) <==> NamesProvided(batch))
    && (NamesProvided(batch) ==> forall a :: a in batch ==> Key(a) in after && after[Key(a)] == a)
    && (NeedsReached(batch) ==> DependencyOrdered(registered))
  }

  lemma Finished(before: Store, after: Store, batch: seq<Application>, appMap: map<string, Application>,
                 order: seq<string>, registered: seq<Application>)
    requires OneProvided(batch) && SameKeySameSpec(before, batch) && IsAppMap(appMap, batch)
    requires Grown(before, after, batch) && Handled(after, appMap, order, registered)
    requires IsOrder(GraphOf(Entries(batch)), order)
    ensures IsFinished(after, batch, order, registered)
  {
    HandledAreOwn(before, after, batch, appMap, order, registered);
    LookedNames(batch, appMap, order, registered);
    FinishedPermutedIff(batch, appMap, order, registered);
    if NamesProvided(batch) {
      FinishedStored(after, batch, appMap, order, registered);
    }
    if NeedsReached(batch) {
      FinishedInOrder(batch, appMap, order, registered);
    }
  }

  lemma HandledAreKnown(store: Store, appMap: map<string, Application>, order: seq<string>,
                        registered: seq<Application>, x: string)
    requires Handled(store, appMap, order, registered) && x in order
    ensures x in appMap
  {
  }

  lemma SomethingIsHandled(store: Store, batch: seq<Application>, appMap: map<string, Application>,
                           order: seq<string>, registered: seq<Application>)
    requires OneProvided(batch) && batch != [] && IsOrder(GraphOf(Entries(batch)), order)
    requires Handled(store, appMap, order, registered)
    ensures registered != []
  {
    NodesAreProvided(batch, batch[0].provided[0]);
  }

  /** What the end of the loop over the layers says. */
  lemma LayersCompleted(before: Store, after: Store, batch: seq<Application>, appMap: map<string, Application>,
                        order: seq<string>, r: Outcome<seq<Application>>)
    requires OneProvided(batch) && IsAppMap(appMap, batch) && IsOrder(GraphOf(Entries(batch)), order)
    requires r.Done? ==> Progress(before, after, batch, appMap, order, r.value)
    requires r.Panicked? ==> exists x :: x in order && x !in appMap
    ensures !r.Failed? ==> (r.Done? <==> NamesKnown(batch))
    ensures r.Done? && SameKeySameSpec(before, batch) ==> IsFinished(after, batch, order, r.value)
  {
    NodesOfOrder(batch, appMap, order);
    if r.Done? {
      forall x | x in order ensures x in appMap {
        HandledAreKnown(after, appMap, order, r.value, x);
      }
      if SameKeySameSpec(before, batch) {
        Finished(before, after, batch, appMap, order, r.value);
      }
    }
  }

  lemma LookedNames(batch: seq<Application>, appMap: map<string, Application>,
                    order: seq<string>, registered: seq<Application>)
    requires IsAppMap(appMap, batch) && Looked(appMap, order, registered)
    ensures AppNamesInOrder(registered) == order
  {
  }

  /** The assumptions under which registration keeps the store closed. */
  ghost predicate Sound(before: Store, batch: seq<Application>) {
    Closed(before) && NeedsMet(before, batch) && KeysApart(batch)
  }

  /** The name is a node, and all that it reaches is done. */
  ghost predicate Ready(batch: seq<Application>, name: string, done: seq<string>)
    requires OneProvided(batch)
  {
    && name in GraphOf(Entries(batch))
    && forall d :: Reaches(GraphOf(Entries(batch)), name, d) ==> d in done
  }

  lemma ReadyWithMore(batch: seq<Application>, name: string, done: seq<string>, more: seq<string>)
    requires OneProvided(batch) && Ready(batch, name, done)
    ensures Ready(batch, name, done + more)
  {
  }

  lemma OneMoreDone(done: seq<string>, layer: seq<string>, j: nat)
    requires j < |layer|
    ensures done + layer[..j] + [layer[j]] == done + layer[..j + 1]
  {
  }

  /** Creating the next application of a legal order keeps the store closed. */
  lemma ReadyToRegister(before: Store, after: Store, batch: seq<Application>, appMap: map<string, Application>,
                        done: seq<string>, registered: seq<Application>, name: string)
    requires Grown(before, after, batch) && Handled(after, appMap, done, registered)
    requires Sound(before, batch) && IsAppMap(appMap, batch) && Closed(after)
    requires name in appMap && Ready(batch, name, done)
    ensures Key(appMap[name]) !in after ==> Closed(after[Key(appMap[name]) := appMap[name]])
  {
    var app := appMap[name];
    if Key(app) !in after {
      forall q | q in app.required ensures q.name in Names(after) {
        RequirementsAreRegistered(before, after, batch, appMap, done, registered, app, q);
      }
      CreateKeepsClosed(after, app);
    }
  }

  /** What creating the application of the next name keeps. */
  lemma OneMoreRegistered(before: Store, now: Store, after: Store, batch: seq<Application>,
                          appMap: map<string, Application>, done: seq<string>, registered: seq<Application>,
                          name: string)
    requires OneProvided(batch) && IsAppMap(appMap, batch) && name in appMap && Ready(batch, name, done)
    requires Grown(before, now, batch) && Handled(now, appMap, done, registered)
    requires
      var app := appMap[name];
      after == if Key(app) in now then now else now[Key(app) := app]
    ensures Grown(before, after, batch)
    ensures Key(appMap[name]) in after
    ensures Handled(after, appMap, done + [name], registered + [after[Key(appMap[name])]])
    ensures Sound(before, batch) && Closed(now) ==> Closed(after)
  {
    GrownOneMore(before, now, after, batch, appMap[name]);
    HandledOneMore(now, after, appMap, done, registered, name);
    if Sound(before, batch) && Closed(now) {
      ReadyToRegister(before, now, batch, appMap, done, registered, name);
    }
  }

  /** What stands in a layer is a node, and earlier layers hold all it reaches. */
  lemma LayerIsReady(batch: seq<Application>, layers: seq<seq<string>>, i: nat)
    requires OneProvided(batch)
    requires IsLayering(GraphOf(Entries(batch)), layers)
    requires i < |layers|
    ensures forall x :: x in layers[i] ==> Ready(batch, x, Flatten(layers[..i]))
  {
    forall x | x in layers[i] ensures Ready(batch, x, Flatten(layers[..i])) {
      LayerElementsAreNodes(GraphOf(Entries(batch)), layers, i, x);
      forall d | Reaches(GraphOf(Entries(batch)), x, d) ensures d in Flatten(layers[..i]) {
        ReachedLiesLower(GraphOf(Entries(batch)), layers, i, x, d);
      }
    }
  }

  lemma {:induction false} LayerElementsAreNodes(g: Graph, layers: seq<seq<string>>, i: nat, x: string)
    requires i < |layers| && x in layers[i]
    requires IsOrder(g, Flatten(layers))
    ensures x in g
  {
    InFlatten(layers, i, x);
  }

  lemma {:induction false} InFlatten(layers: seq<seq<string>>, i: nat, x: string)
    requires i < |layers| && x in layers[i]
    ensures x in Flatten(layers)
  {
    if i < |layers| - 1 {
      InFlatten(layers[..|layers| - 1], i, x);
    }
  }

  lemma NothingToRefuse(store: Store, batch: seq<Application>, error: Error)
    requires OneProvided(batch) && Solvable(batch) && NoOffense(store, batch) && IsRefusal(store, batch, error)
    ensures error == ListFailed || error.CreateFailed?
  {
  }

  // A bundle that provides another name than its own: the solver goes by the one, the lookup by the other.
  const FOREIGN := [Application("a", "1", ["b"], [], [], [])]

  lemma ForeignNameIsUnknown(store: Store)
    ensures OneProvided(FOREIGN) && Solvable(FOREIGN) && NoOffense(store, FOREIGN) && !NamesKnown(FOREIGN)
  {
    UnknownName(FOREIGN, FOREIGN[0]);
  }

  /** A single bundle without requirements that provides another name than its own. */
  lemma UnknownName(batch: seq<Application>, a: Application)
    requires batch == [a] && |a.provided| == 1 && a.provided[0] != a.name && a.required == []
    ensures OneProvided(batch) && Solvable(batch) && !NamesKnown(batch)
  {
    var g := GraphOf(Entries(batch));
    forall n ensures n in g <==> n == a.provided[0] {
      NodesAreProvided(batch, n);
    }
    forall n, d ensures d !in DepsOf(Entries(batch), n) {
      EdgesAreRequired(batch, n, d);
    }
    OrderedIsSolvable(g, [a.provided[0]]);
  }

  /** Registering it crashes, if the cluster can be reached. */
  method RegisterForeign(manager: RegisterManager) returns (r: Outcome<seq<Application>>)
    requires manager.Valid()
    modifies manager
    ensures r.Panicked? || (r.Failed? && (r.error == ListFailed || r.error.CreateFailed?))
    ensures manager.reliable ==> r.Panicked?
  {
    var ref := BundleRef("a", "1");
    ghost var batch, layers;
    r, batch, layers := manager.RegisterAll([ref], map[ref := FOREIGN[0]]);
    assert batch == FOREIGN;
    ForeignNameIsUnknown(old(manager.apps));
    if r.Failed? {
      NothingToRefuse(old(manager.apps), batch, r.error);
    }
  }

  // Two applications under one metadata name, and a third that requires the one that is not installed.
  const INSTALLED := Application("a-1", "2", ["a-1"], [], [], [])
  const HIDDEN := Application("a", "1-2", ["a"], [], [], [])
  const USER := Application("b", "1", ["b"], [Require("a", "", [])], [], [])

  /** Where metadata names collide, nothing is refused, the one is taken for the other, and the store left open. */
  lemma CollidingKeysLeaveOpen()
    ensures Key(HIDDEN) == Key(INSTALLED) && Closed(map[Key(INSTALLED) := INSTALLED])
    ensures SelfNamed([HIDDEN, USER]) && NoOffense(map[Key(INSTALLED) := INSTALLED], [HIDDEN, USER])
    ensures
      !Closed(StoreAfter(map[Key(INSTALLED) := INSTALLED], map["a" := HIDDEN, "b" := USER], ["a", "b"]))
  {
    var store, appMap := map[Key(INSTALLED) := INSTALLED], map["a" := HIDDEN, "b" := USER];
    assert Key(HIDDEN) == "a-1-2" && Key(INSTALLED) == "a-1-2" && Key(USER) == "b-1";
    assert [HIDDEN, USER][0] in [HIDDEN, USER];
    assert ["a", "b"][..1] == ["a"] && ["a"][..0] == [];
    assert StoreAfter(store, appMap, ["a"]) == store;
    var after := StoreAfter(store, appMap, ["a", "b"]);
    assert after == store[Key(USER) := USER];
    assert USER.required[0] in USER.required && after[Key(USER)] == USER;
  }

  /** Two bundles that provide each other's names, of which the first requires a third one. */
  predicate IsSwap(a: Application, b: Application, c: Application) {
    && a.name != b.name && b.name != c.name && c.name != a.name
    && a.provided == [b.name] && b.provided == [a.name] && c.provided == [c.name]
    && RequireNames(a) == [c.name] && RequireNames(b) == [] && RequireNames(c) == []
  }

  lemma SwapsExist()
    ensures exists a, b, c :: IsSwap(a, b, c)
  {
    var a := Application("a", "1", ["b"], [Require("c", "", [])], [], []);
    var b, c := Application("b", "1", ["a"], [], [], []), Application("c", "1", ["c"], [], [], []);
    assert IsSwap(a, b, c);
  }

  /** The graph of a swap, whose nodes are called by the others' names. */
  ghost predicate IsSwapGraph(g: Graph, x: string, y: string, z: string) {
    && x != y && y != z && z != x && (forall n :: n in g <==> n == x || n == y || n == z)
    && g[x] == {} && g[z] == {} && g[y] == {z}
  }

  lemma GraphOfSwap(batch: seq<Application>, a: Application, b: Application, c: Application)
    requires IsSwap(a, b, c) && forall p :: p in batch <==> p == a || p == b || p == c
    ensures IsSwapGraph(GraphOf(Entries(batch)), a.name, b.name, c.name)
  {
    forall n ensures n in GraphOf(Entries(batch)) <==> n == a.name || n == b.name || n == c.name {
      NodesAreProvided(batch, n);
    }
    forall n, d ensures d in DepsOf(Entries(batch), n) <==> n == b.name && d == c.name {
      EdgesAreRequired(batch, n, d);
      assert c.name in RequireNames(a);
    }
  }

  /** Nothing crashes, but some legal order creates the first before what it requires. */
  lemma SwappedNamesAreOutOfOrder(batch: seq<Application>, a: Application, b: Application, c: Application,
                                  appMap: map<string, Application>)
    requires IsSwap(a, b, c) && (forall p :: p in batch <==> p == a || p == b || p == c) && IsAppMap(appMap, batch)
    ensures OneProvided(batch) && Solvable(batch) && NamesKnown(batch)
    ensures !AlwaysInOrder(GraphOf(Entries(batch)), appMap)
  {
    GraphOfSwap(batch, a, b, c);
    assert a.name in AppNames(batch) && b.name in AppNames(batch) && c.name in AppNames(batch);
    SwapIsSolvable(GraphOf(Entries(batch)), a.name, b.name, c.name);
    InOrderIff(batch, appMap);
    RequireNamesOf(a, c.name);
    assert appMap[a.name] == a;
  }

  /** Stopped there, it leaves a store that was empty open. */
  lemma SwappedNamesAreLeftOpen(batch: seq<Application>, a: Application, b: Application, c: Application,
                                appMap: map<string, Application>, g: Graph)
    requires IsSwap(a, b, c) && (forall p :: p in batch <==> p == a || p == b || p == c) && IsAppMap(appMap, batch)
    requires KeysApart(batch) && g == GraphOf(Entries(batch))
    ensures g.Keys <= appMap.Keys && !AlwaysClosed(map[], g, appMap)
  {
    GraphOfSwap(batch, a, b, c);
    assert a.name in AppNames(batch) && b.name in AppNames(batch) && c.name in AppNames(batch);
    SwapIsSolvable(g, a.name, b.name, c.name);
    SwappedNamesAreOpen(batch, g, appMap, a, c.name);
  }

  lemma SwappedNamesAreOpen(batch: seq<Application>, g: Graph, appMap: map<string, Application>,
                            a: Application, n: string)
    requires IsAppMap(appMap, batch) && KeysApart(batch) && g.Keys <= appMap.Keys
    requires !Cyclic(g) && !Incomplete(g) && a.name in g && appMap[a.name] == a
    requires n in RequireNames(a) && n != a.name && !Reaches(g, a.name, n)
    ensures !AlwaysClosed(map[], g, appMap)
  {
    RequireNamesOf(a, n);
    var r :| r in a.required && r.name == n;
    SomewhereOpen(map[], batch, g, appMap, a.name, r);
  }

  lemma SwapIsSolvable(g: Graph, x: string, y: string, z: string)
    requires IsSwapGraph(g, x, y, z)
    ensures !Cyclic(g) && !Incomplete(g) && !Reaches(g, x, z)
  {
    assert [x, z, y][..2] == [x, z];
    OrderedIsSolvable(g, [x, z, y]);
    if Reaches(g, x, z) {
      FirstStep(g, x, z);
    }
  }
}
