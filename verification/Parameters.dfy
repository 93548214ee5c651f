/** Parameters of an install: defaults, overrides and generated secrets merged into one map. */
module Parameters {
  import opened Wrappers
  import opened Api

  /** `NilData` is a crash: the value is entered into the data of a secret that came back without any. */
  datatype Error = UnknownFormat(format: string) | GenerationFailed | NilData | RequiredNotSet(name: string)

  type Secrets = map<string, string>

  function SecretKey(install: string, parameter: string): string {
    install + "." + parameter
  }

  /** Installs whose names hold no dot never share a secret. */
  lemma SecretsStayApart(install: string, parameter: string, install': string, parameter': string)
    requires '.' !in install && '.' !in install'
    requires SecretKey(install, parameter) == SecretKey(install', parameter')
    ensures install == install' && parameter == parameter'
  {
    var k, k' := SecretKey(install, parameter), SecretKey(install', parameter');
    assert k[|install|] == '.' && k'[|install'|] == '.';
    assert |install| == |install'|;
    assert install == k[..|install|] && install' == k'[..|install'|];
    assert parameter == k[|install| + 1..] && parameter' == k'[|install'| + 1..];
  }

  /** With dots they can. */
  lemma SecretsCanMeet()
    ensures SecretKey("web", "db.password") == "web.db.password" == SecretKey("web.db", "password")
  {
    assert "web" + "." + "db.password" == "web.db" + "." + "password";
  }

  /** A definition or an override, as far as merging is concerned. */
  datatype Item = Item(name: string, plain: string, generate: GenerateSecret) {
    predicate Generates() {
      generate.format != ""
    }
  }

  function DefinitionItem(d: ParameterDefinition): Item {
    Item(d.name, d.default, d.generate)
  }

  function OverrideItem(p: ParameterSpec): Item {
    Item(p.name, p.value, p.generate)
  }

  function DefinitionItems(ds: seq<ParameterDefinition>): seq<Item> {
    seq(|ds|, i requires 0 <= i < |ds| => DefinitionItem(ds[i]))
  }

  function OverrideItems(ps: seq<ParameterSpec>): seq<Item> {
    seq(|ps|, i requires 0 <= i < |ps| => OverrideItem(ps[i]))
  }

  function Items(ds: seq<ParameterDefinition>, ps: seq<ParameterSpec>): seq<Item> {
    DefinitionItems(ds) + OverrideItems(ps)
  }

  /** Every secret that the items ask for has been generated. */
  ghost predicate SecretsPresent(install: string, items: seq<Item>, secrets: Secrets) {
    forall it :: it in items && it.Generates() ==> SecretKey(install, it.name) in secrets
  }

  function ItemValue(install: string, it: Item, secrets: Secrets): string
    requires it.Generates() ==> SecretKey(install, it.name) in secrets
  {
    if it.Generates() then secrets[SecretKey(install, it.name)] else it.plain
  }

  /** The merged map: for each name the value of its last item. */
  function Merged(install: string, items: seq<Item>, secrets: Secrets): map<string, string>
    requires SecretsPresent(install, items, secrets)
  {
    if items == [] then map[]
    else
      var last := items[|items| - 1];
      assert forall it :: it in items[..|items| - 1] ==> it in items;
      Merged(install, items[..|items| - 1], secrets)[last.name := ItemValue(install, last, secrets)]
  }

  ghost predicate Submap<K, V>(a: map<K, V>, b: map<K, V>) {
    forall k :: k in a ==> k in b && b[k] == a[k]
  }

  /** Secrets were kept as they are, and added only for generating items of the install. */
  ghost predicate Generated(install: string, items: seq<Item>, before: Secrets, after: Secrets) {
    && Submap(before, after)
    && forall k :: k in after && k !in before ==>
      exists it :: it in items && it.Generates() && k == SecretKey(install, it.name)
  }

  /** What one merge may do: generate missing secrets and give the merged map, or fail on a missing one. */
  ghost predicate MergeOutcome(install: string, items: seq<Item>, before: Secrets, after: Secrets,
                               r: Result<map<string, string>, Error>)
  {
    && Generated(install, items, before, after)
    && (r.Ok? ==> SecretsPresent(install, items, after) && r.value == Merged(install, items, after))
    && (r.Err? ==> !SecretsPresent(install, items, before))
  }

  /**
   * What merging the items may do to the global secret as such: it is created exactly if there is a
   * secret to ask for, it is never removed, and without data it stays as it is.
   */
  ghost predicate StoreKept(items: seq<Item>, before: Option<Secrets>, after: Option<Secrets>) {
    && (before.Some? ==> after.Some?)
    && (before == Some(map[]) ==> after == before)
    && (before.None? ==> (after.None? <==> forall it :: it in items ==> !it.Generates()))
  }

  function DataOf(store: Option<Secrets>): Secrets {
    if store.Some? then store.value else map[]
  }

  /** What one merge may do to the global secret, and with what result. */
  ghost predicate MergeResult(install: string, items: seq<Item>, before: Option<Secrets>, after: Option<Secrets>,
                              r: Result<map<string, string>, Error>)
  {
    MergeOutcome(install, items, DataOf(before), DataOf(after), r) && StoreKept(items, before, after)
  }

  /** The merged value of a name is that of its last item. */
  lemma {:induction false} MergedAt(install: string, items: seq<Item>, secrets: Secrets, i: nat)
    requires SecretsPresent(install, items, secrets)
    requires i < |items| && forall j :: i < j < |items| ==> items[j].name != items[i].name
    ensures items[i].name in Merged(install, items, secrets)
    ensures Merged(install, items, secrets)[items[i].name] == ItemValue(install, items[i], secrets)
  {
    var front := items[..|items| - 1];
    if i < |front| {
      assert forall it :: it in front ==> it in items;
      MergedAt(install, front, secrets, i);
    }
  }

  lemma {:induction false} MergedKeys(install: string, items: seq<Item>, secrets: Secrets)
    requires SecretsPresent(install, items, secrets)
    ensures Merged(install, items, secrets).Keys == set it | it in items :: it.name
  {
    if items != [] {
      var front, last := items[..|items| - 1], items[|items| - 1];
      assert forall it :: it in items <==> it in front || it == last;
      MergedKeys(install, front, secrets);
    }
  }

  /** Merging depends on the secrets only through those it asks for. */
  lemma {:induction false} MergedIsStable(install: string, items: seq<Item>, before: Secrets, after: Secrets)
    requires SecretsPresent(install, items, before) && Submap(before, after)
    ensures SecretsPresent(install, items, after)
    ensures Merged(install, items, after) == Merged(install, items, before)
  {
    if items != [] {
      assert forall it :: it in items[..|items| - 1] ==> it in items;
      MergedIsStable(install, items[..|items| - 1], before, after);
    }
  }

  /** When nothing is missing, a merge succeeds, changes nothing and has one result. */
  lemma MergeWithNothingMissing(install: string, items: seq<Item>, before: Secrets, after: Secrets,
                                r: Result<map<string, string>, Error>)
    requires MergeOutcome(install, items, before, after, r)
    requires SecretsPresent(install, items, before)
    ensures after == before && r == Ok(Merged(install, items, before))
  {
    assert forall it :: it in items && it.Generates() ==> SecretKey(install, it.name) in before;
    assert after.Keys == before.Keys;
  }

  /** How many of the additions come before the first that names one of the parameters. */
  function FirstClash(ps: seq<ParameterSpec>, additions: seq<ParameterSpec>): (k: nat)
    ensures k <= |additions|
    ensures forall i, p :: 0 <= i < k && p in ps ==> p.name != additions[i].name
    ensures k < |additions| ==> exists p :: p in ps && p.name == additions[k].name
  {
    if additions == [] || exists p :: p in ps && p.name == additions[0].name then 0
    else 1 + FirstClash(ps, additions[1..])
  }

  function NameValues(ps: seq<ParameterSpec>): seq<ParameterSpec> {
    seq(|ps|, i requires 0 <= i < |ps| => ParameterSpec(ps[i].name, ps[i].value, NO_SECRET))
  }

  /** The parameters with the additions up to the first clash appended as plain name-value pairs. */
  function WithAdditions(ps: seq<ParameterSpec>, additions: seq<ParameterSpec>): seq<ParameterSpec> {
    ps + NameValues(additions[..FirstClash(ps, additions)])
  }

  ghost predicate NamesDistinct(ps: seq<ParameterSpec>) {
    forall i, j :: 0 <= i < j < |ps| ==> ps[i].name != ps[j].name
  }

  /** Additions never touch a parameter that is there, and keep names distinct. */
  lemma AdditionsOnlyAdd(ps: seq<ParameterSpec>, additions: seq<ParameterSpec>)
    ensures ps <= WithAdditions(ps, additions)
    ensures NamesDistinct(ps) && NamesDistinct(additions) ==> NamesDistinct(WithAdditions(ps, additions))
  {
    var k := FirstClash(ps, additions);
    var all := WithAdditions(ps, additions);
    if NamesDistinct(ps) && NamesDistinct(additions) {
      forall i, j | 0 <= i < j < |all| ensures all[i].name != all[j].name {
        if i < |ps| <= j {
          assert ps[i] in ps && all[j].name == additions[j - |ps|].name;
        }
      }
    }
  }

  /** The addition names one of the parameters. */
  predicate Clashes(ps: seq<ParameterSpec>, addition: ParameterSpec) {
    exists p :: p in ps && p.name == addition.name
  }

  /** The addition at `j` stands in its place behind the parameters. */
  predicate Arrives(ps: seq<ParameterSpec>, additions: seq<ParameterSpec>, j: nat)
    requires j < |additions|
  {
    var all := WithAdditions(ps, additions);
    |ps| + j < |all| && all[|ps| + j] == ParameterSpec(additions[j].name, additions[j].value, NO_SECRET)
  }

  /** The first `c` additions, none of which clashes, stand behind the parameters as plain name-value pairs. */
  ghost predicate ExtendedBy(own: seq<ParameterSpec>, additions: seq<ParameterSpec>, c: nat, all: seq<ParameterSpec>) {
    && c <= |additions| && |all| == |own| + c
    && (forall i :: 0 <= i < |own| ==> all[i] == own[i])
    && (forall j :: 0 <= j < c ==>
          && !Clashes(own, additions[j])
          && all[|own| + j] == ParameterSpec(additions[j].name, additions[j].value, NO_SECRET))
    && (c < |additions| ==> Clashes(own, additions[c]))
  }

  /** The parameters are extended by the additions up to the first that clashes. */
  ghost predicate Extended(own: seq<ParameterSpec>, additions: seq<ParameterSpec>, all: seq<ParameterSpec>) {
    exists c :: ExtendedBy(own, additions, c, all)
  }

  lemma AdditionsExtend(own: seq<ParameterSpec>, additions: seq<ParameterSpec>)
    ensures Extended(own, additions, WithAdditions(own, additions))
  {
    assert ExtendedBy(own, additions, FirstClash(own, additions), WithAdditions(own, additions));
  }

  /** An addition arrives exactly if it comes before the first clash. */
  lemma ArrivesBeforeClash(ps: seq<ParameterSpec>, additions: seq<ParameterSpec>, j: nat)
    requires j < |additions|
    ensures Arrives(ps, additions, j) <==> j < FirstClash(ps, additions)
  {
  }

  /** All that clash with nothing arrive if and only if whatever comes behind the first clash clashes, too. */
  lemma ClashDropsTheRest(ps: seq<ParameterSpec>, additions: seq<ParameterSpec>)
    ensures forall j :: 0 <= j < |additions| ==> (Arrives(ps, additions, j) <==> j < FirstClash(ps, additions))
    ensures (forall j :: 0 <= j < |additions| && !Clashes(ps, additions[j]) ==> Arrives(ps, additions, j)) <==>
      forall j :: FirstClash(ps, additions) < j < |additions| ==> Clashes(ps, additions[j])
    ensures NamesDistinct(additions) ==>
      forall j, p :: (FirstClash(ps, additions) <= j < |additions| && p in WithAdditions(ps, additions)) ==>
        Clashes(ps, additions[j]) || p.name != additions[j].name
  {
    forall j | 0 <= j < |additions| ensures Arrives(ps, additions, j) <==> j < FirstClash(ps, additions) {
      ArrivesBeforeClash(ps, additions, j);
    }
    AllArriveIff(ps, additions);
    if NamesDistinct(additions) {
      forall j, p | FirstClash(ps, additions) <= j < |additions| && p in WithAdditions(ps, additions)
        ensures Clashes(ps, additions[j]) || p.name != additions[j].name
      {
        DroppedIsMissing(ps, additions, j, p);
      }
    }
  }

  lemma AllArriveIff(ps: seq<ParameterSpec>, additions: seq<ParameterSpec>)
    ensures (forall j :: 0 <= j < |additions| && !Clashes(ps, additions[j]) ==> Arrives(ps, additions, j)) <==>
      forall j :: FirstClash(ps, additions) < j < |additions| ==> Clashes(ps, additions[j])
  {
    var k := FirstClash(ps, additions);
    forall j | 0 <= j < |additions| ensures Arrives(ps, additions, j) <==> j < k {
      ArrivesBeforeClash(ps, additions, j);
    }
    if forall j :: 0 <= j < |additions| && !Clashes(ps, additions[j]) ==> Arrives(ps, additions, j) {
      forall j | k < j < |additions| ensures Clashes(ps, additions[j]) {
        assert !Arrives(ps, additions, j);
      }
    }
  }

  /** What is dropped without a clash is not there under its name, unless another addition gives the name. */
  lemma DroppedIsMissing(ps: seq<ParameterSpec>, additions: seq<ParameterSpec>, j: nat, p: ParameterSpec)
    requires NamesDistinct(additions) && FirstClash(ps, additions) <= j < |additions|
    requires p in WithAdditions(ps, additions)
    ensures Clashes(ps, additions[j]) || p.name != additions[j].name
  {
    var all := WithAdditions(ps, additions);
    var i :| 0 <= i < |all| && all[i] == p;
    if i < |ps| {
      assert ps[i] in ps;
    } else {
      assert p.name == additions[i - |ps|].name && i - |ps| < j;
    }
  }

  /** The last value given for a name, or the empty string. */
  function LastValue(ps: seq<ParameterSpec>, name: string): string {
    if ps == [] then ""
    else if ps[|ps| - 1].name == name then ps[|ps| - 1].value
    else LastValue(ps[..|ps| - 1], name)
  }

  /** White space in the sense of Unicode. */
  predicate IsSpace(c: char) {
    || c in {' ', '\t', '\n', '\r', '\U{000B}', '\U{000C}', '\U{0085}', '\U{00A0}'}
    || c in {'\U{1680}', '\U{2028}', '\U{2029}', '\U{202F}', '\U{205F}', '\U{3000}'}
    || '\U{2000}' <= c <= '\U{200A}'
  }

  /** The string without the white space at its beginning. */
  function TrimLeft(s: string): string {
    if s != "" && IsSpace(s[0]) then TrimLeft(s[1..]) else s
  }

  /** The string without the white space at its end. */
  function TrimRight(s: string): string {
    if s != "" && IsSpace(s[|s| - 1]) then TrimRight(s[..|s| - 1]) else s
  }

  /** Nothing is left of the string without the white space at either end. */
  predicate Blank(s: string) {
    TrimRight(TrimLeft(s)) == ""
  }

  lemma {:induction false} TrimmedLeft(s: string)
    ensures (exists c :: c in s && !IsSpace(c)) <==> exists c :: c in TrimLeft(s) && !IsSpace(c)
  {
    if s != "" && IsSpace(s[0]) {
      TrimmedLeft(s[1..]);
      assert forall c :: c in s <==> c == s[0] || c in s[1..];
    }
  }

  lemma {:induction false} TrimmedRight(s: string)
    ensures TrimRight(s) != "" <==> exists c :: c in s && !IsSpace(c)
  {
    if s != "" {
      var last := s[|s| - 1];
      if IsSpace(last) {
        TrimmedRight(s[..|s| - 1]);
        assert forall c :: c in s <==> c == last || c in s[..|s| - 1];
      } else {
        assert last in s;
      }
    }
  }

  /** A string is blank if and only if it holds nothing but white space. */
  lemma BlankIff(s: string)
    ensures Blank(s) <==> forall c :: c in s ==> IsSpace(c)
  {
    TrimmedLeft(s);
    TrimmedRight(TrimLeft(s));
  }

  /** `i` is the last parameter of the name. */
  ghost predicate IsLastNamed(ps: seq<ParameterSpec>, name: string, i: nat) {
    i < |ps| && ps[i].name == name && forall j :: i < j < |ps| ==> ps[j].name != name
  }

  lemma {:induction false} LastValueAt(ps: seq<ParameterSpec>, name: string)
    ensures forall i: nat :: IsLastNamed(ps, name, i) ==> LastValue(ps, name) == ps[i].value
    ensures (forall p :: p in ps ==> p.name != name) ==> LastValue(ps, name) == ""
    ensures (exists p :: p in ps && p.name == name) ==> exists i: nat :: IsLastNamed(ps, name, i)
  {
    if ps != [] {
      var front, n := ps[..|ps| - 1], |ps| - 1;
      LastValueAt(front, name);
      if ps[n].name == name {
        assert IsLastNamed(ps, name, n);
      } else {
        forall i: nat | IsLastNamed(ps, name, i) ensures IsLastNamed(front, name, i) {
        }
        forall i: nat | IsLastNamed(front, name, i) ensures IsLastNamed(ps, name, i) {
        }
        assert forall p :: p in ps && p.name == name ==> p in front;
      }
    }
  }

  /** The last override of the name holds something other than white space. */
  ghost predicate IsGiven(ps: seq<ParameterSpec>, name: string) {
    exists i: nat :: IsLastNamed(ps, name, i) && exists c :: c in ps[i].value && !IsSpace(c)
  }

  /** What validation looks at is blank unless the last override of the name holds more than white space. */
  lemma GivenIff(ps: seq<ParameterSpec>, name: string)
    ensures !Blank(LastValue(ps, name)) <==> IsGiven(ps, name)
  {
    BlankIff(LastValue(ps, name));
    LastValueAt(ps, name);
  }

  datatype Description = Description(value: string, default: string, description: string)

  function DescriptionsOfDefinitions(ds: seq<ParameterDefinition>): map<string, Description> {
    if ds == [] then map[]
    else
      var d := ds[|ds| - 1];
      DescriptionsOfDefinitions(ds[..|ds| - 1])[d.name := Description(d.default, d.default, d.description)]
  }

  function Descriptions(ds: seq<ParameterDefinition>, ps: seq<ParameterSpec>): map<string, Description> {
    if ps == [] then DescriptionsOfDefinitions(ds)
    else
      var p := ps[|ps| - 1];
      var m := Descriptions(ds, ps[..|ps| - 1]);
      m[p.name := (if p.name in m then m[p.name] else Description("", "", "")).(value := p.value)]
  }

  /** Each name that is defined or overridden is described, and no other. */
  lemma {:induction false} DescribedNames(ds: seq<ParameterDefinition>, ps: seq<ParameterSpec>, n: string)
    ensures n in Descriptions(ds, ps) <==> (exists d :: d in ds && d.name == n) || exists p :: p in ps && p.name == n
    decreases |ds| + |ps|
  {
    if ps != [] {
      DescribedNames(ds, ps[..|ps| - 1], n);
      assert forall p :: p in ps <==> p in ps[..|ps| - 1] || p == ps[|ps| - 1];
    } else if ds != [] {
      DescribedNames(ds[..|ds| - 1], [], n);
      assert forall d :: d in ds <==> d in ds[..|ds| - 1] || d == ds[|ds| - 1];
    }
  }

  /** The default and the description are those of the last definition of the name, whatever overrides it. */
  lemma {:induction false} DescribedAsDefined(ds: seq<ParameterDefinition>, ps: seq<ParameterSpec>, i: nat)
    requires i < |ds| && forall j :: i < j < |ds| ==> ds[j].name != ds[i].name
    ensures ds[i].name in Descriptions(ds, ps)
    ensures
      var described := Descriptions(ds, ps)[ds[i].name];
      described.default == ds[i].default && described.description == ds[i].description
    decreases |ds| + |ps|
  {
    if ps != [] {
      DescribedAsDefined(ds, ps[..|ps| - 1], i);
    } else if i < |ds| - 1 {
      DescribedAsDefined(ds[..|ds| - 1], [], i);
    }
  }

  /** The value is that of the last override of the name, and without one the default. */
  lemma {:induction false} DescribedValue(ds: seq<ParameterDefinition>, ps: seq<ParameterSpec>, n: string, i: nat)
    ensures IsLastNamed(ps, n, i) ==> n in Descriptions(ds, ps) && Descriptions(ds, ps)[n].value == ps[i].value
    ensures (forall p :: p in ps ==> p.name != n) && n in Descriptions(ds, ps) ==>
      Descriptions(ds, ps)[n].value == Descriptions(ds, ps)[n].default
    decreases |ds| + |ps|
  {
    if ps != [] {
      DescribedValue(ds, ps[..|ps| - 1], n, i);
      assert forall p :: p in ps <==> p in ps[..|ps| - 1] || p == ps[|ps| - 1];
    } else if ds != [] {
      DescribedValue(ds[..|ds| - 1], [], n, i);
    }
  }

  /** Without a definition there is neither default nor description. */
  lemma {:induction false} UndefinedIsBare(ds: seq<ParameterDefinition>, ps: seq<ParameterSpec>, n: string)
    requires (forall d :: d in ds ==> d.name != n) && n in Descriptions(ds, ps)
    ensures Descriptions(ds, ps)[n].default == "" && Descriptions(ds, ps)[n].description == ""
    decreases |ds| + |ps|
  {
    if ps != [] {
      if n in Descriptions(ds, ps[..|ps| - 1]) {
        UndefinedIsBare(ds, ps[..|ps| - 1], n);
      }
    } else {
      DescribedNames(ds, [], n);
    }
  }

  /** The secret that all installs share; it may not exist yet, and a new value for it may fail to be generated. */
  class GlobalSecret {
    var stored: Option<Secrets>
    // Whether the sources that values are generated from never fail.
    const reliable: bool

    function Data(): Secrets
      reads this
    {
      DataOf(stored)
    }

    constructor (stored: Option<Secrets>, reliable: bool)
      ensures this.stored == stored && this.reliable == reliable
    {
      this.stored, this.reliable := stored, reliable;
    }

    /**
     * Fetches the secret, creating it empty if it does not exist. Empty data is left out on the way to
     * the cluster and back, so what is fetched then has no map at all; what has just been created has.
     */
    method Fetch() returns (data: Secrets, isNil: bool)
      modifies this
      ensures stored == Some(data) && data == old(Data())
      ensures isNil <==> old(stored) == Some(map[])
    {
      isNil := stored == Some(map[]);
      if stored.None? {
        stored := Some(map[]);
      }
      data := stored.value;
    }
  }

  /** The formats that values can be generated in. */
  predicate KnownFormat(format: string) {
    format == "hex" || format == "rsa"
  }

  /** A fresh secret value; its content is arbitrary, and generation may fail where the sources do. */
  method GenerateSecretValue(generate: GenerateSecret, reliable: bool) returns (r: Result<string, Error>)
    ensures generate.format != "hex" && generate.format != "rsa" <==> r == Err(UnknownFormat(generate.format))
    ensures r.Err? && KnownFormat(generate.format) ==> r.error == GenerationFailed && !reliable
  {
    if generate.format == "hex" || generate.format == "rsa" {
      var works: bool, value: string := *, *;
      r := if works || reliable then Ok(value) else Err(GenerationFailed);
    } else {
      r := Err(UnknownFormat(generate.format));
    }
  }

  /** Everything the items ask for is there or can be generated. */
  ghost predicate CanGenerate(install: string, items: seq<Item>, store: Option<Secrets>) {
    forall it :: it in items && it.Generates() ==>
      SecretKey(install, it.name) in DataOf(store) || (KnownFormat(it.generate.format) && store != Some(map[]))
  }

  class ParameterManager {
    const secret: GlobalSecret
    const installName: string
    const definitions: seq<ParameterDefinition>
    const parameters: seq<ParameterSpec>

    constructor (secret: GlobalSecret, installName: string, definitions: seq<ParameterDefinition>,
                 parameters: seq<ParameterSpec>)
      ensures this.secret == secret && this.installName == installName
      ensures this.definitions == definitions && this.parameters == parameters
    {
      this.secret, this.installName, this.definitions, this.parameters := secret, installName, definitions, parameters;
    }

    /** The stored secret of a parameter, generated and stored on first use. */
    method GetSecretValue(parameter: string, generate: GenerateSecret) returns (r: Result<string, Error>)
      modifies secret
      ensures r.Err? ==> secret.Data() == old(secret.Data()) && SecretKey(installName, parameter) !in old(secret.Data())
      ensures r.Ok? ==> SecretKey(installName, parameter) in secret.Data()
      ensures r.Ok? ==> r.value == secret.Data()[SecretKey(installName, parameter)]
      ensures r.Ok? && SecretKey(installName, parameter) in old(secret.Data()) ==> secret.Data() == old(secret.Data())
      ensures r.Ok? && SecretKey(installName, parameter) !in old(secret.Data()) ==>
        secret.Data() == old(secret.Data())[SecretKey(installName, parameter) := r.value]
      // A secret that is there without data never gets any, and a failed generation leaves one where there was none.
      ensures old(secret.stored) == Some(map[]) ==> r.Err? && secret.stored == Some(map[])
      ensures old(secret.stored).None? && r.Err? ==> secret.stored == Some(map[])
      ensures secret.stored.Some?
      ensures r == Err(NilData) ==> old(secret.stored) == Some(map[])
      ensures secret.reliable && r.Err? ==> !KnownFormat(generate.format) || old(secret.stored) == Some(map[])
    {
      var data, isNil := secret.Fetch();
      var key := SecretKey(installName, parameter);
      if key in data {
        return Ok(data[key]);
      }
      r := GenerateSecretValue(generate, secret.reliable);
      if r.Err? {
        return;
      }
      if isNil {
        return Err(NilData);
      }
      secret.stored := Some(data[key := r.value]);
    }

    /** Enters the next of the items into the map, with its secret generated if need be. */
    method MergeItem(m: map<string, string>, it: Item, ghost items: seq<Item>, ghost i: nat,
                     ghost store: Option<Secrets>)
      returns (r: Result<map<string, string>, Error>)
      requires i < |items| && items[i] == it
      requires MergeResult(installName, items[..i], store, secret.stored, Ok(m))
      requires secret.stored == Some(map[]) ==> store == Some(map[])
      modifies secret
      ensures r.Ok? && secret.stored == Some(map[]) ==> store == Some(map[])
      ensures secret.reliable && CanGenerate(installName, items, store) ==> r.Ok?
      ensures r.Ok? ==> MergeResult(installName, items[..i + 1], store, secret.stored, r)
      ensures r.Err? ==> MergeResult(installName, items, store, secret.stored, r)
    {
      var value := it.plain;
      if it.Generates() {
        var v := GetSecretValue(it.name, it.generate);
        if v.Err? {
          if secret.reliable {
            CannotGenerate(installName, items, i, store, old(secret.stored));
          }
          FailedMerge(installName, items, i, DataOf(store), secret.Data());
          KeptByFailure(items, i, store, old(secret.stored), secret.stored);
          return Err(v.error);
        }
        value := v.value;
      }
      assert items[..i + 1] == items[..i] + [it];
      MergeGoesOn(installName, items[..i], it, DataOf(store), old(secret.Data()), secret.Data(), m);
      KeptOneMore(items[..i], it, store, old(secret.stored), secret.stored);
      r := Ok(m[it.name := value]);
    }

    method GetMergedMap() returns (r: Result<map<string, string>, Error>)
      modifies secret
      ensures MergeResult(installName, Items(definitions, parameters), old(secret.stored), secret.stored, r)
      // It succeeds where all that is missing can be generated and the sources do not fail.
      ensures secret.reliable && CanGenerate(installName, Items(definitions, parameters), old(secret.stored)) ==> r.Ok?
      // With a secret that has no data, a merge succeeds only if it has nothing to generate.
      ensures old(secret.stored) == Some(map[]) && r.Ok? ==>
        forall it :: it in Items(definitions, parameters) ==> !it.Generates()
    {
      ghost var items := Items(definitions, parameters);
      r := MergeDefinitions();
      if r.Ok? {
        assert |items| - |parameters| == |definitions|;
        r := MergeOverrides(r.value, items, old(secret.stored));
      }
      if old(secret.stored) == Some(map[]) {
        NoDataNoSecrets(installName, items, secret.stored, r);
      }
    }

    /** The defaults, or the generated secrets in their place. */
    method MergeDefinitions() returns (r: Result<map<string, string>, Error>)
      modifies secret
      ensures
        var items := Items(definitions, parameters);
        MergeResult(installName, if r.Ok? then items[..|definitions|] else items, old(secret.stored), secret.stored, r)
      ensures r.Ok? && secret.stored == Some(map[]) ==> old(secret.stored) == Some(map[])
      ensures secret.reliable && CanGenerate(installName, Items(definitions, parameters), old(secret.stored)) ==> r.Ok?
    {
      ghost var items := Items(definitions, parameters);
      var m: map<string, string> := map[];
      for i := 0 to |definitions|
        invariant MergeResult(installName, items[..i], old(secret.stored), secret.stored, Ok(m))
        invariant secret.stored == Some(map[]) ==> old(secret.stored) == Some(map[])
      {
        r := MergeItem(m, DefinitionItem(definitions[i]), items, i, old(secret.stored));
        if r.Err? {
          return;
        }
        m := r.value;
      }
      r := Ok(m);
    }

    /** The overrides, entered over what is there. */
    method MergeOverrides(defaults: map<string, string>, ghost items: seq<Item>, ghost store: Option<Secrets>)
      returns (r: Result<map<string, string>, Error>)
      requires |parameters| <= |items|
      requires forall i :: 0 <= i < |parameters| ==> items[|items| - |parameters| + i] == OverrideItem(parameters[i])
      requires MergeResult(installName, items[..|items| - |parameters|], store, secret.stored, Ok(defaults))
      requires secret.stored == Some(map[]) ==> store == Some(map[])
      modifies secret
      ensures secret.reliable && CanGenerate(installName, items, store) ==> r.Ok?
      ensures MergeResult(installName, items, store, secret.stored, r)
    {
      ghost var n := |items| - |parameters|;
      var m := defaults;
      for i := 0 to |parameters|
        invariant MergeResult(installName, items[..n + i], store, secret.stored, Ok(m))
        invariant secret.stored == Some(map[]) ==> store == Some(map[])
      {
        r := MergeItem(m, OverrideItem(parameters[i]), items, n + i, store);
        if r.Err? {
          return;
        }
        m := r.value;
      }
      assert items[..|items|] == items;
      r := Ok(m);
    }

    /** The loops copy the parameters they walk, so a clash changes no value but stops all further additions. */
    method MergeAdditionalParameters(additions: seq<ParameterSpec>) returns (merged: seq<ParameterSpec>)
      ensures merged == WithAdditions(parameters, additions)
    {
      var found := false;
      var added: seq<ParameterSpec> := [];
      ghost var k := FirstClash(parameters, additions);
      for i := 0 to |additions|
        invariant found <==> k < i
        invariant added == NameValues(additions[..if k < i then k else i])
      {
        var addition := additions[i];
        var j := 0;
        while j < |parameters|
          invariant 0 <= j <= |parameters|
          invariant found <==> k < i
          invariant forall p :: p in parameters[..j] ==> p.name != addition.name
        {
          var params := parameters[j];
          if params.name == addition.name {
            params := params.(value := addition.value);
            found := true;
            break;
          }
          j := j + 1;
        }
        if j == |parameters| {
          assert parameters[..j] == parameters;
        } else {
          assert parameters[j] in parameters;
        }
        if !found {
          added := added + [ParameterSpec(addition.name, addition.value, NO_SECRET)];
          assert additions[..i + 1] == additions[..i] + [addition];
        }
      }
      merged := parameters + added;
    }

    /** Required parameters need an override that is not blank; the default does not count. */
    method Validate() returns (error: Option<Error>)
      ensures error.None? <==> forall d :: d in definitions && d.required ==> IsGiven(parameters, d.name)
      ensures error.Some? ==>
        exists d :: d in definitions && d.required &&
          error.value == RequiredNotSet(d.name) && !IsGiven(parameters, d.name)
    {
      var m: map<string, ParameterSpec> := map[];
      for i := 0 to |parameters|
        invariant forall n :: (if n in m then m[n].value else "") == LastValue(parameters[..i], n)
      {
        assert parameters[..i + 1][..i] == parameters[..i];
        m := m[parameters[i].name := parameters[i]];
      }
      assert parameters[..|parameters|] == parameters;
      for i := 0 to |definitions|
        invariant forall d :: d in definitions[..i] && d.required ==> IsGiven(parameters, d.name)
      {
        var definition := definitions[i];
        GivenIff(parameters, definition.name);
        var value := if definition.name in m then m[definition.name].value else "";
        if definition.required && Blank(value) {
          return Some(RequiredNotSet(definition.name));
        }
      }
      assert definitions[..|definitions|] == definitions;
      error := None;
    }

    method GetParameterDesc() returns (m: map<string, Description>)
      ensures m == Descriptions(definitions, parameters)
    {
      m := map[];
      for i := 0 to |definitions|
        invariant m == DescriptionsOfDefinitions(definitions[..i])
      {
        assert definitions[..i + 1][..i] == definitions[..i];
        var d := definitions[i];
        m := m[d.name := Description(d.default, d.default, d.description)];
      }
      assert definitions[..|definitions|] == definitions;
      for i := 0 to |parameters|
        invariant m == Descriptions(definitions, parameters[..i])
      {
        assert parameters[..i + 1][..i] == parameters[..i];
        var desc := if parameters[i].name in m then m[parameters[i].name] else Description("", "", "");
        m := m[parameters[i].name := desc.(value := parameters[i].value)];
      }
      assert parameters[..|parameters|] == parameters;
    }
  }

  /** What getting one item's value does to the secrets: add the one it asks for, if it is missing. */
  ghost predicate Fetched(install: string, it: Item, now: Secrets, after: Secrets) {
    var key := SecretKey(install, it.name);
    if it.Generates() && key !in now then key in after && after == now[key := after[key]] else after == now
  }

  /** Once an item's secret is there, the merge extends to the item. */
  lemma MergeGoesOn(install: string, done: seq<Item>, it: Item, before: Secrets, now: Secrets, after: Secrets,
                    m: map<string, string>)
    requires MergeOutcome(install, done, before, now, Ok(m)) && Fetched(install, it, now, after)
    ensures SecretsPresent(install, done + [it], after)
    ensures MergeOutcome(install, done + [it], before, after, Ok(m[it.name := ItemValue(install, it, after)]))
  {
    MergedIsStable(install, done, now, after);
    MergedOneMore(install, done, it, after);
    GeneratedOneMore(install, done, it, before, now, after);
  }

  lemma MergedOneMore(install: string, done: seq<Item>, it: Item, secrets: Secrets)
    requires SecretsPresent(install, done, secrets)
    requires it.Generates() ==> SecretKey(install, it.name) in secrets
    ensures SecretsPresent(install, done + [it], secrets)
    ensures Merged(install, done + [it], secrets) ==
      Merged(install, done, secrets)[it.name := ItemValue(install, it, secrets)]
  {
    var longer := done + [it];
    assert longer[..|longer| - 1] == done && longer[|longer| - 1] == it;
  }

  lemma GeneratedOneMore(install: string, done: seq<Item>, it: Item, before: Secrets, now: Secrets, after: Secrets)
    requires Generated(install, done, before, now) && Fetched(install, it, now, after)
    ensures Generated(install, done + [it], before, after)
  {
    forall k | k in after && k !in before
      ensures exists x :: x in done + [it] && x.Generates() && k == SecretKey(install, x.name)
    {
      if k in now {
        var x :| x in done && x.Generates() && k == SecretKey(install, x.name);
        assert x in done + [it];
      } else {
        assert it in done + [it];
      }
    }
  }

  lemma KeptOneMore(done: seq<Item>, it: Item, before: Option<Secrets>, now: Option<Secrets>, after: Option<Secrets>)
    requires StoreKept(done, before, now) && StoreKept([it], now, after)
    ensures StoreKept(done + [it], before, after)
  {
    assert forall x :: x in done + [it] <==> x in done || x == it;
    assert it in [it];
  }

  /** When an item's secret cannot be had, the items that are left do not matter for the global secret. */
  lemma KeptByFailure(items: seq<Item>, i: nat, before: Option<Secrets>, now: Option<Secrets>, after: Option<Secrets>)
    requires i < |items| && items[i].Generates() && after.Some?
    requires StoreKept(items[..i], before, now) && StoreKept([items[i]], now, after)
    ensures StoreKept(items, before, after)
  {
    assert items[i] in items;
  }

  /** A secret without data allows only merges that have nothing to generate. */
  lemma NoDataNoSecrets(install: string, items: seq<Item>, after: Option<Secrets>,
                        r: Result<map<string, string>, Error>)
    requires MergeResult(install, items, Some(map[]), after, r)
    ensures after == Some(map[])
    ensures r.Ok? ==> forall it :: it in items ==> !it.Generates()
  {
  }

  /** What cannot be had on the way could not be had before either. */
  lemma CannotGenerate(install: string, items: seq<Item>, i: nat, store: Option<Secrets>, now: Option<Secrets>)
    requires i < |items| && items[i].Generates() && SecretKey(install, items[i].name) !in DataOf(now)
    requires Submap(DataOf(store), DataOf(now)) && (now == Some(map[]) ==> store == Some(map[]))
    requires !KnownFormat(items[i].generate.format) || now == Some(map[])
    ensures !CanGenerate(install, items, store)
  {
    assert items[i] in items;
  }

  /** A merge that fails has generated secrets for a part of the items only. */
  lemma FailedMerge(install: string, items: seq<Item>, i: nat, before: Secrets, after: Secrets)
    requires i < |items| && Generated(install, items[..i], before, after)
    requires items[i].Generates() && SecretKey(install, items[i].name) !in before
    ensures Generated(install, items, before, after) && !SecretsPresent(install, items, before)
  {
    assert items[i] in items && forall it :: it in items[..i] ==> it in items;
  }

  /** Both maps have the same names, and the same values. */
  ghost predicate SameValues(described: map<string, Description>, merged: map<string, string>) {
    described.Keys == merged.Keys && forall n :: n in described ==> described[n].value == merged[n]
  }

  lemma {:induction false} DefaultsAgreeWithMerged(install: string, ds: seq<ParameterDefinition>, secrets: Secrets)
    requires forall it :: it in DefinitionItems(ds) ==> !it.Generates()
    ensures SameValues(DescriptionsOfDefinitions(ds), Merged(install, DefinitionItems(ds), secrets))
  {
    if ds != [] {
      var front, last := ds[..|ds| - 1], DefinitionItem(ds[|ds| - 1]);
      assert DefinitionItems(ds) == DefinitionItems(front) + [last];
      DefaultsAgreeWithMerged(install, front, secrets);
      MergedOneMore(install, DefinitionItems(front), last, secrets);
    }
  }

  /** Describing and merging agree: same names, and same values wherever no secret is generated. */
  lemma {:induction false} DescriptionsAgreeWithMerged(install: string, ds: seq<ParameterDefinition>,
                                                       ps: seq<ParameterSpec>, secrets: Secrets)
    requires forall it :: it in Items(ds, ps) ==> !it.Generates()
    ensures SameValues(Descriptions(ds, ps), Merged(install, Items(ds, ps), secrets))
  {
    if ps == [] {
      assert Items(ds, ps) == DefinitionItems(ds);
      DefaultsAgreeWithMerged(install, ds, secrets);
    } else {
      var front, last := ps[..|ps| - 1], OverrideItem(ps[|ps| - 1]);
      assert Items(ds, ps) == Items(ds, front) + [last];
      DescriptionsAgreeWithMerged(install, ds, front, secrets);
      MergedOneMore(install, Items(ds, front), last, secrets);
    }
  }
}
