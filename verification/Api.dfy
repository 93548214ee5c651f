/** The resources that kube-bundler keeps in the cluster, and the names it derives for them. */
module Api {

  datatype GenerateSecret = GenerateSecret(format: string, bytes: int, bits: int)

  const NO_SECRET := GenerateSecret("", 0, 0)

  datatype ParameterSpec = ParameterSpec(name: string, value: string, generate: GenerateSecret)

  datatype ParameterDefinition =
    ParameterDefinition(name: string, default: string, description: string, required: bool, generate: GenerateSecret)

  datatype Require = Require(name: string, suffix: string, parameters: seq<ParameterSpec>)

  datatype Resource = Resource(name: string, category: string, kind: string)

  datatype Application = Application(
    name: string,
    version: string,
    provided: seq<string>,
    required: seq<Require>,
    definitions: seq<ParameterDefinition>,
    resources: seq<Resource>)

  datatype Install = Install(
    application: string,
    version: string,
    suffix: string,
    flavor: string,
    registry: string,
    parameters: seq<ParameterSpec>)

  datatype BundleRef = BundleRef(name: string, version: string)

  datatype Bundle = Bundle(name: string, version: string, parameters: seq<ParameterSpec>, required: seq<Require>)

  /** The metadata name of an application: its own name and version, joined. */
  function ApplicationKey(name: string, version: string): string {
    name + "-" + version
  }

  function GetResourceName(name: string, suffix: string): string {
    if suffix == "" then name else name + "-" + suffix
  }

  /** The installs of an application that is installed with each of the suffixes. */
  function SuffixedNames(name: string, suffixes: set<string>): set<string> {
    set s | s in suffixes :: GetResourceName(name, s)
  }

  function RequiredName(r: Require): string {
    GetResourceName(r.name, r.suffix)
  }

  /** One application's installs never share a name: the name determines the suffix. */
  lemma SuffixesStayApart(name: string, s: string, t: string)
    requires GetResourceName(name, s) == GetResourceName(name, t)
    ensures s == t
  {
    if s != "" && t != "" {
      assert s == (name + "-" + s)[|name| + 1..];
      assert t == (name + "-" + t)[|name| + 1..];
    } else {
      assert |GetResourceName(name, s)| == if s == "" then |name| else |name| + 1 + |s|;
    }
  }

  /** Across applications the name does not determine the pair it came from. */
  lemma NamesOfTwoApplicationsCanMeet()
    ensures GetResourceName("db", "web-a") == GetResourceName("db-web", "a")
  {
    assert "db" + "-" + "web-a" == "db-web" + "-" + "a";
  }
}
