/** Bundle sources: a directory of versioned bundles with a "latest" pointer, and a search over several. */
module BundleSource {
  import opened Wrappers
  import opened Api

  const LATEST := "latest"

  datatype Error = NotFound | BadMetadata | CannotStat | BadBundle | WriteFailed

  /** A file by what it decodes to: a bundle with the name and version of its own app.yaml, or metadata. */
  datatype Content =
    | Archive(name: string, version: string, bytes: seq<bv8>)
    | Metadata(latest: string, size: nat)
    | Broken

  /** A bundle in hand: the reference it goes by, and what it holds. */
  datatype BundleFile = BundleFile(ref: BundleRef, content: Content) {
    /** It goes by the name and version inside, as a bundle opened from a file does. */
    predicate Matching() {
      content.Archive? && ref == BundleRef(content.name, content.version)
    }
  }

  type Files = map<string, Content>

  function Filename(ref: BundleRef): string {
    ref.name + "-" + ref.version + ".kb"
  }

  function MetadataFilename(name: string): string {
    name + ".json"
  }

  /** Without a dash in the versions, the file name determines name and version. */
  lemma FilenameIsInjective(a: BundleRef, b: BundleRef)
    requires '-' !in a.version && '-' !in b.version
    requires Filename(a) == Filename(b)
    ensures a == b
  {
    var x, y := Filename(a), Filename(b);
    assert x[|a.name|] == '-' && y[|b.name|] == '-';
    assert |a.name| == |b.name|;
    assert a.name == x[..|a.name|] && b.name == y[..|b.name|];
    assert a.version == x[|a.name| + 1..|x| - 3] && b.version == y[|b.name| + 1..|y| - 3];
  }

  /** With dashes it does not: two bundles can share a file. */
  lemma FilenamesCanMeet()
    ensures Filename(BundleRef("db", "web-1")) == Filename(BundleRef("db-web", "1"))
  {
    assert "db" + "-" + "web-1" + ".kb" == "db-web" + "-" + "1" + ".kb";
  }

  lemma MetadataIsApart(a: string, b: string)
    requires MetadataFilename(a) == MetadataFilename(b)
    ensures a == b
  {
    assert a == MetadataFilename(a)[..|MetadataFilename(a)| - 5];
    assert b == MetadataFilename(b)[..|MetadataFilename(b)| - 5];
  }

  lemma BundlesAreNotMetadata(ref: BundleRef, name: string)
    ensures Filename(ref) != MetadataFilename(name)
  {
    assert Filename(ref)[|Filename(ref)| - 1] == 'b' && MetadataFilename(name)[|MetadataFilename(name)| - 1] == 'n';
  }

  /** Opening a file as a bundle. */
  function OpenBundle(files: Files, filename: string): Result<BundleFile, Error> {
    if filename !in files then Err(CannotStat)
    else match files[filename]
      case Archive(name, version, _) => Ok(BundleFile(BundleRef(name, version), files[filename]))
      case _ => Err(BadBundle)
  }

  /** What a directory answers. A missing file is an error of its own, not "not found". */
  function Answer(files: Files, ref: BundleRef): Result<BundleFile, Error> {
    if ref.version != LATEST then OpenBundle(files, Filename(ref))
    else if MetadataFilename(ref.name) !in files then Err(NotFound)
    else match files[MetadataFilename(ref.name)]
      case Metadata(latest, _) => OpenBundle(files, Filename(BundleRef(ref.name, latest)))
      case _ => Err(BadMetadata)
  }

  /** The version that the reference stands for in the directory, when that is recorded. */
  ghost predicate StandsFor(files: Files, ref: BundleRef, version: string) {
    if ref.version == LATEST
    then
      && MetadataFilename(ref.name) in files
      && exists size :: files[MetadataFilename(ref.name)] == Metadata(version, size)
    else version == ref.version
  }

  /**
   * A bundle is answered exactly if it is what the file of the version holds, and goes by the name and
   * version inside. It is not found exactly if the latest is asked for and there is no metadata.
   */
  lemma AnswerIff(files: Files, ref: BundleRef, b: BundleFile)
    ensures Answer(files, ref) == Ok(b) <==>
      b.Matching() && exists version :: StandsFor(files, ref, version) && Holds(files, BundleRef(ref.name, version), b)
    ensures Answer(files, ref) == Err(NotFound) <==> ref.version == LATEST && MetadataFilename(ref.name) !in files
  {
    if ref.version != LATEST {
      assert BundleRef(ref.name, ref.version) == ref;
    } else if MetadataFilename(ref.name) in files && files[MetadataFilename(ref.name)].Metadata? {
      var metadata := files[MetadataFilename(ref.name)];
      assert metadata == Metadata(metadata.latest, metadata.size);
      assert StandsFor(files, ref, metadata.latest);
    }
  }

  /** The file of the reference holds what the bundle does. */
  predicate Holds(files: Files, ref: BundleRef, b: BundleFile) {
    Filename(ref) in files && files[Filename(ref)] == b.content
  }

  function SizeOf(c: Content): nat {
    if c.Archive? then |c.bytes| else 0
  }

  function AfterPut(files: Files, b: BundleFile): Files {
    files[Filename(b.ref) := b.content][MetadataFilename(b.ref.name) := Metadata(b.ref.version, SizeOf(b.content))]
  }

  function AfterPuts(files: Files, puts: seq<BundleFile>): Files {
    if puts == [] then files
    else AfterPut(AfterPuts(files, puts[..|puts| - 1]), puts[|puts| - 1])
  }

  /** `i` is the last put for which `p` holds. */
  ghost predicate IsLast(puts: seq<BundleFile>, i: nat, p: BundleFile -> bool) {
    i < |puts| && p(puts[i]) && forall j :: i < j < |puts| ==> !p(puts[j])
  }

  lemma {:induction false} FileAfterPuts(files: Files, puts: seq<BundleFile>, filename: string, i: nat)
    requires IsLast(puts, i, (b: BundleFile) => Filename(b.ref) == filename)
    ensures filename in AfterPuts(files, puts) && AfterPuts(files, puts)[filename] == puts[i].content
  {
    var last := puts[|puts| - 1];
    BundlesAreNotMetadata(puts[i].ref, last.ref.name);
    if i < |puts| - 1 {
      FileAfterPuts(files, puts[..|puts| - 1], filename, i);
    }
  }

  lemma {:induction false} MetadataAfterPuts(files: Files, puts: seq<BundleFile>, name: string, i: nat)
    requires IsLast(puts, i, (b: BundleFile) => b.ref.name == name)
    ensures MetadataFilename(name) in AfterPuts(files, puts)
    ensures AfterPuts(files, puts)[MetadataFilename(name)] == Metadata(puts[i].ref.version, SizeOf(puts[i].content))
    ensures puts[i].content.Archive? ==>
      AfterPuts(files, puts)[MetadataFilename(name)] == Metadata(puts[i].ref.version, |puts[i].content.bytes|)
  {
    var last := puts[|puts| - 1];
    BundlesAreNotMetadata(last.ref, name);
    if i < |puts| - 1 {
      if MetadataFilename(last.ref.name) == MetadataFilename(name) {
        MetadataIsApart(last.ref.name, name);
      }
      MetadataAfterPuts(files, puts[..|puts| - 1], name, i);
    }
  }

  /** After any puts, a version is answered with the last put under its file name. */
  lemma AnswerByFilename(files: Files, puts: seq<BundleFile>, ref: BundleRef, i: nat)
    requires forall b :: b in puts ==> b.Matching()
    requires ref.version != LATEST && IsLast(puts, i, (b: BundleFile) => Filename(b.ref) == Filename(ref))
    ensures Answer(AfterPuts(files, puts), ref) == Ok(puts[i])
  {
    FileAfterPuts(files, puts, Filename(ref), i);
    assert puts[i] in puts;
  }

  /** No other put reference shares a file with `ref`. */
  ghost predicate FileIsOwn(puts: seq<BundleFile>, ref: BundleRef) {
    forall b :: b in puts && Filename(b.ref) == Filename(ref) ==> b.ref == ref
  }

  lemma DashFreeFilesAreOwn(puts: seq<BundleFile>, ref: BundleRef)
    requires '-' !in ref.version && forall b :: b in puts ==> '-' !in b.ref.version
    ensures FileIsOwn(puts, ref)
  {
    forall b | b in puts && Filename(b.ref) == Filename(ref) ensures b.ref == ref {
      FilenameIsInjective(b.ref, ref);
    }
  }

  /** The directory is a map from name and version to bundles: a version is answered with its last put. */
  lemma GetReturnsLastPut(files: Files, puts: seq<BundleFile>, ref: BundleRef, i: nat)
    requires forall b :: b in puts ==> b.Matching()
    requires FileIsOwn(puts, ref) && ref.version != LATEST
    requires IsLast(puts, i, (b: BundleFile) => b.ref == ref)
    ensures Answer(AfterPuts(files, puts), ref) == Ok(puts[i])
  {
    forall j | i < j < |puts| ensures Filename(puts[j].ref) != Filename(ref) {
      assert puts[j] in puts;
    }
    AnswerByFilename(files, puts, ref, i);
  }

  /** "latest" is answered with the last put of the name exactly when no later put of another bundle took its file. */
  lemma GetLatestReturnsLastPutIff(files: Files, puts: seq<BundleFile>, name: string, i: nat)
    requires forall b :: b in puts ==> b.Matching()
    requires IsLast(puts, i, (b: BundleFile) => b.ref.name == name)
    ensures Answer(AfterPuts(files, puts), BundleRef(name, LATEST)) == Ok(puts[i]) <==>
      forall j :: i < j < |puts| ==> Filename(puts[j].ref) != Filename(puts[i].ref)
  {
    MetadataAfterPuts(files, puts, name, i);
    assert puts[i] in puts;
    if forall j :: i < j < |puts| ==> Filename(puts[j].ref) != Filename(puts[i].ref) {
      FileAfterPuts(files, puts, Filename(puts[i].ref), i);
    } else {
      var j := LastUnder(puts, Filename(puts[i].ref), i);
      FileAfterPuts(files, puts, Filename(puts[i].ref), j);
      assert puts[j] in puts && puts[j].ref.name != name;
    }
  }

  /** In particular when no other bundle shares its file. */
  lemma GetLatestReturnsLastPut(files: Files, puts: seq<BundleFile>, name: string, i: nat)
    requires forall b :: b in puts ==> b.Matching()
    requires IsLast(puts, i, (b: BundleFile) => b.ref.name == name)
    requires FileIsOwn(puts, puts[i].ref)
    ensures Answer(AfterPuts(files, puts), BundleRef(name, LATEST)) == Ok(puts[i])
  {
    GetLatestReturnsLastPutIff(files, puts, name, i);
    forall j | i < j < |puts| ensures Filename(puts[j].ref) != Filename(puts[i].ref) {
      assert puts[j] in puts && puts[j].ref.name != name;
    }
  }

  /** A version is answered with its last put exactly when no later put of another bundle took its file. */
  lemma GetReturnsLastPutIff(files: Files, puts: seq<BundleFile>, ref: BundleRef, i: nat)
    requires forall b :: b in puts ==> b.Matching()
    requires ref.version != LATEST && IsLast(puts, i, (b: BundleFile) => b.ref == ref)
    ensures Answer(AfterPuts(files, puts), ref) == Ok(puts[i]) <==>
      forall j :: i < j < |puts| ==> Filename(puts[j].ref) != Filename(ref)
  {
    if forall j :: i < j < |puts| ==> Filename(puts[j].ref) != Filename(ref) {
      AnswerByFilename(files, puts, ref, i);
    } else {
      var j := LastUnder(puts, Filename(ref), i);
      AnswerByFilename(files, puts, ref, j);
      assert puts[j].ref != ref;
    }
  }

  lemma {:induction false} LastUnder(puts: seq<BundleFile>, filename: string, i: nat) returns (j: nat)
    requires i < |puts| && exists k :: i < k < |puts| && Filename(puts[k].ref) == filename
    ensures i < j && IsLast(puts, j, (b: BundleFile) => Filename(b.ref) == filename)
  {
    j := |puts| - 1;
    while Filename(puts[j].ref) != filename
      decreases j
      invariant i < j < |puts|
      invariant forall k :: j < k < |puts| ==> Filename(puts[k].ref) != filename
    {
      j := j - 1;
    }
  }

  /** A put of one name leaves what is asked of other names alone, if its file is not theirs. */
  lemma PutLeavesOthers(files: Files, b: BundleFile, ref: BundleRef)
    requires ref.version != LATEST && Filename(ref) != Filename(b.ref)
    ensures Answer(AfterPut(files, b), ref) == Answer(files, ref)
  {
    BundlesAreNotMetadata(ref, b.ref.name);
  }

  /** A failing put leaves the file of the bundle as it was, broken or complete, and breaks the metadata only then. */
  ghost predicate PartlyPut(before: Files, b: BundleFile, after: Files) {
    var file, metadata := Filename(b.ref), MetadataFilename(b.ref.name);
    || after == before
    || after == before[file := Broken]
    || after == before[file := b.content]
    || after == before[file := b.content][metadata := Broken]
  }

  class DirectorySource {
    var files: Files
    // Whether writing never fails.
    const reliable: bool

    constructor (files: Files, reliable: bool)
      ensures this.files == files && this.reliable == reliable
    {
      this.files, this.reliable := files, reliable;
    }

    method Get(bundleRef: BundleRef) returns (r: Result<BundleFile, Error>)
      ensures r == Answer(files, bundleRef)
    {
      var ref := bundleRef;
      if ref.version == LATEST {
        if MetadataFilename(ref.name) !in files {
          return Err(NotFound);
        }
        var metadata := files[MetadataFilename(ref.name)];
        if !metadata.Metadata? {
          return Err(BadMetadata);
        }
        ref := ref.(version := metadata.latest);
      }
      r := OpenBundle(files, Filename(ref));
    }

    /** Writes the bundle, then its metadata. A failed write stops there and touches no other file. */
    method Put(bundleFile: BundleFile) returns (error: Option<Error>)
      modifies this
      ensures error.None? ==> files == AfterPut(old(files), bundleFile)
      ensures error.Some? ==> error.value == WriteFailed && !reliable
      ensures error.Some? ==> PartlyPut(old(files), bundleFile, files)
      ensures forall f :: f != Filename(bundleFile.ref) && f != MetadataFilename(bundleFile.ref.name) ==>
        (f in files <==> f in old(files)) && (f in files ==> files[f] == old(files)[f])
    {
      var fullPath := Filename(bundleFile.ref);
      var created: bool, copied: bool, closed: bool, recorded: bool := *, *, *, *;
      if !created && !reliable {
        return Some(WriteFailed);
      }
      files := files[fullPath := Broken];
      if !copied && !reliable {
        return Some(WriteFailed);
      }
      files := files[fullPath := bundleFile.content];
      if !closed && !reliable {
        return Some(WriteFailed);
      }
      if !recorded && !reliable {
        var truncated: bool := *;
        if truncated {
          files := files[MetadataFilename(bundleFile.ref.name) := Broken];
        }
        return Some(WriteFailed);
      }
      var metadata := Metadata(bundleFile.ref.version, SizeOf(bundleFile.content));
      files := files[MetadataFilename(bundleFile.ref.name) := metadata];
      error := None;
    }
  }

  /** The first answer other than "not found". */
  function FirstAnswer(sources: seq<Files>, ref: BundleRef): Result<BundleFile, Error> {
    if sources == [] then Err(NotFound)
    else if Answer(sources[0], ref) == Err(NotFound) then FirstAnswer(sources[1..], ref)
    else Answer(sources[0], ref)
  }

  /** What the directories of several sources hold. */
  function FilesOf(sources: seq<DirectorySource>): seq<Files>
    reads sources
  {
    seq(|sources|, i requires 0 <= i < |sources| reads sources => sources[i].files)
  }

  class MultiSource {
    const sources: seq<DirectorySource>

    constructor (sources: seq<DirectorySource>)
      ensures this.sources == sources
    {
      this.sources := sources;
    }

    method Get(bundleRef: BundleRef) returns (r: Result<BundleFile, Error>)
      ensures r == FirstAnswer(FilesOf(sources), bundleRef)
    {
      ghost var all := FilesOf(sources);
      for i := 0 to |sources|
        invariant FirstAnswer(all, bundleRef) == FirstAnswer(all[i..], bundleRef)
      {
        var answer := sources[i].Get(bundleRef);
        assert all[i..][1..] == all[i + 1..];
        if answer != Err(NotFound) {
          return answer;
        }
      }
      r := Err(NotFound);
    }

    method Put(bundleFile: BundleFile) returns (implemented: bool)
      ensures !implemented
    {
      implemented := false;
    }
  }

  /** The answer of several sources is that of the first that does not say "not found", whatever it is. */
  lemma {:induction false} FirstOtherAnswer(sources: seq<Files>, ref: BundleRef, i: nat)
    requires i <= |sources| && forall j :: 0 <= j < i ==> Answer(sources[j], ref) == Err(NotFound)
    ensures i < |sources| && Answer(sources[i], ref) != Err(NotFound) ==>
      FirstAnswer(sources, ref) == Answer(sources[i], ref)
    ensures i == |sources| ==> FirstAnswer(sources, ref) == Err(NotFound)
    decreases i
  {
    if i > 0 {
      assert forall j :: 0 <= j < i - 1 ==> sources[1..][j] == sources[j + 1];
      FirstOtherAnswer(sources[1..], ref, i - 1);
    }
  }

  /** A version other than "latest" is looked for in the first source only. */
  lemma ExplicitVersionStopsAtFirstSource(sources: seq<Files>, ref: BundleRef)
    requires ref.version != LATEST
    ensures sources != [] ==> FirstAnswer(sources, ref) == Answer(sources[0], ref)
    ensures FirstAnswer(sources, ref).Ok? <==> sources != [] && Answer(sources[0], ref).Ok?
  {
  }

  /**
   * A search gets past a source only if the latest version is asked for and the source has no metadata
   * for the name; it gives the answer of the first source that has the bundle exactly when it gets past
   * all before that one.
   */
  lemma SearchFindsIff(sources: seq<Files>, ref: BundleRef, i: nat)
    requires i < |sources| && Answer(sources[i], ref).Ok?
    requires forall j :: 0 <= j < i ==> Answer(sources[j], ref).Err?
    ensures FirstAnswer(sources, ref) == Answer(sources[i], ref) <==>
      forall j :: 0 <= j < i ==> ref.version == LATEST && MetadataFilename(ref.name) !in sources[j]
  {
    if i > 0 {
      if Answer(sources[0], ref) == Err(NotFound) {
        SearchFindsIff(sources[1..], ref, i - 1);
        assert sources[1..][i - 1] == sources[i];
        assert forall j :: 0 <= j < i - 1 ==> sources[1..][j] == sources[j + 1];
      } else {
        assert !(ref.version == LATEST && MetadataFilename(ref.name) !in sources[0]);
      }
    }
  }
}
