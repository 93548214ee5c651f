/** Extraction of a tar archive into a directory tree. */
module TarExtract {
  import opened Wrappers

  /** A cleaned absolute path, by components; the empty one is the root. */
  type Path = seq<string>

  datatype Node = Dir | File(bytes: seq<bv8>)

  type Tree = map<Path, Node>

  datatype Kind = Directory | Regular | Other

  /** A header with the path it joins to, and the data the reader delivers for it. */
  datatype RawEntry = Entry(path: Path, kind: Kind, size: nat, data: seq<bv8>)

  /** The reader never delivers more than the header announces; it delivers less if the archive is cut. */
  type Entry = e: RawEntry | |e.data| <= e.size witness Entry([], Other, 0, [])

  /** The entries that can be read, and whether the archive ends properly after them. */
  datatype Archive = Archive(entries: seq<Entry>, intact: bool)

  datatype Error =
    | BadArchive | DirFailed(path: Path) | StatFailed(path: Path) | CreateFailed(path: Path) | CopyFailed(path: Path)

  /** What stat reports as the size of a directory; it may depend on anything in the tree. */
  type DirSize = (Tree, Path) -> nat

  function Parent(p: Path): Path
    requires p != []
  {
    p[..|p| - 1]
  }

  ghost predicate LiesInDir(t: Tree, p: Path) {
    p != [] ==> Parent(p) in t && t[Parent(p)].Dir?
  }

  /** Everything lies in a directory, up to the root. */
  ghost predicate IsTree(t: Tree) {
    && [] in t && t[[]].Dir?
    && forall p {:trigger LiesInDir(t, p)} :: p in t ==> LiesInDir(t, p)
  }

  /** Some proper prefix of the path is a file. */
  predicate BehindFile(t: Tree, p: Path) {
    exists k :: 0 <= k < |p| && p[..k] in t && t[p[..k]].File?
  }

  /** Creates a directory and the parents it lacks; nothing if a file is in the way. */
  function MkdirAll(t: Tree, p: Path): Option<Tree>
    decreases |p|
  {
    if p in t then (if t[p].Dir? then Some(t) else None)
    else if p == [] then Some(t[p := Dir])
    else
      match MkdirAll(t, Parent(p))
      case None => None
      case Some(parents) => Some(parents[p := Dir])
  }

  function SizeAt(t: Tree, p: Path, dirSize: DirSize): nat
    requires p in t
  {
    match t[p]
    case File(bytes) => |bytes|
    case Dir => dirSize(t, p)
  }

  /** What one entry does. A file of another size is in the way of its entry, and nothing is overwritten. */
  function Extracted(t: Tree, e: Entry, dirSize: DirSize): (Tree, Option<Error>) {
    match e.kind
    case Directory =>
      (match MkdirAll(t, e.path)
       case None => (t, Some(DirFailed(e.path)))
       case Some(t') => (t', None))
    case Regular =>
      if e.path in t then (t, if SizeAt(t, e.path, dirSize) == e.size then None else Some(CopyFailed(e.path)))
      else if BehindFile(t, e.path) then (t, Some(StatFailed(e.path)))
      else if e.path == [] || Parent(e.path) !in t then (t, Some(CreateFailed(e.path)))
      else (t[e.path := File(e.data)], if |e.data| < e.size then Some(CopyFailed(e.path)) else None)
    case Other => (t, None)
  }

  /** Entry after entry, up to the first error. */
  function ExtractedAll(t: Tree, es: seq<Entry>, dirSize: DirSize): (Tree, Option<Error>)
    decreases |es|
  {
    if es == [] then (t, None)
    else
      var (t', error) := Extracted(t, es[0], dirSize);
      if error.Some? then (t', error) else ExtractedAll(t', es[1..], dirSize)
  }

  function Outcome(t: Tree, a: Archive, dirSize: DirSize): (Tree, Option<Error>) {
    var (t', error) := ExtractedAll(t, a.entries, dirSize);
    (t', if error.None? && !a.intact then Some(BadArchive) else error)
  }

  /** Everything in `t` is in `t'`, as it was. */
  ghost predicate Keeps(t: Tree, t': Tree) {
    forall p :: p in t ==> p in t' && t'[p] == t[p]
  }

  ghost predicate IsPrefix(p: Path, q: Path) {
    |p| <= |q| && q[..|p|] == p
  }

  lemma {:induction false} MkdirAllOnlyAddsParents(t: Tree, p: Path)
    requires IsTree(t)
    ensures MkdirAll(t, p).Some? ==>
      var t' := MkdirAll(t, p).value;
      && IsTree(t') && Keeps(t, t') && p in t' && t'[p].Dir?
      && forall q :: q in t' && q !in t ==> t'[q].Dir? && IsPrefix(q, p)
    decreases |p|
  {
    if p !in t {
      MkdirAllOnlyAddsParents(t, Parent(p));
      if MkdirAll(t, p).Some? {
        var parents, t' := MkdirAll(t, Parent(p)).value, MkdirAll(t, p).value;
        AddedIsTree(parents, p, Dir);
        forall q | q in t' && q !in t ensures t'[q].Dir? && IsPrefix(q, p) {
          if q != p {
            assert IsPrefix(q, Parent(p));
            assert Parent(p)[..|q|] == p[..|q|];
          }
        }
      }
    }
  }

  /** What is on the way to a directory is a directory. */
  lemma {:induction false} PrefixesAreDirs(t: Tree, p: Path, q: Path)
    requires IsTree(t) && p in t && t[p].Dir? && IsPrefix(q, p)
    ensures q in t && t[q].Dir?
    decreases |p|
  {
    if q != p {
      assert LiesInDir(t, p);
      assert Parent(p)[..|q|] == q;
      PrefixesAreDirs(t, Parent(p), q);
    }
  }

  /** A file stands at the path or on the way to it. */
  ghost predicate FileOnPath(t: Tree, p: Path) {
    exists k :: 0 <= k <= |p| && p[..k] in t && t[p[..k]].File?
  }

  lemma FileOnParent(t: Tree, p: Path)
    requires p != []
    ensures FileOnPath(t, p) <==> FileOnPath(t, Parent(p)) || (p in t && t[p].File?)
  {
    if FileOnPath(t, p) {
      var k :| 0 <= k <= |p| && p[..k] in t && t[p[..k]].File?;
      if k < |p| {
        assert Parent(p)[..k] == p[..k];
      } else {
        assert p[..k] == p;
      }
    }
    if FileOnPath(t, Parent(p)) {
      var k :| 0 <= k <= |Parent(p)| && Parent(p)[..k] in t && t[Parent(p)[..k]].File?;
      assert p[..k] == Parent(p)[..k];
    }
    if p in t && t[p].File? {
      assert p[..|p|] == p;
    }
  }

  /** Where a directory stands, only directories stand on the way to it. */
  lemma {:induction false} NoFileAboveDir(t: Tree, p: Path)
    requires IsTree(t) && p in t && t[p].Dir?
    ensures !FileOnPath(t, p)
    decreases |p|
  {
    if p != [] {
      assert LiesInDir(t, p);
      NoFileAboveDir(t, Parent(p));
      FileOnParent(t, p);
    }
  }

  /**
   * Making a directory fails if and only if a file stands at its path or on the way to it, and if it
   * succeeds, the directory and all that were missing on the way to it are there.
   */
  lemma {:induction false} MkdirAllIff(t: Tree, p: Path)
    requires IsTree(t)
    ensures MkdirAll(t, p).None? <==> FileOnPath(t, p)
    ensures MkdirAll(t, p).Some? ==> forall q :: q in MkdirAll(t, p).value <==> q in t || IsPrefix(q, p)
    decreases |p|
  {
    if p in t {
      if t[p].Dir? {
        NoFileAboveDir(t, p);
        forall q | IsPrefix(q, p) ensures q in t {
          PrefixesAreDirs(t, p, q);
        }
      } else {
        assert p[..|p|] == p;
      }
    } else {
      MkdirAllIff(t, Parent(p));
      FileOnParent(t, p);
      if MkdirAll(t, p).Some? {
        forall q ensures IsPrefix(q, p) <==> q == p || IsPrefix(q, Parent(p)) {
          PrefixOfParent(q, p);
        }
      }
    }
  }

  lemma PrefixOfParent(q: Path, p: Path)
    requires p != []
    ensures IsPrefix(q, p) <==> q == p || IsPrefix(q, Parent(p))
  {
    if |q| < |p| {
      assert Parent(p)[..|q|] == p[..|q|];
    }
  }

  /** What is put into a directory that is there leaves a tree a tree. */
  lemma AddedIsTree(t: Tree, p: Path, node: Node)
    requires IsTree(t) && p !in t && LiesInDir(t, p)
    ensures IsTree(t[p := node])
  {
    var t' := t[p := node];
    forall q | q in t' ensures LiesInDir(t', q) {
      assert LiesInDir(t, q);
    }
  }

  /** What one entry leaves behind. */
  lemma EntryOnlyAdds(t: Tree, e: Entry, dirSize: DirSize)
    requires IsTree(t)
    ensures var t' := Extracted(t, e, dirSize).0;
      && IsTree(t') && Keeps(t, t')
      && forall q :: q in t' && q !in t ==>
        if t'[q].Dir? then e.kind.Directory? && IsPrefix(q, e.path)
        else e.kind.Regular? && q == e.path && t'[q] == File(e.data)
  {
    if e.kind.Directory? {
      MkdirAllOnlyAddsParents(t, e.path);
    } else if e.kind.Regular? && e.path !in t && !BehindFile(t, e.path) && e.path != [] && Parent(e.path) in t {
      assert t[e.path[..|e.path| - 1]].Dir?;
      AddedIsTree(t, e.path, File(e.data));
    }
  }

  /** An entry has found or made what it asks for. */
  ghost predicate Satisfied(t: Tree, e: Entry) {
    && (e.kind.Directory? ==> e.path in t && t[e.path].Dir?)
    && (e.kind.Regular? ==> e.path in t && (t[e.path].File? ==> |t[e.path].bytes| == e.size))
  }

  /** What an entry needs to succeed, by its kind. */
  ghost predicate CanExtract(t: Tree, e: Entry, dirSize: DirSize) {
    match e.kind
    case Directory => !FileOnPath(t, e.path)
    case Regular =>
      if e.path in t then
        match t[e.path]
        case File(bytes) => |bytes| == e.size
        case Dir => dirSize(t, e.path) == e.size
      else e.path != [] && Parent(e.path) in t && t[Parent(e.path)].Dir? && |e.data| == e.size
    case Other => true
  }

  /** An entry succeeds if and only if that is the case, and then is there. */
  lemma EntrySucceedsIff(t: Tree, e: Entry, dirSize: DirSize)
    requires IsTree(t)
    ensures Extracted(t, e, dirSize).1.None? <==> CanExtract(t, e, dirSize)
    ensures Extracted(t, e, dirSize).1.None? ==> Satisfied(Extracted(t, e, dirSize).0, e)
  {
    MkdirAllIff(t, e.path);
    MkdirAllOnlyAddsParents(t, e.path);
    if e.kind.Regular? && e.path !in t {
      if e.path != [] && Parent(e.path) in t && t[Parent(e.path)].Dir? {
        NoFileAboveDir(t, Parent(e.path));
      }
      if BehindFile(t, e.path) {
        var k :| 0 <= k < |e.path| && e.path[..k] in t && t[e.path[..k]].File?;
        assert Parent(e.path)[..k] == e.path[..k];
        assert FileOnPath(t, Parent(e.path));
      } else if e.path != [] {
        assert e.path[..|e.path| - 1] == Parent(e.path);
      }
    }
  }

  /** The tree left by the entries before the one at `i`. */
  ghost function TreeBefore(t: Tree, es: seq<Entry>, i: nat, dirSize: DirSize): Tree
    requires i <= |es|
  {
    ExtractedAll(t, es[..i], dirSize).0
  }

  /** The entry at `i` cannot be extracted, and all before it can. */
  ghost predicate IsFirstFailure(t: Tree, es: seq<Entry>, i: nat, dirSize: DirSize) {
    && i < |es| && !CanExtract(TreeBefore(t, es, i, dirSize), es[i], dirSize)
    && forall j :: 0 <= j < i ==> CanExtract(TreeBefore(t, es, j, dirSize), es[j], dirSize)
  }

  lemma TreeBeforeRest(t: Tree, es: seq<Entry>, i: nat, dirSize: DirSize)
    requires i < |es| && Extracted(t, es[0], dirSize).1.None?
    ensures TreeBefore(t, es, i + 1, dirSize) == TreeBefore(Extracted(t, es[0], dirSize).0, es[1..], i, dirSize)
  {
    assert es[..i + 1][0] == es[0] && es[..i + 1][1..] == es[1..][..i];
  }

  lemma {:induction false} AllSucceedIff(t: Tree, es: seq<Entry>, dirSize: DirSize)
    requires IsTree(t)
    ensures ExtractedAll(t, es, dirSize).1.None? <==>
      forall i :: 0 <= i < |es| ==> CanExtract(TreeBefore(t, es, i, dirSize), es[i], dirSize)
    decreases |es|
  {
    if es != [] {
      var (t', error) := Extracted(t, es[0], dirSize);
      assert es[..0] == [];
      EntrySucceedsIff(t, es[0], dirSize);
      EntryOnlyAdds(t, es[0], dirSize);
      if error.None? {
        var rest := es[1..];
        AllSucceedIff(t', rest, dirSize);
        forall i | 0 <= i < |rest| ensures TreeBefore(t, es, i + 1, dirSize) == TreeBefore(t', rest, i, dirSize) {
          TreeBeforeRest(t, es, i, dirSize);
        }
        assert forall i :: 0 < i < |es| ==> es[i] == rest[i - 1];
      }
    }
  }

  /** The first entry that cannot be extracted ends the extraction: its error and its tree are the outcome. */
  lemma {:induction false} EndsAtFirstFailure(t: Tree, es: seq<Entry>, i: nat, dirSize: DirSize)
    requires IsTree(t) && IsFirstFailure(t, es, i, dirSize)
    ensures ExtractedAll(t, es, dirSize) == Extracted(TreeBefore(t, es, i, dirSize), es[i], dirSize)
    decreases |es|
  {
    assert es[..0] == [];
    EntrySucceedsIff(t, es[0], dirSize);
    EntryOnlyAdds(t, es[0], dirSize);
    if i > 0 {
      var t', rest := Extracted(t, es[0], dirSize).0, es[1..];
      assert CanExtract(TreeBefore(t, es, 0, dirSize), es[0], dirSize);
      forall j | 0 <= j < i
        ensures CanExtract(TreeBefore(t', rest, j, dirSize), rest[j], dirSize) <==> j < i - 1
        ensures TreeBefore(t', rest, j, dirSize) == TreeBefore(t, es, j + 1, dirSize)
      {
        TreeBeforeRest(t, es, j, dirSize);
        assert rest[j] == es[j + 1];
      }
      EndsAtFirstFailure(t', rest, i - 1, dirSize);
    }
  }

  /**
   * Extraction succeeds if and only if the archive is intact and each entry can be extracted onto the
   * tree left by those before it.
   */
  lemma ExtractionSucceedsIff(t: Tree, a: Archive, dirSize: DirSize)
    requires IsTree(t)
    ensures Outcome(t, a, dirSize).1.None? <==>
      && a.intact
      && forall i :: 0 <= i < |a.entries| ==>
        CanExtract(TreeBefore(t, a.entries, i, dirSize), a.entries[i], dirSize)
  {
    AllSucceedIff(t, a.entries, dirSize);
  }

  /** Extraction keeps everything that was there, whether it succeeds or not. */
  lemma {:induction false} ExtractionKeeps(t: Tree, es: seq<Entry>, dirSize: DirSize)
    requires IsTree(t)
    ensures IsTree(ExtractedAll(t, es, dirSize).0)
    ensures Keeps(t, ExtractedAll(t, es, dirSize).0)
    decreases |es|
  {
    if es != [] {
      EntryOnlyAdds(t, es[0], dirSize);
      var (t', error) := Extracted(t, es[0], dirSize);
      if error.None? {
        ExtractionKeeps(t', es[1..], dirSize);
      }
    }
  }

  /** A directory in the result was there before, or lies on the path of a directory entry. */
  lemma {:induction false} WhereDirsComeFrom(t: Tree, es: seq<Entry>, dirSize: DirSize, p: Path)
    requires IsTree(t)
    requires p in ExtractedAll(t, es, dirSize).0 && ExtractedAll(t, es, dirSize).0[p].Dir?
    ensures (p in t && t[p].Dir?) || exists e :: e in es && e.kind.Directory? && IsPrefix(p, e.path)
    decreases |es|
  {
    if es != [] {
      EntryOnlyAdds(t, es[0], dirSize);
      var (t', error) := Extracted(t, es[0], dirSize);
      if error.None? {
        WhereDirsComeFrom(t', es[1..], dirSize, p);
      }
      if !(p in t && t[p].Dir?) && !(p in t' && t'[p].Dir?) {
        var e :| e in es[1..] && e.kind.Directory? && IsPrefix(p, e.path);
        assert e in es;
      }
    }
  }

  /**
   * On success every entry is satisfied; in particular a regular one's path is taken, and by a file of
   * its size unless by a directory.
   */
  lemma {:induction false} SuccessSatisfies(t: Tree, es: seq<Entry>, dirSize: DirSize)
    requires IsTree(t) && ExtractedAll(t, es, dirSize).1.None?
    ensures forall e :: e in es ==> Satisfied(ExtractedAll(t, es, dirSize).0, e)
    decreases |es|
  {
    if es != [] {
      var t' := Extracted(t, es[0], dirSize).0;
      EntryOnlyAdds(t, es[0], dirSize);
      MkdirAllOnlyAddsParents(t, es[0].path);
      assert Satisfied(t', es[0]);
      SuccessSatisfies(t', es[1..], dirSize);
      ExtractionKeeps(t', es[1..], dirSize);
      assert forall e :: e in es <==> e == es[0] || e in es[1..];
    }
  }

  /** No regular entry's path is a directory beforehand, or on the path of a directory entry. */
  ghost predicate FilesApartFromDirs(t: Tree, es: seq<Entry>) {
    forall e :: e in es && e.kind.Regular? ==>
      && !(e.path in t && t[e.path].Dir?)
      && forall d :: d in es && d.kind.Directory? ==> !IsPrefix(e.path, d.path)
  }

  /** Every regular entry's path holds a file of exactly the header's size. */
  ghost predicate ExactSizes(t: Tree, es: seq<Entry>) {
    forall e :: e in es && e.kind.Regular? ==> e.path in t && t[e.path].File? && |t[e.path].bytes| == e.size
  }

  /** Success means exact sizes if and only if the files are apart from the directories beforehand. */
  lemma SuccessMeansExactSizes(t: Tree, es: seq<Entry>, dirSize: DirSize)
    requires IsTree(t) && ExtractedAll(t, es, dirSize).1.None?
    ensures ExactSizes(ExtractedAll(t, es, dirSize).0, es) <==> FilesApartFromDirs(t, es)
  {
    var t' := ExtractedAll(t, es, dirSize).0;
    SuccessSatisfies(t, es, dirSize);
    ExtractionKeeps(t, es, dirSize);
    forall e | e in es && e.kind.Regular?
      ensures t'[e.path].Dir? <==>
        (e.path in t && t[e.path].Dir?) || exists d :: d in es && d.kind.Directory? && IsPrefix(e.path, d.path)
    {
      assert Satisfied(t', e);
      if t'[e.path].Dir? {
        WhereDirsComeFrom(t, es, dirSize, e.path);
      } else if d :| d in es && d.kind.Directory? && IsPrefix(e.path, d.path) {
        assert Satisfied(t', d);
        PrefixesAreDirs(t', d.path, e.path);
      }
    }
    assert forall e :: e in es && e.kind.Regular? ==> Satisfied(t', e);
  }

  /** A file that is new holds the data of the first regular entry for its path, unless a directory was made there. */
  lemma {:induction false} NewFilesHoldTheirData(t: Tree, es: seq<Entry>, dirSize: DirSize, i: nat)
    requires IsTree(t) && i < |es| && es[i].kind.Regular? && es[i].path !in t
    requires forall j :: 0 <= j < i ==> !(es[j].kind.Regular? && es[j].path == es[i].path)
    requires ExtractedAll(t, es, dirSize).1.None?
    ensures
      var t' := ExtractedAll(t, es, dirSize).0;
      es[i].path in t' && (t'[es[i].path] == File(es[i].data) || t'[es[i].path].Dir?)
    decreases |es|
  {
    var t1 := Extracted(t, es[0], dirSize).0;
    EntryOnlyAdds(t, es[0], dirSize);
    ExtractionKeeps(t1, es[1..], dirSize);
    var rest := es[1..];
    if i == 0 {
      assert t1[es[0].path] == File(es[0].data);
    } else if es[i].path in t1 {
      assert !(es[0].kind.Regular? && es[0].path == es[i].path);
    } else {
      assert rest[i - 1] == es[i];
      forall j | 0 <= j < i - 1 ensures !(rest[j].kind.Regular? && rest[j].path == es[i].path) {
        assert rest[j] == es[j + 1];
      }
      NewFilesHoldTheirData(t1, rest, dirSize, i - 1);
    }
  }

  /** Where every entry is satisfied, extraction changes nothing, and succeeds if all sizes are as announced. */
  lemma {:induction false} NothingLeftToDo(t: Tree, es: seq<Entry>, dirSize: DirSize)
    requires forall e :: e in es ==> Satisfied(t, e)
    ensures ExtractedAll(t, es, dirSize).0 == t
    ensures ExtractedAll(t, es, dirSize).1.None? <==>
      forall e :: e in es && e.kind.Regular? ==> e.path in t && SizeAt(t, e.path, dirSize) == e.size
    decreases |es|
  {
    if es != [] {
      assert Satisfied(t, es[0]);
      NothingLeftToDo(t, es[1..], dirSize);
      assert forall e :: e in es <==> e == es[0] || e in es[1..];
    }
  }

  /**
   * Extracting an archive again onto its result never changes anything. It succeeds if and only if each
   * directory that stands in the place of a file is of the size announced for the file.
   */
  lemma ExtractionIsIdempotentIff(t: Tree, a: Archive, dirSize: DirSize)
    requires IsTree(t) && Outcome(t, a, dirSize).1.None?
    ensures var t' := Outcome(t, a, dirSize).0;
      && Outcome(t', a, dirSize).0 == t'
      && (Outcome(t', a, dirSize).1.None? <==>
            forall e :: e in a.entries && e.kind.Regular? && e.path in t' && t'[e.path].Dir? ==>
              dirSize(t', e.path) == e.size)
  {
    var t' := Outcome(t, a, dirSize).0;
    SuccessSatisfies(t, a.entries, dirSize);
    NothingLeftToDo(t', a.entries, dirSize);
    forall e | e in a.entries && e.kind.Regular?
      ensures SizeAt(t', e.path, dirSize) == e.size <==> (t'[e.path].Dir? ==> dirSize(t', e.path) == e.size)
    {
      assert Satisfied(t', e);
    }
  }

  /** In particular where files are apart from directories it succeeds. */
  lemma ExtractionIsIdempotent(t: Tree, a: Archive, dirSize: DirSize)
    requires IsTree(t) && FilesApartFromDirs(t, a.entries)
    requires Outcome(t, a, dirSize).1.None?
    ensures Outcome(Outcome(t, a, dirSize).0, a, dirSize) == (Outcome(t, a, dirSize).0, None)
  {
    SuccessMeansExactSizes(t, a.entries, dirSize);
    ExtractionIsIdempotentIff(t, a, dirSize);
  }

  /** A directory whose stat size is the header's passes for the file: success then leaves no file there. */
  lemma DirectoryCanPassForFile(dirSize: DirSize, data: seq<bv8>)
    requires |data| == dirSize(map[[] := Dir, ["d"] := Dir], ["d"])
    ensures
      var t: Tree := map[[] := Dir, ["d"] := Dir];
      ExtractedAll(t, [Entry(["d"], Regular, |data|, data)], dirSize) == (t, None)
  {
    var es := [Entry(["d"], Regular, |data|, data)];
    assert es[1..] == [];
  }

  class Extractor {
    var tree: Tree
    const dirSize: DirSize

    constructor (tree: Tree, dirSize: DirSize)
      ensures this.tree == tree && this.dirSize == dirSize
    {
      this.tree, this.dirSize := tree, dirSize;
    }

    /** Walks the archive; existing files of the announced size are skipped, others are errors. */
    method ExtractTarToDir(archive: Archive) returns (error: Option<Error>)
      modifies this
      ensures (tree, error) == Outcome(old(tree), archive, dirSize)
      ensures IsTree(old(tree)) ==> IsTree(tree) && Keeps(old(tree), tree)
    {
      ghost var all := archive.entries;
      if IsTree(tree) {
        ExtractionKeeps(tree, all, dirSize);
      }
      var i := 0;
      while i < |archive.entries|
        invariant 0 <= i <= |all|
        invariant ExtractedAll(old(tree), all, dirSize) == ExtractedAll(tree, all[i..], dirSize)
      {
        var header := archive.entries[i];
        var fullName := header.path;
        assert all[i..][0] == header && all[i..][1..] == all[i + 1..];
        i := i + 1;
        match header.kind
        case Directory =>
          var made := MkdirAll(tree, fullName);
          if made.None? {
            return Some(DirFailed(fullName));
          }
          tree := made.value;
        case Regular =>
          if fullName !in tree && BehindFile(tree, fullName) {
            return Some(StatFailed(fullName));
          }
          var present := fullName in tree;
          if present && SizeAt(tree, fullName, dirSize) == header.size {
            continue;
          }
          if !present && (fullName == [] || fullName[..|fullName| - 1] !in tree) {
            return Some(CreateFailed(fullName));
          }
          if present {
            // The open failed and left no file to copy into.
            return Some(CopyFailed(fullName));
          }
          tree := tree[fullName := File(header.data)];
          if |header.data| < header.size {
            return Some(CopyFailed(fullName));
          }
        case Other =>
      }
      error := if archive.intact then None else Some(BadArchive);
    }
  }
}
