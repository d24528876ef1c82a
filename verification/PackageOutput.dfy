/** What the directory and file loops of jcrpc-gen leave on disk. */
module PackageOutput {
  import opened Wrappers
  import opened FileTree
  import opened PackageNames
  import opened PackageWriter

  ghost predicate Above(root: Path, files: seq<PackageFile>, i: int, q: Path) {
    0 <= i < |files| && q < Full(root, files[i])
  }

  /** `q` is a directory that some file from the `k`-th on lies under. */
  ghost predicate OnWayFrom(root: Path, files: seq<PackageFile>, k: nat, q: Path) {
    exists i :: k <= i && Above(root, files, i, q)
  }

  ghost predicate OnWay(root: Path, files: seq<PackageFile>, q: Path) {
    OnWayFrom(root, files, 0, q)
  }

  ghost predicate IsFileOf(root: Path, files: seq<PackageFile>, i: int, q: Path) {
    0 <= i < |files| && Full(root, files[i]) == q && files[i].data.Some?
  }

  /** The node at `q` once the package is on disk: its data at every name, directories above. */
  ghost function NodeAfter(t: Tree, root: Path, files: seq<PackageFile>, q: Path): Option<Node> {
    if i :| IsFileOf(root, files, i, q) then Some(File(files[i].data.value))
    else if OnWay(root, files, q) then Some(Dir)
    else Get(t, q)
  }

  ghost predicate Materialised(t: Tree, t': Tree, root: Path, files: seq<PackageFile>) {
    forall q :: Get(t', q) == NodeAfter(t, root, files, q)
  }

  // No file stands where a directory is needed, and no directory where a file is.
  ghost predicate Room(t: Tree, root: Path, files: seq<PackageFile>) {
    forall i | 0 <= i < |files| :: Open(t, Parent(Full(root, files[i]))) && !IsDir(t, Full(root, files[i]))
  }

  // Every change between the two trees is a missing directory made above a package file, or the
  // contents of a package file.
  ghost predicate Contained(t: Tree, t': Tree, root: Path, files: seq<PackageFile>) {
    forall q :: Get(t', q) == Get(t, q) || Allowed(t, t', root, files, q)
  }

  ghost predicate Allowed(t: Tree, t': Tree, root: Path, files: seq<PackageFile>, q: Path) {
    || (Get(t, q).None? && Get(t', q) == Some(Dir) && OnWay(root, files, q))
    || (Get(t', q).Some? && Get(t', q).value.File? && exists i :: IsFileOf(root, files, i, q))
  }

  // Two files of a package never share a path, and none lies under another.
  lemma FullDistinct(root: Path, files: seq<PackageFile>, i: nat, j: nat)
    requires i < |files| && j < |files| && UniqueNames(files) && PrefixFree(files)
    ensures Full(root, files[i]) == Full(root, files[j]) ==> i == j
    ensures !(Full(root, files[i]) < Full(root, files[j]))
  {
    var a, b := Split(files[i].name), Split(files[j].name);
    assert Full(root, files[i])[|root|..] == a && Full(root, files[j])[|root|..] == b;
    assert Full(root, files[i]) < Full(root, files[j]) ==> a < b;
    if a == b && i != j {
      SplitInjective(files[i].name, files[j].name);
    }
  }

  // The state of the directory loop when the files from `k` on are done.
  ghost predicate DirsFor(t: Tree, t': Tree, root: Path, files: seq<PackageFile>, k: nat)
    requires k <= |files|
  {
    && (forall q :: Get(t', q) == if Get(t, q).None? && OnWayFrom(root, files, k, q) then Some(Dir) else Get(t, q))
    && forall i | k <= i < |files| :: Open(t, Parent(Full(root, files[i])))
  }

  lemma OnWayStep(root: Path, files: seq<PackageFile>, k: nat, q: Path)
    requires k < |files|
    ensures OnWayFrom(root, files, k, q) <==> OnWayFrom(root, files, k + 1, q) || q <= Parent(Full(root, files[k]))
  {
    assert q < Full(root, files[k]) <==> q <= Parent(Full(root, files[k]));
    if q < Full(root, files[k]) {
      assert Above(root, files, k, q);
    }
    if i :| k <= i && Above(root, files, i, q) {
      assert i == k || k + 1 <= i;
    }
    if i :| k + 1 <= i && Above(root, files, i, q) {
      assert k <= i;
    }
  }

  lemma FullIsPlain(t: Tree, root: Path, file: PackageFile)
    requires Physical(t, root) && NoLinks(t, root, file)
    ensures Plain(t, Full(root, file))
  {
    var full := Full(root, file);
    forall i | 0 <= i <= |full| ensures !IsLink(t, full[..i]) {
      if i < |root| {
        assert Parent(root)[..i] == full[..i];
      }
    }
  }

  // Adding directories where nothing was leaves every path as free of links and as open as before.
  lemma DirsKeep(t: Tree, t': Tree, p: Path)
    requires forall q :: Get(t', q) == Get(t, q) || (Get(t, q).None? && Get(t', q) == Some(Dir))
    ensures Plain(t, p) ==> Plain(t', p)
    ensures Open(t', p) <==> Open(t, p)
  {
    forall i | 0 <= i <= |p| ensures Get(t', p[..i]) == Get(t, p[..i]) || (Get(t, p[..i]).None? && IsDir(t', p[..i])) {
    }
  }

  lemma MakeStep(t: Tree, t1: Tree, root: Path, files: seq<PackageFile>, k: nat)
    requires Wf(t1) && Physical(t, root) && Acceptable(t, root, files) && k < |files|
    requires DirsFor(t, t1, root, files, k + 1)
    ensures var (t2, ok) := MkdirAll(t1, Parent(Full(root, files[k])));
            && (ok <==> Open(t, Parent(Full(root, files[k]))))
            && Wf(t2)
            && if ok then DirsFor(t, t2, root, files, k) else t2 == t1
  {
    var dir := Parent(Full(root, files[k]));
    FullIsPlain(t, root, files[k]);
    PlainParent(t, Full(root, files[k]));
    DirsKeep(t, t1, dir);
    MkdirAllPlain(t1, dir);
    var (t2, ok) := MkdirAll(t1, dir);
    if ok {
      forall q ensures Get(t2, q) == if Get(t, q).None? && OnWayFrom(root, files, k, q) then Some(Dir) else Get(t, q) {
        OnWayStep(root, files, k, q);
        assert Get(t2, q) == if q <= dir && Get(t1, q).None? then Some(Dir) else Get(t1, q);
      }
    }
  }

  lemma DirsContained(t: Tree, t1: Tree, root: Path, files: seq<PackageFile>, k: nat)
    requires k <= |files| && DirsFor(t, t1, root, files, k)
    ensures Contained(t, t1, root, files)
  {
    forall q ensures Get(t1, q) == Get(t, q) || Allowed(t, t1, root, files, q) {
      if i :| k <= i && Above(root, files, i, q) {
        assert 0 <= i;
      }
    }
  }

  // A directory call that was interrupted part of the way down.
  lemma MakeTorn(t: Tree, t1: Tree, root: Path, files: seq<PackageFile>, k: nat, n: nat)
    requires Wf(t1) && Physical(t, root) && Acceptable(t, root, files) && k < |files|
    requires DirsFor(t, t1, root, files, k + 1) && n <= |Parent(Full(root, files[k]))|
    ensures Contained(t, MkdirAll(t1, Parent(Full(root, files[k]))[..n]).0, root, files)
  {
    var dir := Parent(Full(root, files[k]));
    FullIsPlain(t, root, files[k]);
    PlainParent(t, Full(root, files[k]));
    DirsKeep(t, t1, dir);
    PlainPrefix(t1, dir, n);
    DirsContained(t, t1, root, files, k + 1);
    assert dir[..n] < Full(root, files[k]);
    MakeSome(t, t1, root, files, k, dir[..n]);
  }

  lemma MakeSome(t: Tree, t1: Tree, root: Path, files: seq<PackageFile>, k: nat, part: Path)
    requires Wf(t1) && k < |files| && Contained(t, t1, root, files) && Plain(t1, part) && part < Full(root, files[k])
    ensures Contained(t, MkdirAll(t1, part).0, root, files)
  {
    MkdirAllPlain(t1, part);
    if MkdirAll(t1, part).1 {
      MoreDirsContained(t, t1, MkdirAll(t1, part).0, root, files, k, part);
    }
  }

  lemma MoreDirsContained(t: Tree, t1: Tree, t2: Tree, root: Path, files: seq<PackageFile>, k: nat, part: Path)
    requires k < |files| && part < Full(root, files[k])
    requires Contained(t, t1, root, files) && DirsAdded(t1, t2, part)
    ensures Contained(t, t2, root, files)
  {
    forall q ensures Get(t2, q) == Get(t, q) || Allowed(t, t2, root, files, q) {
      assert Get(t2, q) == if q <= part && Get(t1, q).None? then Some(Dir) else Get(t1, q);
      assert Get(t1, q) == Get(t, q) || Allowed(t, t1, root, files, q);
      if q <= part {
        assert Above(root, files, k, q);
      }
    }
  }
}
