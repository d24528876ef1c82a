/** The write loops as they run, and what a whole package write does to the tree. */
module PackageRun {
  import opened Wrappers
  import opened FileTree
  import opened LinkedPaths
  import opened PackageWriter
  import opened PackageOutput

  // The node at `q` when the first `k` files are written over the tree `t1`.
  ghost function FileAt(t1: Tree, root: Path, files: seq<PackageFile>, k: nat, q: Path): Option<Node> {
    if i :| i < k && IsFileOf(root, files, i, q) then Some(File(files[i].data.value)) else Get(t1, q)
  }

  ghost predicate FilesFor(t1: Tree, t2: Tree, root: Path, files: seq<PackageFile>, k: nat) {
    forall q :: Get(t2, q) == FileAt(t1, root, files, k, q)
  }

  // Every file's directory is there, with no link on the way to the file.
  ghost predicate Ready(t1: Tree, root: Path, files: seq<PackageFile>) {
    forall i | 0 <= i < |files| ::
      Plain(t1, Full(root, files[i])) && IsDir(t1, Parent(Full(root, files[i])))
  }

  lemma OneFileAt(root: Path, files: seq<PackageFile>, i: int, j: int, q: Path)
    requires UniqueNames(files) && PrefixFree(files)
    requires IsFileOf(root, files, i, q) && IsFileOf(root, files, j, q)
    ensures i == j
  {
    FullDistinct(root, files, i, j);
  }

  lemma FileAtIs(t1: Tree, root: Path, files: seq<PackageFile>, k: nat, i: nat)
    requires i < |files| && NamesCanonical(files) && UniqueNames(files) && PrefixFree(files)
    ensures FileAt(t1, root, files, k, Full(root, files[i]))
         == if i < k then Some(File(files[i].data.value)) else Get(t1, Full(root, files[i]))
  {
    var q := Full(root, files[i]);
    assert IsFileOf(root, files, i, q);
    forall j | IsFileOf(root, files, j, q) ensures i == j {
      OneFileAt(root, files, i, j, q);
    }
  }

  // A path that is no file of the package is as it was before the file loop.
  lemma FileAtOther(t1: Tree, root: Path, files: seq<PackageFile>, k: nat, q: Path)
    requires forall i :: !IsFileOf(root, files, i, q)
    ensures FileAt(t1, root, files, k, q) == Get(t1, q)
  {
  }

  lemma DirectoryStands(t1: Tree, t2: Tree, root: Path, files: seq<PackageFile>, k: nat)
    requires Ready(t1, root, files) && k < |files| && FilesFor(t1, t2, root, files, k)
    requires PrefixFree(files) && UniqueNames(files)
    ensures IsDir(t2, Parent(Full(root, files[k])))
  {
    var above := Parent(Full(root, files[k]));
    forall i ensures !IsFileOf(root, files, i, above) {
      if IsFileOf(root, files, i, above) {
        FullDistinct(root, files, i, k);
      }
    }
    FileAtOther(t1, root, files, k, above);
  }

  lemma StaysPlain(t1: Tree, t2: Tree, root: Path, files: seq<PackageFile>, k: nat, p: Path)
    requires Plain(t1, p) && FilesFor(t1, t2, root, files, k)
    ensures Plain(t2, p)
  {
    forall i | 0 <= i <= |p| ensures Get(t2, p[..i]).Some? ==> !Get(t2, p[..i]).value.Link? {
      assert Get(t2, p[..i]) == FileAt(t1, root, files, k, p[..i]);
    }
  }

  // When the loop comes to file `k` its directory still stands and nothing but a directory of
  // that very name can stop the write.
  lemma WritableIf(t1: Tree, t2: Tree, root: Path, files: seq<PackageFile>, k: nat, data: Bytes)
    requires Wf(t2) && Ready(t1, root, files) && k < |files| && FilesFor(t1, t2, root, files, k)
    requires NamesCanonical(files) && UniqueNames(files) && PrefixFree(files)
    ensures var full := Full(root, files[k]);
            && Plain(t2, full) && Get(t2, full) == Get(t1, full)
            && FileTree.WriteFile(t2, full, data) == if IsDir(t1, full) then None else Some(t2[full := File(data)])
  {
    var full := Full(root, files[k]);
    DirectoryStands(t1, t2, root, files, k);
    FileAtIs(t1, root, files, k, k);
    assert Get(t2, full) == Get(t1, full);
    StaysPlain(t1, t2, root, files, k, full);
    WritePlain(t2, full, data);
  }

  lemma PutKeepsWf(t: Tree, p: Path, data: Bytes)
    requires Wf(t) && p != [] && IsDir(t, Parent(p)) && !IsDir(t, p)
    ensures Wf(t[p := File(data)])
  {
    forall q | q in t[p := File(data)] && q != [] ensures IsDir(t[p := File(data)], Parent(q)) {
      if q != p {
        assert IsDir(t, Parent(q));
      }
    }
  }

  lemma WriteStep(t1: Tree, t2: Tree, root: Path, files: seq<PackageFile>, k: nat)
    requires Wf(t2) && Ready(t1, root, files) && k < |files| && FilesFor(t1, t2, root, files, k)
    requires NamesCanonical(files) && UniqueNames(files) && PrefixFree(files)
    requires !IsDir(t1, Full(root, files[k]))
    ensures var t3 := t2[Full(root, files[k]) := File(files[k].data.value)];
            Wf(t3) && FilesFor(t1, t3, root, files, k + 1)
  {
    var full := Full(root, files[k]);
    var t3 := t2[full := File(files[k].data.value)];
    forall q ensures Get(t3, q) == FileAt(t1, root, files, k + 1, q) {
      if q == full {
        FileAtIs(t1, root, files, k + 1, k);
      } else {
        assert Get(t2, q) == FileAt(t1, root, files, k, q);
        SameFileAt(t1, root, files, k, q);
      }
    }
    forall i ensures !IsFileOf(root, files, i, Parent(full)) {
      if IsFileOf(root, files, i, Parent(full)) {
        FullDistinct(root, files, i, k);
      }
    }
    FileAtOther(t1, root, files, k, Parent(full));
    FileAtIs(t1, root, files, k, k);
    assert Get(t2, full) == Get(t1, full);
    PutKeepsWf(t2, full, files[k].data.value);
  }

  lemma SameFileAt(t1: Tree, root: Path, files: seq<PackageFile>, k: nat, q: Path)
    requires k < |files| && Full(root, files[k]) != q && UniqueNames(files) && PrefixFree(files)
    ensures FileAt(t1, root, files, k + 1, q) == FileAt(t1, root, files, k, q)
  {
    forall i | IsFileOf(root, files, i, q) ensures i != k && (i < k + 1 <==> i < k) {
    }
    forall i, j | IsFileOf(root, files, i, q) && IsFileOf(root, files, j, q) ensures i == j {
      OneFileAt(root, files, i, j, q);
    }
  }

  lemma OnWayIsDir(t: Tree, t1: Tree, root: Path, files: seq<PackageFile>, q: Path)
    requires DirsFor(t, t1, root, files, 0) && OnWay(root, files, q)
    ensures Get(t1, q) == Some(Dir)
  {
    var i :| 0 <= i && Above(root, files, i, q);
    var dir := Parent(Full(root, files[i]));
    assert q == dir[..|q|] && Open(t, dir);
  }

  // After both loops.
  lemma BothLoops(t: Tree, t1: Tree, t2: Tree, root: Path, files: seq<PackageFile>)
    requires Acceptable(t, root, files) && DirsFor(t, t1, root, files, 0) && FilesFor(t1, t2, root, files, |files|)
    ensures Materialised(t, t2, root, files)
  {
    forall q ensures Get(t2, q) == NodeAfter(t, root, files, q) {
      assert Get(t2, q) == FileAt(t1, root, files, |files|, q);
      if i :| IsFileOf(root, files, i, q) {
        FileAtIs(t1, root, files, |files|, i);
        NodeAfterIs(t, root, files, i);
      } else {
        FileAtOther(t1, root, files, |files|, q);
        if OnWay(root, files, q) {
          OnWayIsDir(t, t1, root, files, q);
        }
      }
    }
  }

  // A package file's node is its data, whichever file one calls it.
  lemma NodeAfterIs(t: Tree, root: Path, files: seq<PackageFile>, i: nat)
    requires i < |files| && NamesCanonical(files) && UniqueNames(files) && PrefixFree(files)
    ensures NodeAfter(t, root, files, Full(root, files[i])) == Some(File(files[i].data.value))
  {
    var q := Full(root, files[i]);
    assert IsFileOf(root, files, i, q);
    forall j | IsFileOf(root, files, j, q) ensures i == j {
      OneFileAt(root, files, i, j, q);
    }
  }

  lemma DirsMakeReady(t: Tree, t1: Tree, root: Path, files: seq<PackageFile>)
    requires Physical(t, root) && Acceptable(t, root, files) && DirsFor(t, t1, root, files, 0)
    ensures Ready(t1, root, files)
    ensures forall i | 0 <= i < |files| :: IsDir(t1, Full(root, files[i])) == IsDir(t, Full(root, files[i]))
  {
    forall i | 0 <= i < |files|
      ensures Plain(t1, Full(root, files[i])) && IsDir(t1, Parent(Full(root, files[i])))
      ensures IsDir(t1, Full(root, files[i])) == IsDir(t, Full(root, files[i]))
    {
      var full := Full(root, files[i]);
      FullIsPlain(t, root, files[i]);
      DirsKeep(t, t1, full);
      assert Above(root, files, i, Parent(full));
      assert Open(t, Parent(full)) && Parent(full)[..|full| - 1] == Parent(full);
      forall j | 0 <= j && Above(root, files, j, full) ensures false {
        FullDistinct(root, files, i, j);
      }
    }
  }

  // A file loop that stopped after `k` files, the last write possibly cut short.
  lemma FilesContained(t: Tree, t1: Tree, t2: Tree, root: Path, files: seq<PackageFile>, k: nat)
    requires Acceptable(t, root, files) && DirsFor(t, t1, root, files, 0) && FilesFor(t1, t2, root, files, k)
    ensures Contained(t, t2, root, files)
  {
    DirsContained(t, t1, root, files, 0);
    forall q ensures Get(t2, q) == Get(t, q) || Allowed(t, t2, root, files, q) {
      assert Get(t2, q) == FileAt(t1, root, files, k, q);
      assert Get(t1, q) == Get(t, q) || Allowed(t, t1, root, files, q);
    }
  }

  lemma TornFileContained(t: Tree, t2: Tree, root: Path, files: seq<PackageFile>, k: nat, data: Bytes)
    requires NamesCanonical(files) && k < |files| && Contained(t, t2, root, files)
    ensures Contained(t, t2[Full(root, files[k]) := File(data)], root, files)
  {
    var full := Full(root, files[k]);
    var t3 := t2[full := File(data)];
    assert IsFileOf(root, files, k, full);
    forall q ensures Get(t3, q) == Get(t, q) || Allowed(t, t3, root, files, q) {
      assert Get(t2, q) == Get(t, q) || Allowed(t, t2, root, files, q);
    }
  }

  lemma DirsMounted(t: Tree, t1: Tree, m: Mount, root: Path, files: seq<PackageFile>, k: nat)
    requires k <= |files| && Leads(t, m) && DirsFor(t, t1, root, files, k)
    ensures Leads(t1, m)
  {
    MountStays(t, t1, m);
  }

  lemma DirIsPlainThen(t: Tree, t1: Tree, root: Path, files: seq<PackageFile>, k: nat)
    requires Physical(t, root) && Acceptable(t, root, files) && k < |files| && DirsFor(t, t1, root, files, k + 1)
    ensures Plain(t1, Parent(Full(root, files[k]))) && root <= Parent(Full(root, files[k]))
  {
    FullIsPlain(t, root, files[k]);
    PlainParent(t, Full(root, files[k]));
    DirsKeep(t, t1, Parent(Full(root, files[k])));
  }

  // The mkdir loop, last file first.
  method MakeDirs(fs: FileSystem, root: Path, files: seq<PackageFile>) returns (ok: bool)
    requires fs.Mounted() && fs.mount.base < root && Physical(fs.tree, root) && Acceptable(fs.tree, root, files)
    modifies fs`tree
    ensures ok ==> fs.Mounted() && DirsFor(old(fs.tree), fs.tree, root, files, 0)
    ensures fs.reliable && !ok ==> !Room(old(fs.tree), root, files)
    ensures !ok ==> Contained(old(fs.tree), fs.tree, root, files)
  {
    ghost var t := fs.tree;
    var i := |files| - 1;
    while i >= 0
      invariant -1 <= i < |files| && fs.Mounted()
      invariant DirsFor(t, fs.tree, root, files, i + 1)
    {
      ghost var t1 := fs.tree;
      WrittenBelow(root, files[i]);
      var dir := Parent(WrittenTo(root, files[i]));
      MakeStep(t, t1, root, files, i);
      DirIsPlainThen(t, t1, root, files, i);
      ok := fs.MakeAll(dir);
      if !ok {
        ghost var n: nat :| n <= |dir| && fs.tree == MkdirAll(t1, dir[..n]).0;
        MakeTorn(t, t1, root, files, i, n);
        return;
      }
      DirsMounted(t, fs.tree, fs.mount, root, files, i);
      i := i - 1;
    }
    return true;
  }

  // The body of the file loop.
  method WriteOne(fs: FileSystem, root: Path, files: seq<PackageFile>, i: nat, ghost t: Tree, ghost t1: Tree)
    returns (ok: bool)
    requires Acceptable(t, root, files) && DirsFor(t, t1, root, files, 0) && Ready(t1, root, files)
    requires i < |files| && fs.Mounted() && fs.mount.base < root && FilesFor(t1, fs.tree, root, files, i)
    modifies fs`tree
    ensures ok ==> fs.Mounted() && FilesFor(t1, fs.tree, root, files, i + 1)
    ensures ok ==> !IsDir(t1, Full(root, files[i]))
    ensures fs.reliable && !ok ==> IsDir(t1, Full(root, files[i]))
    ensures !ok ==> Contained(t, fs.tree, root, files)
  {
    ghost var t2 := fs.tree;
    WrittenBelow(root, files[i]);
    var full, data := WrittenTo(root, files[i]), files[i].data.value;
    WritableIf(t1, t2, root, files, i, data);
    ok := fs.Write(full, data);
    if ok {
      WriteStep(t1, t2, root, files, i);
      WritingKeeps(t2, full, data);
      MountStays(t2, fs.tree, fs.mount);
    } else {
      FilesContained(t, t1, t2, root, files, i);
      if fs.tree != t2 {
        ghost var n: nat :| n <= |data| && FileTree.WriteFile(t2, full, data[..n]) == Some(fs.tree);
        WritableIf(t1, t2, root, files, i, data[..n]);
        TornFileContained(t, t2, root, files, i, data[..n]);
      }
    }
  }

  lemma WritingKeeps(t: Tree, p: Path, data: Bytes)
    requires Plain(t, p) && !IsDir(t, p)
    ensures Keeps(t, t[p := File(data)])
  {
    assert p[..|p|] == p;
  }

  // The file loop, first file first.
  method WriteFiles(fs: FileSystem, root: Path, files: seq<PackageFile>, ghost t: Tree) returns (ok: bool)
    requires Acceptable(t, root, files) && DirsFor(t, fs.tree, root, files, 0) && Ready(fs.tree, root, files)
    requires fs.Mounted() && fs.mount.base < root
    modifies fs`tree
    ensures ok ==> fs.Mounted() && FilesFor(old(fs.tree), fs.tree, root, files, |files|)
    ensures ok ==> NoDirs(old(fs.tree), root, files, |files|)
    ensures fs.reliable && !ok ==> !NoDirs(old(fs.tree), root, files, |files|)
    ensures !ok ==> Contained(t, fs.tree, root, files)
  {
    ghost var t1 := fs.tree;
    for i := 0 to |files|
      invariant fs.Mounted() && FilesFor(t1, fs.tree, root, files, i)
      invariant NoDirs(t1, root, files, i)
    {
      ok := WriteOne(fs, root, files, i, t, t1);
      if !ok {
        return;
      }
    }
    return true;
  }

  // None of the first `n` files' names is taken by a directory.
  ghost predicate NoDirs(t: Tree, root: Path, files: seq<PackageFile>, n: nat) {
    forall i | 0 <= i < |files| && i < n :: !IsDir(t, Full(root, files[i]))
  }

  lemma RoomIs(t: Tree, t1: Tree, root: Path, files: seq<PackageFile>)
    requires Physical(t, root) && Acceptable(t, root, files) && DirsFor(t, t1, root, files, 0)
    ensures Ready(t1, root, files)
    ensures Room(t, root, files) <==> NoDirs(t1, root, files, |files|)
  {
    DirsMakeReady(t, t1, root, files);
  }

  // One target: an accepted package is materialised exactly, or the run stops having touched
  // nothing but the package's own files and the directories above them. On a file system with no
  // faults of its own the outcome is decided by whether there was room.
  method WritePackage(fs: FileSystem, root: Path, files: seq<PackageFile>) returns (ok: bool)
    requires fs.Mounted() && fs.mount.base < root && Physical(fs.tree, root) && Acceptable(fs.tree, root, files)
    modifies fs`tree
    ensures ok ==> fs.Mounted() && Materialised(old(fs.tree), fs.tree, root, files)
    ensures ok ==> Room(old(fs.tree), root, files)
    ensures fs.reliable ==> (ok <==> Room(old(fs.tree), root, files))
    ensures !ok ==> Contained(old(fs.tree), fs.tree, root, files)
  {
    ghost var t := fs.tree;
    ok := MakeDirs(fs, root, files);
    if ok {
      ghost var t1 := fs.tree;
      RoomIs(t, t1, root, files);
      ok := WriteFiles(fs, root, files, t);
      if ok {
        BothLoops(t, t1, fs.tree, root, files);
      }
    }
  }
}
