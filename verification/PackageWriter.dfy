/**
 jcrpc-gen's package output (package_files.go and the loops of main.go): the check of the names a
 plugin returns, and the loops that make directories and write files.
 */
module PackageWriter {
  import opened Wrappers
  import opened FileTree
  import opened LinkedPaths
  import opened PackageNames

  /** A generated file; `data` is None for Go's nil slice. */
  datatype PackageFile = PackageFile(name: string, data: Option<Bytes>)

  function Full(root: Path, file: PackageFile): Path {
    root + Split(file.name)
  }

  // filepath.Join of the package's directory and a file's name.
  function WrittenTo(root: Path, file: PackageFile): Path {
    JoinFrom(root, Split(file.name))
  }

  // A file with an accepted name is written below the package's directory, where its name says.
  lemma WrittenBelow(root: Path, file: PackageFile)
    requires Canonical(file.name)
    ensures WrittenTo(root, file) == Full(root, file) && root < WrittenTo(root, file)
  {
    CanonicalJoins(root, file.name);
  }

  ghost predicate IsLink(t: Tree, p: Path) {
    Get(t, p).Some? && Get(t, p).value.Link?
  }

  ghost predicate UniqueNames(files: seq<PackageFile>) {
    forall i, j | 0 <= i < j < |files| :: files[i].name != files[j].name
  }

  // The file's name is a directory on the way to `parts`.
  ghost predicate LiesAbove(file: PackageFile, parts: Path) {
    Split(file.name) < parts
  }

  ghost predicate NothingAbove(files: seq<PackageFile>, parts: Path) {
    forall i | 0 <= i < |files| :: !LiesAbove(files[i], parts)
  }

  // No file's name is also a directory of another's.
  ghost predicate PrefixFree(files: seq<PackageFile>) {
    forall j | 0 <= j < |files| :: NothingAbove(files, Split(files[j].name))
  }

  ghost predicate NamesCanonical(files: seq<PackageFile>) {
    forall i | 0 <= i < |files| :: Canonical(files[i].name) && files[i].data.Some?
  }

  // No existing link at the root or on the way from it to one of the files.
  // No link among the paths to `full` that have from `low` up to but not including `high` names.
  ghost predicate LinkFree(t: Tree, full: Path, low: int, high: int)
    requires 0 <= low && high <= |full| + 1
  {
    forall i | low <= i < high :: !IsLink(t, full[..i])
  }

  // Neither the root, nor a directory between it and the file, nor the file is a link.
  ghost predicate NoLinks(t: Tree, root: Path, file: PackageFile) {
    LinkFree(t, Full(root, file), |root|, |Full(root, file)| + 1)
  }

  ghost predicate Acceptable(t: Tree, root: Path, files: seq<PackageFile>) {
    && files != []
    && NamesCanonical(files) && UniqueNames(files) && PrefixFree(files)
    && forall i | 0 <= i < |files| :: NoLinks(t, root, files[i])
  }

  // A root named by its physical path: what exists of the directories above it is no link.
  ghost predicate Physical(t: Tree, root: Path) {
    root != [] && Plain(t, Parent(root))
  }

  /** `Refused` is a generation error (exit 2), `InspectFailed` an unreadable path (exit 3). */
  datatype Verdict = Accepted | Refused | InspectFailed

  // What a link-free path below the mount is to the calls that get it as it is written.
  lemma MountedCalls(t: Tree, m: Mount, p: Path)
    requires Wf(t) && Leads(t, m) && m.base < p && Plain(t, p)
    ensures Stat(t, As(m, p)) == Stat(t, p) && Lstat(t, As(m, p)) == Lstat(t, p)
    ensures Mkdir(t, As(m, p)) == Mkdir(t, p)
    ensures forall data :: WriteFile(t, As(m, p), data) == WriteFile(t, p, data)
  {
    PlainIsDirect(t, p, false);
    PlainIsDirect(t, p, true);
    ResolveThrough(t, m, p, false);
    ResolveThrough(t, m, p, true);
  }

  // The last directory of a path, once the ones above it are made.
  lemma MountedMkdir(t: Tree, t': Tree, m: Mount, p: Path)
    requires Wf(t) && Leads(t, m) && m.base < p && Plain(t, p) && MkdirAll(t, Parent(p)) == (t', true)
    ensures Wf(t') && Leads(t', m)
    ensures Mkdir(t', As(m, p)) == Mkdir(t', p) && Lstat(t', As(m, p)) == Lstat(t', p)
  {
    PlainParent(t, p);
    MkdirAllPlain(t, Parent(p));
    AddingKeeps(t, t', Parent(p));
    MountStays(t, t', m);
    MadeIsPlain(t, t', p);
    MountedCalls(t', m, p);
  }

  lemma StatOfBase(t: Tree, m: Mount)
    requires Wf(t) && Leads(t, m)
    ensures Stat(t, As(m, m.base)) == Exists(Dir) == Stat(t, m.base)
  {
    assert As(m, m.base) == m.head;
    DirIsPlain(t, m.base);
    PlainIsDirect(t, m.base, true);
    ResolveDirect(t, m.base, true);
  }

  lemma StatAsWritten(t: Tree, m: Mount, p: Path)
    requires Wf(t) && Leads(t, m) && m.base <= p && Plain(t, p)
    ensures Stat(t, As(m, p)) == Stat(t, p) && (p == m.base ==> Stat(t, p) == Exists(Dir))
  {
    if p == m.base {
      StatOfBase(t, m);
    } else {
      MountedCalls(t, m, p);
    }
  }

  // What MkdirAll has done when it stops somewhere on the way.
  ghost predicate PartlyMade(t: Tree, t': Tree, p: Path) {
    exists n :: 0 <= n <= |p| && t' == MkdirAll(t, p[..n]).0
  }

  lemma MadeAtAll(t: Tree, p: Path)
    ensures PartlyMade(t, MkdirAll(t, p).0, p)
  {
    assert p[..|p|] == p;
  }

  lemma PartlyMadeAbove(t: Tree, t': Tree, p: Path)
    requires p != [] && (PartlyMade(t, t', Parent(p)) || t' == MkdirAll(t, Parent(p)).0)
    ensures PartlyMade(t, t', p)
  {
    MadeAtAll(t, Parent(p));
    var n :| 0 <= n <= |Parent(p)| && t' == MkdirAll(t, Parent(p)[..n]).0;
    assert Parent(p)[..n] == p[..n];
  }

  /**
   The mutable file system, with the output directory as it is written on the command line and as
   it is. Its calls are told physical paths below the mount and make the system calls with the
   written ones. An unreliable file system may fail any operation for reasons of its own.
   */
  class FileSystem {
    var tree: Tree
    const mount: Mount
    const reliable: bool

    ghost predicate Mounted()
      reads this
    {
      Wf(tree) && Leads(tree, mount)
    }

    constructor (tree: Tree, mount: Mount, reliable: bool)
      ensures this.tree == tree && this.mount == mount && this.reliable == reliable
    {
      this.tree := tree;
      this.mount := mount;
      this.reliable := reliable;
    }

    // os.Lstat: None is a failure other than the path's absence.
    method Inspect(p: Path) returns (status: Option<Status>)
      requires Mounted() && mount.base < p && Direct(tree, p, false)
      ensures status.Some? ==> status.value == Lstat(tree, p)
      ensures reliable ==> status.Some?
    {
      var fault: bool :| reliable ==> !fault;
      if fault {
        return None;
      }
      ResolveThrough(tree, mount, p, false);
      return Some(Lstat(tree, As(mount, p)));
    }

    // os.MkdirAll: interrupted, it may have made some of the directories.
    method MakeAll(p: Path) returns (ok: bool)
      requires Mounted() && mount.base <= p && Plain(tree, p)
      modifies this`tree
      ensures ok ==> MkdirAll(old(tree), p) == (tree, true)
      ensures reliable ==> MkdirAll(old(tree), p) == (tree, ok)
      ensures !ok ==> PartlyMade(old(tree), tree, p)
      decreases |p|
    {
      var fault: bool :| reliable ==> !fault;
      StatAsWritten(tree, mount, p);
      MadeAtAll(tree, p);
      match Stat(tree, As(mount, p))
      case Exists(node) =>
        ok := node.Dir? && !fault;
      case _ =>
        ghost var before := tree;
        PlainParent(tree, p);
        ok := MakeAll(Parent(p));
        if ok {
          ok := MakeLast(p, before, fault);
        } else {
          PartlyMadeAbove(before, tree, p);
        }
    }

    // The last directory of a path.
    method MakeLast(p: Path, ghost before: Tree, fault: bool) returns (ok: bool)
      requires Wf(before) && Leads(before, mount) && mount.base < p && Plain(before, p)
      requires !Stat(before, p).Exists? && MkdirAll(before, Parent(p)) == (tree, true) && (reliable ==> !fault)
      modifies this`tree
      ensures ok ==> MkdirAll(before, p) == (tree, true)
      ensures reliable ==> MkdirAll(before, p) == (tree, ok)
      ensures !ok ==> PartlyMade(before, tree, p)
    {
      MadeAtAll(before, p);
      PartlyMadeAbove(before, tree, p);
      if fault {
        return false;
      }
      MountedMkdir(before, tree, mount, p);
      match Mkdir(tree, As(mount, p)) {
        case Some(made) =>
          tree := made;
          return true;
        case None =>
          ok := Lstat(tree, As(mount, p)) == Exists(Dir);
      }
    }

    // os.WriteFile: interrupted, it may leave the file empty or cut short.
    method Write(p: Path, data: Bytes) returns (ok: bool)
      requires Mounted() && mount.base < p && Plain(tree, p)
      modifies this`tree
      ensures ok ==> FileTree.WriteFile(old(tree), p, data) == Some(tree)
      ensures reliable ==> (ok <==> FileTree.WriteFile(old(tree), p, data).Some?)
      ensures !ok ==>
        || tree == old(tree)
        || exists n :: 0 <= n <= |data| && FileTree.WriteFile(old(tree), p, data[..n]) == Some(tree)
    {
      MountedCalls(tree, mount, p);
      var written := FileTree.WriteFile(tree, As(mount, p), data);
      if written == None {
        return false;
      }
      var fault: bool :| reliable ==> !fault;
      if !fault {
        tree := written.value;
        return true;
      }
      var started: bool := *;
      if started {
        var n: nat :| n <= |data|;
        var torn := FileTree.WriteFile(tree, As(mount, p), data[..n]);
        tree := torn.value;
      }
      return false;
    }
  }

  ghost predicate SeenNames(files: seq<PackageFile>, n: nat, seen: set<string>)
    requires n <= |files|
  {
    forall name :: name in seen <==> exists i | 0 <= i < n :: files[i].name == name
  }

  // No file's name lies above `parts` and is longer than `k`.
  ghost predicate NoneLonger(files: seq<PackageFile>, parts: Path, k: nat) {
    forall i | 0 <= i < |files| && LiesAbove(files[i], parts) :: |Split(files[i].name)| <= k
  }

  lemma NotThisParent(file: PackageFile, parts: Path, k: nat, parent: string)
    requires k < |parts| && Split(parent) == parts[..k] && file.name != parent
    requires LiesAbove(file, parts) && |Split(file.name)| <= k
    ensures |Split(file.name)| < k
  {
    if |Split(file.name)| == k {
      assert Split(file.name) == parts[..k];
      SplitInjective(file.name, parent);
    }
  }

  lemma ParentNotSeen(files: seq<PackageFile>, parts: Path, k: nat, parent: string)
    requires 0 < k < |parts| && Split(parent) == parts[..k] && NoneLonger(files, parts, k)
    requires forall i | 0 <= i < |files| :: files[i].name != parent
    ensures NoneLonger(files, parts, k - 1)
  {
    forall i | 0 <= i < |files| && LiesAbove(files[i], parts) ensures |Split(files[i].name)| <= k - 1 {
      NotThisParent(files[i], parts, k, parent);
    }
  }

  lemma ParentSeen(files: seq<PackageFile>, parts: Path, k: nat, parent: string)
    requires k < |parts| && Split(parent) == parts[..k] && exists i | 0 <= i < |files| :: files[i].name == parent
    ensures !NothingAbove(files, parts)
  {
    var i :| 0 <= i < |files| && files[i].name == parent;
    assert LiesAbove(files[i], parts);
  }

  lemma NoneAbove(files: seq<PackageFile>, parts: Path)
    requires NoneLonger(files, parts, 0)
    ensures NothingAbove(files, parts)
  {
  }

  lemma AllShorter(files: seq<PackageFile>, parts: Path)
    requires parts != []
    ensures NoneLonger(files, parts, |parts| - 1)
  {
  }

  // The parent of the directory that the walk stands at.
  lemma NextParent(parts: Path, k: nat, parent: string)
    requires 0 < k < |parts| && Canonical(parent) && Split(parent) == parts[..k]
    ensures AtParent(parts, k - 1, DirOf(parent))
  {
    DirOfCanonical(parent);
    assert Parent(parts[..k]) == parts[..k - 1];
  }

  ghost predicate AtParent(parts: Path, k: nat, parent: string) {
    && k < |parts|
    && if k == 0 then parent == "." else parent != "." && Canonical(parent) && Split(parent) == parts[..k]
  }

  // The parent walk of one file: does some directory of its name appear as a file's name?
  method HasFileAsParent(name: string, seen: set<string>, ghost files: seq<PackageFile>) returns (found: bool)
    requires Canonical(name) && SeenNames(files, |files|, seen)
    ensures found <==> !NothingAbove(files, Split(name))
  {
    ghost var parts := Split(name);
    ghost var k := |parts| - 1;
    DirOfCanonical(name);
    AllShorter(files, parts);
    var parent := DirOf(name);
    while parent != "."
      invariant 0 <= k && AtParent(parts, k, parent) && NoneLonger(files, parts, k)
      decreases k
    {
      if parent in seen {
        ParentSeen(files, parts, k, parent);
        return true;
      }
      ParentNotSeen(files, parts, k, parent);
      NextParent(parts, k, parent);
      parent := DirOf(parent);
      k := k - 1;
    }
    NoneAbove(files, parts);
    return false;
  }

  lemma NothingBelow(t: Tree, p: Path, i: nat, j: nat)
    requires Wf(t) && i <= j <= |p| && Get(t, p[..i]).None?
    ensures Get(t, p[..j]).None?
  {
    assert p[..j][..i] == p[..i];
    if p[..j] in t && i < j {
      AncestorsAreDirs(t, p[..j], i);
    }
  }

  lemma DirectSoFar(t: Tree, root: Path, full: Path, n: nat)
    requires Physical(t, root) && root <= full && |root| <= n <= |full|
    requires forall j | |root| <= j < n :: !IsLink(t, full[..j])
    ensures Direct(t, full[..n], false)
  {
    forall j | 0 <= j < n ensures !IsLink(t, full[..n][..j]) {
      assert full[..n][..j] == full[..j];
      if j < |root| {
        assert Parent(root)[..j] == full[..j];
      }
    }
  }

  // What Lstat tells about one more component when everything above it is no link.
  lemma LstatTells(t: Tree, root: Path, full: Path, n: nat)
    requires Wf(t) && Physical(t, root) && root <= full && |root| <= n <= |full| && LinkFree(t, full, |root|, n)
    ensures Direct(t, full[..n], false)
    ensures match Lstat(t, full[..n])
            case Exists(node) => LinkFree(t, full, |root|, n + 1) <==> !node.Link?
            case Loop => false
            case _ => LinkFree(t, full, |root|, |full| + 1)
  {
    DirectSoFar(t, root, full, n);
    ResolveDirect(t, full[..n], false);
    if full[..n] !in t {
      forall j | n <= j <= |full| ensures !IsLink(t, full[..j]) {
        NothingBelow(t, full, n, j);
      }
    }
  }

  lemma NoneSoFar(t: Tree, full: Path, low: nat, high: nat)
    requires high <= |full| + 1
    ensures LinkFree(t, full, low, |full| + 1) ==> LinkFree(t, full, low, high)
  {
  }

  // The components that the loop appends to the root on the way to `full`: an empty one, then names.
  ghost predicate IsStep(root: Path, full: Path, components: Path, i: nat)
    requires i < |components| && |root| + |components| == |full| + 1
  {
    && (components[i] == "" <==> i == 0)
    && full[..|root| + i] == if i == 0 then root else full[..|root| + i - 1] + [components[i]]
  }

  lemma ComponentIs(root: Path, file: PackageFile, i: nat)
    requires Canonical(file.name) && i <= |Split(file.name)|
    ensures IsStep(root, Full(root, file), [""] + Split(file.name), i)
  {
    var parts := Split(file.name);
    PrefixStep(root, parts, i);
    if i > 0 {
      assert parts[i - 1] in parts;
    }
  }

  lemma PrefixStep(root: Path, parts: Path, i: nat)
    requires i <= |parts|
    ensures var full := root + parts;
            full[..|root| + i] == if i == 0 then root else full[..|root| + i - 1] + [parts[i - 1]]
  {
  }

  // The Lstat of one path on the way to a file: None if the loop goes on.
  method InspectOne(fs: FileSystem, ghost root: Path, ghost full: Path, path: Path, ghost n: nat)
    returns (verdict: Option<Verdict>)
    requires fs.Mounted() && fs.mount.base < root && Physical(fs.tree, root) && root <= full
    requires |root| <= n <= |full| && path == full[..n] && LinkFree(fs.tree, full, |root|, n)
    ensures verdict.None? ==> LinkFree(fs.tree, full, |root|, n + 1)
    ensures verdict == Some(Accepted) ==> LinkFree(fs.tree, full, |root|, |full| + 1)
    ensures verdict == Some(Refused) ==> !LinkFree(fs.tree, full, |root|, |full| + 1)
    ensures fs.reliable ==> verdict != Some(InspectFailed)
  {
    LstatTells(fs.tree, root, full, n);
    var status := fs.Inspect(path);
    if status.None? || status.value.Loop? {
      return Some(InspectFailed);
    }
    if status.value.Missing? || status.value.NotDir? {
      return Some(Accepted);
    }
    if status.value.node.Link? {
      NoneSoFar(fs.tree, full, |root|, n + 1);
      return Some(Refused);
    }
    return None;
  }

  // The Lstat loop of one file, from the root down to the file itself.
  method InspectPath(fs: FileSystem, root: Path, file: PackageFile) returns (verdict: Verdict)
    requires fs.Mounted() && fs.mount.base < root && Physical(fs.tree, root) && Canonical(file.name)
    ensures verdict.Accepted? ==> NoLinks(fs.tree, root, file)
    ensures verdict.Refused? ==> !NoLinks(fs.tree, root, file)
    ensures fs.reliable ==> !verdict.InspectFailed?
  {
    var components := [""] + Split(file.name);
    forall i | 0 <= i < |components| ensures IsStep(root, Full(root, file), components, i) {
      ComponentIs(root, file, i);
    }
    verdict := InspectComponents(fs, root, Full(root, file), components);
  }

  method InspectComponents(fs: FileSystem, root: Path, ghost full: Path, components: Path) returns (verdict: Verdict)
    requires fs.Mounted() && fs.mount.base < root && Physical(fs.tree, root) && root <= full
    requires components != [] && |root| + |components| == |full| + 1
    requires forall i | 0 <= i < |components| :: IsStep(root, full, components, i)
    ensures verdict.Accepted? ==> LinkFree(fs.tree, full, |root|, |full| + 1)
    ensures verdict.Refused? ==> !LinkFree(fs.tree, full, |root|, |full| + 1)
    ensures fs.reliable ==> !verdict.InspectFailed?
  {
    var path := root;
    for i := 0 to |components|
      invariant path == if i == 0 then root else full[..|root| + i - 1]
      invariant LinkFree(fs.tree, full, |root|, |root| + i)
    {
      assert IsStep(root, full, components, i);
      if components[i] != "" {
        path := path + [components[i]];
      }
      var found := InspectOne(fs, root, full, path, |root| + i);
      if found.Some? {
        return found.value;
      }
    }
    return Accepted;
  }

  // The first loop: the names and data by themselves. None is a refusal.
  method CheckNames(files: seq<PackageFile>) returns (names: Option<set<string>>)
    ensures names.Some? <==> NamesCanonical(files) && UniqueNames(files)
    ensures names.Some? ==> SeenNames(files, |files|, names.value)
  {
    var seen: set<string> := {};
    for i := 0 to |files|
      invariant SeenNames(files, i, seen)
      invariant forall j | 0 <= j < i :: Canonical(files[j].name) && files[j].data.Some?
      invariant forall j, k | 0 <= j < k < i :: files[j].name != files[k].name
    {
      if !Canonical(files[i].name) || files[i].name in seen || files[i].data == None {
        return None;
      }
      seen := seen + {files[i].name};
    }
    return Some(seen);
  }

  ghost predicate PathOk(t: Tree, root: Path, files: seq<PackageFile>, k: nat)
    requires k < |files|
  {
    NothingAbove(files, Split(files[k].name)) && NoLinks(t, root, files[k])
  }

  // One turn of the second loop: conflicts, and links on the way.
  method CheckPath(fs: FileSystem, root: Path, files: seq<PackageFile>, k: nat, seen: set<string>)
    returns (verdict: Verdict)
    requires fs.Mounted() && fs.mount.base < root && Physical(fs.tree, root)
    requires k < |files| && Canonical(files[k].name) && SeenNames(files, |files|, seen)
    ensures verdict.Accepted? ==> PathOk(fs.tree, root, files, k)
    ensures verdict.Refused? ==> !PathOk(fs.tree, root, files, k)
    ensures fs.reliable ==> !verdict.InspectFailed?
  {
    var conflict := HasFileAsParent(files[k].name, seen, files);
    if conflict {
      return Refused;
    }
    verdict := InspectPath(fs, root, files[k]);
  }

  method CheckPaths(fs: FileSystem, root: Path, files: seq<PackageFile>, seen: set<string>) returns (verdict: Verdict)
    requires fs.Mounted() && fs.mount.base < root && Physical(fs.tree, root)
    requires NamesCanonical(files) && SeenNames(files, |files|, seen)
    ensures verdict.Accepted? ==> forall k | 0 <= k < |files| :: PathOk(fs.tree, root, files, k)
    ensures verdict.Refused? ==> exists k | 0 <= k < |files| :: !PathOk(fs.tree, root, files, k)
    ensures fs.reliable ==> !verdict.InspectFailed?
  {
    for i := 0 to |files|
      invariant forall k | 0 <= k < i :: PathOk(fs.tree, root, files, k)
    {
      verdict := CheckPath(fs, root, files, i, seen);
      if !verdict.Accepted? {
        return;
      }
    }
    return Accepted;
  }

  lemma PathsOkIf(t: Tree, root: Path, files: seq<PackageFile>)
    ensures (forall k | 0 <= k < |files| :: PathOk(t, root, files, k))
       <==> PrefixFree(files) && forall k | 0 <= k < |files| :: NoLinks(t, root, files[k])
  {
    if forall k | 0 <= k < |files| :: PathOk(t, root, files, k) {
      forall k | 0 <= k < |files| ensures NothingAbove(files, Split(files[k].name)) && NoLinks(t, root, files[k]) {
        assert PathOk(t, root, files, k);
      }
    }
  }

  // The whole check. It accepts exactly the acceptable packages and changes nothing.
  method ValidatePackageFiles(fs: FileSystem, root: Path, files: seq<PackageFile>) returns (verdict: Verdict)
    requires fs.Mounted() && fs.mount.base < root && Physical(fs.tree, root)
    ensures verdict.Accepted? ==> Acceptable(fs.tree, root, files)
    ensures verdict.Accepted? ==> forall i | 0 <= i < |files| :: root < WrittenTo(root, files[i])
    ensures verdict.Refused? ==> !Acceptable(fs.tree, root, files)
    ensures fs.reliable ==> !verdict.InspectFailed?
  {
    if |files| == 0 {
      return Refused;
    }
    var names := CheckNames(files);
    if names.None? {
      return Refused;
    }
    PathsOkIf(fs.tree, root, files);
    forall i | 0 <= i < |files| ensures root < WrittenTo(root, files[i]) {
      WrittenBelow(root, files[i]);
    }
    verdict := CheckPaths(fs, root, files, names.value);
  }
}
