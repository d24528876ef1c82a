/** A whole jcrpc-gen run: early refusals, then one package per selected target (main.go). */
module Generator {
  import opened Wrappers
  import opened FileTree
  import opened PackageNames
  import opened PackageWriter
  import opened PackageOutput
  import opened PackageRun

  // On a root that is not there yet, with directories or nothing above it, the names alone decide
  // and nothing can be in the way.
  lemma FreshRootHasRoom(t: Tree, root: Path, files: seq<PackageFile>)
    requires Wf(t) && Physical(t, root) && Get(t, root).None? && Open(t, Parent(root))
    ensures Acceptable(t, root, files)
       <==> files != [] && NamesCanonical(files) && UniqueNames(files) && PrefixFree(files)
    ensures Room(t, root, files)
  {
    forall i | 0 <= i < |files|
      ensures NoLinks(t, root, files[i])
      ensures Open(t, Parent(Full(root, files[i]))) && !IsDir(t, Full(root, files[i]))
    {
      var full := Full(root, files[i]);
      assert full[..|root|] == root && full[..|full|] == full;
      forall j | |root| <= j <= |full| ensures Get(t, full[..j]).None? {
        NothingBelow(t, full, |root|, j);
      }
      forall j | 0 <= j < |full| ensures Get(t, Parent(full)[..j]).None? || IsDir(t, Parent(full)[..j]) {
        assert Parent(full)[..j] == full[..j];
        if j < |root| {
          assert Parent(root)[..j] == full[..j];
        }
      }
    }
  }

  // A missing directory on the way to a package file was made, or a package file written.
  ghost predicate Touched(t: Tree, t': Tree, root: Path, files: seq<PackageFile>, q: Path) {
    || (exists i :: IsFileOf(root, files, i, q))
    || (OnWay(root, files, q) && Get(t, q).None? && Get(t', q) == Some(Dir))
  }

  lemma WrittenIsTouched(t: Tree, t': Tree, root: Path, files: seq<PackageFile>, q: Path)
    requires Materialised(t, t', root, files) && Room(t, root, files) && Get(t', q) != Get(t, q)
    ensures Touched(t, t', root, files, q)
  {
    assert Get(t', q) == NodeAfter(t, root, files, q);
    if i :| 0 <= i && Above(root, files, i, q) {
      var dir := Parent(Full(root, files[i]));
      assert Open(t, dir);
      assert dir[..|q|] == q;
    }
  }

  lemma TornIsTouched(t: Tree, t': Tree, root: Path, files: seq<PackageFile>, q: Path)
    requires Contained(t, t', root, files) && Get(t', q) != Get(t, q)
    ensures Touched(t, t', root, files, q)
  {
    assert Get(t', q) == Get(t, q) || Allowed(t, t', root, files, q);
  }

  lemma WayIsNearRoot(root: Path, files: seq<PackageFile>, q: Path)
    requires OnWay(root, files, q)
    ensures root <= q || q < root
  {
    var i :| 0 <= i && Above(root, files, i, q);
    PrefixesOfOnePath(root, q, Full(root, files[i]));
  }

  // Nothing outside the package changes: every path whose node changed lies at or below the root,
  // or is a directory above the root that was missing.
  lemma OnlyTheRootIsTouched(t: Tree, t': Tree, root: Path, files: seq<PackageFile>, q: Path)
    requires (Materialised(t, t', root, files) && Room(t, root, files)) || Contained(t, t', root, files)
    requires Get(t', q) != Get(t, q)
    ensures root <= q || (q < root && Get(t, q).None? && Get(t', q) == Some(Dir))
    ensures (exists i :: IsFileOf(root, files, i, q)) || OnWay(root, files, q)
  {
    if Contained(t, t', root, files) {
      TornIsTouched(t, t', root, files, q);
    } else {
      WrittenIsTouched(t, t', root, files, q);
    }
    if i :| IsFileOf(root, files, i, q) {
      assert root <= q;
    } else {
      WayIsNearRoot(root, files, q);
    }
  }

  lemma PrefixesOfOnePath(a: Path, b: Path, p: Path)
    requires a <= p && b <= p
    ensures a <= b || b < a
  {
    assert a == p[..|a|] && b == p[..|b|];
  }

  ghost predicate HasAll(t: Tree, root: Path, files: seq<PackageFile>) {
    forall i | 0 <= i < |files| && files[i].data.Some? ::
      Get(t, Full(root, files[i])) == Some(File(files[i].data.value))
  }

  // What the static check refuses could not be written by any means: no file tree at all holds a
  // file below another file, or two contents under one name.
  lemma ConflictsCannotExist(t: Tree, root: Path, files: seq<PackageFile>, i: nat, j: nat)
    requires Wf(t) && HasAll(t, root, files) && i < |files| && j < |files|
    requires files[i].data.Some? && files[j].data.Some?
    ensures !(Split(files[i].name) < Split(files[j].name))
    ensures files[i].name == files[j].name ==> files[i].data == files[j].data
  {
    var a, b := Full(root, files[i]), Full(root, files[j]);
    assert Get(t, a).Some? && Get(t, b).Some?;
    if Split(files[i].name) < Split(files[j].name) {
      assert b[..|a|] == a;
      AncestorsAreDirs(t, b, |a|);
    }
  }

  /** One of the run's targets; `output` is None when the plugin reports an error. */
  datatype Target = Target(selected: bool, root: Path, output: Option<seq<PackageFile>>)

  // The target roots are different children of the output directory.
  ghost predicate Siblings(targets: seq<Target>, out: Path) {
    && (forall i | 0 <= i < |targets| :: targets[i].root != [] && Parent(targets[i].root) == out)
    && forall i, j | 0 <= i < j < |targets| :: targets[i].root != targets[j].root
  }

  ghost predicate TargetStep(t: Tree, t': Tree, target: Target) {
    if !target.selected then t' == t
    else
      && target.output.Some?
      && Acceptable(t, target.root, target.output.value) && Room(t, target.root, target.output.value)
      && Materialised(t, t', target.root, target.output.value)
  }

  // The trees between the targets that are done.
  ghost predicate Chain(trees: seq<Tree>, targets: seq<Target>) {
    && 0 < |trees| <= |targets| + 1
    && forall k | 0 <= k < |trees| - 1 :: TargetStep(trees[k], trees[k + 1], targets[k])
  }

  lemma ChainGrows(trees: seq<Tree>, targets: seq<Target>, tree: Tree)
    requires Chain(trees, targets) && |trees| <= |targets|
    requires TargetStep(trees[|trees| - 1], tree, targets[|trees| - 1])
    ensures Chain(trees + [tree], targets)
  {
  }

  lemma StepKeepsPhysical(t: Tree, t': Tree, target: Target, root: Path)
    requires TargetStep(t, t', target) && Physical(t, root) && target.root != [] && Parent(target.root) == Parent(root)
    ensures Physical(t', root)
  {
    if target.selected {
      var out := Parent(root);
      forall i | 0 <= i <= |out| ensures Get(t', out[..i]).Some? ==> !Get(t', out[..i]).value.Link? {
        assert Get(t', out[..i]) == NodeAfter(t, target.root, target.output.value, out[..i]);
      }
    }
  }

  // A step leaves everything below the other roots alone.
  lemma StepSparesSiblings(t: Tree, t': Tree, target: Target, root: Path, q: Path)
    requires TargetStep(t, t', target) && root <= q && root != [] && target.root != []
    requires Parent(target.root) == Parent(root) && target.root != root
    ensures Get(t', q) == Get(t, q)
  {
    if target.selected && Get(t', q) != Get(t, q) {
      OnlyTheRootIsTouched(t, t', target.root, target.output.value, q);
    }
  }

  // What the run has not come to yet is as it was.
  lemma {:induction false} LaterRootsUntouched(
      trees: seq<Tree>, targets: seq<Target>, out: Path, k: nat, j: nat, q: Path)
    requires Chain(trees, targets) && Siblings(targets, out)
    requires k < |trees| && k <= j < |targets| && targets[j].root <= q
    ensures Get(trees[k], q) == Get(trees[0], q)
  {
    if k > 0 {
      LaterRootsUntouched(trees, targets, out, k - 1, j, q);
      assert TargetStep(trees[k - 1], trees[k], targets[k - 1]);
      StepSparesSiblings(trees[k - 1], trees[k], targets[k - 1], targets[j].root, q);
    }
  }

  lemma StepWrites(t: Tree, t': Tree, target: Target)
    requires TargetStep(t, t', target) && target.selected
    ensures HasAll(t', target.root, target.output.value)
  {
    var root, files := target.root, target.output.value;
    forall i | 0 <= i < |files| ensures Get(t', Full(root, files[i])) == Some(File(files[i].data.value)) {
      NodeAfterIs(t, root, files, i);
    }
  }

  lemma StepSparesPackage(t: Tree, t': Tree, target: Target, root: Path, files: seq<PackageFile>)
    requires TargetStep(t, t', target) && HasAll(t, root, files) && root != [] && target.root != []
    requires Parent(target.root) == Parent(root) && target.root != root
    ensures HasAll(t', root, files)
  {
    forall i | 0 <= i < |files| ensures Get(t', Full(root, files[i])) == Get(t, Full(root, files[i])) {
      StepSparesSiblings(t, t', target, root, Full(root, files[i]));
    }
  }

  // What an earlier target wrote is still all there, each file with its data.
  lemma {:induction false} EarlierPackagesStand(trees: seq<Tree>, targets: seq<Target>, out: Path, k: nat, j: nat)
    requires Chain(trees, targets) && Siblings(targets, out)
    requires j < k < |trees| && targets[j].selected
    ensures targets[j].output.Some? && HasAll(trees[k], targets[j].root, targets[j].output.value)
  {
    if k == j + 1 {
      assert TargetStep(trees[j], trees[j + 1], targets[j]);
      StepWrites(trees[j], trees[k], targets[j]);
    } else {
      EarlierPackagesStand(trees, targets, out, k - 1, j);
      assert TargetStep(trees[k - 1], trees[k], targets[k - 1]);
      StepSparesPackage(trees[k - 1], trees[k], targets[k - 1], targets[j].root, targets[j].output.value);
    }
  }

  // How a run over the targets ended, `trees` being the states between the targets it finished:
  // 0 with all of them done; 2 with a plugin error or an unacceptable package and not a node
  // changed since; 3 with changes inside the one package being written.
  ghost predicate Outcome(trees: seq<Tree>, tree: Tree, targets: seq<Target>, code: int, reliable: bool)
    requires Chain(trees, targets)
  {
    var k := |trees| - 1;
    if code == 0 then k == |targets| && tree == trees[k]
    else
      && k < |targets| && targets[k].selected
      && var root, output := targets[k].root, targets[k].output;
         if code == 2 then
           tree == trees[k] && (output.None? || !Acceptable(tree, root, output.value))
         else
           && code == 3 && output.Some?
           && (tree == trees[k]
               || (Acceptable(trees[k], root, output.value) && Contained(trees[k], tree, root, output.value)))
           && (reliable ==> !Room(trees[k], root, output.value))
  }

  // A path below a root of one of the first `n` targets that are selected.
  ghost predicate Below(targets: seq<Target>, n: int, q: Path) {
    exists j :: 0 <= j < n && j < |targets| && targets[j].selected && targets[j].root <= q
  }

  // A directory above the output roots that was missing and has been made.
  ghost predicate MadeAbove(t: Tree, t': Tree, out: Path, q: Path) {
    q <= out && Get(t, q).None? && Get(t', q) == Some(Dir)
  }

  lemma {:induction false} ChainScope(trees: seq<Tree>, targets: seq<Target>, out: Path, k: nat, q: Path)
    requires Chain(trees, targets) && Siblings(targets, out) && k < |trees|
    ensures Get(trees[k], q) == Get(trees[0], q) || Below(targets, k, q) || MadeAbove(trees[0], trees[k], out, q)
  {
    if k > 0 {
      ChainScope(trees, targets, out, k - 1, q);
      assert TargetStep(trees[k - 1], trees[k], targets[k - 1]);
      var target := targets[k - 1];
      if Get(trees[k], q) != Get(trees[k - 1], q) {
        OnlyTheRootIsTouched(trees[k - 1], trees[k], target.root, target.output.value, q);
        AboveIsNotBelow(targets, out, target.root, k - 1, q);
      }
    }
  }

  lemma AboveIsNotBelow(targets: seq<Target>, out: Path, root: Path, n: nat, q: Path)
    requires Siblings(targets, out) && root != [] && Parent(root) == out
    ensures q < root ==> q <= out && !Below(targets, n, q)
  {
  }

  // Failure scope. Whatever the exit code, every changed path lies below the root of a selected
  // target no later than the one the run stopped at (before it, unless the exit is 3), or is a
  // missing directory made above the roots; and what earlier targets wrote is complete.
  lemma RunScope(trees: seq<Tree>, tree: Tree, targets: seq<Target>, out: Path, code: int, reliable: bool)
    requires Chain(trees, targets) && Siblings(targets, out) && Outcome(trees, tree, targets, code, reliable)
    ensures forall q {:trigger Get(tree, q)} ::
              Get(tree, q) == Get(trees[0], q)
              || Below(targets, if code == 3 then |trees| else |trees| - 1, q)
              || MadeAbove(trees[0], tree, out, q)
    ensures forall j | 0 <= j < |trees| - 1 && targets[j].selected ::
              targets[j].output.Some? && HasAll(tree, targets[j].root, targets[j].output.value)
  {
    var k := |trees| - 1;
    forall q ensures Get(tree, q) == Get(trees[0], q)
                     || Below(targets, if code == 3 then |trees| else |trees| - 1, q)
                     || MadeAbove(trees[0], tree, out, q)
    {
      ChainScope(trees, targets, out, k, q);
      if code == 3 && Get(tree, q) != Get(trees[k], q) {
        OnlyTheRootIsTouched(trees[k], tree, targets[k].root, targets[k].output.value, q);
        AboveIsNotBelow(targets, out, targets[k].root, k, q);
      }
    }
    forall j | 0 <= j < |trees| - 1 && targets[j].selected
      ensures targets[j].output.Some? && HasAll(tree, targets[j].root, targets[j].output.value)
    {
      EarlierPackagesStand(trees, targets, out, k, j);
      if tree != trees[k] {
        StoppedRunSparesPackage(trees[k], tree, targets, out, k, j);
      }
    }
  }

  lemma StoppedRunSparesPackage(t: Tree, t': Tree, targets: seq<Target>, out: Path, k: nat, j: nat)
    requires Siblings(targets, out) && j < k < |targets| && targets[j].output.Some? && targets[k].output.Some?
    requires Contained(t, t', targets[k].root, targets[k].output.value)
    requires HasAll(t, targets[j].root, targets[j].output.value)
    ensures HasAll(t', targets[j].root, targets[j].output.value)
  {
    var root, files := targets[j].root, targets[j].output.value;
    forall i | 0 <= i < |files| ensures Get(t', Full(root, files[i])) == Get(t, Full(root, files[i])) {
      var q := Full(root, files[i]);
      assert targets[j].root != targets[k].root;
      if Get(t', q) != Get(t, q) {
        OnlyTheRootIsTouched(t, t', targets[k].root, targets[k].output.value, q);
      }
    }
  }

  // One turn of the target loop for a selected target; 0 goes on to the next.
  method RunTarget(fs: FileSystem, target: Target, ghost out: Path) returns (code: int)
    requires fs.Mounted() && fs.mount.base <= out && Plain(fs.tree, out)
    requires target.selected && target.root != [] && Parent(target.root) == out
    modifies fs`tree
    ensures code in {0, 2, 3}
    ensures code == 0 ==> fs.Mounted() && TargetStep(old(fs.tree), fs.tree, target)
    ensures code == 2 ==>
      && fs.tree == old(fs.tree)
      && (target.output.None? || !Acceptable(fs.tree, target.root, target.output.value))
    ensures code == 3 ==>
      && target.output.Some?
      && (fs.tree == old(fs.tree) || (Acceptable(old(fs.tree), target.root, target.output.value)
                                      && Contained(old(fs.tree), fs.tree, target.root, target.output.value)))
      && (fs.reliable ==> !Room(old(fs.tree), target.root, target.output.value))
  {
    if target.output.None? {
      return 2;
    }
    var files := target.output.value;
    var verdict := ValidatePackageFiles(fs, target.root, files);
    if verdict.InspectFailed? {
      return 3;
    }
    if verdict.Refused? {
      return 2;
    }
    var ok := WritePackage(fs, target.root, files);
    return if ok then 0 else 3;
  }

  method RunTargets(fs: FileSystem, targets: seq<Target>, ghost out: Path) returns (code: int, ghost trees: seq<Tree>)
    requires fs.Mounted() && fs.mount.base <= out && Siblings(targets, out) && Plain(fs.tree, out)
    modifies fs`tree
    ensures Chain(trees, targets) && trees[0] == old(fs.tree)
    ensures Outcome(trees, fs.tree, targets, code, fs.reliable)
  {
    trees := [fs.tree];
    for k := 0 to |targets|
      invariant Chain(trees, targets) && |trees| == k + 1
      invariant trees[0] == old(fs.tree) && trees[k] == fs.tree
      invariant fs.Mounted() && Plain(fs.tree, out)
    {
      if targets[k].selected {
        code := RunTarget(fs, targets[k], out);
        if code != 0 {
          return code, trees;
        }
      }
      StepKeepsPhysical(trees[k], fs.tree, targets[k], targets[k].root);
      ChainGrows(trees, targets, fs.tree);
      trees := trees + [fs.tree];
    }
    return 0, trees;
  }

  /** What the command line, the schema file and its validation came to. */
  datatype Invocation = Invocation(
    flags: FlagResult, help: bool, arguments: nat, schema: SchemaResult, validationErrors: nat,
    validateOnly: bool, dependencyOk: bool, all: bool, java: string, swift: string, kotlin: string,
    streams: bool, out: Path, appletLower: string,
    javaOutput: Option<seq<PackageFile>>, swiftOutput: Option<seq<PackageFile>>, kotlinOutput: Option<seq<PackageFile>>)

  datatype FlagResult = FlagsOk | FlagHelp | FlagError

  datatype SchemaResult = Parsed | Invalid | Unreadable

  // The names are trimmed; under --all an empty one gets a default, which is never empty.
  predicate Selected(inv: Invocation, name: string) {
    inv.all || name != ""
  }

  function Targets(inv: Invocation): seq<Target> {
    [Target(Selected(inv, inv.java), inv.out + [inv.appletLower + "-server-javacard"], inv.javaOutput),
     Target(Selected(inv, inv.swift), inv.out + [inv.appletLower + "-client-swift"], inv.swiftOutput),
     Target(Selected(inv, inv.kotlin), inv.out + [inv.appletLower + "-client-kotlin"], inv.kotlinOutput)]
  }

  lemma TargetsAreSiblings(inv: Invocation)
    ensures Siblings(Targets(inv), inv.out)
  {
    var n := |inv.appletLower|;
    var a := inv.appletLower + "-server-javacard";
    var b, c := inv.appletLower + "-client-swift", inv.appletLower + "-client-kotlin";
    assert a[n + 1] == 's' && b[n + 1] == 'c' && c[n + 1] == 'c' && b[n + 8] == 's' && c[n + 8] == 'k';
    assert (inv.out + [a])[|inv.out|] == a && (inv.out + [b])[|inv.out|] == b && (inv.out + [c])[|inv.out|] == c;
  }

  // What a selected language is owed: its own plugin's files, all of them, under its own directory.
  ghost predicate Delivered(tree: Tree, out: Path, directory: string, output: Option<seq<PackageFile>>) {
    output.Some? && HasAll(tree, out + [directory], output.value)
  }

  // Nothing at or below a child of the output directory has changed.
  ghost predicate Spared(t: Tree, t': Tree, out: Path, directory: string) {
    forall q | out + [directory] <= q :: Get(t', q) == Get(t, q)
  }

  // The arguments and the schema are in order, so that it depends on the options what is done.
  predicate SchemaGiven(inv: Invocation) {
    && inv.flags.FlagsOk? && !inv.help && inv.arguments == 1
    && inv.schema.Parsed? && inv.validationErrors == 0
  }

  // Something is asked for, and nothing that is not there.
  predicate CanGenerate(inv: Invocation) {
    && inv.dependencyOk && (inv.all || inv.java != "" || inv.swift != "" || inv.kotlin != "")
    && !(inv.streams && (inv.all || inv.swift != ""))
  }

  lemma ReachedRoots(inv: Invocation, trees: seq<Tree>, tree: Tree, code: int, reliable: bool)
    requires Chain(trees, Targets(inv)) && Outcome(trees, tree, Targets(inv), code, reliable)
    ensures code == 0 && (inv.all || inv.java != "")
            ==> Delivered(tree, inv.out, inv.appletLower + "-server-javacard", inv.javaOutput)
    ensures code == 0 && (inv.all || inv.swift != "")
            ==> Delivered(tree, inv.out, inv.appletLower + "-client-swift", inv.swiftOutput)
    ensures code == 0 && (inv.all || inv.kotlin != "")
            ==> Delivered(tree, inv.out, inv.appletLower + "-client-kotlin", inv.kotlinOutput)
  {
    TargetsAreSiblings(inv);
    RunScope(trees, tree, Targets(inv), inv.out, code, reliable);
    if code == 0 {
      RootDelivered(inv, trees, tree, 0);
      RootDelivered(inv, trees, tree, 1);
      RootDelivered(inv, trees, tree, 2);
    }
  }

  lemma RootDelivered(inv: Invocation, trees: seq<Tree>, tree: Tree, j: nat)
    requires j < 3 == |trees| - 1
    requires forall j | 0 <= j < |trees| - 1 && Targets(inv)[j].selected ::
               Targets(inv)[j].output.Some? && HasAll(tree, Targets(inv)[j].root, Targets(inv)[j].output.value)
    ensures Targets(inv)[j].selected ==>
              Targets(inv)[j].output.Some? && HasAll(tree, Targets(inv)[j].root, Targets(inv)[j].output.value)
  {
  }

  lemma UnselectedIsSpared(
      trees: seq<Tree>, tree: Tree, targets: seq<Target>, out: Path, code: int, reliable: bool,
      j: nat, directory: string)
    requires Chain(trees, targets) && Siblings(targets, out) && Outcome(trees, tree, targets, code, reliable)
    requires j < |targets| && !targets[j].selected && targets[j].root == out + [directory]
    ensures Spared(trees[0], tree, out, directory)
  {
    RunScope(trees, tree, targets, out, code, reliable);
    forall q | out + [directory] <= q ensures Get(tree, q) == Get(trees[0], q) {
      assert Get(tree, q) == Get(trees[0], q) || Below(targets, |targets|, q);
      if i :| 0 <= i < |targets| && targets[i].selected && targets[i].root <= q {
        SiblingsAreApart(targets, out, i, j, q);
      }
    }
  }

  lemma SiblingsAreApart(targets: seq<Target>, out: Path, i: nat, j: nat, q: Path)
    requires Siblings(targets, out) && i < |targets| && j < |targets| && targets[i].root <= q && targets[j].root <= q
    ensures i == j
  {
    assert q[..|out| + 1] == targets[i].root == targets[j].root;
  }

  lemma UnselectedRoots(inv: Invocation, trees: seq<Tree>, tree: Tree, code: int, reliable: bool)
    requires Chain(trees, Targets(inv)) && Outcome(trees, tree, Targets(inv), code, reliable)
    ensures !inv.all && inv.java == "" ==> Spared(trees[0], tree, inv.out, inv.appletLower + "-server-javacard")
    ensures !inv.all && inv.swift == "" ==> Spared(trees[0], tree, inv.out, inv.appletLower + "-client-swift")
    ensures !inv.all && inv.kotlin == "" ==> Spared(trees[0], tree, inv.out, inv.appletLower + "-client-kotlin")
  {
    TargetsAreSiblings(inv);
    if !inv.all && inv.java == "" {
      UnselectedIsSpared(trees, tree, Targets(inv), inv.out, code, reliable, 0, inv.appletLower + "-server-javacard");
    }
    if !inv.all && inv.swift == "" {
      UnselectedIsSpared(trees, tree, Targets(inv), inv.out, code, reliable, 1, inv.appletLower + "-client-swift");
    }
    if !inv.all && inv.kotlin == "" {
      UnselectedIsSpared(trees, tree, Targets(inv), inv.out, code, reliable, 2, inv.appletLower + "-client-kotlin");
    }
  }

  lemma DoneHadOutput(trees: seq<Tree>, targets: seq<Target>, i: nat)
    requires Chain(trees, targets) && i < |trees| - 1 && targets[i].selected
    ensures targets[i].output.Some?
  {
    assert TargetStep(trees[i], trees[i + 1], targets[i]);
  }

  // A target whose plugin fails is not got past: the roots of later ones are as they were.
  lemma FailureSparesLater(
      trees: seq<Tree>, tree: Tree, targets: seq<Target>, out: Path, code: int, reliable: bool,
      i: nat, j: nat, directory: string)
    requires Chain(trees, targets) && Siblings(targets, out) && Outcome(trees, tree, targets, code, reliable)
    requires i < j < |targets| && targets[i].selected && targets[i].output.None?
    requires targets[j].root == out + [directory]
    ensures code != 0 && Spared(trees[0], tree, out, directory)
  {
    if i < |trees| - 1 {
      DoneHadOutput(trees, targets, i);
    }
    var k := |trees| - 1;
    forall q | out + [directory] <= q ensures Get(tree, q) == Get(trees[0], q) {
      LaterRootsUntouched(trees, targets, out, k, j, q);
      if Get(tree, q) != Get(trees[k], q) {
        OnlyTheRootIsTouched(trees[k], tree, targets[k].root, targets[k].output.value, q);
        SiblingsAreApart(targets, out, k, j, q);
      }
    }
  }

  lemma FailingPlugins(inv: Invocation, trees: seq<Tree>, tree: Tree, code: int, reliable: bool)
    requires Chain(trees, Targets(inv)) && Outcome(trees, tree, Targets(inv), code, reliable)
    ensures (inv.all || inv.java != "") && inv.javaOutput.None?
            ==> code == 2 && tree == trees[0]
    ensures (inv.all || inv.swift != "") && inv.swiftOutput.None?
            ==> code != 0 && Spared(trees[0], tree, inv.out, inv.appletLower + "-client-kotlin")
  {
    TargetsAreSiblings(inv);
    if (inv.all || inv.java != "") && |trees| > 1 {
      DoneHadOutput(trees, Targets(inv), 0);
    }
    if (inv.all || inv.swift != "") && inv.swiftOutput.None? {
      FailureSparesLater(trees, tree, Targets(inv), inv.out, code, reliable, 1, 2, inv.appletLower + "-client-kotlin");
    }
  }

  // A run: either it ends before the first target, and the file system is as it was, or it is a
  // run over the three targets, with each language's files under its own directory and nothing
  // under the directories of languages that are not asked for. Languages are taken in the order
  // Java, Swift, Kotlin. The output directory is given as any path that leads to inv.out.
  method RunWithPlugins(fs: FileSystem, inv: Invocation) returns (code: int, ghost trees: seq<Tree>)
    requires fs.Mounted() && fs.mount.base <= inv.out && Plain(fs.tree, inv.out)
    modifies fs`tree
    ensures trees != [] <==> SchemaGiven(inv) && !inv.validateOnly && CanGenerate(inv)
    ensures trees == [] ==> fs.tree == old(fs.tree) && code in {0, 1, 2, 3}
    ensures trees == [] ==>
      && (code == 0 <==> inv.flags.FlagHelp? || (inv.flags.FlagsOk? && inv.help)
                         || (SchemaGiven(inv) && inv.validateOnly))
      && (code == 1 <==> inv.flags.FlagsOk? && !inv.help && inv.arguments == 1
                         && (inv.schema.Invalid? || (inv.schema.Parsed? && inv.validationErrors > 0)))
      && (code == 3 <==> inv.flags.FlagsOk? && !inv.help && inv.arguments == 1 && inv.schema.Unreadable?)
    ensures trees != [] ==>
      && Chain(trees, Targets(inv)) && trees[0] == old(fs.tree)
      && Outcome(trees, fs.tree, Targets(inv), code, fs.reliable)
    ensures trees != [] && code == 0 && (inv.all || inv.java != "")
            ==> Delivered(fs.tree, inv.out, inv.appletLower + "-server-javacard", inv.javaOutput)
    ensures trees != [] && code == 0 && (inv.all || inv.swift != "")
            ==> Delivered(fs.tree, inv.out, inv.appletLower + "-client-swift", inv.swiftOutput)
    ensures trees != [] && code == 0 && (inv.all || inv.kotlin != "")
            ==> Delivered(fs.tree, inv.out, inv.appletLower + "-client-kotlin", inv.kotlinOutput)
    ensures trees != [] && (inv.all || inv.java != "") && inv.javaOutput.None?
            ==> code == 2 && fs.tree == old(fs.tree)
    ensures trees != [] && (inv.all || inv.swift != "") && inv.swiftOutput.None?
            ==> code != 0 && Spared(old(fs.tree), fs.tree, inv.out, inv.appletLower + "-client-kotlin")
    ensures !inv.all && inv.java == ""
            ==> Spared(old(fs.tree), fs.tree, inv.out, inv.appletLower + "-server-javacard")
    ensures !inv.all && inv.swift == ""
            ==> Spared(old(fs.tree), fs.tree, inv.out, inv.appletLower + "-client-swift")
    ensures !inv.all && inv.kotlin == ""
            ==> Spared(old(fs.tree), fs.tree, inv.out, inv.appletLower + "-client-kotlin")
  {
    trees := [];
    var early := EarlyExit(inv);
    if early.Some? {
      return early.value, trees;
    }
    TargetsAreSiblings(inv);
    code, trees := RunTargets(fs, Targets(inv), inv.out);
    ReachedRoots(inv, trees, fs.tree, code, fs.reliable);
    UnselectedRoots(inv, trees, fs.tree, code, fs.reliable);
    FailingPlugins(inv, trees, fs.tree, code, fs.reliable);
  }

  // The refusals and answers that come before the first target.
  method EarlyExit(inv: Invocation) returns (code: Option<int>)
    ensures code.None? <==> SchemaGiven(inv) && !inv.validateOnly && CanGenerate(inv)
    ensures code.Some? ==>
      && code.value in {0, 1, 2, 3}
      && (code.value == 0 <==> inv.flags.FlagHelp? || (inv.flags.FlagsOk? && inv.help)
                               || (SchemaGiven(inv) && inv.validateOnly))
      && (code.value == 1 <==> inv.flags.FlagsOk? && !inv.help && inv.arguments == 1
                               && (inv.schema.Invalid? || (inv.schema.Parsed? && inv.validationErrors > 0)))
      && (code.value == 3 <==> inv.flags.FlagsOk? && !inv.help && inv.arguments == 1 && inv.schema.Unreadable?)
  {
    if inv.flags.FlagHelp? {
      return Some(0);
    }
    if inv.flags.FlagError? {
      return Some(2);
    }
    if inv.help {
      return Some(0);
    }
    if inv.arguments != 1 {
      return Some(2);
    }
    if !inv.schema.Parsed? {
      return Some(if inv.schema.Unreadable? then 3 else 1);
    }
    if inv.validationErrors > 0 {
      return Some(1);
    }
    if inv.validateOnly {
      return Some(0);
    }
    if !inv.dependencyOk {
      return Some(2);
    }
    if !Selected(inv, inv.java) && !Selected(inv, inv.swift) && !Selected(inv, inv.kotlin) {
      return Some(2);
    }
    if Selected(inv, inv.swift) && inv.streams {
      return Some(2);
    }
    return None;
  }
}
