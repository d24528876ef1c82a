/**
 A file system as the package writer sees it: a tree of directories, files and symbolic links,
 with path resolution and the operations Lstat, MkdirAll and WriteFile of Go's os package.
 */
module FileTree {
  import opened Wrappers

  type Path = seq<string>

  /** A link's target is an absolute path, free of `.` and `..`. */
  datatype Node = Dir | File(data: Bytes) | Link(target: Path)

  type Tree = map<Path, Node>

  function Get(t: Tree, p: Path): Option<Node> {
    if p in t then Some(t[p]) else None
  }

  function Parent(p: Path): Path
    requires p != []
  {
    p[..|p| - 1]
  }

  // Everything but the root hangs in a directory.
  ghost predicate Wf(t: Tree) {
    && Get(t, []) == Some(Dir)
    && forall p | p in t && p != [] :: Get(t, Parent(p)) == Some(Dir)
  }

  const MAX_LINKS := 40

  /** Where a path leads; the object there need not exist, the directory around it does. */
  datatype Found = At(path: Path) | NotFound | NotADirectory | TooManyLinks

  function Walk(t: Tree, here: Path, todo: Path, follow: bool, links: nat): Found
    decreases links, |todo|
  {
    if todo == [] then At(here)
    else if here !in t then NotFound
    else if !t[here].Dir? then NotADirectory
    else
      var next := here + [todo[0]];
      if next in t && t[next].Link? && (follow || |todo| > 1) then
        if links == 0 then TooManyLinks
        else Walk(t, [], t[next].target + todo[1..], follow, links - 1)
      else Walk(t, next, todo[1..], follow, links)
  }

  function Resolve(t: Tree, p: Path, follow: bool): Found {
    Walk(t, [], p, follow, MAX_LINKS)
  }

  /** What a successful or failing stat reports. */
  datatype Status = Exists(node: Node) | Missing | NotDir | Loop

  function StatusOf(t: Tree, found: Found): Status {
    match found
    case At(p) => if p in t then Exists(t[p]) else Missing
    case NotFound => Missing
    case NotADirectory => NotDir
    case TooManyLinks => Loop
  }

  function Lstat(t: Tree, p: Path): Status {
    StatusOf(t, Resolve(t, p, false))
  }

  function Stat(t: Tree, p: Path): Status {
    StatusOf(t, Resolve(t, p, true))
  }

  // mkdir(2)
  function Mkdir(t: Tree, p: Path): Option<Tree> {
    match Resolve(t, p, false)
    case At(q) => if q in t then None else Some(t[q := Dir])
    case _ => None
  }

  // os.MkdirAll with the file system at rest: the tree it leaves and whether it succeeds.
  function MkdirAll(t: Tree, p: Path): (Tree, bool)
    decreases |p|
  {
    match Stat(t, p)
    case Exists(node) => (t, node.Dir?)
    case _ =>
      if p == [] then (t, false)
      else
        var (made, ok) := MkdirAll(t, Parent(p));
        if !ok then (made, false)
        else
          match Mkdir(made, p)
          case Some(made') => (made', true)
          case None => (made, Lstat(made, p) == Exists(Dir))
  }

  // os.WriteFile: open for writing, truncating, creating if need be; links are followed.
  function WriteFile(t: Tree, p: Path, data: Bytes): Option<Tree> {
    match Resolve(t, p, true)
    case At(q) => if q in t && !t[q].File? then None else Some(t[q := File(data)])
    case _ => None
  }

  // No object on the way to `p`, `p` included, is a link.
  ghost predicate Plain(t: Tree, p: Path) {
    forall i | 0 <= i <= |p| :: Get(t, p[..i]).Some? ==> !Get(t, p[..i]).value.Link?
  }

  ghost predicate IsDir(t: Tree, p: Path) {
    Get(t, p) == Some(Dir)
  }

  lemma {:induction false} AncestorsAreDirs(t: Tree, p: Path, i: nat)
    requires Wf(t) && p in t && i < |p|
    ensures IsDir(t, p[..i])
    decreases |p|
  {
    assert IsDir(t, Parent(p));
    if i < |p| - 1 {
      AncestorsAreDirs(t, Parent(p), i);
      assert Parent(p)[..i] == p[..i];
    }
  }

  // No link above `p`, nor at `p` itself if a link there would be followed.
  ghost predicate Direct(t: Tree, p: Path, follow: bool) {
    && (forall i | 0 <= i < |p| :: Get(t, p[..i]).Some? ==> !Get(t, p[..i]).value.Link?)
    && (follow && Get(t, p).Some? ==> !Get(t, p).value.Link?)
  }

  // Without links on the way, a path leads to itself as soon as its parent is a directory.
  lemma {:induction false} WalkDirect(t: Tree, p: Path, k: nat, follow: bool, links: nat)
    requires Wf(t) && Direct(t, p, follow) && k <= |p|
    ensures var found := Walk(t, p[..k], p[k..], follow, links);
            if k == |p| || IsDir(t, Parent(p)) then found == At(p)
            else (found == NotFound || found == NotADirectory) && p !in t
    decreases |p| - k
  {
    if k == |p| {
      assert p[..k] == p;
    } else {
      var next := p[..k] + [p[k..][0]];
      assert next == p[..k + 1] && p[k..][1..] == p[k + 1..];
      if IsDir(t, p[..k]) {
        assert k + 1 == |p| ==> next == p && p[..k] == Parent(p);
        assert k + 1 < |p| && Get(t, p[..k + 1]).Some? ==> !Get(t, p[..k + 1]).value.Link?;
        WalkDirect(t, p, k + 1, follow, links);
      } else {
        assert Parent(p)[..k] == p[..k];
        if IsDir(t, Parent(p)) && k < |p| - 1 {
          AncestorsAreDirs(t, Parent(p), k);
        }
      }
    }
  }

  lemma ResolveDirect(t: Tree, p: Path, follow: bool)
    requires Wf(t) && Direct(t, p, follow)
    ensures var found := Resolve(t, p, follow);
            && (if p == [] || IsDir(t, Parent(p)) then found == At(p)
                else (found == NotFound || found == NotADirectory) && p !in t)
            && (if p in t then StatusOf(t, found) == Exists(t[p]) else StatusOf(t, found) in {Missing, NotDir})
  {
    WalkDirect(t, p, 0, follow, MAX_LINKS);
    assert p[..0] == [] && p[0..] == p;
  }

  lemma PlainIsDirect(t: Tree, p: Path, follow: bool)
    requires Plain(t, p)
    ensures Direct(t, p, follow)
  {
    assert p[..|p|] == p;
  }

  lemma WritePlain(t: Tree, p: Path, data: Bytes)
    requires Wf(t) && p != [] && Plain(t, p) && IsDir(t, Parent(p))
    ensures WriteFile(t, p, data) == if IsDir(t, p) then None else Some(t[p := File(data)])
  {
    PlainIsDirect(t, p, true);
    ResolveDirect(t, p, true);
    assert p[..|p|] == p;
  }

  // The tree with every missing directory on the way to `p`, `p` included, added.
  ghost predicate DirsAdded(t: Tree, t': Tree, p: Path) {
    forall q :: Get(t', q) == if q <= p && Get(t, q).None? then Some(Dir) else Get(t, q)
  }

  ghost predicate Open(t: Tree, p: Path) {
    forall i | 0 <= i <= |p| :: Get(t, p[..i]).None? || IsDir(t, p[..i])
  }

  lemma PlainParent(t: Tree, p: Path)
    requires Plain(t, p) && p != []
    ensures Plain(t, Parent(p))
  {
    forall i | 0 <= i < |p| ensures Parent(p)[..i] == p[..i] {
    }
  }

  lemma PlainPrefix(t: Tree, p: Path, n: nat)
    requires Plain(t, p) && n <= |p|
    ensures Plain(t, p[..n])
  {
    forall i | 0 <= i <= n ensures p[..n][..i] == p[..i] {
    }
  }

  lemma OpenParent(t: Tree, p: Path)
    requires p != []
    ensures Open(t, p) <==> Open(t, Parent(p)) && (Get(t, p).None? || IsDir(t, p))
  {
    assert p[..|p|] == p;
    forall i | 0 <= i < |p| ensures Parent(p)[..i] == p[..i] {
    }
  }

  // On a path without links MkdirAll succeeds exactly if nothing on it is a file, then adds the
  // missing directories of that path and nothing else; if it fails it has changed nothing.
  lemma {:induction false} MkdirAllPlain(t: Tree, p: Path)
    requires Wf(t) && Plain(t, p)
    ensures var (t', ok) := MkdirAll(t, p);
            && (ok <==> Open(t, p))
            && Wf(t')
            && if ok then DirsAdded(t, t', p) else t' == t
    decreases |p|
  {
    PlainIsDirect(t, p, true);
    ResolveDirect(t, p, true);
    if p in t {
      forall i | 0 <= i < |p| ensures IsDir(t, p[..i]) {
        AncestorsAreDirs(t, p, i);
      }
      assert p[..|p|] == p;
      if IsDir(t, p) {
        forall q | q <= p ensures Get(t, q).Some? {
          assert q == p[..|q|];
        }
      }
    } else {
      PlainParent(t, p);
      OpenParent(t, p);
      var (made, ok) := MkdirAll(t, Parent(p));
      MkdirAllPlain(t, Parent(p));
      if ok {
        MkdirLast(t, made, p);
      }
    }
  }

  lemma MkdirLast(t: Tree, made: Tree, p: Path)
    requires Wf(t) && Wf(made) && Plain(t, p) && p != [] && p !in t
    requires Open(t, Parent(p)) && DirsAdded(t, made, Parent(p))
    ensures Mkdir(made, p).Some? && Wf(Mkdir(made, p).value) && DirsAdded(t, Mkdir(made, p).value, p)
  {
    assert Get(made, Parent(p)).Some?;
    assert !(p <= Parent(p));
    forall i | 0 <= i <= |p| ensures Get(made, p[..i]).Some? ==> !Get(made, p[..i]).value.Link? {
      assert Get(made, p[..i]) == Some(Dir) || Get(made, p[..i]) == Get(t, p[..i]);
    }
    ParentIsDir(t, made, p);
    PlainIsDirect(made, p, false);
    ResolveDirect(made, p, false);
    assert Get(made, p) == Get(t, p);
    var after := Mkdir(made, p).value;
    forall q ensures Get(after, q) == if q <= p && Get(t, q).None? then Some(Dir) else Get(t, q) {
      assert q <= p <==> q <= Parent(p) || q == p;
      assert Get(made, q) == if q <= Parent(p) && Get(t, q).None? then Some(Dir) else Get(t, q);
    }
  }

  lemma ParentIsDir(t: Tree, made: Tree, p: Path)
    requires p != [] && Wf(t) && Plain(t, p) && Open(t, Parent(p)) && DirsAdded(t, made, Parent(p))
    ensures IsDir(made, Parent(p))
  {
    assert Parent(p)[..|p| - 1] == Parent(p);
  }
}
