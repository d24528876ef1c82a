/** The slash-separated file names of a generated package, and how path/filepath takes them apart. */
module PackageNames {
  import opened FileTree

  // strings.LastIndexByte(name, '/')
  function LastSlash(name: string): (k: int)
    ensures -1 <= k < |name|
    ensures k >= 0 ==> name[k] == '/'
  {
    if name == [] then -1
    else if name[|name| - 1] == '/' then |name| - 1
    else LastSlash(name[..|name| - 1])
  }

  // strings.Split(name, "/")
  function Split(name: string): (parts: Path)
    ensures parts != []
    decreases |name|
  {
    var k := LastSlash(name);
    if k < 0 then [name] else Split(name[..k]) + [name[k + 1..]]
  }

  function Join(parts: Path): string
    requires parts != []
  {
    if |parts| == 1 then parts[0] else Join(Parent(parts)) + "/" + parts[|parts| - 1]
  }

  lemma {:induction false} JoinSplit(name: string)
    ensures Join(Split(name)) == name
    decreases |name|
  {
    var k := LastSlash(name);
    if k >= 0 {
      JoinSplit(name[..k]);
      var first := Split(name[..k]);
      assert Parent(first + [name[k + 1..]]) == first;
      assert name == name[..k] + "/" + name[k + 1..];
    }
  }

  ghost predicate NoSlashes(parts: Path) {
    forall e | e in parts :: '/' !in e
  }

  lemma {:induction false} PartsHaveNoSlash(name: string)
    ensures NoSlashes(Split(name))
    decreases |name|
  {
    var k := LastSlash(name);
    LastSlashIsLast(name);
    if k >= 0 {
      PartsHaveNoSlash(name[..k]);
    }
  }

  lemma {:induction false} LastSlashIsLast(name: string)
    ensures forall i | LastSlash(name) < i < |name| :: name[i] != '/'
  {
    if name != [] && name[|name| - 1] != '/' {
      LastSlashIsLast(name[..|name| - 1]);
    }
  }

  lemma LastSlashAt(name: string, k: int)
    requires -1 <= k < |name| && (k >= 0 ==> name[k] == '/') && forall i | k < i < |name| :: name[i] != '/'
    ensures LastSlash(name) == k
  {
    LastSlashIsLast(name);
  }

  // Parts without a slash, joined by slashes, are what a name is taken apart into: there is no
  // other way to take it apart.
  lemma {:induction false} SplitJoin(parts: Path, name: string)
    requires parts != [] && NoSlashes(parts) && name == Join(parts)
    ensures Split(name) == parts
  {
    var last := parts[|parts| - 1];
    assert last in parts;
    if |parts| == 1 {
      LastSlashAt(name, -1);
      assert parts == [name];
    } else {
      var front := Parent(parts);
      assert forall e | e in front :: e in parts;
      SplitJoin(front, Join(front));
      SplitLast(name, Join(front), last);
      assert parts == front + [last];
    }
  }

  lemma SplitLast(name: string, front: string, last: string)
    requires name == front + "/" + last && '/' !in last
    ensures Split(name) == Split(front) + [last]
  {
    LastSlashAt(name, |front|);
    assert name[..|front|] == front && name[|front| + 1..] == last;
  }

  lemma SplitInjective(a: string, b: string)
    requires Split(a) == Split(b)
    ensures a == b
  {
    JoinSplit(a);
    JoinSplit(b);
  }

  // filepath.Dir of a name that is already clean: "." above a single element, "/" above a rooted one.
  function DirOf(name: string): string {
    var k := LastSlash(name);
    if k < 0 then "." else if k == 0 then "/" else name[..k]
  }

  predicate Element(e: string) {
    e != "" && e != "." && e != ".." && '\0' !in e
  }

  // fs.ValidPath, not ".", no NUL byte; on a system whose separator is '/' the name is then local
  // and filepath.ToSlash leaves it alone.
  predicate Canonical(name: string) {
    forall e | e in Split(name) :: Element(e)
  }

  // ---- What path/filepath makes of components: "" and "." go, ".." takes one back.

  // filepath.Clean of a relative path, after `done`; what climbs above its start stays in front.
  function Clean(done: Path, parts: Path): Path
    decreases |parts|
  {
    if parts == [] then done
    else if parts[0] == "" || parts[0] == "." then Clean(done, parts[1..])
    else if parts[0] != ".." || done == [] || done[|done| - 1] == ".." then Clean(done + [parts[0]], parts[1..])
    else Clean(Parent(done), parts[1..])
  }

  // filepath.Join of an absolute directory and a relative path: above the root there is nothing.
  function JoinFrom(here: Path, parts: Path): Path
    decreases |parts|
  {
    if parts == [] then here
    else if parts[0] == "" || parts[0] == "." then JoinFrom(here, parts[1..])
    else if parts[0] != ".." then JoinFrom(here + [parts[0]], parts[1..])
    else JoinFrom(if here == [] then [] else Parent(here), parts[1..])
  }

  predicate Climbs(cleaned: Path) {
    cleaned != [] && cleaned[0] == ".."
  }

  ghost predicate PlainParts(parts: Path) {
    forall e | e in parts :: e != "" && e != "." && e != ".."
  }

  lemma {:induction false} CleanKeeps(done: Path, parts: Path)
    requires PlainParts(parts)
    ensures Clean(done, parts) == done + parts
    decreases |parts|
  {
    if parts != [] {
      assert parts[0] in parts && forall e | e in parts[1..] :: e in parts;
      CleanKeeps(done + [parts[0]], parts[1..]);
      assert done + [parts[0]] + parts[1..] == done + parts;
    } else {
      assert done + parts == done;
    }
  }

  // Cleaning leaves no "" and no ".", and ".." only in front.
  ghost predicate IsClean(p: Path) {
    (forall e | e in p :: e != "" && e != ".")
    && forall i | 0 < i < |p| && p[i] == ".." :: p[i - 1] == ".."
  }

  lemma {:induction false} CleanIsClean(done: Path, parts: Path)
    requires IsClean(done)
    ensures IsClean(Clean(done, parts))
    decreases |parts|
  {
    if parts != [] {
      CleanIsClean(done, parts[1..]);
      if parts[0] != "" && parts[0] != "." {
        if parts[0] != ".." || done == [] || done[|done| - 1] == ".." {
          assert IsClean(done + [parts[0]]);
          CleanIsClean(done + [parts[0]], parts[1..]);
        } else {
          assert forall e | e in Parent(done) :: e in done;
          CleanIsClean(Parent(done), parts[1..]);
        }
      }
    }
  }

  lemma {:induction false} DotsComeFirst(p: Path, i: nat)
    requires IsClean(p) && i < |p| && p[i] == ".."
    ensures Climbs(p)
  {
    if i > 0 {
      DotsComeFirst(p, i - 1);
    }
  }

  lemma {:induction false} JoinFromAppend(here: Path, a: Path, b: Path)
    ensures JoinFrom(here, a + b) == JoinFrom(JoinFrom(here, a), b)
    decreases |a|
  {
    if a == [] {
      assert a + b == b;
    } else {
      assert (a + b)[1..] == a[1..] + b;
      JoinFromAppend(here, a[1..], b);
      JoinFromAppend(here + [a[0]], a[1..], b);
      JoinFromAppend(if here == [] then [] else Parent(here), a[1..], b);
    }
  }

  // One component more, at the end.
  lemma JoinFromSnoc(here: Path, done: Path, e: string)
    ensures JoinFrom(here, done + [e]) == JoinFrom(JoinFrom(here, done), [e])
    ensures e != "" && e != "." && e != ".." ==> JoinFrom(here, done + [e]) == JoinFrom(here, done) + [e]
  {
    JoinFromAppend(here, done, [e]);
    assert [e][1..] == [];
  }

  // Cleaning a relative path leaves where it leads as it is, from every directory.
  lemma {:induction false} CleanKeepsMeaning(here: Path, done: Path, parts: Path)
    requires IsClean(done)
    ensures JoinFrom(here, Clean(done, parts)) == JoinFrom(JoinFrom(here, done), parts)
    decreases |parts|
  {
    if parts != [] {
      var e, later := parts[0], parts[1..];
      if e == "" || e == "." {
        CleanKeepsMeaning(here, done, later);
      } else if e != ".." || done == [] || done[|done| - 1] == ".." {
        assert IsClean(done + [e]);
        CleanKeepsMeaning(here, done + [e], later);
        JoinFromSnoc(here, done, e);
        assert parts == [e] + later;
        JoinFromAppend(JoinFrom(here, done), [e], later);
      } else {
        var front := Parent(done);
        assert forall x | x in front :: x in done;
        var last := done[|done| - 1];
        CleanKeepsMeaning(here, front, later);
        assert done == front + [last] && last in done;
        JoinFromSnoc(here, front, last);
        assert Parent(JoinFrom(here, front) + [last]) == JoinFrom(here, front);
      }
    }
  }

  // The names that are accepted are those that cleaning leaves as they are and that do not climb.
  lemma CanonicalIff(name: string)
    requires '\0' !in name
    ensures Canonical(name) <==> Clean([], Split(name)) == Split(name) && !Climbs(Split(name))
  {
    var parts := Split(name);
    PartsAreOf(name);
    if Canonical(name) {
      forall e | e in parts ensures e != "" && e != "." && e != ".." {
        assert Element(e);
      }
      CleanKeeps([], parts);
      assert [] + parts == parts && parts[0] in parts;
    }
    if Clean([], parts) == parts && !Climbs(parts) {
      CleanIsClean([], parts);
      forall e | e in parts ensures Element(e) {
        var i :| 0 <= i < |parts| && parts[i] == e;
        if e == ".." {
          DotsComeFirst(parts, i);
        }
      }
    }
  }

  lemma {:induction false} PartsAreOf(name: string)
    ensures forall e, c | e in Split(name) && c in e :: c in name
    decreases |name|
  {
    var k := LastSlash(name);
    if k >= 0 {
      PartsAreOf(name[..k]);
    }
  }

  // A name with a NUL byte is not accepted.
  lemma {:induction false} NulIsRefused(name: string)
    ensures '\0' in name ==> !Canonical(name)
    decreases |name|
  {
    var k := LastSlash(name);
    if '\0' in name {
      if k < 0 {
        assert name in Split(name);
      } else {
        var last := name[k + 1..];
        assert name == name[..k] + "/" + last && last in Split(name);
        NulIsRefused(name[..k]);
        if '\0' !in last {
          var e :| e in Split(name[..k]) && !Element(e);
          assert e in Split(name);
        }
      }
    }
  }

  // So joining an accepted name to a directory goes down from there and nowhere else.
  lemma {:induction false} JoinKeeps(here: Path, parts: Path)
    requires PlainParts(parts)
    ensures JoinFrom(here, parts) == here + parts
    decreases |parts|
  {
    if parts != [] {
      assert parts[0] in parts && forall e | e in parts[1..] :: e in parts;
      JoinKeeps(here + [parts[0]], parts[1..]);
      assert here + [parts[0]] + parts[1..] == here + parts;
    } else {
      assert here + parts == here;
    }
  }

  lemma CanonicalJoins(root: Path, name: string)
    requires Canonical(name)
    ensures JoinFrom(root, Split(name)) == root + Split(name)
  {
    forall e | e in Split(name) ensures e != "" && e != "." && e != ".." {
      assert Element(e);
    }
    JoinKeeps(root, Split(name));
  }

  // Whereas a name of the form "../x" would leave the directory.
  lemma ParentEscapes(root: Path, child: string)
    requires root != [] && '/' !in child && '\0' !in child && child !in {"", ".", ".."}
    ensures !Canonical("../" + child) && JoinFrom(root, Split("../" + child)) == Parent(root) + [child]
  {
    var name, up: Path := "../" + child, [".."];
    SplitLast(name, "..", child);
    assert Split("..") == up && up[0] in Split(name);
    assert Split(name)[1..] == [child];
    JoinKeeps(Parent(root), [child]);
  }

  lemma CanonicalName(name: string)
    requires Canonical(name)
    ensures name != "" && name != "."
  {
    assert Split("") == [""] && Split(".") == ["."];
    assert Split(name)[0] in Split(name);
  }

  // One step of the parent walk: the name of the directory, or "." at the top.
  lemma DirOfCanonical(name: string)
    requires Canonical(name)
    ensures if |Split(name)| == 1 then DirOf(name) == "."
            else |DirOf(name)| < |name| && DirOf(name) != "." && Canonical(DirOf(name))
                 && Split(DirOf(name)) == Parent(Split(name))
  {
    var parts, k := Split(name), LastSlash(name);
    if k >= 0 {
      var first := Split(name[..k]);
      assert Parent(parts) == first;
      forall e | e in first ensures Element(e) {
        assert e in parts;
      }
      assert Canonical(name[..k]);
      CanonicalName(name[..k]);
    }
  }
}
