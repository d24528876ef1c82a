/**
 Paths that go through symbolic links: where they lead, and why work below such a directory is
 work below the directory it leads to.
 */
module LinkedPaths {
  import opened Wrappers
  import opened FileTree

  /** A directory as it is written, and the physical directory that it is. */
  datatype Mount = Mount(head: Path, base: Path)

  ghost predicate Leads(t: Tree, m: Mount) {
    Resolve(t, m.head, true) == At(m.base) && IsDir(t, m.base)
  }

  // The way a physical path below the mount is written.
  function As(m: Mount, p: Path): Path
    requires m.base <= p
  {
    m.head + p[|m.base|..]
  }

  // A longer path follows the shorter one to where that leads, or fails as it does.
  lemma {:induction false} WalkOn(t: Tree, here: Path, todo: Path, rest: Path, follow: bool, links: nat)
    returns (left: nat)
    requires rest != []
    ensures left <= links
    ensures var found := Walk(t, here, todo, true, links);
            Walk(t, here, todo + rest, follow, links)
            == if found.At? then Walk(t, found.path, rest, follow, left) else found
    decreases links, |todo|
  {
    left := links;
    if todo == [] {
      assert todo + rest == rest;
    } else if here in t && t[here].Dir? {
      assert (todo + rest)[0] == todo[0] && (todo + rest)[1..] == todo[1..] + rest;
      var next := here + [todo[0]];
      if next in t && t[next].Link? {
        if links > 0 {
          var target := t[next].target;
          assert target + (todo[1..] + rest) == (target + todo[1..]) + rest;
          left := WalkOn(t, [], target + todo[1..], rest, follow, links - 1);
        }
      } else {
        left := WalkOn(t, next, todo[1..], rest, follow, links);
      }
    }
  }

  // Without links in the rest of the path, how many may still be followed does not matter.
  lemma {:induction false} LinksDoNotMatter(t: Tree, here: Path, todo: Path, follow: bool, m: nat, n: nat)
    requires forall i | 0 <= i <= |todo| && (i < |todo| || follow) && 0 < i ::
               Get(t, here + todo[..i]).Some? ==> !Get(t, here + todo[..i]).value.Link?
    ensures Walk(t, here, todo, follow, m) == Walk(t, here, todo, follow, n)
    decreases |todo|
  {
    if todo != [] && here in t && t[here].Dir? {
      var next := here + [todo[0]];
      assert here + todo[..1] == next;
      forall i | 0 < i <= |todo| - 1 ensures next + todo[1..][..i] == here + todo[..i + 1] {
      }
      LinksDoNotMatter(t, next, todo[1..], follow, m, n);
    }
  }

  lemma DirIsPlain(t: Tree, p: Path)
    requires Wf(t) && IsDir(t, p)
    ensures Plain(t, p)
  {
    assert p[..|p|] == p;
    forall i | 0 <= i < |p| ensures IsDir(t, p[..i]) {
      AncestorsAreDirs(t, p, i);
    }
  }

  lemma FromBase(t: Tree, base: Path, rest: Path, follow: bool) returns (left: nat)
    requires Wf(t) && IsDir(t, base) && rest != []
    ensures Resolve(t, base + rest, follow) == Walk(t, base, rest, follow, left)
  {
    DirIsPlain(t, base);
    PlainIsDirect(t, base, true);
    ResolveDirect(t, base, true);
    left := WalkOn(t, [], base, rest, follow, MAX_LINKS);
  }

  lemma DirectFromBase(t: Tree, base: Path, rest: Path, follow: bool, m: nat, n: nat)
    requires Direct(t, base + rest, follow)
    ensures Walk(t, base, rest, follow, m) == Walk(t, base, rest, follow, n)
  {
    var p := base + rest;
    forall i | 0 < i <= |rest| ensures base + rest[..i] == p[..|base| + i] {
    }
    assert p[..|p|] == p;
    LinksDoNotMatter(t, base, rest, follow, m, n);
  }

  lemma SameBelow(t: Tree, m: Mount, rest: Path, follow: bool)
    requires Wf(t) && Leads(t, m) && rest != [] && Direct(t, m.base + rest, follow)
    ensures Resolve(t, m.head + rest, follow) == Resolve(t, m.base + rest, follow)
  {
    var left := WalkOn(t, [], m.head, rest, follow, MAX_LINKS);
    var direct := FromBase(t, m.base, rest, follow);
    DirectFromBase(t, m.base, rest, follow, left, direct);
  }

  // Below the mount, a path without links leads where it is written to lead.
  lemma ResolveThrough(t: Tree, m: Mount, p: Path, follow: bool)
    requires Wf(t) && Leads(t, m) && m.base < p && Direct(t, p, follow)
    ensures Resolve(t, As(m, p), follow) == Resolve(t, p, follow)
  {
    var rest := p[|m.base|..];
    assert p == m.base + rest;
    SameBelow(t, m, rest, follow);
  }

  // Every directory and link is still what it was.
  ghost predicate Keeps(t: Tree, t': Tree) {
    forall q :: Get(t, q).Some? && !Get(t, q).value.File? ==> Get(t', q) == Get(t, q)
  }

  lemma {:induction false} WalkStays(t: Tree, t': Tree, here: Path, todo: Path, links: nat)
    requires Keeps(t, t') && Walk(t, here, todo, true, links).At? && IsDir(t, Walk(t, here, todo, true, links).path)
    ensures Walk(t', here, todo, true, links) == Walk(t, here, todo, true, links)
    decreases links, |todo|
  {
    if todo != [] {
      var next := here + [todo[0]];
      assert Get(t', here) == Get(t, here);
      if next in t && t[next].Link? {
        assert Get(t', next) == Get(t, next);
        WalkStays(t, t', [], t[next].target + todo[1..], links - 1);
      } else {
        WalkStays(t, t', next, todo[1..], links);
        StaysNoLink(t, t', next, todo[1..], links);
      }
    }
  }

  // What a path leads through is there, so it has not become a link.
  lemma StaysNoLink(t: Tree, t': Tree, here: Path, todo: Path, links: nat)
    requires Keeps(t, t') && Walk(t, here, todo, true, links).At? && IsDir(t, Walk(t, here, todo, true, links).path)
    ensures IsDir(t, here) && IsDir(t', here)
  {
    assert Get(t', here) == Get(t, here);
  }

  lemma MountStays(t: Tree, t': Tree, m: Mount)
    requires Leads(t, m) && Keeps(t, t')
    ensures Leads(t', m)
  {
    WalkStays(t, t', [], m.head, MAX_LINKS);
    assert Get(t', m.base) == Get(t, m.base);
  }

  lemma AddingKeeps(t: Tree, t': Tree, p: Path)
    requires DirsAdded(t, t', p)
    ensures Keeps(t, t')
  {
    forall q | Get(t, q).Some? ensures Get(t', q) == Get(t, q) {
    }
  }

  lemma MadeIsPlain(t: Tree, t': Tree, p: Path)
    requires p != [] && Plain(t, p) && DirsAdded(t, t', Parent(p))
    ensures Plain(t', p)
  {
    forall i | 0 <= i <= |p| ensures Get(t', p[..i]) == Get(t, p[..i]) || IsDir(t', p[..i]) {
      assert Get(t', p[..i]) == if p[..i] <= Parent(p) && Get(t, p[..i]).None? then Some(Dir) else Get(t, p[..i]);
    }
  }

  // ---- Where a directory leads, if anywhere.

  // The written directory, and the physical path it stands for, which need not exist yet.
  ghost predicate LeadsTo(t: Tree, written: Path, m: Mount, out: Path) {
    m.head <= written && Leads(t, m) && m.base <= out && As(m, out) == written && Plain(t, out)
  }

  // A link on the way that does not lead to a directory: it dangles, goes round in circles or
  // ends at a file.
  ghost predicate BarredAt(t: Tree, written: Path, k: nat, base: Path) {
    && k < |written| && Leads(t, Mount(written[..k], base))
    && Get(t, base + [written[k]]).Some? && Get(t, base + [written[k]]).value.Link?
    && Stat(t, written[..k + 1]) != Exists(Dir)
  }

  ghost predicate Barred(t: Tree, written: Path) {
    exists k, base :: BarredAt(t, written, k, base)
  }

  // One name further on from a directory.
  lemma NextName(t: Tree, written: Path, k: nat, base: Path) returns (next: Path)
    requires Wf(t) && k < |written| && Leads(t, Mount(written[..k], base))
    ensures Stat(t, written[..k + 1]) == Exists(Dir) ==> Leads(t, Mount(written[..k + 1], next))
    ensures Stat(t, written[..k + 1]) != Exists(Dir) ==> !IsDir(t, base + [written[k]])
  {
    var left := WalkOn(t, [], written[..k], [written[k]], true, MAX_LINKS);
    assert written[..k] + [written[k]] == written[..k + 1];
    var found := Resolve(t, written[..k + 1], true);
    next := if found.At? then found.path else [];
  }

  ghost predicate LeadsSomewhere(t: Tree, written: Path) {
    exists m, out :: LeadsTo(t, written, m, out)
  }

  lemma {:induction false} LeadsOrIsBarred(t: Tree, written: Path, k: nat, base: Path)
    requires Wf(t) && k <= |written| && Leads(t, Mount(written[..k], base))
    ensures LeadsSomewhere(t, written) || Barred(t, written)
    decreases |written| - k
  {
    if k == |written| {
      assert written[..k] == written;
      LeadsToItself(t, Mount(written, base));
    } else {
      var next := NextName(t, written, k, base);
      if Stat(t, written[..k + 1]) == Exists(Dir) {
        LeadsOrIsBarred(t, written, k + 1, next);
      } else {
        EndsAt(t, written, k, base);
      }
    }
  }

  lemma EndsAt(t: Tree, written: Path, k: nat, base: Path)
    requires Wf(t) && k < |written| && Leads(t, Mount(written[..k], base))
    requires Stat(t, written[..k + 1]) != Exists(Dir) && !IsDir(t, base + [written[k]])
    ensures LeadsSomewhere(t, written) || Barred(t, written)
  {
    if Get(t, base + [written[k]]).Some? && Get(t, base + [written[k]]).value.Link? {
      assert BarredAt(t, written, k, base);
    } else {
      LeadsToMissing(t, written, k, base);
    }
  }

  lemma LeadsToItself(t: Tree, m: Mount)
    requires Wf(t) && Leads(t, m)
    ensures LeadsTo(t, m.head, m, m.base)
  {
    DirIsPlain(t, m.base);
  }

  lemma LeadsToMissing(t: Tree, written: Path, k: nat, base: Path)
    requires Wf(t) && k < |written| && Leads(t, Mount(written[..k], base))
    requires Get(t, base + [written[k]]).None? || Get(t, base + [written[k]]).value.File?
    ensures LeadsTo(t, written, Mount(written[..k], base), base + written[k..])
  {
    NothingBeyond(t, base, written[k..]);
    assert (base + written[k..])[|base|..] == written[k..];
  }

  // Where the next step is no directory, and no link, there is nothing further on.
  lemma NothingBeyond(t: Tree, base: Path, rest: Path)
    requires Wf(t) && IsDir(t, base) && rest != []
    requires Get(t, base + [rest[0]]).None? || Get(t, base + [rest[0]]).value.File?
    ensures Plain(t, base + rest)
  {
    var p := base + rest;
    DirIsPlain(t, base);
    forall i | 0 <= i <= |p| ensures Get(t, p[..i]).Some? ==> !Get(t, p[..i]).value.Link? {
      if i <= |base| {
        assert p[..i] == base[..i];
      } else {
        NotPastFile(t, base, rest, i - |base|);
        assert p[..i] == base + rest[..i - |base|];
      }
    }
  }

  lemma NotPastFile(t: Tree, base: Path, rest: Path, i: nat)
    requires Wf(t) && 0 < i <= |rest|
    requires Get(t, base + [rest[0]]).None? || Get(t, base + [rest[0]]).value.File?
    ensures Get(t, base + rest[..i]).Some? ==> !Get(t, base + rest[..i]).value.Link?
  {
    var q, n := base + rest[..i], |base| + 1;
    assert q[..n] == base + [rest[0]];
    if i > 1 && q in t {
      AncestorsAreDirs(t, q, n);
    } else if i == 1 {
      assert q == q[..n];
    }
  }

  // Every directory that can be given leads somewhere or is barred.
  lemma EveryDirectoryLeadsOrIsBarred(t: Tree, written: Path)
    requires Wf(t)
    ensures LeadsSomewhere(t, written) || Barred(t, written)
  {
    assert written[..0] == [];
    LeadsOrIsBarred(t, written, 0, []);
  }

  // Below a barred directory nothing can be made, and nothing is changed in trying.
  lemma {:induction false} BarredIsUntouched(t: Tree, written: Path, k: nat, base: Path, n: nat)
    requires Wf(t) && BarredAt(t, written, k, base) && k < n <= |written|
    ensures MkdirAll(t, written[..n]) == (t, false)
    decreases n
  {
    assert Parent(written[..n]) == written[..n - 1];
    if n == k + 1 {
      BarredAtLink(t, written, k, base);
    } else {
      BarredIsUntouched(t, written, k, base, n - 1);
      BarredBelow(t, written, k, base, n);
    }
  }

  lemma BarredAtLink(t: Tree, written: Path, k: nat, base: Path)
    requires Wf(t) && BarredAt(t, written, k, base)
    ensures MkdirAll(t, written[..k + 1]) == (t, false)
  {
    assert written[..k] + [written[k]] == written[..k + 1];
    StatOfMount(t, Mount(written[..k], base));
    LinkIsThere(t, written[..k], written[k], base);
    NothingIsMade(t, written[..k], written[k], base);
  }

  lemma LinkIsThere(t: Tree, head: Path, name: string, base: Path)
    requires Wf(t) && Leads(t, Mount(head, base))
    ensures Resolve(t, head + [name], false) == At(base + [name])
  {
    var left := WalkOn(t, [], head, [name], false, MAX_LINKS);
  }

  // The directory above is there and a link is in the way.
  lemma NothingIsMade(t: Tree, head: Path, name: string, base: Path)
    requires Stat(t, head) == Exists(Dir) && Stat(t, head + [name]) != Exists(Dir)
    requires Resolve(t, head + [name], false) == At(base + [name])
    requires Get(t, base + [name]).Some? && Get(t, base + [name]).value.Link?
    ensures MkdirAll(t, head + [name]) == (t, false)
  {
    assert Parent(head + [name]) == head;
  }

  lemma BarredBelow(t: Tree, written: Path, k: nat, base: Path, n: nat)
    requires BarredAt(t, written, k, base) && k + 1 < n <= |written|
    ensures !Stat(t, written[..n]).Exists?
  {
    var rest := written[k + 1..n];
    assert written[..n] == written[..k + 1] + rest;
    var left := WalkOn(t, [], written[..k + 1], rest, true, MAX_LINKS);
  }

  lemma StatOfMount(t: Tree, m: Mount)
    requires Leads(t, m)
    ensures Stat(t, m.head) == Exists(Dir)
  {
  }
}
