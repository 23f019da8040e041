// The invariants of the folder forest: acyclic parent links (witnessed by a
// depth for every folder), parent and child links that agree, dotted paths that
// follow the parent links, and organizations shared along every link.

module Hierarchy {
  import opened Folders

  /** `depth` ranks the parent links: a root has depth 0 and every other folder
      is one deeper than its parent. Such a ranking exists exactly when
      following parent links always reaches a root. */
  ghost predicate Ranked(ps: seq<Option<nat>>, depth: seq<nat>) {
    |depth| == |ps| &&
    forall i :: 0 <= i < |ps| ==>
      (ps[i].None? ==> depth[i] == 0) &&
      (ps[i].Some? ==> ps[i].value < |ps| && depth[i] == depth[ps[i].value] + 1)
  }

  /** The parent chain of `x`: `x` itself, its parent, its grandparent, ... up to a root. */
  ghost function Chain(ps: seq<Option<nat>>, depth: seq<nat>, x: nat): (c: seq<nat>)
    requires Ranked(ps, depth) && x < |ps|
    ensures |c| == depth[x] + 1 && c[0] == x
    ensures forall k :: 0 <= k < |c| ==> c[k] < |ps|
    decreases depth[x]
  {
    match ps[x]
    case None => [x]
    case Some(p) => [x] + Chain(ps, depth, p)
  }

  /** The folders whose parent chain passes through `i`: `i` and its descendants. */
  ghost function Subtree(ps: seq<Option<nat>>, depth: seq<nat>, i: nat): set<nat>
    requires Ranked(ps, depth)
  {
    set x | 0 <= x < |ps| && i in Chain(ps, depth, x)
  }

  ghost predicate NoDup(s: seq<nat>) {
    forall a, b :: 0 <= a < b < |s| ==> s[a] != s[b]
  }

  /** Child indices are in range and listed once, and `c` is a child of `i`
      exactly when `i` is the parent of `c`. */
  ghost predicate ChildrenAgree(fs: seq<Folder>) {
    (forall i, k :: 0 <= i < |fs| && 0 <= k < |fs[i].children| ==> fs[i].children[k] < |fs|) &&
    (forall i :: 0 <= i < |fs| ==> NoDup(fs[i].children)) &&
    (forall i, c :: 0 <= i < |fs| && 0 <= c < |fs| ==> (c in fs[i].children <==> fs[c].parent == Some(i)))
  }

  /** The structural invariant of the forest: ranked (so acyclic) parent links
      that agree with the child lists. */
  ghost predicate WellLinked(fs: seq<Folder>, depth: seq<nat>) {
    Ranked(ParentLinks(fs), depth) && ChildrenAgree(fs)
  }

  /** Every path is the parent's path, a dot and the name; a root's path is its name. */
  ghost predicate PathsConsistent(fs: seq<Folder>) {
    forall i :: 0 <= i < |fs| ==>
      (fs[i].parent.None? ==> fs[i].paths == fs[i].name) &&
      (fs[i].parent.Some? && fs[i].parent.value < |fs| ==>
         fs[i].paths == fs[fs[i].parent.value].paths + "." + fs[i].name)
  }

  /** The path of `x` is its parent's path, a dot and its name. */
  ghost predicate PathFollowsParent(fs: seq<Folder>, x: nat)
    requires x < |fs|
  {
    fs[x].parent.Some? && fs[x].parent.value < |fs| &&
    fs[x].paths == fs[fs[x].parent.value].paths + "." + fs[x].name
  }

  /** Linked folders belong to the same organization. */
  ghost predicate OrgsConsistent(fs: seq<Folder>) {
    forall i :: 0 <= i < |fs| && fs[i].parent.Some? && fs[i].parent.value < |fs| ==>
      fs[fs[i].parent.value].orgId == fs[i].orgId
  }

  /** The path obtained by walking the parent links to the root and joining the
      names, root first, with dots. */
  ghost function JoinedPath(fs: seq<Folder>, depth: seq<nat>, x: nat): string
    requires Ranked(ParentLinks(fs), depth) && x < |fs|
    decreases depth[x]
  {
    match fs[x].parent
    case None => fs[x].name
    case Some(p) => JoinedPath(fs, depth, p) + "." + fs[x].name
  }

  // ---------------------------------------------------------------------------
  // Facts about parent chains

  /** Rewriting paths leaves the structure intact. */
  lemma WellLinkedIgnoresPaths(fs: seq<Folder>, fs': seq<Folder>, depth: seq<nat>)
    requires SameExceptPaths(fs, fs') && WellLinked(fs, depth)
    ensures ParentLinks(fs') == ParentLinks(fs) && WellLinked(fs', depth)
  {
    SameExceptPathsLinks(fs, fs');
    assert forall i :: 0 <= i < |fs| ==> fs'[i].children == fs[i].children && fs'[i].parent == fs[i].parent;
  }

  /** Every folder on the chain of `x` is at most as deep as `x`, and strictly
      less deep unless it is `x`. */
  lemma {:induction false} ChainDepth(ps: seq<Option<nat>>, depth: seq<nat>, x: nat, y: nat)
    requires Ranked(ps, depth) && x < |ps|
    requires y in Chain(ps, depth, x)
    ensures y < |ps| && depth[y] <= depth[x]
    ensures y != x ==> depth[y] < depth[x]
    decreases depth[x]
  {
    if y != x {
      var p := ps[x].value;
      ChainDepth(ps, depth, p, y);
    }
  }

  /** A chain holds at most one folder of each depth. */
  lemma {:induction false} ChainUniqueAtDepth(ps: seq<Option<nat>>, depth: seq<nat>, x: nat, a: nat, b: nat)
    requires Ranked(ps, depth) && x < |ps|
    requires a in Chain(ps, depth, x) && b in Chain(ps, depth, x)
    requires depth[a] == depth[b]
    ensures a == b
    decreases depth[x]
  {
    if a != x && b != x {
      ChainUniqueAtDepth(ps, depth, ps[x].value, a, b);
    } else if a != x {
      ChainDepth(ps, depth, x, a);
    } else if b != x {
      ChainDepth(ps, depth, x, b);
    }
  }

  /** Ancestors of an ancestor of `x` are ancestors of `x`. */
  lemma {:induction false} ChainTransitive(ps: seq<Option<nat>>, depth: seq<nat>, x: nat, a: nat, b: nat)
    requires Ranked(ps, depth) && x < |ps|
    requires a in Chain(ps, depth, x)
    requires b in Chain(ps, depth, a)
    ensures b in Chain(ps, depth, x)
    decreases depth[x]
  {
    if a != x {
      ChainTransitive(ps, depth, ps[x].value, a, b);
    }
  }

  /** If `i` is a proper ancestor of `x`, one of `i`'s children lies on the chain of `x`. */
  lemma {:induction false} ChildToward(ps: seq<Option<nat>>, depth: seq<nat>, i: nat, x: nat) returns (c: nat)
    requires Ranked(ps, depth) && x < |ps|
    requires i in Chain(ps, depth, x) && i != x
    ensures c < |ps| && c in Chain(ps, depth, x) && ps[c] == Some(i)
    decreases depth[x]
  {
    var p := ps[x].value;
    if p == i {
      c := x;
    } else {
      c := ChildToward(ps, depth, i, p);
    }
  }

  /** The subtree of a child is strictly smaller than the subtree of its parent. */
  lemma SubtreeShrinks(ps: seq<Option<nat>>, depth: seq<nat>, i: nat, c: nat)
    requires Ranked(ps, depth) && c < |ps| && ps[c] == Some(i)
    ensures Subtree(ps, depth, c) < Subtree(ps, depth, i)
  {
    forall x | x in Subtree(ps, depth, c)
      ensures x in Subtree(ps, depth, i)
    {
      ChainTransitive(ps, depth, x, c, i);
    }
    assert i in Subtree(ps, depth, i);
    if c in Chain(ps, depth, i) {
      ChainDepth(ps, depth, i, c);
    }
  }

  // ---------------------------------------------------------------------------
  // Facts about paths and organizations

  /** The local path invariant holds exactly when every path is the join of the
      names along its parent chain. */
  lemma {:induction false} PathsConsistentIffJoined(fs: seq<Folder>, depth: seq<nat>)
    requires Ranked(ParentLinks(fs), depth)
    ensures PathsConsistent(fs) <==> forall x :: 0 <= x < |fs| ==> fs[x].paths == JoinedPath(fs, depth, x)
  {
    if PathsConsistent(fs) {
      forall x | 0 <= x < |fs|
        ensures fs[x].paths == JoinedPath(fs, depth, x)
      {
        ConsistentPathIsJoined(fs, depth, x);
      }
    }
  }

  lemma {:induction false} ConsistentPathIsJoined(fs: seq<Folder>, depth: seq<nat>, x: nat)
    requires Ranked(ParentLinks(fs), depth) && x < |fs|
    requires PathsConsistent(fs)
    ensures fs[x].paths == JoinedPath(fs, depth, x)
    decreases depth[x]
  {
    assert ParentLinks(fs)[x] == fs[x].parent;
    if fs[x].parent.Some? {
      ConsistentPathIsJoined(fs, depth, fs[x].parent.value);
    }
  }

  /** With consistent paths, the path of every proper descendant of `b` starts
      with `b`'s path followed by a dot. */
  lemma {:induction false} DescendantPathPrefix(fs: seq<Folder>, depth: seq<nat>, b: nat, x: nat)
    requires Ranked(ParentLinks(fs), depth) && x < |fs|
    requires PathsConsistent(fs)
    requires b in Chain(ParentLinks(fs), depth, x) && b != x
    ensures HasPrefix(fs[x].paths, fs[b].paths + ".")
    decreases depth[x]
  {
    var ps := ParentLinks(fs);
    var p := ps[x].value;
    var pre := fs[b].paths + ".";
    assert fs[x].paths == fs[p].paths + "." + fs[x].name;
    if p == b {
      assert fs[x].paths[..|pre|] == pre;
    } else {
      DescendantPathPrefix(fs, depth, b, p);
      assert fs[p].paths[..|pre|] == pre;
      assert fs[x].paths[..|pre|] == fs[p].paths[..|pre|];
    }
  }

  /** With consistent organizations, a whole subtree belongs to one organization. */
  lemma {:induction false} SubtreeSameOrg(fs: seq<Folder>, depth: seq<nat>, b: nat, x: nat)
    requires Ranked(ParentLinks(fs), depth) && x < |fs|
    requires OrgsConsistent(fs)
    requires b in Chain(ParentLinks(fs), depth, x)
    ensures b < |fs| && fs[b].orgId == fs[x].orgId
    decreases depth[x]
  {
    ChainDepth(ParentLinks(fs), depth, x, b);
    if b != x {
      var p := fs[x].parent.value;
      SubtreeSameOrg(fs, depth, b, p);
    }
  }
}
