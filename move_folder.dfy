// Moving a folder, with its subtree, under a new parent. Names are resolved
// over all folders, five checks run in a fixed order, and only when all pass
// are the links rewritten and the paths of the moved subtree recomputed.

module MoveFolder {
  import opened Folders
  import opened Hierarchy

  /** The errors of a move, one per check, in the order the checks run. */
  datatype MoveError =
    | SourceNotFound
    | DestinationNotFound
    | MoveToSelf
    | MoveIntoOwnDescendant
    | CrossOrganization

  datatype Result<T> = Success(value: T) | Failure(error: MoveError)

  // ---------------------------------------------------------------------------
  // Removing a child from a child list

  /** The position of the first occurrence of `x` in `s`. */
  function FirstIndex(s: seq<nat>, x: nat): (r: Option<nat>)
    ensures r.Some? ==> r.value < |s| && s[r.value] == x && forall j :: 0 <= j < r.value ==> s[j] != x
    ensures r.None? ==> x !in s
  {
    if |s| == 0 then None
    else if s[0] == x then Some(0)
    else
      match FirstIndex(s[1..], x)
      case None => None
      case Some(k) => Some(k + 1)
  }

  /** `s` without its first occurrence of `x`; `s` itself when `x` is absent. */
  function RemoveFirst(s: seq<nat>, x: nat): seq<nat> {
    match FirstIndex(s, x)
    case None => s
    case Some(k) => s[..k] + s[k + 1..]
  }

  /** Exactly one occurrence of `x` goes, when there is one. */
  lemma RemoveFirstMultiset(s: seq<nat>, x: nat)
    ensures multiset(RemoveFirst(s, x)) == multiset(s) - multiset{x}
  {
    match FirstIndex(s, x)
    case None =>
      assert multiset(s)[x] == 0;
    case Some(k) =>
      assert s == s[..k] + [x] + s[k + 1..];
  }

  /** Every other element stays and nothing new appears (the second clause also
      covers `x` itself), and a list without duplicates loses `x` entirely. */
  lemma RemoveFirstMembers(s: seq<nat>, x: nat)
    ensures forall c :: c != x ==> (c in RemoveFirst(s, x) <==> c in s)
    ensures forall c :: c in RemoveFirst(s, x) ==> c in s
    ensures NoDup(s) ==> NoDup(RemoveFirst(s, x)) && x !in RemoveFirst(s, x)
  {
    match FirstIndex(s, x)
    case None =>
    case Some(k) =>
      var r := RemoveFirst(s, x);
      assert s == s[..k] + [x] + s[k + 1..];
      assert forall j :: 0 <= j < |r| ==> r[j] == (if j < k then s[j] else s[j + 1]);
      if NoDup(s) {
        forall a, b | 0 <= a < b < |r|
          ensures r[a] != r[b]
        {
          var a', b' := if a < k then a else a + 1, if b < k then b else b + 1;
          assert r[a] == s[a'] && r[b] == s[b'] && a' < b';
        }
      }
  }

  /** Only the first occurrence of `x` goes and the rest keep their order: `s`
      is the result with `x` put back before everything that followed it. */
  lemma RemoveFirstSplit(s: seq<nat>, x: nat)
    ensures x !in s ==> RemoveFirst(s, x) == s
    ensures x in s ==> (exists k :: 0 <= k <= |RemoveFirst(s, x)| && x !in RemoveFirst(s, x)[..k] &&
                                   s == RemoveFirst(s, x)[..k] + [x] + RemoveFirst(s, x)[k..])
  {
    match FirstIndex(s, x)
    case None =>
    case Some(k) =>
      var r := RemoveFirst(s, x);
      assert r[..k] == s[..k] && r[k..] == s[k + 1..];
      assert s == s[..k] + [x] + s[k + 1..];
      assert x !in r[..k];
  }

  // ---------------------------------------------------------------------------
  // Name resolution

  /** The last folder, in storage order, named `n`: filling a map from the folder
      list in order leaves the last one under each name. */
  function LastNamed(fs: seq<Folder>, n: string): (r: Option<nat>)
    ensures r.Some? ==> r.value < |fs| && fs[r.value].name == n
    ensures r.Some? ==> forall j :: r.value < j < |fs| ==> fs[j].name != n
    ensures r.None? ==> forall j :: 0 <= j < |fs| ==> fs[j].name != n
  {
    if |fs| == 0 then None
    else if fs[|fs| - 1].name == n then Some(|fs| - 1)
    else LastNamed(fs[..|fs| - 1], n)
  }

  // ---------------------------------------------------------------------------
  // The move, as a transformation of the forest

  /** The outcome of the five checks, in the order they run: the source and the
      destination to relink, or the first error. */
  ghost function MoveOutcome(fs: seq<Folder>, depth: seq<nat>, name: string, dst: string): (r: Result<(nat, nat)>)
    requires WellLinked(fs, depth)
    ensures r.Success? ==> r.value.0 < |fs| && r.value.1 < |fs|
  {
    match (LastNamed(fs, name), LastNamed(fs, dst))
    case (None, _) => Failure(SourceNotFound)
    case (_, None) => Failure(DestinationNotFound)
    case (Some(s), Some(d)) =>
      if s == d then Failure(MoveToSelf)
      else if s in Chain(ParentLinks(fs), depth, d) then Failure(MoveIntoOwnDescendant)
      else if fs[s].orgId != fs[d].orgId then Failure(CrossOrganization)
      else Success((s, d))
  }

  /** The links after moving `s` under `d`: `s` leaves its old parent's child
      list, gets `d` as parent, and is appended to `d`'s child list. */
  function Relink(fs: seq<Folder>, s: nat, d: nat): seq<Folder>
    requires s < |fs| && d < |fs|
    requires fs[s].parent.Some? ==> fs[s].parent.value < |fs|
  {
    var op := fs[s].parent;
    var fs1 := if op.Some? then fs[op.value := fs[op.value].(children := RemoveFirst(fs[op.value].children, s))] else fs;
    var fs2 := fs1[s := fs1[s].(parent := Some(d))];
    fs2[d := fs2[d].(children := fs2[d].children + [s])]
  }

  /** The depths after moving `s` under `d`: the subtree of `s` is shifted so
      that `s` is one deeper than `d`; nothing else moves. */
  ghost function Redepth(ps: seq<Option<nat>>, depth: seq<nat>, s: nat, d: nat): (nd: seq<nat>)
    requires Ranked(ps, depth) && s < |ps| && d < |ps|
    ensures |nd| == |ps|
  {
    seq(|ps|, x requires 0 <= x < |ps| =>
      if s in Chain(ps, depth, x) then
        ChainDepth(ps, depth, x, s);
        depth[x] - depth[s] + depth[d] + 1
      else depth[x])
  }

  /** The paths after moving `s` under `d`, stated on the old structure: `s` gets
      the destination's path, a dot and its name; every other folder of its
      subtree gets its parent's new path, a dot and its name; every other
      folder keeps its path. */
  ghost predicate PathsRewritten(fs: seq<Folder>, depth: seq<nat>, s: nat, d: nat, fs': seq<Folder>)
    requires Ranked(ParentLinks(fs), depth) && s < |fs| && d < |fs| && |fs'| == |fs|
  {
    fs'[s].paths == fs[d].paths + "." + fs[s].name &&
    (forall x :: 0 <= x < |fs| && x != s && s in Chain(ParentLinks(fs), depth, x) ==> PathFollowsParent(fs', x)) &&
    (forall x :: 0 <= x < |fs| && s !in Chain(ParentLinks(fs), depth, x) ==> fs'[x].paths == fs[x].paths)
  }

  // ---------------------------------------------------------------------------
  // Properties of the move

  /** A successful outcome names two distinct folders of the same organization,
      the destination outside the subtree of the source, resolved by name. */
  lemma {:induction false} MoveOutcomeSuccess(fs: seq<Folder>, depth: seq<nat>, name: string, dst: string)
    requires WellLinked(fs, depth)
    requires MoveOutcome(fs, depth, name, dst).Success?
    ensures var (s, d) := MoveOutcome(fs, depth, name, dst).value;
      s != d && s !in Chain(ParentLinks(fs), depth, d) && fs[s].orgId == fs[d].orgId &&
      LastNamed(fs, name) == Some(s) && LastNamed(fs, dst) == Some(d)
  {
  }

  /** The checks in order, each stated on the input: the source name is unknown;
      else the destination name is unknown; else the names are equal (the two
      resolve to one folder exactly then); else the destination lies in the
      source's subtree; else the organizations differ. */
  lemma {:induction false} MoveErrorPrecedence(fs: seq<Folder>, depth: seq<nat>, name: string, dst: string)
    requires WellLinked(fs, depth)
    ensures MoveOutcome(fs, depth, name, dst) == Failure(SourceNotFound) <==>
      forall i :: 0 <= i < |fs| ==> fs[i].name != name
    ensures MoveOutcome(fs, depth, name, dst) == Failure(DestinationNotFound) <==>
      (exists i :: 0 <= i < |fs| && fs[i].name == name) && forall i :: 0 <= i < |fs| ==> fs[i].name != dst
    ensures MoveOutcome(fs, depth, name, dst) == Failure(MoveToSelf) <==>
      (exists i :: 0 <= i < |fs| && fs[i].name == name) && name == dst
    ensures MoveOutcome(fs, depth, name, dst) == Failure(MoveIntoOwnDescendant) <==>
      LastNamed(fs, name).Some? && LastNamed(fs, dst).Some? && name != dst &&
      LastNamed(fs, name).value in Chain(ParentLinks(fs), depth, LastNamed(fs, dst).value)
    ensures MoveOutcome(fs, depth, name, dst) == Failure(CrossOrganization) <==>
      LastNamed(fs, name).Some? && LastNamed(fs, dst).Some? && name != dst &&
      LastNamed(fs, name).value !in Chain(ParentLinks(fs), depth, LastNamed(fs, dst).value) &&
      fs[LastNamed(fs, name).value].orgId != fs[LastNamed(fs, dst).value].orgId
  {
    var sn, dn := LastNamed(fs, name), LastNamed(fs, dst);
    if sn.Some? {
      assert fs[sn.value].name == name;
    }
    if dn.Some? {
      assert fs[dn.value].name == dst;
    }
    if sn.Some? && dn.Some? && name == dst {
      assert sn == dn;
    }
  }

  /** A move of a folder into its own subtree (itself included) never succeeds. */
  lemma {:induction false} MoveIntoSubtreeFails(fs: seq<Folder>, depth: seq<nat>, name: string, dst: string)
    requires WellLinked(fs, depth)
    requires LastNamed(fs, name).Some? && LastNamed(fs, dst).Some?
    requires LastNamed(fs, name).value in Chain(ParentLinks(fs), depth, LastNamed(fs, dst).value)
    ensures MoveOutcome(fs, depth, name, dst) ==
      Failure(if LastNamed(fs, name) == LastNamed(fs, dst) then MoveToSelf else MoveIntoOwnDescendant)
  {
  }

  /** The new parent links: only `s` changes parent. */
  lemma RelinkParents(fs: seq<Folder>, s: nat, d: nat)
    requires s < |fs| && d < |fs|
    requires fs[s].parent.Some? ==> fs[s].parent.value < |fs|
    ensures |Relink(fs, s, d)| == |fs|
    ensures ParentLinks(Relink(fs, s, d)) == ParentLinks(fs)[s := Some(d)]
  {
    var fs' := Relink(fs, s, d);
    assert forall x :: 0 <= x < |fs| ==> ParentLinks(fs')[x] == ParentLinks(fs)[s := Some(d)][x];
  }

  /** What the relinking does, folder by folder: the source has the
      destination as parent and is the last child of the destination and a
      child of no other folder; no other parent link changes; only the old
      parent and the destination have new child lists; names, organizations
      and paths stay. */
  lemma RelinkEffects(fs: seq<Folder>, depth: seq<nat>, s: nat, d: nat)
    requires WellLinked(fs, depth) && s < |fs| && d < |fs| && s != d
    ensures |Relink(fs, s, d)| == |fs|
    ensures Relink(fs, s, d)[s].parent == Some(d)
    ensures |Relink(fs, s, d)[d].children| > 0 && Relink(fs, s, d)[d].children[|Relink(fs, s, d)[d].children| - 1] == s
    ensures forall i :: 0 <= i < |fs| && i != d ==> s !in Relink(fs, s, d)[i].children
    ensures forall i :: 0 <= i < |fs| && i != s ==> Relink(fs, s, d)[i].parent == fs[i].parent
    ensures forall i :: 0 <= i < |fs| && i != d && fs[s].parent != Some(i) ==> Relink(fs, s, d)[i].children == fs[i].children
    ensures forall i :: 0 <= i < |fs| ==>
      Relink(fs, s, d)[i].name == fs[i].name && Relink(fs, s, d)[i].orgId == fs[i].orgId &&
      Relink(fs, s, d)[i].paths == fs[i].paths
  {
    ParentNotSelf(fs, depth, s);
    forall i | 0 <= i < |fs|
      ensures Relink(fs, s, d)[i].children == ChildrenAfter(fs, s, d, i)
      ensures Relink(fs, s, d)[i].parent == if i == s then Some(d) else fs[i].parent
      ensures i != d ==> s !in Relink(fs, s, d)[i].children
    {
      RelinkAt(fs, s, d, i);
      if i != d {
        RelinkChildrenAtOther(fs, depth, s, d, i);
      }
    }
  }

  /** The shifted depths rank the new parent links, provided `d` is not in the
      subtree of `s`. */
  lemma RedepthRanked(ps: seq<Option<nat>>, depth: seq<nat>, s: nat, d: nat)
    requires Ranked(ps, depth) && s < |ps| && d < |ps| && s != d
    requires s !in Chain(ps, depth, d)
    ensures Ranked(ps[s := Some(d)], Redepth(ps, depth, s, d))
  {
    var ps', nd := ps[s := Some(d)], Redepth(ps, depth, s, d);
    forall x | 0 <= x < |ps|
      ensures (ps'[x].None? ==> nd[x] == 0) &&
              (ps'[x].Some? ==> ps'[x].value < |ps| && nd[x] == nd[ps'[x].value] + 1)
    {
      if x == s {
        assert s in Chain(ps, depth, s);
      } else if ps[x].Some? {
        var p := ps[x].value;
        assert Chain(ps, depth, x) == [x] + Chain(ps, depth, p);
        if s in Chain(ps, depth, x) {
          ChainDepth(ps, depth, p, s);
        }
      }
    }
  }

  /** The subtree of `s` is the same set of folders before and after the move. */
  lemma {:induction false} RelinkSubtree(ps: seq<Option<nat>>, depth: seq<nat>, s: nat, d: nat, x: nat)
    requires Ranked(ps, depth) && s < |ps| && d < |ps| && s != d && x < |ps|
    requires s !in Chain(ps, depth, d)
    ensures Ranked(ps[s := Some(d)], Redepth(ps, depth, s, d))
    ensures s in Chain(ps[s := Some(d)], Redepth(ps, depth, s, d), x) <==> s in Chain(ps, depth, x)
    decreases depth[x]
  {
    RedepthRanked(ps, depth, s, d);
    var ps', nd := ps[s := Some(d)], Redepth(ps, depth, s, d);
    if x == s {
      assert s in Chain(ps', nd, x) && s in Chain(ps, depth, x);
    } else if ps[x].Some? {
      var p := ps[x].value;
      assert Chain(ps', nd, x) == [x] + Chain(ps', nd, p);
      assert Chain(ps, depth, x) == [x] + Chain(ps, depth, p);
      RelinkSubtree(ps, depth, s, d, p);
    }
  }

  /** The child list of folder `i` after moving `s` under `d`. */
  function ChildrenAfter(fs: seq<Folder>, s: nat, d: nat, i: nat): seq<nat>
    requires s < |fs| && d < |fs| && i < |fs|
  {
    var op := fs[s].parent;
    if i == d then (if op == Some(d) then RemoveFirst(fs[d].children, s) else fs[d].children) + [s]
    else if op == Some(i) then RemoveFirst(fs[i].children, s)
    else fs[i].children
  }

  lemma RelinkAt(fs: seq<Folder>, s: nat, d: nat, i: nat)
    requires s < |fs| && d < |fs| && i < |fs|
    requires fs[s].parent.Some? ==> fs[s].parent.value < |fs| && fs[s].parent.value != s
    ensures |Relink(fs, s, d)| == |fs|
    ensures Relink(fs, s, d)[i].children == ChildrenAfter(fs, s, d, i)
    ensures Relink(fs, s, d)[i].parent == if i == s then Some(d) else fs[i].parent
  {
  }

  /** A folder's parent differs from the folder itself. */
  lemma ParentNotSelf(fs: seq<Folder>, depth: seq<nat>, s: nat)
    requires WellLinked(fs, depth) && s < |fs|
    ensures fs[s].parent.Some? ==> fs[s].parent.value < |fs| && fs[s].parent.value != s
  {
    assert ParentLinks(fs)[s] == fs[s].parent;
  }

  /** `ch`, as the child list of `i` after moving `s` under `d`, has no
      duplicates, stays in range and lists exactly the folders whose new parent
      is `i`. */
  ghost predicate ChildListAfterOk(fs: seq<Folder>, s: nat, d: nat, i: nat, ch: seq<nat>) {
    NoDup(ch) &&
    (forall k :: 0 <= k < |ch| ==> ch[k] < |fs|) &&
    (forall c :: 0 <= c < |fs| ==> (c in ch <==> (if c == s then Some(d) else fs[c].parent) == Some(i)))
  }

  lemma RelinkChildrenAtDest(fs: seq<Folder>, depth: seq<nat>, s: nat, d: nat)
    requires WellLinked(fs, depth) && s < |fs| && d < |fs| && s != d
    ensures ChildListAfterOk(fs, s, d, d, ChildrenAfter(fs, s, d, d))
  {
    var op := fs[s].parent;
    RemoveFirstMembers(fs[d].children, s);
    assert NoDup(fs[d].children);
    var base := if op == Some(d) then RemoveFirst(fs[d].children, s) else fs[d].children;
    assert s !in base;
    assert ChildrenAfter(fs, s, d, d) == base + [s];
    assert forall c :: c in base ==> c in fs[d].children;
  }

  lemma RelinkChildrenAtOther(fs: seq<Folder>, depth: seq<nat>, s: nat, d: nat, i: nat)
    requires WellLinked(fs, depth) && s < |fs| && d < |fs| && i < |fs| && s != d && i != d
    ensures ChildListAfterOk(fs, s, d, i, ChildrenAfter(fs, s, d, i))
  {
    RemoveFirstMembers(fs[i].children, s);
    assert NoDup(fs[i].children);
  }

  /** The child lists after the move still agree with the parent links. */
  lemma RelinkChildrenAgree(fs: seq<Folder>, depth: seq<nat>, s: nat, d: nat)
    requires WellLinked(fs, depth) && s < |fs| && d < |fs| && s != d
    ensures ChildrenAgree(Relink(fs, s, d))
  {
    var fs' := Relink(fs, s, d);
    ParentNotSelf(fs, depth, s);
    forall i | 0 <= i < |fs|
      ensures fs'[i].children == ChildrenAfter(fs, s, d, i)
      ensures fs'[i].parent == if i == s then Some(d) else fs[i].parent
    {
      RelinkAt(fs, s, d, i);
    }
    forall i | 0 <= i < |fs|
      ensures NoDup(fs'[i].children)
      ensures forall k :: 0 <= k < |fs'[i].children| ==> fs'[i].children[k] < |fs|
      ensures forall c :: 0 <= c < |fs| ==> (c in fs'[i].children <==> fs'[c].parent == Some(i))
    {
      if i == d {
        RelinkChildrenAtDest(fs, depth, s, d);
      } else {
        RelinkChildrenAtOther(fs, depth, s, d, i);
      }
    }
  }

  /** After a move that passed every check, the forest is well formed again,
      with the shifted depths as the witness of acyclicity. */
  lemma RelinkWellLinked(fs: seq<Folder>, depth: seq<nat>, s: nat, d: nat)
    requires WellLinked(fs, depth) && s < |fs| && d < |fs| && s != d
    requires s !in Chain(ParentLinks(fs), depth, d)
    ensures WellLinked(Relink(fs, s, d), Redepth(ParentLinks(fs), depth, s, d))
  {
    RelinkParents(fs, s, d);
    RedepthRanked(ParentLinks(fs), depth, s, d);
    RelinkChildrenAgree(fs, depth, s, d);
  }

  /** The path invariant survives the move: if every path followed its parent
      before, every path follows its parent after. */
  lemma MovePreservesPaths(fs: seq<Folder>, depth: seq<nat>, s: nat, d: nat, fs': seq<Folder>)
    requires WellLinked(fs, depth) && s < |fs| && d < |fs| && s != d
    requires s !in Chain(ParentLinks(fs), depth, d)
    requires SameExceptPaths(Relink(fs, s, d), fs')
    requires PathsRewritten(fs, depth, s, d, fs')
    requires PathsConsistent(fs)
    ensures PathsConsistent(fs')
  {
    var ps := ParentLinks(fs);
    assert d !in {s} && fs'[d].paths == fs[d].paths;
    forall x | 0 <= x < |fs'|
      ensures fs'[x].parent.None? ==> fs'[x].paths == fs'[x].name
      ensures fs'[x].parent.Some? && fs'[x].parent.value < |fs'| ==>
        fs'[x].paths == fs'[fs'[x].parent.value].paths + "." + fs'[x].name
    {
      assert ps[x] == fs[x].parent;
      if x != s && s !in Chain(ps, depth, x) && fs[x].parent.Some? {
        var p := fs[x].parent.value;
        assert Chain(ps, depth, x) == [x] + Chain(ps, depth, p);
      }
    }
  }

  /** The organization invariant survives a move between folders of one organization. */
  lemma MovePreservesOrgs(fs: seq<Folder>, s: nat, d: nat, fs': seq<Folder>)
    requires s < |fs| && d < |fs|
    requires fs[s].parent.Some? ==> fs[s].parent.value < |fs|
    requires fs[s].orgId == fs[d].orgId
    requires SameExceptPaths(Relink(fs, s, d), fs')
    requires OrgsConsistent(fs)
    ensures OrgsConsistent(fs')
  {
  }

  /** The last step of a move: the relinked forest `fs1` after `updatePaths`
      on the source, with the destination's path, is well formed, has the paths
      described by `PathsRewritten`, and keeps both invariants. */
  lemma CommitCorrect(fs0: seq<Folder>, depth0: seq<nat>, s: nat, d: nat, fs1: seq<Folder>, fs2: seq<Folder>)
    requires WellLinked(fs0, depth0) && s < |fs0| && d < |fs0| && s != d
    requires s !in Chain(ParentLinks(fs0), depth0, d) && fs0[s].orgId == fs0[d].orgId
    requires fs1 == Relink(fs0, s, d) && |fs1| == |fs0|
    requires WellLinked(fs1, Redepth(ParentLinks(fs0), depth0, s, d))
    requires Repathed(fs1, Redepth(ParentLinks(fs0), depth0, s, d), s, fs1[d].paths, fs2)
    ensures WellLinked(fs2, Redepth(ParentLinks(fs0), depth0, s, d))
    ensures PathsRewritten(fs0, depth0, s, d, fs2)
    ensures PathsConsistent(fs0) ==> PathsConsistent(fs2)
    ensures OrgsConsistent(fs0) ==> OrgsConsistent(fs2)
  {
    var nd := Redepth(ParentLinks(fs0), depth0, s, d);
    WellLinkedIgnoresPaths(fs1, fs2, nd);
    CommitPaths(fs0, depth0, s, d, fs1, fs2);
    if PathsConsistent(fs0) {
      MovePreservesPaths(fs0, depth0, s, d, fs2);
    }
    if OrgsConsistent(fs0) {
      ParentNotSelf(fs0, depth0, s);
      MovePreservesOrgs(fs0, s, d, fs2);
    }
  }

  /** The paths after `updatePaths` on the relinked forest, restated on the
      structure before the move. */
  lemma CommitPaths(fs0: seq<Folder>, depth0: seq<nat>, s: nat, d: nat, fs1: seq<Folder>, fs2: seq<Folder>)
    requires WellLinked(fs0, depth0) && s < |fs0| && d < |fs0| && s != d
    requires s !in Chain(ParentLinks(fs0), depth0, d)
    requires fs1 == Relink(fs0, s, d) && |fs1| == |fs0|
    requires Ranked(ParentLinks(fs1), Redepth(ParentLinks(fs0), depth0, s, d))
    requires Repathed(fs1, Redepth(ParentLinks(fs0), depth0, s, d), s, fs1[d].paths, fs2)
    ensures PathsRewritten(fs0, depth0, s, d, fs2)
  {
    RelinkParents(fs0, s, d);
    ParentNotSelf(fs0, depth0, s);
    forall x | 0 <= x < |fs0|
      ensures x != s && s in Chain(ParentLinks(fs0), depth0, x) ==> PathFollowsParent(fs2, x)
      ensures s !in Chain(ParentLinks(fs0), depth0, x) ==> fs2[x].paths == fs0[x].paths
    {
      CommitPathsAt(fs0, depth0, s, d, fs1, fs2, x);
    }
    RelinkAt(fs0, s, d, s);
    RelinkAt(fs0, s, d, d);
  }

  lemma CommitPathsAt(fs0: seq<Folder>, depth0: seq<nat>, s: nat, d: nat, fs1: seq<Folder>, fs2: seq<Folder>, x: nat)
    requires WellLinked(fs0, depth0) && s < |fs0| && d < |fs0| && s != d && x < |fs0|
    requires s !in Chain(ParentLinks(fs0), depth0, d)
    requires fs0[s].parent.Some? ==> fs0[s].parent.value < |fs0| && fs0[s].parent.value != s
    requires fs1 == Relink(fs0, s, d) && |fs1| == |fs0|
    requires ParentLinks(fs1) == ParentLinks(fs0)[s := Some(d)]
    requires Ranked(ParentLinks(fs1), Redepth(ParentLinks(fs0), depth0, s, d))
    requires Repathed(fs1, Redepth(ParentLinks(fs0), depth0, s, d), s, fs1[d].paths, fs2)
    ensures x != s && s in Chain(ParentLinks(fs0), depth0, x) ==> PathFollowsParent(fs2, x)
    ensures s !in Chain(ParentLinks(fs0), depth0, x) ==> fs2[x].paths == fs0[x].paths
  {
    RelinkAt(fs0, s, d, x);
    RelinkSubtree(ParentLinks(fs0), depth0, s, d, x);
  }

  // ---------------------------------------------------------------------------
  // The driver

  /** The driver: the folder list, with a ghost depth for every folder that
      witnesses that the parent links are acyclic. */
  class Driver {
    var folders: seq<Folder>
    ghost var depth: seq<nat>

    ghost predicate Valid()
      reads this
    {
      WellLinked(folders, depth)
    }

    /** `NewDriver`: a driver over a well-formed folder list. */
    constructor (fs: seq<Folder>, ghost depth0: seq<nat>)
      requires WellLinked(fs, depth0)
      ensures Valid() && folders == fs
    {
      folders := fs;
      depth := depth0;
    }

    /** The name index of `MoveFolder`: filled from the folders in storage
        order, so the last folder with a given name wins. */
    method NameIndex() returns (index: map<string, nat>)
      ensures forall n :: n in index <==> LastNamed(folders, n).Some?
      ensures forall n :: n in index ==> LastNamed(folders, n) == Some(index[n])
    {
      index := map[];
      for i := 0 to |folders|
        invariant forall n :: n in index <==> LastNamed(folders[..i], n).Some?
        invariant forall n :: n in index ==> LastNamed(folders[..i], n) == Some(index[n])
      {
        assert folders[..i + 1][..i] == folders[..i];
        index := index[folders[i].name := i];
      }
      assert folders[..|folders|] == folders;
    }

    /** `isDescendant`: walks the parent links upward from `dest`, itself
        included, looking for `source`. */
    method IsDescendant(source: nat, dest: nat) returns (b: bool)
      requires Valid() && source < |folders| && dest < |folders|
      ensures b <==> source in Chain(ParentLinks(folders), depth, dest)
    {
      ghost var ps := ParentLinks(folders);
      var current: Option<nat> := Some(dest);
      while current.Some?
        invariant current.Some? ==> current.value < |folders|
        invariant (source in Chain(ps, depth, dest)) <==> (current.Some? && source in Chain(ps, depth, current.value))
        decreases if current.Some? then depth[current.value] + 1 else 0
      {
        if current.value == source {
          return true;
        }
        assert ps[current.value] == folders[current.value].parent;
        current := folders[current.value].parent;
      }
      return false;
    }

    /** `removeChild`: deletes the first occurrence of `child` from the child
        list of `parent`; nothing happens when there is no parent. */
    method RemoveChild(parent: Option<nat>, child: nat)
      requires parent.Some? ==> parent.value < |folders|
      modifies this
      ensures depth == old(depth)
      ensures folders == if parent.None? then old(folders)
        else old(folders)[parent.value := old(folders)[parent.value].(children := RemoveFirst(old(folders)[parent.value].children, child))]
    {
      if parent.None? {
        return;
      }
      var p := parent.value;
      var children := folders[p].children;
      for i := 0 to |children|
        invariant forall j :: 0 <= j < i ==> children[j] != child
      {
        if children[i] == child {
          folders := folders[p := folders[p].(children := children[..i] + children[i + 1..])];
          return;
        }
      }
    }

    /** `updatePaths`: gives `folder` the path `parentPath.name`, then does the
        same for each child, in order, with the folder's new path. */
    method UpdatePaths(folder: nat, parentPath: string)
      requires Valid() && folder < |folders|
      modifies this
      ensures Valid() && depth == old(depth)
      ensures Repathed(old(folders), depth, folder, parentPath, folders)
      decreases Subtree(ParentLinks(folders), depth, folder)
    {
      ghost var orig, ps := folders, ParentLinks(folders);
      folders := folders[folder := folders[folder].(paths := parentPath + "." + folders[folder].name)];
      WellLinkedIgnoresPaths(orig, folders, depth);
      var children := folders[folder].children;
      for k := 0 to |children|
        invariant depth == old(depth) && ParentLinks(folders) == ps && Valid()
        invariant UpdatedUpTo(orig, depth, folder, children[..k], folders)
        invariant folders[folder].paths == parentPath + "." + folders[folder].name
      {
        var child := children[k];
        assert child in folders[folder].children;
        SubtreeShrinks(ps, depth, folder, child);
        ghost var pre := folders;
        UpdatePaths(child, folders[folder].paths);
        UpdateStep(orig, depth, folder, children, k, pre, folders);
        WellLinkedIgnoresPaths(orig, folders, depth);
      }
      assert children[..|children|] == children;
      UpdateDone(orig, depth, folder, parentPath, folders);
    }

    /** `MoveFolder`: resolves both names, runs the five checks in order, and on
        success relinks the source under the destination and rewrites the paths
        of the moved subtree. On failure nothing changes. */
    method MoveFolder(name: string, dst: string) returns (r: Result<seq<Folder>>)
      requires Valid()
      modifies this
      ensures Valid()
      ensures MoveOutcome(old(folders), old(depth), name, dst).Failure? ==>
        r == Failure(MoveOutcome(old(folders), old(depth), name, dst).error) &&
        folders == old(folders) && depth == old(depth)
      ensures MoveOutcome(old(folders), old(depth), name, dst).Success? ==>
        var (s, d) := MoveOutcome(old(folders), old(depth), name, dst).value;
        r == Success(folders) &&
        SameExceptPaths(Relink(old(folders), s, d), folders) &&
        PathsRewritten(old(folders), old(depth), s, d, folders)
      ensures PathsConsistent(old(folders)) ==> PathsConsistent(folders)
      ensures OrgsConsistent(old(folders)) ==> OrgsConsistent(folders)
    {
      var index := NameIndex();
      if name !in index {
        return Failure(SourceNotFound);
      }
      if dst !in index {
        return Failure(DestinationNotFound);
      }
      var sourceFolder, destFolder := index[name], index[dst];
      if sourceFolder == destFolder {
        return Failure(MoveToSelf);
      }
      var descendant := IsDescendant(sourceFolder, destFolder);
      if descendant {
        return Failure(MoveIntoOwnDescendant);
      }
      if folders[sourceFolder].orgId != folders[destFolder].orgId {
        return Failure(CrossOrganization);
      }

      Relocate(sourceFolder, destFolder);
      r := Success(folders);
    }

    /** The state change of a move that passed every check: the source leaves
        its old parent's child list, takes the destination as parent, is
        appended to the destination's children, and the paths of its subtree
        are recomputed from the destination's path. */
    method Relocate(s: nat, d: nat)
      requires Valid() && s < |folders| && d < |folders| && s != d
      requires s !in Chain(ParentLinks(folders), depth, d) && folders[s].orgId == folders[d].orgId
      modifies this
      ensures Valid()
      ensures SameExceptPaths(Relink(old(folders), s, d), folders)
      ensures PathsRewritten(old(folders), old(depth), s, d, folders)
      ensures PathsConsistent(old(folders)) ==> PathsConsistent(folders)
      ensures OrgsConsistent(old(folders)) ==> OrgsConsistent(folders)
    {
      ghost var fs0, depth0 := folders, depth;
      ParentNotSelf(fs0, depth0, s);
      if folders[s].parent.Some? {
        RemoveChild(folders[s].parent, s);
      }
      folders := folders[s := folders[s].(parent := Some(d))];
      folders := folders[d := folders[d].(children := folders[d].children + [s])];
      assert folders == Relink(fs0, s, d);
      RelinkWellLinked(fs0, depth0, s, d);
      depth := Redepth(ParentLinks(fs0), depth0, s, d);

      ghost var fs1 := folders;
      UpdatePaths(s, folders[d].paths);
      CommitCorrect(fs0, depth0, s, d, fs1, folders);
    }
  }

  /** Some folder of `cs` lies on the parent chain of `x`. */
  ghost predicate Below(ps: seq<Option<nat>>, depth: seq<nat>, cs: seq<nat>, x: nat)
    requires Ranked(ps, depth) && x < |ps|
  {
    exists j :: 0 <= j < |cs| && cs[j] in Chain(ps, depth, x)
  }

  lemma BelowExtend(ps: seq<Option<nat>>, depth: seq<nat>, cs: seq<nat>, k: nat, x: nat)
    requires Ranked(ps, depth) && x < |ps| && k < |cs|
    ensures Below(ps, depth, cs[..k + 1], x) <==> Below(ps, depth, cs[..k], x) || cs[k] in Chain(ps, depth, x)
  {
    if Below(ps, depth, cs[..k + 1], x) {
      var j :| 0 <= j < k + 1 && cs[..k + 1][j] in Chain(ps, depth, x);
      if j < k {
        assert cs[..k][j] == cs[j];
      }
    }
    if Below(ps, depth, cs[..k], x) {
      var j :| 0 <= j < k && cs[..k][j] in Chain(ps, depth, x);
      assert cs[..k + 1][j] == cs[j];
    }
    if cs[k] in Chain(ps, depth, x) {
      assert cs[..k + 1][k] == cs[k];
    }
  }

  /** The effect of `updatePaths` on `folder` with `parentPath`, from `before`
      to `after`: only paths change, `folder` gets `parentPath`, a dot and its
      name, every other folder below it gets its parent's new path, a dot and
      its name, and every folder outside its subtree keeps its path. */
  ghost predicate Repathed(before: seq<Folder>, depth: seq<nat>, folder: nat, parentPath: string, after: seq<Folder>)
    requires Ranked(ParentLinks(before), depth) && folder < |before|
  {
    SameExceptPaths(before, after) &&
    after[folder].paths == parentPath + "." + after[folder].name &&
    (forall x :: 0 <= x < |before| && x != folder && folder in Chain(ParentLinks(before), depth, x) ==>
       PathFollowsParent(after, x)) &&
    (forall x :: 0 <= x < |before| && folder !in Chain(ParentLinks(before), depth, x) ==>
       after[x].paths == before[x].paths)
  }

  /** The state of `updatePaths` on `folder` once the children `cs` are done,
      starting from `orig`: only paths change, every folder below one of `cs`
      follows its parent, and every other folder except `folder` keeps its path. */
  ghost predicate UpdatedUpTo(orig: seq<Folder>, depth: seq<nat>, folder: nat, cs: seq<nat>, cur: seq<Folder>)
    requires WellLinked(orig, depth) && folder < |orig|
  {
    SameExceptPaths(orig, cur) &&
    (forall x :: 0 <= x < |orig| && Below(ParentLinks(orig), depth, cs, x) ==> PathFollowsParent(cur, x)) &&
    (forall x :: 0 <= x < |orig| && x != folder && !Below(ParentLinks(orig), depth, cs, x) ==>
       cur[x].paths == orig[x].paths)
  }

  /** One child of `updatePaths` handled, seen at a single folder `x`. */
  lemma UpdateStepAt(orig: seq<Folder>, depth: seq<nat>, folder: nat, cs: seq<nat>, k: nat,
                     pre: seq<Folder>, post: seq<Folder>, x: nat)
    requires WellLinked(orig, depth) && folder < |orig| && cs == orig[folder].children && k < |cs|
    requires UpdatedUpTo(orig, depth, folder, cs[..k], pre)
    requires ParentLinks(pre) == ParentLinks(orig)
    requires Repathed(pre, depth, cs[k], pre[folder].paths, post)
    requires x < |orig|
    ensures Below(ParentLinks(orig), depth, cs[..k + 1], x) ==> PathFollowsParent(post, x)
    ensures x != folder && !Below(ParentLinks(orig), depth, cs[..k + 1], x) ==> post[x].paths == orig[x].paths
  {
    var ps, child := ParentLinks(orig), cs[k];
    assert ps[child] == Some(folder);
    BelowExtend(ps, depth, cs, k, x);
    if child in Chain(ps, depth, folder) {
      ChainDepth(ps, depth, folder, child);
    }
    assert post[folder].paths == pre[folder].paths;
    if Below(ps, depth, cs[..k], x) {
      var j :| 0 <= j < k && cs[..k][j] in Chain(ps, depth, x);
      assert ps[cs[j]] == Some(folder) && ps[x] == orig[x].parent;
      assert NoDup(cs);
      SiblingSubtreesDisjoint(ps, depth, cs, folder, j, k, x);
      assert PathFollowsParent(pre, x);
    }
  }

  /** Two distinct children of one folder have disjoint subtrees: below the
      child `cs[j]`, neither a folder nor its parent is below `cs[k]`. */
  lemma SiblingSubtreesDisjoint(ps: seq<Option<nat>>, depth: seq<nat>, cs: seq<nat>, folder: nat, j: nat, k: nat, x: nat)
    requires Ranked(ps, depth) && x < |ps| && NoDup(cs) && j < k < |cs|
    requires cs[j] < |ps| && cs[k] < |ps| && ps[cs[j]] == Some(folder) && ps[cs[k]] == Some(folder)
    requires cs[j] in Chain(ps, depth, x)
    ensures cs[k] !in Chain(ps, depth, x)
    ensures ps[x].Some? && ps[x].value < |ps| && cs[k] !in Chain(ps, depth, ps[x].value)
  {
    assert cs[j] != cs[k];
    if cs[k] in Chain(ps, depth, x) {
      ChainDepth(ps, depth, x, cs[j]);
      ChainUniqueAtDepth(ps, depth, x, cs[k], cs[j]);
      assert false;
    }
    ChainTransitive(ps, depth, x, cs[j], folder);
    ChainDepth(ps, depth, cs[j], folder);
    assert Chain(ps, depth, x) == [x] + Chain(ps, depth, ps[x].value);
  }

  /** One child of `updatePaths` handled: the invariant extends to it. */
  lemma UpdateStep(orig: seq<Folder>, depth: seq<nat>, folder: nat, cs: seq<nat>, k: nat,
                   pre: seq<Folder>, post: seq<Folder>)
    requires WellLinked(orig, depth) && folder < |orig| && cs == orig[folder].children && k < |cs|
    requires UpdatedUpTo(orig, depth, folder, cs[..k], pre)
    requires ParentLinks(pre) == ParentLinks(orig)
    requires Repathed(pre, depth, cs[k], pre[folder].paths, post)
    ensures UpdatedUpTo(orig, depth, folder, cs[..k + 1], post)
    ensures post[folder].paths == pre[folder].paths
  {
    var ps := ParentLinks(orig);
    forall x | 0 <= x < |orig|
      ensures Below(ps, depth, cs[..k + 1], x) ==> PathFollowsParent(post, x)
      ensures x != folder && !Below(ps, depth, cs[..k + 1], x) ==> post[x].paths == orig[x].paths
    {
      UpdateStepAt(orig, depth, folder, cs, k, pre, post, x);
    }
    assert ps[cs[k]] == Some(folder);
    if cs[k] in Chain(ps, depth, folder) {
      ChainDepth(ps, depth, folder, cs[k]);
    }
  }

  /** All children handled: the subtree of `folder` follows its parents and
      everything outside it keeps its path. */
  lemma UpdateDone(orig: seq<Folder>, depth: seq<nat>, folder: nat, parentPath: string, cur: seq<Folder>)
    requires WellLinked(orig, depth) && folder < |orig|
    requires UpdatedUpTo(orig, depth, folder, orig[folder].children, cur)
    requires cur[folder].paths == parentPath + "." + cur[folder].name
    ensures Repathed(orig, depth, folder, parentPath, cur)
  {
    var ps, cs := ParentLinks(orig), orig[folder].children;
    forall x | 0 <= x < |orig| && x != folder && folder in Chain(ps, depth, x)
      ensures Below(ps, depth, cs, x)
    {
      var c := ChildToward(ps, depth, folder, x);
      assert c in cs;
    }
    forall x | 0 <= x < |orig| && folder !in Chain(ps, depth, x)
      ensures x != folder && !Below(ps, depth, cs, x)
    {
      assert folder in Chain(ps, depth, folder);
      if Below(ps, depth, cs, x) {
        var j :| 0 <= j < |cs| && cs[j] in Chain(ps, depth, x);
        assert ps[cs[j]] == Some(folder);
        ChainTransitive(ps, depth, x, cs[j], folder);
      }
    }
  }
}
