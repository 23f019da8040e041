// The two queries of the driver. Neither writes the driver's state, so each
// takes the folder list as a value and returns indices into it (a folder
// pointer in the source is an index here).

module GetFolder {
  import opened Folders
  import opened Hierarchy

  /** Indices increase strictly: the result keeps storage order. */
  predicate Increasing(r: seq<nat>) {
    forall a, b :: 0 <= a < b < |r| ==> r[a] < r[b]
  }

  // ---------------------------------------------------------------------------
  // Specification functions

  /** The folders of organization `org`, in storage order. */
  function OrgFolders(fs: seq<Folder>, org: OrgId): (r: seq<nat>)
    ensures forall k :: 0 <= k < |r| ==> r[k] < |fs| && fs[r[k]].orgId == org
    ensures forall i :: 0 <= i < |fs| && fs[i].orgId == org ==> i in r
    ensures Increasing(r)
  {
    if |fs| == 0 then []
    else
      var last := |fs| - 1;
      OrgFolders(fs[..last], org) + (if fs[last].orgId == org then [last] else [])
  }

  /** The position in `idx` of the first folder named `name`, if any. */
  function FirstNamed(fs: seq<Folder>, idx: seq<nat>, name: string): (r: Option<nat>)
    requires forall k :: 0 <= k < |idx| ==> idx[k] < |fs|
    ensures r.Some? ==> r.value < |idx| && fs[idx[r.value]].name == name
    ensures r.Some? ==> forall q :: 0 <= q < r.value ==> fs[idx[q]].name != name
    ensures r.None? ==> forall q :: 0 <= q < |idx| ==> fs[idx[q]].name != name
  {
    if |idx| == 0 then None
    else if fs[idx[0]].name == name then Some(0)
    else
      match FirstNamed(fs, idx[1..], name)
      case None => None
      case Some(q) => Some(q + 1)
  }

  lemma FirstNamedAt(fs: seq<Folder>, idx: seq<nat>, name: string, k: nat)
    requires forall q :: 0 <= q < |idx| ==> idx[q] < |fs|
    requires k < |idx| && fs[idx[k]].name == name
    requires forall q :: 0 <= q < k ==> fs[idx[q]].name != name
    ensures FirstNamed(fs, idx, name) == Some(k)
  {
  }

  /** The folders listed in `idx` whose path starts with `prefix`, in the order of `idx`. */
  function WithPrefix(fs: seq<Folder>, idx: seq<nat>, prefix: string): (r: seq<nat>)
    requires forall k :: 0 <= k < |idx| ==> idx[k] < |fs|
    ensures forall i :: i in r <==> i in idx && HasPrefix(fs[i].paths, prefix)
    ensures Increasing(idx) ==> Increasing(r)
    ensures Increasing(idx) && |idx| > 0 ==> forall k :: 0 <= k < |r| ==> r[k] <= idx[|idx| - 1]
  {
    if |idx| == 0 then []
    else
      var last := |idx| - 1;
      WithPrefix(fs, idx[..last], prefix) + (if HasPrefix(fs[idx[last]].paths, prefix) then [idx[last]] else [])
  }

  lemma WithPrefixExtend(fs: seq<Folder>, idx: seq<nat>, j: nat, prefix: string)
    requires forall q :: 0 <= q < |idx| ==> idx[q] < |fs|
    requires j < |idx|
    ensures WithPrefix(fs, idx[..j + 1], prefix) ==
      WithPrefix(fs, idx[..j], prefix) + (if HasPrefix(fs[idx[j]].paths, prefix) then [idx[j]] else [])
  {
    assert idx[..j + 1][..j] == idx[..j];
  }

  /** The descendants of the first folder of `org` named `name`, found by path
      prefix among the organization's folders. */
  function ChildFolders(fs: seq<Folder>, org: OrgId, name: string): seq<nat> {
    var orgs := OrgFolders(fs, org);
    if |orgs| == 0 then []
    else
      match FirstNamed(fs, orgs, name)
      case None => []
      case Some(p) => WithPrefix(fs, orgs, fs[orgs[p]].paths + ".")
  }

  // ---------------------------------------------------------------------------
  // The queries

  /** `GetFoldersByOrgID`: one pass over the folders, appending those of `orgID`. */
  method GetFoldersByOrgID(fs: seq<Folder>, orgID: OrgId) returns (res: seq<nat>)
    ensures res == OrgFolders(fs, orgID)
  {
    res := [];
    for i := 0 to |fs|
      invariant res == OrgFolders(fs[..i], orgID)
    {
      assert fs[..i + 1][..i] == fs[..i];
      if fs[i].orgId == orgID {
        res := res + [i];
      }
    }
    assert fs[..|fs|] == fs;
  }

  /** `GetAllChildFolders`: the organization's folders, the first of them named
      `name` as the base, then every organization folder whose path starts with
      the base path and a dot. */
  method GetAllChildFolders(fs: seq<Folder>, orgID: OrgId, name: string) returns (res: seq<nat>)
    ensures res == ChildFolders(fs, orgID, name)
  {
    var folders := GetFoldersByOrgID(fs, orgID);
    if |folders| == 0 {
      return [];
    }

    var base: Option<nat> := None;
    var k := 0;
    while k < |folders|
      invariant 0 <= k <= |folders|
      invariant forall q :: 0 <= q < k ==> fs[folders[q]].name != name
      invariant base.None?
    {
      if fs[folders[k]].name == name {
        base := Some(folders[k]);
        break;
      }
      k := k + 1;
    }
    if base.None? {
      assert FirstNamed(fs, folders, name).None?;
      return [];
    }
    FirstNamedAt(fs, folders, name, k);

    var childFolders: seq<nat> := [];
    var basePath := fs[base.value].paths + ".";
    for j := 0 to |folders|
      invariant childFolders == WithPrefix(fs, folders[..j], basePath)
    {
      WithPrefixExtend(fs, folders, j, basePath);
      if HasPrefix(fs[folders[j]].paths, basePath) {
        childFolders := childFolders + [folders[j]];
      }
    }
    assert folders[..|folders|] == folders;
    if |childFolders| == 0 {
      return [];
    }
    return childFolders;
  }

  // ---------------------------------------------------------------------------
  // Properties of the queries

  /** `GetFoldersByOrgID` returns exactly the folders of `org`, in storage order,
      and nothing when no folder belongs to `org`. A summary for callers: the
      two directions of membership joined into one equivalence, plus the empty
      case, which the contract of `OrgFolders` does not state directly. */
  lemma OrgFoldersExact(fs: seq<Folder>, org: OrgId)
    ensures forall i :: i in OrgFolders(fs, org) <==> 0 <= i < |fs| && fs[i].orgId == org
    ensures Increasing(OrgFolders(fs, org))
    ensures (forall i :: 0 <= i < |fs| ==> fs[i].orgId != org) ==> OrgFolders(fs, org) == []
  {
    var r := OrgFolders(fs, org);
    if r != [] {
      assert r[0] in r;
    }
  }

  /** The base folder: the first folder in storage order that belongs to `org`
      and is named `name`. */
  predicate IsBase(fs: seq<Folder>, org: OrgId, name: string, b: nat) {
    b < |fs| && fs[b].orgId == org && fs[b].name == name &&
    forall j :: 0 <= j < b ==> !(fs[j].orgId == org && fs[j].name == name)
  }

  /** With no folder of `org` named `name` (in particular when `org` has no
      folders at all), the descendant query is empty. */
  lemma {:induction false} ChildFoldersEmptyWithoutBase(fs: seq<Folder>, org: OrgId, name: string)
    requires forall i :: 0 <= i < |fs| ==> !(fs[i].orgId == org && fs[i].name == name)
    ensures ChildFolders(fs, org, name) == []
  {
    var orgs := OrgFolders(fs, org);
    if |orgs| > 0 {
      assert FirstNamed(fs, orgs, name).None?;
    }
  }

  /** The descendant query returns exactly the folders of `org` whose path starts
      with the base folder's path and a dot, in storage order; the base folder
      itself is never among them. */
  lemma {:induction false} ChildFoldersExact(fs: seq<Folder>, org: OrgId, name: string, b: nat)
    requires IsBase(fs, org, name, b)
    ensures forall i :: i in ChildFolders(fs, org, name) <==>
      0 <= i < |fs| && fs[i].orgId == org && HasPrefix(fs[i].paths, fs[b].paths + ".")
    ensures Increasing(ChildFolders(fs, org, name))
    ensures b !in ChildFolders(fs, org, name)
  {
    var orgs := OrgFolders(fs, org);
    OrgFoldersExact(fs, org);
    assert b in orgs;
    var f := FirstNamed(fs, orgs, name);
    assert f.Some? by {
      var kb :| 0 <= kb < |orgs| && orgs[kb] == b;
    }
    var p := f.value;
    var kb :| 0 <= kb < |orgs| && orgs[kb] == b;
    // The first name match in the increasing list `orgs` is the least index.
    assert orgs[p] == b;
  }

  /** A sibling whose name merely extends the base name (`alpha` and `alphabet`)
      is not matched: the character after the base path is not a dot. */
  lemma SiblingExtensionNotMatched(basePath: string, ext: string)
    requires |ext| > 0 && ext[0] != '.'
    ensures !HasPrefix(basePath + ext, basePath + ".")
  {
    assert (basePath + ext)[|basePath|] == ext[0];
    assert (basePath + ".")[|basePath|] == '.';
  }

  /** On a well-formed forest with consistent paths and organizations, the
      descendant query returns every folder below the base folder. */
  lemma DescendantsAreReturned(fs: seq<Folder>, depth: seq<nat>, org: OrgId, name: string, b: nat, x: nat)
    requires WellLinked(fs, depth) && PathsConsistent(fs) && OrgsConsistent(fs)
    requires IsBase(fs, org, name, b)
    requires x < |fs| && x != b && b in Chain(ParentLinks(fs), depth, x)
    ensures x in ChildFolders(fs, org, name)
  {
    ChildFoldersExact(fs, org, name, b);
    DescendantPathPrefix(fs, depth, b, x);
    SubtreeSameOrg(fs, depth, b, x);
  }
}
