// The folder record of the package, held in arena style: the driver's slice of
// folder pointers becomes a sequence of records, and a pointer to a folder
// becomes its index in that sequence.

module Folders {

  datatype Option<T> = None | Some(value: T)

  /** An organization identifier (a UUID in the source): only compared for equality. */
  type OrgId(==)

  /** One folder: its name, its organization, its dotted path, the index of its
      parent (None for a root) and the indices of its children, in order. */
  datatype Folder = Folder(
    name: string,
    orgId: OrgId,
    paths: string,
    parent: Option<nat>,
    children: seq<nat>)

  /** `strings.HasPrefix`: `prefix` is a literal prefix of `s`. */
  predicate HasPrefix(s: string, prefix: string) {
    |prefix| <= |s| && s[..|prefix|] == prefix
  }

  /** The parent link of every folder, in storage order. */
  function ParentLinks(fs: seq<Folder>): (ps: seq<Option<nat>>)
    ensures |ps| == |fs|
    ensures forall i :: 0 <= i < |fs| ==> ps[i] == fs[i].parent
  {
    seq(|fs|, i requires 0 <= i < |fs| => fs[i].parent)
  }

  /** Two folder lists that differ at most in the `paths` fields. */
  predicate SameExceptPaths(fs: seq<Folder>, fs': seq<Folder>) {
    |fs| == |fs'| &&
    forall i :: 0 <= i < |fs| ==> fs'[i] == fs[i].(paths := fs'[i].paths)
  }

  lemma SameExceptPathsLinks(fs: seq<Folder>, fs': seq<Folder>)
    requires SameExceptPaths(fs, fs')
    ensures ParentLinks(fs) == ParentLinks(fs')
  {
    assert forall i :: 0 <= i < |fs| ==> ParentLinks(fs)[i] == ParentLinks(fs')[i];
  }
}
