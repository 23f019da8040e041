# Folder hierarchy: moves and descendant queries

This project models the core of the Go package `folder`. The package keeps a forest of folders in a
driver's folder slice. Each folder has a name, an organization id, a dotted path (`root.child.leaf`),
a parent pointer and a list of children. The package provides two components:

- **Queries** (`folder/get_folder.go`).
  - `GetFoldersByOrgID` filters the folders by organization and keeps storage order.
  - `GetAllChildFolders` finds the first folder of the organization with the given name (the base).
    It returns every folder of the organization whose path starts with the base path followed by a dot.
- **Move** (`folder/move_folder.go`). `MoveFolder` resolves a source and a destination by name.
  - It runs five checks in a fixed order: source missing, destination missing, move to itself,
    destination inside the source's subtree, different organization.
  - Only when all five pass does it relink the source under the destination and recompute the
    paths of the moved subtree.

Modelling choices:

- **Arena storage** (`folders.dfy`). The slice of folder pointers becomes a `seq<Folder>`, and a
  pointer becomes an index into it. `parent` is an `Option<nat>` and `children` is a `seq<nat>`.
  Pointer equality is index equality. The organization id is an abstract type with equality only.
- **Invariants** (`hierarchy.dfy`).
  - Acyclicity is witnessed by a ghost depth for every folder: a root has depth 0, and a child is
    one deeper than its parent. The parent chain `Chain` of a folder and the joined path
    `JoinedPath` are defined by recursion on that depth. The `Subtree` of a folder is the set of
    folders whose chain passes through it.
  - `WellLinked` combines the depth ranking with agreement between parent and child links.
  - `PathsConsistent` holds when every path is the parent's path, a dot and the name.
  - `OrgsConsistent` holds when linked folders share an organization.
- **Queries** (`get_folder.dfy`). Both queries only read the folder list, so they take it as a
  value and return indices. Each is a method with the source's loops, proved equal to a pure filter
  function. Lemmas then characterize those functions exactly.
- **Move** (`move_folder.dfy`). The driver is a class holding the folder list and the ghost depths.
  - `removeChild`, `isDescendant` and `updatePaths` are its methods, with the source's loops and
    recursion.
  - `MoveFolder` is specified against `MoveOutcome`, a function giving the outcome of the five
    checks, and `Relink`, the new links.
  - The new paths are described on the structure before the move by `PathsRewritten`.

## Model

| member | source | states |
|---|---|---|
| GetFolder.GetFoldersByOrgID | folder/get_folder.go:14-25 | The loop's result equals `OrgFolders`, the storage-order filter on the organization id. |
| GetFolder.OrgFoldersExact | folder/get_folder.go:14-25 | A folder is returned iff it belongs to the organization; indices strictly increase (storage order); nothing matching gives the empty list. |
| GetFolder.OrgFolders | folder/get_folder.go:17-22 | Every element is an in-range folder of the organization, every folder of the organization is included, and the result is increasing. |
| GetFolder.GetAllChildFolders | folder/get_folder.go:33-79 | The method (empty-organization exit, base search loop with break, prefix scan) returns exactly `ChildFolders`. |
| GetFolder.ChildFoldersEmptyWithoutBase | folder/get_folder.go:35-56 | With no folder of the organization carrying the name (including an organization with no folders), the result is empty. |
| GetFolder.ChildFoldersExact | folder/get_folder.go:44-70 | With the base being the first organization folder of that name, a folder is returned iff it is in the organization and its path starts with the base path and a dot; storage order is kept; the base itself is never returned. |
| GetFolder.ChildFolders | folder/get_folder.go:33-79 | The descendant query as a function: empty when the organization has no folders or none of them carries the name; otherwise the organization's folders, in storage order, whose path starts with the first name match's path and a dot. |
| GetFolder.FirstNamed | folder/get_folder.go:44-50 | The chosen position holds the name and no earlier position does; no position is chosen only when none holds it. |
| GetFolder.WithPrefix | folder/get_folder.go:65-70 | A folder is kept iff it is listed and its path has the prefix; an increasing input gives an increasing output. |
| Folders.HasPrefix | folder/get_folder.go:67 | `strings.HasPrefix`: `prefix` is a literal prefix of `s`, that is, it is no longer than `s` and equals the first as many characters of `s` as it has. |
| GetFolder.SiblingExtensionNotMatched | folder/get_folder.go:62-67 | A path that extends the base path by anything other than a dot (a sibling `alphabet` of `alpha`) does not match. |
| GetFolder.DescendantsAreReturned | folder/get_folder.go:62-70 | On a well-linked forest with consistent paths and organizations, every folder below the base folder is returned. |
| Hierarchy.PathsConsistentIffJoined | folder/move_folder.go:35-40 | Every path equals its parent's path, a dot and its name iff every path is the names along the parent chain joined by dots. |
| Hierarchy.DescendantPathPrefix | folder/get_folder.go:62-67 | With consistent paths, the path of every proper descendant starts with the ancestor's path and a dot. |
| Hierarchy.SubtreeSameOrg | folder/move_folder.go:76-80 | With consistent organizations, every folder of a subtree has the organization of its root. |
| Hierarchy.SubtreeShrinks | folder/move_folder.go:37-38 | A child's subtree is strictly smaller than its parent's, so the recursion of `updatePaths` terminates. |
| Hierarchy.ChildToward | folder/move_folder.go:37-38 | A proper descendant is reached through one of the ancestor's children. |
| MoveFolder.Driver.constructor | folder/folder.go:31-36 | The driver holds the given folder list. |
| MoveFolder.Driver.NameIndex | folder/move_folder.go:45-48 | The map has exactly the names of the folders, and each name maps to the last folder in storage order carrying it. |
| MoveFolder.LastNamed | folder/move_folder.go:45-52 | The chosen folder carries the name and no later folder does; no folder is chosen only when none carries it. |
| MoveFolder.MoveOutcome | folder/move_folder.go:51-80 | The outcome of the five checks in the source's order: the first failing check's error, or the last-named source and destination; a success names two folders in range. |
| MoveFolder.Driver.IsDescendant | folder/move_folder.go:9-18 | Returns true iff the source is on the parent chain of the destination, the destination itself included. |
| MoveFolder.Driver.RemoveChild | folder/move_folder.go:21-32 | Nothing changes without a parent; otherwise only the parent's child list changes, to the list without the first occurrence of the child. |
| MoveFolder.RemoveFirst | folder/move_folder.go:25-30 | The child list without the first occurrence of the child (the list itself when the child is absent), the rest in their old order. |
| MoveFolder.RemoveFirstMultiset | folder/move_folder.go:25-30 | Exactly one occurrence of the child goes when there is one; nothing goes otherwise. |
| MoveFolder.RemoveFirstMembers | folder/move_folder.go:25-30 | Every other child stays; a list without duplicates loses the child entirely. |
| MoveFolder.RemoveFirstSplit | folder/move_folder.go:25-30 | An absent child leaves the list as it is; otherwise the old list is the new one with the child put back at its first position, and the others keep their order. |
| MoveFolder.Repathed | folder/move_folder.go:35-40 | The effect of `updatePaths`: only paths change; the folder gets the parent path, a dot and its name; every other folder below it gets its parent's new path, a dot and its name; every folder outside its subtree keeps its path. |
| MoveFolder.Driver.UpdatePaths | folder/move_folder.go:35-40 | Only paths change: the folder gets the given path, a dot and its name; every folder below it gets its parent's new path, a dot and its name; every folder outside its subtree keeps its path. |
| MoveFolder.MoveErrorPrecedence | folder/move_folder.go:51-80 | Each error is stated in terms of the input, in check order: source name unknown; else destination name unknown; else the two names are equal; else the destination is in the source's subtree; else the organizations differ. |
| MoveFolder.MoveOutcomeSuccess | folder/move_folder.go:51-80 | A move that passes the checks has two distinct folders of one organization, resolved by last name, with the destination outside the source's subtree. |
| MoveFolder.MoveIntoSubtreeFails | folder/move_folder.go:64-74 | A move of a folder into its own subtree fails: with the move-to-self error onto itself, and with the descendant error onto any other folder in its subtree. |
| MoveFolder.Driver.MoveFolder | folder/move_folder.go:43-103 | On each failure the error of `MoveOutcome` is returned and nothing changes. On success the returned list is the driver's list, the links are those of `Relink`, and the paths are rewritten as `PathsRewritten` says. Validity, path consistency and organization consistency are preserved. |
| MoveFolder.Driver.Relocate | folder/move_folder.go:82-97 | After the checks pass: the links become `Relink`'s, the paths `PathsRewritten`'s, and both invariants and validity are kept. |
| MoveFolder.Relink | folder/move_folder.go:82-91 | The links after a move: the source leaves its old parent's child list (only when it has a parent), takes the destination as parent, and is appended to the destination's child list. |
| MoveFolder.PathsRewritten | folder/move_folder.go:96-97 | The paths after a move, stated on the structure before it: the source gets the destination's path, a dot and its name; every other folder of its subtree follows its parent's new path; every folder outside keeps its path. |
| MoveFolder.RelinkEffects | folder/move_folder.go:82-91 | After relinking, the source's parent is the destination; the source is the last child of the destination and a child of no other folder; no other parent link changes; only the old parent and the destination have new child lists. |
| MoveFolder.RelinkWellLinked | folder/move_folder.go:82-91 | Relinking a source under a destination outside its subtree gives an acyclic forest with agreeing links again. |
| MoveFolder.CommitCorrect | folder/move_folder.go:96-102 | After relinking and `updatePaths`, the forest is well linked, its paths are `PathsRewritten`'s, and consistent paths and organizations stay consistent. |
| MoveFolder.MovePreservesPaths | folder/move_folder.go:96-97 | If every path followed its parent before the move, every path follows its parent after it. |
| MoveFolder.MovePreservesOrgs | folder/move_folder.go:76-91 | A move between folders of one organization keeps linked folders in one organization. |

## Left out

- MoveFolder.Driver.MoveFolder: requires `Valid()`: parent links ranked by depth (so acyclic) and child lists that agree with them. The contracts are stated through parent chains, which are defined only on ranked links. In Go, the ancestry check terminates when the destination's parent chain reaches the source or a root. The path rewrite terminates when, after the relink, the child lists reachable from the source are acyclic: the destination must not be reachable from the source through child lists, and the child lists below the source must have no cycle. When parent and child links disagree, the ancestry check (parent links) can pass while the path rewrite (child lists) never terminates. An example is a source listing the destination as a child while the destination's parent is unset. Apart from such cases, Go still relinks and rewrites paths along the child lists only, so folders listed as children but not linked back (and folders linked back but not listed) are treated differently than the parent chains say. That behaviour is not modelled.
- MoveFolder.Driver.IsDescendant: requires `Valid()`. The Go loop only reads parent links and stops once it meets the source or a root, so it also terminates on a parent cycle that passes through the source.
- MoveFolder.Driver.UpdatePaths: requires `Valid()`. The Go recursion never reads parent links; it only needs the child lists below the folder to be acyclic.
- MoveFolder.Driver.constructor: requires the given list to be well linked, while `NewDriver` accepts any list. The driver invariant is established once here rather than checked by each move.
- Parent or child links to folders outside the driver's list are excluded by the in-range clauses of `Ranked` and `ChildrenAgree`. In Go such a folder is still reached through the pointers, and a move can rewrite its path.
- Logging (`log.Printf`) and the error message texts are not modelled. An error is one value of an enumeration of the five kinds.
- `PrintFolders` and `printFolder` only write to the console.
- `GetAllFolders` loads sample data, which is not part of this model.
- The `IDriver` interface is not modelled. `NewDriver` is the class constructor.
- The organization id type comes from an external UUID library. It is an abstract type with equality only.
- Go strings, names and paths included, are byte strings. Here they are sequences of characters, so a name or path holding invalid UTF-8 cannot be represented. On valid UTF-8, equality of names and `strings.HasPrefix` give the same answers on bytes and on characters, because UTF-8 is a prefix-free code.
- Go distinguishes nil slices from empty slices (`childFolders` starts as nil). Both are the empty sequence here.
- Folders are identified by their index in the list. Two entries pointing to the same folder are not modelled. Neither is a removal through `append` on a shared backing array being visible through other slices.
- The queries take the folder list as a value. They do not read it through the driver, because they never change it.
