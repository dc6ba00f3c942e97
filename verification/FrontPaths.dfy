/** Printing a node's path by following parents up, and looking a path up again. */
module FrontPaths {
  import opened Prelude
  import opened Paths
  import opened FrontStore

  /** The names from `root` down to `id`, read off the parent pointers. `todo` holds the nodes
      not passed yet; with acyclic parents a node outside it is a node that does not exist. */
  function NamesUp(nodes: map<Id, Node>, id: Id, root: Id, todo: set<Id>): Result<seq<Name>>
    requires todo <= nodes.Keys
    decreases todo
  {
    if id == root then Ok([])
    else if id == ROOT_ID then Err(EPERM)
    else if id !in todo then Err(ENOENT)
    else
      match NamesUp(nodes, nodes[id].parent, root, todo - {id})
      case Ok(names) => Ok(names + [nodes[id].name])
      case Err(e) => Err(e)
  }

  /** `path_relative_to`. */
  function PathRelativeTo(s: Store, id: Id, root: Id): Result<string> {
    match NamesUp(s.nodes, id, root, s.nodes.Keys)
    case Ok(names) => Ok(PathText(names))
    case Err(e) => Err(e)
  }

  /** `lookup_path`. */
  function LookupPath(s: Store, path: string): Result<Id> {
    Resolve(s.nodes, ROOT_ID, Segments(path))
  }

  /** `lookup_optional_path`: a missing entry is no error. */
  function LookupOptionalPath(s: Store, path: string): Result<Option<Id>> {
    match LookupPath(s, path)
    case Ok(id) => Ok(Some(id))
    case Err(e) => if e == ENOENT then Ok(None) else Err(e)
  }

  /** `todo` still holds every node that can be met on the way up from `id`. */
  ghost predicate Roomy(rank: map<Id, nat>, todo: set<Id>, id: Id) {
    id in rank ==> forall n :: n in rank && rank[n] <= rank[id] ==> n in todo
  }

  /** Names read upwards are the path that leads downwards. */
  lemma {:induction false} NamesUpInvertResolve(
    s: Store, rank: map<Id, nat>, root: Id, path: seq<Name>, id: Id, todo: set<Id>)
    requires Linked(s) && Ranked(s, rank) && root in s.nodes && Resolve(s.nodes, root, path) == Ok(id)
    requires todo <= s.nodes.Keys && Roomy(rank, todo, id)
    ensures NamesUp(s.nodes, id, root, todo) == Ok(path)
    decreases |path|
  {
    if path != [] {
      LastStep(s, root, path);
      RankGrowsDown(s, rank, root, path);
      assert Hangs(s, id) && RankFalls(s, rank, id);
      NamesUpInvertResolve(s, rank, root, path[..|path| - 1], s.nodes[id].parent, todo - {id});
      assert path == path[..|path| - 1] + [path[|path| - 1]];
    }
  }

  /** For an attached node the printed path finds the node again exactly when every name on the
      way is free of slashes and neither the first nor the last is empty. */
  lemma LookupInvertsPath(s: Store, id: Id) returns (names: seq<Name>)
    requires Shape(s) && Attached(s, id)
    ensures Resolve(s.nodes, ROOT_ID, names) == Ok(id)
    ensures PathRelativeTo(s, id, ROOT_ID) == Ok(PathText(names))
    ensures LookupPath(s, PathText(names)) == Ok(id) <==> Printable(names)
  {
    names :| Resolve(s.nodes, ROOT_ID, names) == Ok(id);
    var rank: map<Id, nat> :| Ranked(s, rank);
    NamesUpInvertResolve(s, rank, ROOT_ID, names, id, s.nodes.Keys);
    PrintedNamesReadBack(names);
    var again := Segments(PathText(names));
    if Resolve(s.nodes, ROOT_ID, again) == Ok(id) {
      TopPathUnique(s, ROOT_ID, again, ROOT_ID, names);
    }
  }
}
