/** The namespace store of crates/front/src/model.rs as a value: nodes, the qid index, fid
    reference counts and detached roots, with the invariants that tie them together. */
module FrontStore {
  import opened Prelude
  import opened Paths
  import LogBody

  type Id = nat

  const ROOT_ID: Id := 0

  datatype Removal = Forbidden | RelayToOwner

  datatype Resolver = Resolver(resolutionPrefix: string, readPrefix: string, removal: Removal)

  datatype Body =
    | Dir(children: map<Name, Id>, readRelay: Option<string>, childResolver: Option<Resolver>)
    | File(bytes: seq<byte>)
    | Log(log: LogBody.Log)
    | IntakeNew(intake: Id)
    | Rpc(prefix: string)
    | ReadRelay(prefix: string)
    | SnapshotReadRelay(prefix: string)
    | WriteRelay(prefix: string)

  const EMPTY_DIR := Dir(map[], None, None)

  datatype Pushed = Pushed(mtime: nat, length: nat, visibilityClass: string, freshnessRef: string, wakeToken: string)

  datatype Metadata = Metadata(qidPath: nat, qidVersion: nat, generation: nat, pushed: Pushed)

  datatype Node = Node(
    name: Name,
    parent: Id,
    qidPath: nat,
    version: nat,
    generation: nat,
    pushed: Option<Pushed>,
    createRelay: Option<string>,
    writeRelay: Option<string>,
    removeRelay: Option<string>,
    wstatRelay: Option<string>,
    body: Body)

  datatype PrincipalRoot = PrincipalRoot(root: Id, rootPath: string, principalId: string, anames: set<string>)

  datatype Store = Store(
    nodes: map<Id, Node>,
    qidIndex: map<nat, Id>,
    refs: map<Id, nat>,
    detached: set<Id>,
    nextId: Id,
    intakes: map<Id, string>,
    renameRoots: map<Id, string>,
    principals: map<string, PrincipalRoot>,
    principalsRequired: bool,
    logCapacity: nat)

  /** A node published by the store itself: no owner metadata, no relays. */
  function PlainNode(name: Name, parent: Id, qidPath: nat, body: Body): Node {
    Node(name, parent, qidPath, 0, 0, None, None, None, None, None, body)
  }

  /** A node published with the owner's qid and metadata. */
  function PushedNode(name: Name, parent: Id, metadata: Metadata, body: Body): Node {
    Node(name, parent, metadata.qidPath, metadata.qidVersion, metadata.generation, Some(metadata.pushed),
         None, None, None, None, body)
  }

  /** `State::new`. */
  function Fresh(): Store {
    Store(map[ROOT_ID := PlainNode("/", ROOT_ID, ROOT_ID, EMPTY_DIR)], map[ROOT_ID := ROOT_ID], map[], {}, 1,
          map[], map[], map[], false, 0x10_0000)
  }

  // ----- Resolution -----

  /** The entries of a directory; nothing for any other id. */
  function Kids(nodes: map<Id, Node>, id: Id): map<Name, Id> {
    if id in nodes && nodes[id].body.Dir? then nodes[id].body.children else map[]
  }

  function Child(nodes: map<Id, Node>, id: Id, name: Name): Result<Id> {
    if id !in nodes then Err(ENOENT)
    else if !nodes[id].body.Dir? then Err(ENOTDIR)
    else if name in nodes[id].body.children then Ok(nodes[id].body.children[name])
    else Err(ENOENT)
  }

  /** Follows `path` down from `id`, one directory entry per name. */
  function Resolve(nodes: map<Id, Node>, id: Id, path: seq<Name>): Result<Id> {
    if path == [] then Ok(id)
    else
      match Resolve(nodes, id, path[..|path| - 1])
      case Err(e) => Err(e)
      case Ok(dir) => Child(nodes, dir, path[|path| - 1])
  }

  ghost predicate Reaches(nodes: map<Id, Node>, id: Id, target: Id) {
    exists path: seq<Name> :: Resolve(nodes, id, path) == Ok(target)
  }

  /** Every node found by following directory entries down from `id`, `id` included. */
  ghost function Subtree(nodes: map<Id, Node>, id: Id): set<Id> {
    set n | n in nodes && Reaches(nodes, id, n)
  }

  ghost predicate Attached(s: Store, id: Id) {
    id in Subtree(s.nodes, ROOT_ID)
  }

  lemma ResolveSnoc(nodes: map<Id, Node>, id: Id, path: seq<Name>, name: Name)
    ensures Resolve(nodes, id, path + [name]) ==
            match Resolve(nodes, id, path) { case Err(e) => Err(e) case Ok(dir) => Child(nodes, dir, name) }
  {
    assert (path + [name])[..|path|] == path;
  }

  lemma {:induction false} ResolveConcat(nodes: map<Id, Node>, id: Id, path: seq<Name>, rest: seq<Name>)
    ensures Resolve(nodes, id, path + rest) ==
            match Resolve(nodes, id, path) { case Err(e) => Err(e) case Ok(dir) => Resolve(nodes, dir, rest) }
    decreases |rest|
  {
    if rest == [] {
      assert path + rest == path;
    } else {
      var front, last := rest[..|rest| - 1], rest[|rest| - 1];
      ResolveConcat(nodes, id, path, front);
      assert (path + rest)[..|path + rest| - 1] == path + front;
    }
  }

  // ----- Invariants -----

  ghost predicate IsTop(s: Store, id: Id) {
    id == ROOT_ID || id in s.detached
  }

  /** The node is the entry its parent lists under its name. */
  ghost predicate Hangs(s: Store, id: Id)
    requires id in s.nodes
  {
    var node := s.nodes[id];
    node.name in Kids(s.nodes, node.parent) && Kids(s.nodes, node.parent)[node.name] == id
  }

  /** The entry `name` of `dir` is a node that agrees on its parent and name, and is no top. */
  ghost predicate EntryOk(s: Store, dir: Id, name: Name)
    requires name in Kids(s.nodes, dir)
  {
    var child := Kids(s.nodes, dir)[name];
    child in s.nodes && !IsTop(s, child) && s.nodes[child].parent == dir && s.nodes[child].name == name
  }

  /** Directory entries and parent pointers agree, except that a top hangs from nothing. */
  ghost predicate Linked(s: Store) {
    && ROOT_ID in s.nodes && s.nodes[ROOT_ID].body.Dir? && s.nodes[ROOT_ID].parent == ROOT_ID
    && ROOT_ID !in s.detached
    && s.detached <= s.nodes.Keys
    && (forall n {:trigger Hangs(s, n)} :: n in s.nodes && !IsTop(s, n) ==> Hangs(s, n))
    && (forall dir, name {:trigger EntryOk(s, dir, name)} :: name in Kids(s.nodes, dir) ==> EntryOk(s, dir, name))
  }

  ghost predicate Given(s: Store, n: Id)
    requires n in s.nodes
  {
    n < s.nextId && s.nodes[n].parent < s.nextId
  }

  /** Ids are handed out once: nothing points at an id not yet given. */
  ghost predicate Issued(s: Store) {
    forall n {:trigger Given(s, n)} :: n in s.nodes ==> Given(s, n)
  }

  lemma NextIdIsNew(s: Store)
    requires Issued(s)
    ensures s.nextId !in s.nodes
  {
    assert s.nextId in s.nodes ==> Given(s, s.nextId);
  }

  ghost predicate Inverse(s: Store, q: nat, n: Id) {
    (q in s.qidIndex && s.qidIndex[q] == n) <==> (n in s.nodes && s.nodes[n].qidPath == q)
  }

  /** `qidIndex` is the exact inverse of the node-to-qid map. */
  ghost predicate Indexed(s: Store) {
    forall q: nat, n: Id :: Inverse(s, q, n)
  }

  lemma IndexInverts(s: Store)
    requires Indexed(s)
    ensures forall q :: q in s.qidIndex ==> s.qidIndex[q] in s.nodes && s.nodes[s.qidIndex[q]].qidPath == q
    ensures forall n :: n in s.nodes ==> s.nodes[n].qidPath in s.qidIndex && s.qidIndex[s.nodes[n].qidPath] == n
  {
    forall q | q in s.qidIndex
      ensures s.qidIndex[q] in s.nodes && s.nodes[s.qidIndex[q]].qidPath == q
    {
      assert Inverse(s, q, s.qidIndex[q]);
    }
    forall n | n in s.nodes
      ensures s.nodes[n].qidPath in s.qidIndex && s.qidIndex[s.nodes[n].qidPath] == n
    {
      assert Inverse(s, s.nodes[n].qidPath, n);
    }
  }

  ghost predicate Counted(s: Store, n: Id)
    requires n in s.refs
  {
    n in s.nodes && s.refs[n] > 0
  }

  /** The per-node side tables name live nodes only, and every count is positive. */
  ghost predicate Tabled(s: Store) {
    && (forall n {:trigger Counted(s, n)} :: n in s.refs ==> Counted(s, n))
    && s.intakes.Keys <= s.nodes.Keys
    && s.renameRoots.Keys <= s.nodes.Keys
  }

  ghost predicate RankFalls(s: Store, rank: map<Id, nat>, n: Id)
    requires n in s.nodes && n in rank
  {
    s.nodes[n].parent in rank ==> rank[s.nodes[n].parent] < rank[n]
  }

  /** `rank` falls along every parent pointer, also along the stale one of a detached root. */
  ghost predicate Ranked(s: Store, rank: map<Id, nat>) {
    && rank.Keys == s.nodes.Keys
    && (forall n {:trigger RankFalls(s, rank, n)} :: n in s.nodes && n != ROOT_ID ==> RankFalls(s, rank, n))
  }

  ghost predicate Acyclic(s: Store) {
    exists rank: map<Id, nat> :: Ranked(s, rank)
  }

  /** Everything but the promise that detached trees are still in use. */
  ghost predicate Shape(s: Store) {
    Linked(s) && Issued(s) && Indexed(s) && Tabled(s) && Acyclic(s)
  }

  ghost predicate HasRef(s: Store, id: Id) {
    exists n :: n in s.refs && n in Subtree(s.nodes, id)
  }

  /** Every detached root has a fid-bound node in its subtree. */
  ghost predicate Settled(s: Store) {
    forall d {:trigger HasRef(s, d)} :: d in s.detached ==> HasRef(s, d)
  }

  ghost predicate Inv(s: Store) {
    Shape(s) && Settled(s)
  }

  lemma FreshStoreIsLinked(s: Store)
    requires s == Fresh()
    ensures Linked(s)
  {
  }

  lemma FreshStoreIsIndexed(s: Store)
    requires s == Fresh()
    ensures Indexed(s)
  {
  }

  lemma FreshStoreIsRanked(s: Store)
    requires s == Fresh()
    ensures Issued(s) && Tabled(s) && Ranked(s, map[ROOT_ID := 0]) && Settled(s)
  {
  }

  lemma FreshStoreIsGood(s: Store)
    requires s == Fresh()
    ensures Inv(s)
  {
    FreshStoreIsLinked(s);
    FreshStoreIsRanked(s);
    FreshStoreIsIndexed(s);
  }

  // ----- Subtrees -----

  lemma SubtreeHasSelf(nodes: map<Id, Node>, id: Id)
    requires id in nodes
    ensures id in Subtree(nodes, id)
  {
    assert Resolve(nodes, id, []) == Ok(id);
  }

  /** A nonempty path ends at a node that knows its parent and name. */
  lemma LastStep(s: Store, id: Id, path: seq<Name>)
    requires Linked(s) && path != [] && Resolve(s.nodes, id, path).Ok?
    ensures Resolve(s.nodes, id, path[..|path| - 1]).Ok?
    ensures var n := Resolve(s.nodes, id, path).value;
            && n in s.nodes && !IsTop(s, n)
            && Ok(s.nodes[n].parent) == Resolve(s.nodes, id, path[..|path| - 1])
            && s.nodes[n].name == path[|path| - 1]
  {
    var dir := Resolve(s.nodes, id, path[..|path| - 1]).value;
    assert EntryOk(s, dir, path[|path| - 1]);
  }

  /** Membership in a subtree, one parent at a time. */
  lemma SubtreeStep(s: Store, id: Id, n: Id)
    requires Linked(s) && id in s.nodes && n in s.nodes && n != id
    ensures n in Subtree(s.nodes, id) <==>
            !IsTop(s, n) && s.nodes[n].parent in Subtree(s.nodes, id)
  {
    if n in Subtree(s.nodes, id) {
      var path: seq<Name> :| Resolve(s.nodes, id, path) == Ok(n);
      LastStep(s, id, path);
      assert Resolve(s.nodes, id, path[..|path| - 1]) == Ok(s.nodes[n].parent);
      assert s.nodes[n].parent in s.nodes by {
        assert Hangs(s, n);
      }
    }
    if !IsTop(s, n) && s.nodes[n].parent in Subtree(s.nodes, id) {
      assert Hangs(s, n);
      var path: seq<Name> :| Resolve(s.nodes, id, path) == Ok(s.nodes[n].parent);
      ResolveSnoc(s.nodes, id, path, s.nodes[n].name);
    }
  }

  lemma SubtreeSteps(s: Store, id: Id)
    requires Linked(s) && id in s.nodes
    ensures id in Subtree(s.nodes, id)
    ensures forall n :: n in s.nodes && n != id ==>
              (n in Subtree(s.nodes, id) <==> !IsTop(s, n) && s.nodes[n].parent in Subtree(s.nodes, id))
  {
    SubtreeHasSelf(s.nodes, id);
    forall n | n in s.nodes && n != id
      ensures n in Subtree(s.nodes, id) <==> !IsTop(s, n) && s.nodes[n].parent in Subtree(s.nodes, id)
    {
      SubtreeStep(s, id, n);
    }
  }

  /** A path leads from at most one top: tops and paths to a node are unique. */
  lemma {:induction false} TopPathUnique(s: Store, a: Id, p: seq<Name>, b: Id, q: seq<Name>)
    requires Linked(s) && IsTop(s, a) && IsTop(s, b)
    requires Resolve(s.nodes, a, p).Ok? && Resolve(s.nodes, a, p) == Resolve(s.nodes, b, q)
    ensures a == b && p == q
    decreases |p|
  {
    if p != [] {
      LastStep(s, a, p);
    }
    if q != [] {
      LastStep(s, b, q);
    }
    if p != [] && q != [] {
      TopPathUnique(s, a, p[..|p| - 1], b, q[..|q| - 1]);
      assert p == p[..|p| - 1] + [p[|p| - 1]] && q == q[..|q| - 1] + [q[|q| - 1]];
    }
  }

  /** Following parents from any node ends at a top. */
  lemma {:induction false} EveryNodeHasTop(s: Store, rank: map<Id, nat>, n: Id) returns (top: Id)
    requires Linked(s) && Ranked(s, rank) && n in s.nodes
    ensures top in s.nodes && IsTop(s, top) && n in Subtree(s.nodes, top)
    decreases rank[n]
  {
    if IsTop(s, n) {
      top := n;
      SubtreeHasSelf(s.nodes, n);
    } else {
      assert Hangs(s, n) && RankFalls(s, rank, n);
      top := EveryNodeHasTop(s, rank, s.nodes[n].parent);
      SubtreeSteps(s, top);
    }
  }

  /** The nodes are the disjoint union of the root's tree and the detached trees. */
  lemma NodesArePartitioned(s: Store, n: Id)
    requires Shape(s) && n in s.nodes
    ensures exists top :: IsTop(s, top) && n in Subtree(s.nodes, top)
    ensures forall a, b :: IsTop(s, a) && IsTop(s, b) && n in Subtree(s.nodes, a) && n in Subtree(s.nodes, b) ==> a == b
  {
    var rank: map<Id, nat> :| Ranked(s, rank);
    var top := EveryNodeHasTop(s, rank, n);
    forall a, b | IsTop(s, a) && IsTop(s, b) && n in Subtree(s.nodes, a) && n in Subtree(s.nodes, b)
      ensures a == b
    {
      var p: seq<Name> :| Resolve(s.nodes, a, p) == Ok(n);
      var q: seq<Name> :| Resolve(s.nodes, b, q) == Ok(n);
      TopPathUnique(s, a, p, b, q);
    }
  }

  /** A proper descendant ranks higher, so a subtree does not contain its own ancestors. */
  lemma {:induction false} RankGrowsDown(s: Store, rank: map<Id, nat>, id: Id, path: seq<Name>)
    requires Linked(s) && Ranked(s, rank) && id in s.nodes
    requires Resolve(s.nodes, id, path).Ok?
    ensures var n := Resolve(s.nodes, id, path).value;
            n in s.nodes && (if path == [] then n == id else rank[id] < rank[n])
    decreases |path|
  {
    if path != [] {
      LastStep(s, id, path);
      RankGrowsDown(s, rank, id, path[..|path| - 1]);
      assert RankFalls(s, rank, Resolve(s.nodes, id, path).value);
    }
  }
}
