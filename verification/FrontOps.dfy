/** The elementary changes every store operation is made of, and what each keeps. */
module FrontOps {
  import opened Prelude
  import opened Paths
  import opened FrontStore

  // ----- Changes that leave the tree alone -----

  /** Same name, same parent, same directory entries. */
  predicate SamePlace(x: Node, y: Node) {
    && x.name == y.name && x.parent == y.parent
    && (x.body.Dir? <==> y.body.Dir?)
    && (x.body.Dir? ==> x.body.children == y.body.children)
  }

  ghost predicate SamePlaceAt(a: map<Id, Node>, b: map<Id, Node>, n: Id)
    requires n in a && n in b
  {
    SamePlace(a[n], b[n])
  }

  /** Same nodes in the same places. */
  ghost predicate SameEdges(a: map<Id, Node>, b: map<Id, Node>) {
    a.Keys == b.Keys && (forall n {:trigger SamePlaceAt(a, b, n)} :: n in a ==> SamePlaceAt(a, b, n))
  }

  lemma {:induction false} SameEdgesSamePath(a: map<Id, Node>, b: map<Id, Node>, id: Id, path: seq<Name>)
    requires SameEdges(a, b)
    ensures Resolve(a, id, path) == Resolve(b, id, path)
    decreases |path|
  {
    if path != [] {
      SameEdgesSamePath(a, b, id, path[..|path| - 1]);
      if Resolve(a, id, path[..|path| - 1]).Ok? {
        var dir := Resolve(a, id, path[..|path| - 1]).value;
        assert dir in a ==> SamePlaceAt(a, b, dir);
      }
    }
  }

  lemma SameEdgesCompose(a: map<Id, Node>, b: map<Id, Node>, c: map<Id, Node>)
    requires SameEdges(a, b) && SameEdges(b, c)
    ensures SameEdges(a, c)
  {
    forall n | n in a
      ensures SamePlaceAt(a, c, n)
    {
      assert SamePlaceAt(a, b, n) && SamePlaceAt(b, c, n);
    }
  }

  lemma SameEdgesSameSubtree(a: map<Id, Node>, b: map<Id, Node>, id: Id)
    requires SameEdges(a, b)
    ensures Subtree(a, id) == Subtree(b, id)
  {
    forall n: Id
      ensures Reaches(a, id, n) <==> Reaches(b, id, n)
    {
      if Reaches(a, id, n) {
        var path: seq<Name> :| Resolve(a, id, path) == Ok(n);
        SameEdgesSamePath(a, b, id, path);
      }
      if Reaches(b, id, n) {
        var path: seq<Name> :| Resolve(b, id, path) == Ok(n);
        SameEdgesSamePath(a, b, id, path);
      }
    }
  }

  lemma SameEdgesKeepLinked(s: Store, t: Store)
    requires SameEdges(s.nodes, t.nodes) && t.detached == s.detached && Linked(s)
    ensures Linked(t)
  {
    assert SamePlaceAt(s.nodes, t.nodes, ROOT_ID);
    forall dir
      ensures Kids(t.nodes, dir) == Kids(s.nodes, dir)
    {
      if dir in s.nodes {
        assert SamePlaceAt(s.nodes, t.nodes, dir);
      }
    }
    forall n | n in t.nodes && !IsTop(t, n)
      ensures Hangs(t, n)
    {
      assert Hangs(s, n) && SamePlaceAt(s.nodes, t.nodes, n);
    }
    forall dir, name | name in Kids(t.nodes, dir)
      ensures EntryOk(t, dir, name)
    {
      assert EntryOk(s, dir, name);
      assert SamePlaceAt(s.nodes, t.nodes, Kids(s.nodes, dir)[name]);
    }
  }

  lemma SameEdgesKeepRank(s: Store, t: Store)
    requires SameEdges(s.nodes, t.nodes) && t.nextId == s.nextId && Issued(s) && Acyclic(s)
    ensures Issued(t) && Acyclic(t)
  {
    forall n | n in t.nodes
      ensures Given(t, n)
    {
      assert Given(s, n) && SamePlaceAt(s.nodes, t.nodes, n);
    }
    var rank: map<Id, nat> :| Ranked(s, rank);
    forall n | n in t.nodes && n != ROOT_ID
      ensures RankFalls(t, rank, n)
    {
      assert RankFalls(s, rank, n) && SamePlaceAt(s.nodes, t.nodes, n);
    }
    assert Ranked(t, rank);
  }

  /** An index over unchanged nodes with unchanged qids stays exact. */
  lemma SameQidsKeepIndex(s: Store, t: Store)
    requires Indexed(s) && t.qidIndex == s.qidIndex && t.nodes.Keys == s.nodes.Keys
    requires forall n :: n in s.nodes ==> t.nodes[n].qidPath == s.nodes[n].qidPath
    ensures Indexed(t)
  {
    forall q: nat, n: Id
      ensures Inverse(t, q, n)
    {
      assert Inverse(s, q, n);
    }
  }

  /** Counts and side tables only mention which nodes exist. */
  lemma SameKeysKeepTables(s: Store, t: Store)
    requires Tabled(s) && s.nodes.Keys <= t.nodes.Keys
    requires t.refs == s.refs && t.intakes == s.intakes && t.renameRoots == s.renameRoots
    ensures Tabled(t)
  {
    forall n | n in t.refs
      ensures Counted(t, n)
    {
      assert Counted(s, n);
    }
  }

  lemma SameEdgesKeepInv(s: Store, t: Store)
    requires SameEdges(s.nodes, t.nodes) && t.detached == s.detached && t.refs == s.refs && t.nextId == s.nextId
    requires Inv(s) && Indexed(t) && Tabled(t)
    ensures Inv(t)
  {
    SameEdgesKeepLinked(s, t);
    SameEdgesKeepRank(s, t);
    forall d | d in t.detached
      ensures HasRef(t, d)
    {
      assert HasRef(s, d);
      SameEdgesSameSubtree(s.nodes, t.nodes, d);
    }
  }

  /** The new contents keep the node where it is, qid included. */
  predicate KeepsPlace(node: Node, next: Node) {
    SamePlace(node, next) && next.qidPath == node.qidPath
  }

  function Touch(s: Store, id: Id, next: Node): Store {
    s.(nodes := s.nodes[id := next])
  }

  lemma TouchKeepsEdges(s: Store, id: Id, next: Node)
    requires id in s.nodes && KeepsPlace(s.nodes[id], next)
    ensures SameEdges(s.nodes, Touch(s, id, next).nodes)
  {
  }

  lemma TouchKeepsInv(s: Store, id: Id, next: Node)
    requires Inv(s) && id in s.nodes && KeepsPlace(s.nodes[id], next)
    ensures Inv(Touch(s, id, next)) && Touch(s, id, next).refs == s.refs
    ensures SameEdges(s.nodes, Touch(s, id, next).nodes)
  {
    var t := Touch(s, id, next);
    TouchKeepsEdges(s, id, next);
    SameQidsKeepIndex(s, t);
    SameKeysKeepTables(s, t);
    SameEdgesKeepInv(s, t);
  }

  /** The node under a new qid path. */
  function WithQid(s: Store, id: Id, qidPath: nat): Store
    requires id in s.nodes
  {
    s.(nodes := s.nodes[id := s.nodes[id].(qidPath := qidPath)],
       qidIndex := (s.qidIndex - {s.nodes[id].qidPath})[qidPath := id])
  }

  /** `replace_qid_path`. */
  function ReplaceQid(s: Store, id: Id, qidPath: nat): (Store, Result<()>) {
    if qidPath in s.qidIndex && s.qidIndex[qidPath] != id then (s, Err("qid path already in use"))
    else if id !in s.nodes then (s, Err(ENOENT))
    else if s.nodes[id].qidPath == qidPath then (s, Ok(()))
    else (WithQid(s, id, qidPath), Ok(()))
  }

  lemma WithQidKeepsIndex(s: Store, id: Id, qidPath: nat)
    requires Indexed(s) && id in s.nodes && qidPath !in s.qidIndex
    ensures Indexed(WithQid(s, id, qidPath))
  {
    var t := WithQid(s, id, qidPath);
    IndexInverts(s);
    forall q: nat, n: Id
      ensures Inverse(t, q, n)
    {
      assert Inverse(s, q, n);
    }
  }

  lemma WithQidKeepsEdges(s: Store, id: Id, qidPath: nat)
    requires id in s.nodes
    ensures SameEdges(s.nodes, WithQid(s, id, qidPath).nodes)
  {
  }

  lemma WithQidKeepsInv(s: Store, id: Id, qidPath: nat)
    requires Inv(s) && id in s.nodes && qidPath !in s.qidIndex
    ensures Inv(WithQid(s, id, qidPath)) && SameEdges(s.nodes, WithQid(s, id, qidPath).nodes)
  {
    var t := WithQid(s, id, qidPath);
    WithQidKeepsIndex(s, id, qidPath);
    WithQidKeepsEdges(s, id, qidPath);
    SameKeysKeepTables(s, t);
    SameEdgesKeepInv(s, t);
  }

  lemma SameEdgesReflexive(a: map<Id, Node>)
    ensures SameEdges(a, a)
  {
  }

  lemma ReplaceQidKeepsInv(s: Store, id: Id, qidPath: nat)
    requires Inv(s)
    ensures var (t, r) := ReplaceQid(s, id, qidPath);
            && Inv(t) && SameEdges(s.nodes, t.nodes)
            && (r.Ok? ==> id in t.nodes && t.nodes[id].qidPath == qidPath)
            && (r.Err? ==> t == s)
  {
    SameEdgesReflexive(s.nodes);
    IndexInverts(s);
    if qidPath !in s.qidIndex && id in s.nodes {
      WithQidKeepsInv(s, id, qidPath);
    }
  }

  // ----- Inserting a node -----

  /** Hangs a new node under an existing directory; ids come from `nextId`. */
  function Insert(s: Store, node: Node): Store
    requires node.parent in s.nodes && s.nodes[node.parent].body.Dir?
  {
    var dir := s.nodes[node.parent];
    var listed := dir.(body := dir.body.(children := dir.body.children[node.name := s.nextId]));
    s.(nodes := s.nodes[s.nextId := node][node.parent := listed],
       qidIndex := s.qidIndex[node.qidPath := s.nextId],
       nextId := s.nextId + 1)
  }

  ghost predicate Insertable(s: Store, node: Node) {
    && node.parent in s.nodes && s.nodes[node.parent].body.Dir?
    && node.name !in s.nodes[node.parent].body.children
    && node.qidPath !in s.qidIndex
    && (node.body.Dir? ==> node.body.children == map[])
  }

  lemma InsertKeepsLinked(s: Store, node: Node)
    requires Linked(s) && Issued(s) && Insertable(s, node)
    ensures Linked(Insert(s, node))
  {
    var t := Insert(s, node);
    NextIdIsNew(s);
    forall n | n in t.nodes && !IsTop(t, n)
      ensures Hangs(t, n)
    {
      if n != s.nextId {
        assert Hangs(s, n);
      }
    }
    forall dir, name | name in Kids(t.nodes, dir)
      ensures EntryOk(t, dir, name)
    {
      if dir != s.nextId && !(dir == node.parent && name == node.name) {
        assert EntryOk(s, dir, name);
      }
    }
  }

  lemma InsertKeepsIndex(s: Store, node: Node)
    requires Issued(s) && Indexed(s) && Insertable(s, node)
    ensures Indexed(Insert(s, node))
  {
    NextIdIsNew(s);
    var t := Insert(s, node);
    IndexInverts(s);
    forall q: nat, n: Id
      ensures Inverse(t, q, n)
    {
      assert Inverse(s, q, n);
    }
  }

  lemma InsertKeepsIssued(s: Store, node: Node)
    requires Issued(s) && Insertable(s, node)
    ensures Issued(Insert(s, node))
  {
    var t := Insert(s, node);
    assert Given(s, node.parent);
    forall n | n in t.nodes
      ensures Given(t, n)
    {
      assert n in s.nodes ==> Given(s, n);
    }
  }

  lemma InsertKeepsAcyclic(s: Store, node: Node)
    requires Issued(s) && Acyclic(s) && Insertable(s, node)
    ensures Acyclic(Insert(s, node))
  {
    NextIdIsNew(s);
    var t := Insert(s, node);
    var rank: map<Id, nat> :| Ranked(s, rank);
    var next := rank[s.nextId := rank[node.parent] + 1];
    forall n | n in t.nodes && n != ROOT_ID
      ensures RankFalls(t, next, n)
    {
      if n != s.nextId {
        assert Given(s, n) && RankFalls(s, rank, n);
      }
    }
    assert Ranked(t, next);
  }

  /** Every path that resolved still does, to the same node; the only new one ends at the new node. */
  lemma {:induction false} InsertPaths(s: Store, node: Node, id: Id, path: seq<Name>)
    requires Linked(s) && Issued(s) && Insertable(s, node) && id in s.nodes
    ensures var t := Insert(s, node);
            && (Resolve(s.nodes, id, path).Ok? ==> Resolve(t.nodes, id, path) == Resolve(s.nodes, id, path))
            && (Resolve(t.nodes, id, path).Ok? && !Resolve(s.nodes, id, path).Ok? ==>
                  && path != [] && path[|path| - 1] == node.name
                  && Resolve(s.nodes, id, path[..|path| - 1]) == Ok(node.parent)
                  && Resolve(t.nodes, id, path) == Ok(s.nextId))
    decreases |path|
  {
    NextIdIsNew(s);
    if path != [] {
      InsertPaths(s, node, id, path[..|path| - 1]);
      if Resolve(s.nodes, id, path).Ok? {
        LastStep(s, id, path);
      }
    }
  }

  lemma InsertKeepsRef(s: Store, node: Node, d: Id)
    requires Linked(s) && Issued(s) && Insertable(s, node) && d in s.nodes && HasRef(s, d)
    ensures HasRef(Insert(s, node), d)
  {
    var n :| n in s.refs && n in Subtree(s.nodes, d);
    var path: seq<Name> :| Resolve(s.nodes, d, path) == Ok(n);
    InsertPaths(s, node, d, path);
    assert n in Subtree(Insert(s, node).nodes, d);
  }

  lemma InsertKeepsInv(s: Store, node: Node)
    requires Inv(s) && Insertable(s, node)
    ensures Inv(Insert(s, node)) && Insert(s, node).refs == s.refs
  {
    InsertKeepsLinked(s, node);
    InsertKeepsIndex(s, node);
    InsertKeepsIssued(s, node);
    SameKeysKeepTables(s, Insert(s, node));
    InsertKeepsAcyclic(s, node);
    forall d | d in s.detached {
      InsertKeepsRef(s, node, d);
    }
  }

  // ----- Detaching nodes -----

  function Unlisted(node: Node, drop: set<Id>): Node {
    if node.body.Dir? then
      node.(body := node.body.(children :=
              map k | k in node.body.children && node.body.children[k] !in drop :: node.body.children[k]))
    else node
  }

  /** Takes nodes out of their directories and makes them detached roots. */
  function Detach(s: Store, drop: set<Id>): Store {
    s.(nodes := map n | n in s.nodes :: Unlisted(s.nodes[n], drop), detached := s.detached + drop)
  }

  lemma DetachKeepsLinked(s: Store, drop: set<Id>)
    requires Linked(s) && drop <= s.nodes.Keys && ROOT_ID !in drop
    ensures Linked(Detach(s, drop))
  {
    var t := Detach(s, drop);
    forall n | n in t.nodes && !IsTop(t, n)
      ensures Hangs(t, n)
    {
      assert Hangs(s, n);
    }
    forall dir, name | name in Kids(t.nodes, dir)
      ensures EntryOk(t, dir, name)
    {
      assert EntryOk(s, dir, name);
    }
  }

  lemma DetachKeepsRank(s: Store, drop: set<Id>)
    requires Issued(s) && Acyclic(s)
    ensures Issued(Detach(s, drop)) && Acyclic(Detach(s, drop))
  {
    var t := Detach(s, drop);
    forall n | n in t.nodes
      ensures Given(t, n)
    {
      assert Given(s, n);
    }
    var rank: map<Id, nat> :| Ranked(s, rank);
    forall n | n in t.nodes && n != ROOT_ID
      ensures RankFalls(t, rank, n)
    {
      assert RankFalls(s, rank, n);
    }
    assert Ranked(t, rank);
  }

  lemma DetachKeepsShape(s: Store, drop: set<Id>)
    requires Shape(s) && drop <= s.nodes.Keys && ROOT_ID !in drop
    ensures Shape(Detach(s, drop))
  {
    DetachKeepsLinked(s, drop);
    SameQidsKeepIndex(s, Detach(s, drop));
    SameKeysKeepTables(s, Detach(s, drop));
    DetachKeepsRank(s, drop);
  }

  /** No node strictly below `id` on the way along `path` is in `drop`. */
  ghost predicate Avoids(nodes: map<Id, Node>, id: Id, path: seq<Name>, drop: set<Id>)
    decreases |path|
  {
    path == [] ||
    (&& Avoids(nodes, id, path[..|path| - 1], drop)
     && (Resolve(nodes, id, path).Ok? ==> Resolve(nodes, id, path).value !in drop))
  }

  /** After detaching, exactly the paths that avoid the detached nodes still resolve. */
  lemma {:induction false} DetachPaths(s: Store, drop: set<Id>, id: Id, path: seq<Name>)
    ensures var t := Detach(s, drop);
            && (Avoids(s.nodes, id, path, drop) ==> Resolve(t.nodes, id, path) == Resolve(s.nodes, id, path))
            && (Resolve(t.nodes, id, path).Ok? ==> Avoids(s.nodes, id, path, drop))
    decreases |path|
  {
    if path != [] {
      DetachPaths(s, drop, id, path[..|path| - 1]);
    }
  }
}
