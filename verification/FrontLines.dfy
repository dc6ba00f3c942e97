/** The line of parents above a node, and whether it stays within an attach root. The line of a node in a
    detached tree goes on along the stale parent of the tree's root, as walking up with ".." does. */
module FrontLines {
  import opened Prelude
  import opened Paths
  import opened FrontStore
  import opened FrontCollect
  import opened FrontOps
  import opened FrontPaths
  import opened FrontWalk

  function LineIn(nodes: map<Id, Node>, n: Id, todo: set<Id>): (line: seq<Id>)
    requires todo <= nodes.Keys
    ensures line != []
    decreases todo
  {
    if n == ROOT_ID || n !in todo then [n] else [n] + LineIn(nodes, nodes[n].parent, todo - {n})
  }

  /** The node, its parent and so on, up to the root of the namespace or to the first that is gone. */
  function Line(s: Store, n: Id): (line: seq<Id>)
    ensures line != []
  {
    LineIn(s.nodes, n, s.nodes.Keys)
  }

  function Last(line: seq<Id>): Id
    requires line != []
  {
    line[|line| - 1]
  }

  /** Going up from `n` meets `root`, or comes to a node that is gone; it never passes `root` on the way
      to the root of the namespace. */
  predicate Confined(s: Store, n: Id, root: Id) {
    root in Line(s, n) || Last(Line(s, n)) != ROOT_ID
  }

  /** Going up from `n` meets `id`, strictly before `root`. */
  ghost predicate Passes(s: Store, n: Id, root: Id, id: Id) {
    exists i :: 0 <= i < |Line(s, n)| && Line(s, n)[i] == id && root !in Line(s, n)[..i + 1]
  }

  // ----- One parent at a time -----

  lemma {:induction false} LineRoom(s: Store, rank: map<Id, nat>, n: Id, todo: set<Id>)
    requires Ranked(s, rank) && todo <= s.nodes.Keys && Roomy(rank, todo, n)
    ensures LineIn(s.nodes, n, todo) == Line(s, n)
    decreases if n in rank then rank[n] + 1 else 0
  {
    if n != ROOT_ID && n in todo {
      assert RankFalls(s, rank, n);
      LineRoom(s, rank, s.nodes[n].parent, todo - {n});
      LineRoom(s, rank, s.nodes[n].parent, s.nodes.Keys - {n});
    }
  }

  lemma LineStep(s: Store, n: Id)
    requires Acyclic(s) && n in s.nodes && n != ROOT_ID
    ensures Line(s, n) == [n] + Line(s, s.nodes[n].parent)
  {
    var rank: map<Id, nat> :| Ranked(s, rank);
    assert RankFalls(s, rank, n);
    LineRoom(s, rank, s.nodes[n].parent, s.nodes.Keys - {n});
  }

  /** A node on whose line the next one decides. */
  predicate GoesOn(s: Store, n: Id) {
    n in s.nodes && n != ROOT_ID
  }

  lemma ConfinedStep(s: Store, n: Id, root: Id)
    requires Acyclic(s)
    ensures if n == root then Confined(s, n, root)
            else if GoesOn(s, n) then Confined(s, n, root) <==> Confined(s, s.nodes[n].parent, root)
            else Confined(s, n, root) <==> n != ROOT_ID
  {
    if GoesOn(s, n) {
      LineStep(s, n);
    }
  }

  lemma OnLineStep(s: Store, n: Id, id: Id)
    requires Acyclic(s)
    ensures id in Line(s, n) <==> n == id || (GoesOn(s, n) && id in Line(s, s.nodes[n].parent))
  {
    if GoesOn(s, n) {
      LineStep(s, n);
    }
  }

  lemma PassesStep(s: Store, n: Id, root: Id, id: Id)
    requires Acyclic(s)
    ensures Passes(s, n, root, id) <==>
              n != root && (n == id || (GoesOn(s, n) && Passes(s, s.nodes[n].parent, root, id)))
  {
    var line := Line(s, n);
    if n == id && n != root {
      assert line[0] == id && root !in line[..1];
    }
    if GoesOn(s, n) {
      LineStep(s, n);
      var rest := Line(s, s.nodes[n].parent);
      if Passes(s, n, root, id) {
        var i :| 0 <= i < |line| && line[i] == id && root !in line[..i + 1];
        assert line[0] in line[..i + 1];
        if i > 0 {
          assert rest[i - 1] == id && line[..i + 1] == [n] + rest[..i];
        }
      }
      if n != root && Passes(s, s.nodes[n].parent, root, id) {
        var i :| 0 <= i < |rest| && rest[i] == id && root !in rest[..i + 1];
        assert line[i + 1] == id && line[..i + 2] == [n] + rest[..i + 1];
      }
    } else if Passes(s, n, root, id) {
      var i :| 0 <= i < |line| && line[i] == id && root !in line[..i + 1];
      assert line[0] in line[..i + 1];
    }
  }

  lemma {:induction false} PassedIsOnLine(s: Store, n: Id, root: Id, id: Id)
    requires Passes(s, n, root, id)
    ensures id in Line(s, n)
  {
  }

  /** The line is what printing a path follows. */
  lemma {:induction false} UnderIsOnLine(s: Store, rank: map<Id, nat>, n: Id, root: Id)
    requires Ranked(s, rank)
    ensures Under(s, n, root) <==> root in Line(s, n)
    decreases if n in rank then rank[n] + 1 else 0
  {
    assert Acyclic(s);
    OnLineStep(s, n, root);
    if n != root && GoesOn(s, n) {
      assert RankFalls(s, rank, n);
      NamesUpRoom(s, rank, s.nodes[n].parent, root, s.nodes.Keys - {n});
      UnderIsOnLine(s, rank, s.nodes[n].parent, root);
    }
  }

  // ----- Lines from below and from above -----

  lemma {:induction false} LineEndsAtRoot(s: Store, path: seq<Name>, n: Id)
    requires Linked(s) && Acyclic(s) && Resolve(s.nodes, ROOT_ID, path) == Ok(n)
    ensures Last(Line(s, n)) == ROOT_ID
    decreases |path|
  {
    hide Acyclic;
    if path != [] {
      LastStep(s, ROOT_ID, path);
      LineStep(s, n);
      LineEndsAtRoot(s, path[..|path| - 1], s.nodes[n].parent);
    }
  }

  /** The line of a node that can be reached is the way to it. */
  lemma {:induction false} OnWay(s: Store, path: seq<Name>, n: Id, id: Id)
    requires Linked(s) && Acyclic(s) && Resolve(s.nodes, ROOT_ID, path) == Ok(n)
    ensures id in Line(s, n) <==> exists k :: 0 <= k <= |path| && Resolve(s.nodes, ROOT_ID, path[..k]) == Ok(id)
    decreases |path|
  {
    hide Acyclic;
    OnLineStep(s, n, id);
    assert path[..|path|] == path;
    if path != [] {
      var front := path[..|path| - 1];
      LastStep(s, ROOT_ID, path);
      OnWay(s, front, s.nodes[n].parent, id);
      forall k | 0 <= k < |path|
        ensures path[..k] == front[..k]
      {
      }
    }
  }

  /** The line of a node that can be reached is the way to it, and ends at the root. */
  lemma LineOfPath(s: Store, path: seq<Name>, n: Id)
    requires Linked(s) && Acyclic(s) && Resolve(s.nodes, ROOT_ID, path) == Ok(n)
    ensures Last(Line(s, n)) == ROOT_ID
    ensures forall id :: id in Line(s, n) <==>
              exists k :: 0 <= k <= |path| && Resolve(s.nodes, ROOT_ID, path[..k]) == Ok(id)
  {
    hide Linked, Acyclic, Line;
    LineEndsAtRoot(s, path, n);
    forall id: Id {
      OnWay(s, path, n, id);
    }
  }

  /** A confined node that can be reached is under its attach root. */
  lemma ConfinedIsUnder(s: Store, n: Id, root: Id)
    requires Shape(s) && Confined(s, n, root) && Attached(s, n)
    ensures Under(s, n, root)
  {
    var path: seq<Name> :| Resolve(s.nodes, ROOT_ID, path) == Ok(n);
    LineOfPath(s, path, n);
    var rank: map<Id, nat> :| Ranked(s, rank);
    UnderIsOnLine(s, rank, n, root);
  }

  /** No confined node is the root of the namespace, unless that is the attach root. */
  lemma ConfinedIsNotRoot(s: Store, root: Id)
    ensures Confined(s, ROOT_ID, root) <==> root == ROOT_ID
  {
  }

  // ----- Changes that keep parents -----

  ghost predicate ParentKept(s: Store, t: Store, n: Id) {
    n in t.nodes && n < s.nextId ==> n in s.nodes && t.nodes[n].parent == s.nodes[n].parent
  }

  /** Nodes may go and new ones may come, but no node changes its parent. */
  ghost predicate Inherits(s: Store, t: Store) {
    s.nextId <= t.nextId && forall n {:trigger ParentKept(s, t, n)} :: ParentKept(s, t, n)
  }

  lemma InheritsSelf(s: Store)
    ensures Inherits(s, s)
  {
  }

  lemma InheritsCompose(s: Store, t: Store, u: Store)
    requires Inherits(s, t) && Inherits(t, u)
    ensures Inherits(s, u)
  {
    forall n: Id
      ensures ParentKept(s, u, n)
    {
      assert ParentKept(s, t, n) && ParentKept(t, u, n);
    }
  }

  /** Such changes let no node out of its attach root. */
  lemma {:induction false} InheritsConfines(s: Store, t: Store, rank: map<Id, nat>, n: Id, root: Id)
    requires Acyclic(s) && Issued(s) && Ranked(t, rank) && Inherits(s, t)
    requires n < s.nextId && Confined(s, n, root)
    ensures Confined(t, n, root)
    decreases if n in rank then rank[n] + 1 else 0
  {
    assert Acyclic(t);
    ConfinedStep(s, n, root);
    ConfinedStep(t, n, root);
    if n != root && GoesOn(t, n) {
      assert ParentKept(s, t, n) && RankFalls(t, rank, n) && Given(s, n);
      InheritsConfines(s, t, rank, t.nodes[n].parent, root);
    }
  }

  /** When nodes only go, a node that was out is confined again exactly when one of its line is gone. */
  lemma {:induction false} ConfinedAgainIff(s: Store, t: Store, rank: map<Id, nat>, n: Id, root: Id)
    requires Acyclic(s) && Issued(s) && Linked(t) && Ranked(t, rank) && Inherits(s, t)
    requires n < s.nextId && !Confined(s, n, root)
    ensures Confined(t, n, root) <==> exists m :: m in Line(s, n) && m !in t.nodes
    decreases if n in rank then rank[n] + 1 else 0
  {
    hide Confined;
    assert Acyclic(t);
    ConfinedStep(s, n, root);
    ConfinedStep(t, n, root);
    OnLineStep(s, n, n);
    if n in t.nodes && n != ROOT_ID {
      assert ParentKept(s, t, n) && RankFalls(t, rank, n) && Given(s, n);
      var parent := s.nodes[n].parent;
      ConfinedAgainIff(s, t, rank, parent, root);
      LineStep(s, n);
    }
  }

  lemma RemoveInherits(s: Store, gone: set<Id>)
    ensures Inherits(s, RemoveNodes(s, gone))
  {
  }

  lemma DetachInherits(s: Store, drop: set<Id>)
    ensures Inherits(s, Detach(s, drop))
  {
  }

  lemma SameEdgesInherits(s: Store, t: Store)
    requires SameEdges(s.nodes, t.nodes) && s.nextId <= t.nextId
    ensures Inherits(s, t)
  {
    forall n: Id
      ensures ParentKept(s, t, n)
    {
      assert n in s.nodes ==> SamePlaceAt(s.nodes, t.nodes, n);
    }
  }

  lemma InsertInherits(s: Store, node: Node)
    requires node.parent in s.nodes && s.nodes[node.parent].body.Dir?
    ensures Inherits(s, Insert(s, node))
  {
  }
}
