/** How a subtree splits into its root and the subtrees of the root's entries. */
module FrontSubtrees {
  import opened Prelude
  import opened Paths
  import opened FrontStore
  import opened FrontCollect

  /** From any node, one path leads to each node below it. */
  lemma {:induction false} PathUnique(s: Store, rank: map<Id, nat>, id: Id, p: seq<Name>, q: seq<Name>)
    requires Linked(s) && Ranked(s, rank) && id in s.nodes
    requires Resolve(s.nodes, id, p).Ok? && Resolve(s.nodes, id, p) == Resolve(s.nodes, id, q)
    ensures p == q
    decreases |p|
  {
    RankGrowsDown(s, rank, id, p);
    RankGrowsDown(s, rank, id, q);
    if p != [] && q != [] {
      LastStep(s, id, p);
      LastStep(s, id, q);
      PathUnique(s, rank, id, p[..|p| - 1], q[..|q| - 1]);
      assert p == p[..|p| - 1] + [p[|p| - 1]] && q == q[..|q| - 1] + [q[|q| - 1]];
    }
  }

  /** The entries of a node, whatever kind of node it is. */
  ghost function Entries(nodes: map<Id, Node>, id: Id): set<Id> {
    set k | k in Kids(nodes, id) :: Kids(nodes, id)[k]
  }

  lemma ResolveThroughEntry(nodes: map<Id, Node>, id: Id, k: Name, rest: seq<Name>)
    requires id in nodes && k in Kids(nodes, id)
    ensures Resolve(nodes, id, [k] + rest) == Resolve(nodes, Kids(nodes, id)[k], rest)
  {
    ResolveConcat(nodes, id, [k], rest);
    ResolveSnoc(nodes, id, [], k);
    assert [] + [k] == [k];
  }

  lemma FirstStep(nodes: map<Id, Node>, id: Id, path: seq<Name>)
    requires id in nodes && path != [] && Resolve(nodes, id, path).Ok?
    ensures path[0] in Kids(nodes, id)
    ensures Resolve(nodes, Kids(nodes, id)[path[0]], path[1..]) == Resolve(nodes, id, path)
  {
    assert path == [path[0]] + path[1..];
    ResolveConcat(nodes, id, [path[0]], path[1..]);
    ResolveSnoc(nodes, id, [], path[0]);
    assert [] + [path[0]] == [path[0]];
    ResolveThroughEntry(nodes, id, path[0], path[1..]);
  }

  /** A subtree is its root and the subtrees of the root's entries. */
  lemma SubtreeSplits(s: Store, id: Id)
    requires Linked(s) && id in s.nodes
    ensures Subtree(s.nodes, id) == {id} + Trees(s.nodes, Entries(s.nodes, id))
    ensures Entries(s.nodes, id) <= s.nodes.Keys
  {
    SubtreeHasSelf(s.nodes, id);
    forall n | n in Subtree(s.nodes, id) && n != id
      ensures n in Trees(s.nodes, Entries(s.nodes, id))
    {
      var path: seq<Name> :| Resolve(s.nodes, id, path) == Ok(n);
      FirstStep(s.nodes, id, path);
      var c := Kids(s.nodes, id)[path[0]];
      assert c in Entries(s.nodes, id) && n in Subtree(s.nodes, c);
    }
    forall n | n in Trees(s.nodes, Entries(s.nodes, id))
      ensures n in Subtree(s.nodes, id)
    {
      var c :| c in Entries(s.nodes, id) && n in Subtree(s.nodes, c);
      var k :| k in Kids(s.nodes, id) && Kids(s.nodes, id)[k] == c;
      var path: seq<Name> :| Resolve(s.nodes, c, path) == Ok(n);
      ResolveThroughEntry(s.nodes, id, k, path);
      assert Reaches(s.nodes, id, n);
    }
    forall k | k in Kids(s.nodes, id)
      ensures Kids(s.nodes, id)[k] in s.nodes
    {
      assert EntryOk(s, id, k);
    }
  }

  /** Entries have disjoint subtrees, none of which contains their directory. */
  lemma EntriesAreApart(s: Store, rank: map<Id, nat>, id: Id, a: Id, b: Id)
    requires Linked(s) && Ranked(s, rank) && id in s.nodes
    requires a in Entries(s.nodes, id) && b in Entries(s.nodes, id) && a != b
    ensures Subtree(s.nodes, a) !! Subtree(s.nodes, b)
  {
    var k :| k in Kids(s.nodes, id) && Kids(s.nodes, id)[k] == a;
    var l :| l in Kids(s.nodes, id) && Kids(s.nodes, id)[l] == b;
    forall n | n in Subtree(s.nodes, a) && n in Subtree(s.nodes, b)
      ensures false
    {
      var p: seq<Name> :| Resolve(s.nodes, a, p) == Ok(n);
      var q: seq<Name> :| Resolve(s.nodes, b, q) == Ok(n);
      ResolveThroughEntry(s.nodes, id, k, p);
      ResolveThroughEntry(s.nodes, id, l, q);
      assert ([k] + p)[0] == k && ([l] + q)[0] == l;
      PathUnique(s, rank, id, [k] + p, [l] + q);
    }
  }

  lemma EntryIsBelow(s: Store, rank: map<Id, nat>, id: Id, c: Id)
    requires Linked(s) && Ranked(s, rank) && id in s.nodes && c in Entries(s.nodes, id)
    ensures c in s.nodes && rank[id] < rank[c]
    ensures id !in Subtree(s.nodes, c) && Subtree(s.nodes, c) < Subtree(s.nodes, id)
  {
    var k :| k in Kids(s.nodes, id) && Kids(s.nodes, id)[k] == c;
    assert EntryOk(s, id, k) && RankFalls(s, rank, c);
    if id in Subtree(s.nodes, c) {
      var p: seq<Name> :| Resolve(s.nodes, c, p) == Ok(id);
      RankGrowsDown(s, rank, c, p);
    }
    SubtreeSplits(s, id);
    forall n | n in Subtree(s.nodes, c)
      ensures n in Subtree(s.nodes, id)
    {
      assert n in Trees(s.nodes, Entries(s.nodes, id));
    }
  }

  /** A fid is bound below a node exactly when one is bound to it or below one of its entries. */
  lemma HasRefSplits(s: Store, id: Id)
    requires Linked(s) && id in s.nodes
    ensures HasRef(s, id) <==> id in s.refs || exists c :: c in Entries(s.nodes, id) && HasRef(s, c)
  {
    SubtreeSplits(s, id);
    if HasRef(s, id) && id !in s.refs {
      var n :| n in s.refs && n in Subtree(s.nodes, id);
      var c :| c in Entries(s.nodes, id) && n in Subtree(s.nodes, c);
      assert HasRef(s, c);
    }
    if c :| c in Entries(s.nodes, id) && HasRef(s, c) {
      var n :| n in s.refs && n in Subtree(s.nodes, c);
      assert n in Trees(s.nodes, Entries(s.nodes, id));
    }
  }
}
