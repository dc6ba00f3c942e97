/** Hanging a detached tree back under the root. */
module FrontReattach {
  import opened Prelude
  import opened Paths
  import opened FrontStore
  import opened FrontOps

  /** Makes the detached root `id` the entry `name` of `parent`. */
  function Hang(s: Store, id: Id, parent: Id, name: Name): Store
    requires id in s.nodes && parent in s.nodes && s.nodes[parent].body.Dir?
  {
    var dir := s.nodes[parent];
    s.(nodes := s.nodes[id := s.nodes[id].(parent := parent, name := name)]
                       [parent := dir.(body := dir.body.(children := dir.body.children[name := id]))],
       detached := s.detached - {id})
  }

  ghost predicate Hangable(s: Store, id: Id, parent: Id, name: Name) {
    && id in s.detached
    && Attached(s, parent) && s.nodes[parent].body.Dir?
    && name !in s.nodes[parent].body.children
  }

  lemma TopsAreApart(s: Store, d: Id)
    requires Linked(s) && d in s.detached
    ensures !Attached(s, d)
  {
    SubtreeStep(s, ROOT_ID, d);
  }

  lemma HangKeepsLinked(s: Store, id: Id, parent: Id, name: Name)
    requires Linked(s) && Hangable(s, id, parent, name)
    ensures Linked(Hang(s, id, parent, name))
  {
    var t := Hang(s, id, parent, name);
    TopsAreApart(s, id);
    forall n | n in t.nodes && !IsTop(t, n)
      ensures Hangs(t, n)
    {
      if n != id {
        assert Hangs(s, n);
      }
    }
    forall dir, k | k in Kids(t.nodes, dir)
      ensures EntryOk(t, dir, k)
    {
      if !(dir == parent && k == name) {
        assert k in Kids(s.nodes, dir);
        assert EntryOk(s, dir, k);
      }
    }
  }

  lemma HangKeepsIssued(s: Store, id: Id, parent: Id, name: Name)
    requires Linked(s) && Issued(s) && Hangable(s, id, parent, name)
    ensures Issued(Hang(s, id, parent, name))
  {
    TopsAreApart(s, id);
    var t := Hang(s, id, parent, name);
    assert Given(s, parent);
    forall n | n in t.nodes
      ensures Given(t, n)
    {
      assert Given(s, n);
    }
  }

  /** The parent may be younger than the tree hung under it; no cycle arises because the
      parent's own chain runs through attached nodes only. */
  lemma HangKeepsAcyclic(s: Store, id: Id, parent: Id, name: Name)
    requires Linked(s) && Acyclic(s) && Hangable(s, id, parent, name)
    ensures Acyclic(Hang(s, id, parent, name))
  {
    TopsAreApart(s, id);
    SubtreeSteps(s, ROOT_ID);
    var t := Hang(s, id, parent, name);
    var rank: map<Id, nat> :| Ranked(s, rank);
    var lift := rank[parent] + 1;
    var next: map<Id, nat> := map n | n in rank :: if Attached(s, n) then rank[n] else rank[n] + lift;
    forall n | n in t.nodes && n != ROOT_ID
      ensures RankFalls(t, next, n)
    {
      if n != id {
        assert RankFalls(s, rank, n);
      }
    }
    assert Ranked(t, next);
  }

  lemma HangKeepsShape(s: Store, id: Id, parent: Id, name: Name)
    requires Shape(s) && Hangable(s, id, parent, name)
    ensures Shape(Hang(s, id, parent, name))
  {
    var t := Hang(s, id, parent, name);
    TopsAreApart(s, id);
    HangKeepsLinked(s, id, parent, name);
    HangKeepsIssued(s, id, parent, name);
    SameQidsKeepIndex(s, t);
    SameKeysKeepTables(s, t);
    HangKeepsAcyclic(s, id, parent, name);
  }

  /** Hanging adds exactly the paths through the new entry. */
  lemma {:induction false} HangPaths(s: Store, id: Id, parent: Id, name: Name, from: Id, path: seq<Name>)
    requires Linked(s) && Hangable(s, id, parent, name) && from in s.nodes
    requires Resolve(s.nodes, from, path).Ok?
    ensures Resolve(Hang(s, id, parent, name).nodes, from, path) == Resolve(s.nodes, from, path)
    decreases |path|
  {
    TopsAreApart(s, id);
    if path != [] {
      LastStep(s, from, path);
      HangPaths(s, id, parent, name, from, path[..|path| - 1]);
    }
  }

  /** `id` moves from wherever it is in a detached tree to the entry `name` of `parent`. */
  function Move(s: Store, id: Id, parent: Id, name: Name): Store
    requires id in s.nodes && parent in s.nodes && s.nodes[parent].body.Dir?
  {
    Hang(Detach(s, {id}), id, parent, name)
  }

  ghost predicate Movable(s: Store, id: Id, parent: Id, name: Name) {
    && id in s.nodes && !Attached(s, id)
    && Attached(s, parent) && s.nodes[parent].body.Dir?
    && name !in s.nodes[parent].body.children
  }

  /** A node outside a subtree is on no path of that subtree. */
  lemma {:induction false} OutsideAvoids(s: Store, id: Id, path: seq<Name>, out: Id)
    requires Linked(s) && id in s.nodes && out !in Subtree(s.nodes, id)
    ensures Avoids(s.nodes, id, path, {out})
    decreases |path|
  {
    if path != [] {
      OutsideAvoids(s, id, path[..|path| - 1], out);
      if Resolve(s.nodes, id, path).Ok? {
        LastStep(s, id, path);
        assert Reaches(s.nodes, id, Resolve(s.nodes, id, path).value);
      }
    }
  }

  /** Detaching a node from another tree leaves this tree as it is. */
  lemma DetachElsewhere(s: Store, id: Id, out: Id)
    requires Linked(s) && id in s.nodes && out !in Subtree(s.nodes, id)
    ensures Subtree(Detach(s, {out}).nodes, id) == Subtree(s.nodes, id)
  {
    var t := Detach(s, {out});
    forall n: Id
      ensures Reaches(t.nodes, id, n) <==> Reaches(s.nodes, id, n)
    {
      if Reaches(s.nodes, id, n) {
        var path: seq<Name> :| Resolve(s.nodes, id, path) == Ok(n);
        OutsideAvoids(s, id, path, out);
        DetachPaths(s, {out}, id, path);
      }
      if Reaches(t.nodes, id, n) {
        var path: seq<Name> :| Resolve(t.nodes, id, path) == Ok(n);
        DetachPaths(s, {out}, id, path);
      }
    }
  }

  lemma MovableIsHangable(s: Store, id: Id, parent: Id, name: Name)
    requires Linked(s) && Movable(s, id, parent, name)
    ensures Hangable(Detach(s, {id}), id, parent, name)
  {
    DetachElsewhere(s, ROOT_ID, id);
  }

  lemma MoveKeepsShape(s: Store, id: Id, parent: Id, name: Name)
    requires Shape(s) && Movable(s, id, parent, name)
    ensures Shape(Move(s, id, parent, name))
  {
    SubtreeHasSelf(s.nodes, ROOT_ID);
    MovableIsHangable(s, id, parent, name);
    DetachKeepsShape(s, {id});
    HangKeepsShape(Detach(s, {id}), id, parent, name);
  }

  /** Moving keeps every path that starts in another tree. */
  lemma MoveKeepsPathsFrom(s: Store, id: Id, parent: Id, name: Name, from: Id, path: seq<Name>)
    requires Linked(s) && Movable(s, id, parent, name) && from in s.nodes && id !in Subtree(s.nodes, from)
    requires Resolve(s.nodes, from, path).Ok?
    ensures Resolve(Move(s, id, parent, name).nodes, from, path) == Resolve(s.nodes, from, path)
  {
    SubtreeHasSelf(s.nodes, ROOT_ID);
    MovableIsHangable(s, id, parent, name);
    DetachKeepsLinked(s, {id});
    OutsideAvoids(s, from, path, id);
    DetachPaths(s, {id}, from, path);
    HangPaths(Detach(s, {id}), id, parent, name, from, path);
  }

  /** Moving keeps every path from the root. */
  lemma MoveKeepsPaths(s: Store, id: Id, parent: Id, name: Name, path: seq<Name>)
    requires Linked(s) && Movable(s, id, parent, name) && Resolve(s.nodes, ROOT_ID, path).Ok?
    ensures Resolve(Move(s, id, parent, name).nodes, ROOT_ID, path) == Resolve(s.nodes, ROOT_ID, path)
  {
    MoveKeepsPathsFrom(s, id, parent, name, ROOT_ID, path);
  }

  /** The moved tree itself is untouched: every path below `id` leads where it led. */
  lemma {:induction false} MoveKeepsBelow(
    s: Store, rank: map<Id, nat>, id: Id, parent: Id, name: Name, path: seq<Name>)
    requires Linked(s) && Ranked(s, rank) && Movable(s, id, parent, name)
    ensures Resolve(Move(s, id, parent, name).nodes, id, path) == Resolve(s.nodes, id, path)
    decreases |path|
  {
    var t := Move(s, id, parent, name);
    if path != [] {
      var front := path[..|path| - 1];
      MoveKeepsBelow(s, rank, id, parent, name, front);
      if Resolve(s.nodes, id, front).Ok? {
        var dir := Resolve(s.nodes, id, front).value;
        RankGrowsDown(s, rank, id, front);
        assert dir != parent by {
          if dir == parent {
            BelowDetached(s, id, front);
          }
        }
        assert Unlisted(s.nodes[dir], {id}).body == s.nodes[dir].body by {
          KeepsListing(s, rank, id, dir);
        }
        assert t.nodes[dir].body == s.nodes[dir].body;
      }
    }
  }

  /** A directory at or below `id` does not list `id`. */
  lemma KeepsListing(s: Store, rank: map<Id, nat>, id: Id, dir: Id)
    requires Linked(s) && Ranked(s, rank) && id in s.nodes && dir in s.nodes && rank[id] <= rank[dir]
    ensures Unlisted(s.nodes[dir], {id}) == s.nodes[dir]
  {
    if s.nodes[dir].body.Dir? {
      forall k | k in s.nodes[dir].body.children
        ensures s.nodes[dir].body.children[k] != id
      {
        assert k in Kids(s.nodes, dir);
        assert EntryOk(s, dir, k);
        assert RankFalls(s, rank, s.nodes[dir].body.children[k]);
      }
      assert Unlisted(s.nodes[dir], {id}).body.children == s.nodes[dir].body.children;
    }
  }

  /** What hangs below a node that is not attached is not attached either. */
  lemma {:induction false} BelowDetached(s: Store, id: Id, path: seq<Name>)
    requires Linked(s) && id in s.nodes && !Attached(s, id) && Resolve(s.nodes, id, path).Ok?
    ensures !Attached(s, Resolve(s.nodes, id, path).value)
    decreases |path|
  {
    if path != [] {
      LastStep(s, id, path);
      BelowDetached(s, id, path[..|path| - 1]);
      var n := Resolve(s.nodes, id, path).value;
      assert Hangs(s, n);
      SubtreeStep(s, ROOT_ID, n);
    }
  }

  /** After the move, the paths through the new entry lead into the moved tree. */
  lemma MoveResolves(s: Store, id: Id, parent: Id, name: Name, at: seq<Name>, rest: seq<Name>)
    requires Shape(s) && Movable(s, id, parent, name) && Resolve(s.nodes, ROOT_ID, at) == Ok(parent)
    ensures Resolve(Move(s, id, parent, name).nodes, ROOT_ID, at + [name]) == Ok(id)
    ensures Resolve(Move(s, id, parent, name).nodes, ROOT_ID, at + [name] + rest) == Resolve(s.nodes, id, rest)
  {
    var t := Move(s, id, parent, name);
    var rank: map<Id, nat> :| Ranked(s, rank);
    MoveKeepsPaths(s, id, parent, name, at);
    ResolveSnoc(t.nodes, ROOT_ID, at, name);
    ResolveConcat(t.nodes, ROOT_ID, at + [name], rest);
    MoveKeepsBelow(s, rank, id, parent, name, rest);
  }

  /** Hanging adds no path from the root except those through the new entry. */
  lemma {:induction false} HangOnlyAdds(
    s: Store, id: Id, parent: Id, name: Name, at: seq<Name>, path: seq<Name>)
    requires Linked(s) && Hangable(s, id, parent, name) && Resolve(s.nodes, ROOT_ID, at) == Ok(parent)
    requires Resolve(Hang(s, id, parent, name).nodes, ROOT_ID, path).Ok?
    ensures Resolve(s.nodes, ROOT_ID, path).Ok? || at + [name] <= path
    decreases |path|
  {
    var t := Hang(s, id, parent, name);
    TopsAreApart(s, id);
    if path != [] {
      var front, last := path[..|path| - 1], path[|path| - 1];
      HangOnlyAdds(s, id, parent, name, at, front);
      assert path == front + [last];
      if Resolve(s.nodes, ROOT_ID, front).Ok? && !Resolve(s.nodes, ROOT_ID, path).Ok? {
        HangPaths(s, id, parent, name, ROOT_ID, front);
        var dir := Resolve(s.nodes, ROOT_ID, front).value;
        assert Reaches(s.nodes, ROOT_ID, dir);
        if dir == parent && last == name {
          TopPathUnique(s, ROOT_ID, front, ROOT_ID, at);
        }
      }
    }
  }

  lemma MoveOnlyAdds(s: Store, id: Id, parent: Id, name: Name, at: seq<Name>, path: seq<Name>)
    requires Linked(s) && Movable(s, id, parent, name) && Resolve(s.nodes, ROOT_ID, at) == Ok(parent)
    requires Resolve(Move(s, id, parent, name).nodes, ROOT_ID, path).Ok?
    ensures Resolve(s.nodes, ROOT_ID, path).Ok? || at + [name] <= path
  {
    SubtreeHasSelf(s.nodes, ROOT_ID);
    MovableIsHangable(s, id, parent, name);
    DetachKeepsLinked(s, {id});
    OutsideAvoids(s, ROOT_ID, at, id);
    DetachPaths(s, {id}, ROOT_ID, at);
    HangOnlyAdds(Detach(s, {id}), id, parent, name, at, path);
    DetachPaths(s, {id}, ROOT_ID, path);
  }
}
