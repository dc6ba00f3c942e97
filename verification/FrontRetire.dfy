/** Taking entries away: detaching trees and collecting, one by one or all at once, and removal by path. */
module FrontRetire {
  import opened Prelude
  import opened Paths
  import opened FrontStore
  import opened FrontCollect
  import opened FrontOps
  import opened FrontReattach
  import opened FrontPaths

  // ----- Detaching one node after another -----

  lemma DetachTwice(s: Store, a: set<Id>, b: set<Id>)
    ensures Detach(Detach(s, a), b) == Detach(s, a + b)
  {
    var u, v := Detach(Detach(s, a), b), Detach(s, a + b);
    forall n | n in s.nodes
      ensures u.nodes[n] == v.nodes[n]
    {
      if s.nodes[n].body.Dir? {
        assert u.nodes[n].body.children == v.nodes[n].body.children;
      }
    }
    assert u.nodes == v.nodes;
    assert u.detached == v.detached;
  }

  lemma DetachAfterRemove(s: Store, gone: set<Id>, id: Id)
    requires id !in gone
    ensures Detach(RemoveNodes(s, gone), {id}) == RemoveNodes(Detach(s, {id}), gone)
  {
    var u, v := Detach(RemoveNodes(s, gone), {id}), RemoveNodes(Detach(s, {id}), gone);
    assert u.nodes == v.nodes;
    assert u.detached == v.detached;
  }

  /** An attached node is in no detached tree. */
  lemma AttachedIsElsewhere(s: Store, id: Id, d: Id)
    requires Linked(s) && Attached(s, id) && d in s.detached
    ensures id !in Subtree(s.nodes, d)
  {
    if id in Subtree(s.nodes, d) {
      var p: seq<Name> :| Resolve(s.nodes, d, p) == Ok(id);
      var q: seq<Name> :| Resolve(s.nodes, ROOT_ID, q) == Ok(id);
      TopPathUnique(s, d, p, ROOT_ID, q);
    }
  }

  /** Detaching an attached node kills no tree's references and revives none. */
  lemma DetachKeepsDead(s: Store, id: Id)
    requires Linked(s) && Attached(s, id) && id != ROOT_ID
    ensures Dead(s) <= Dead(Detach(s, {id}))
    ensures Trees(Detach(s, {id}).nodes, Dead(s)) == Trees(s.nodes, Dead(s))
    ensures id !in Trees(s.nodes, Dead(s))
  {
    var t := Detach(s, {id});
    forall d | d in s.detached
      ensures Subtree(t.nodes, d) == Subtree(s.nodes, d) && id !in Subtree(s.nodes, d)
    {
      AttachedIsElsewhere(s, id, d);
      DetachElsewhere(s, d, id);
    }
  }

  /** Retiring attached nodes one at a time, collecting each time, is retiring them all at once. */
  lemma RetireNext(s: Store, done: set<Id>, id: Id)
    requires Shape(s) && done <= s.nodes.Keys && ROOT_ID !in done
    requires id != ROOT_ID && Attached(Detach(s, done), id)
    ensures Collect(Detach(Collect(Detach(s, done)), {id})) == Collect(Detach(s, done + {id}))
  {
    var u := Detach(s, done);
    var v := Detach(u, {id});
    DetachKeepsLinked(s, done);
    DetachKeepsLinked(u, {id});
    DetachKeepsDead(u, id);
    DetachAfterRemove(u, Trees(u.nodes, Dead(u)), id);
    CollectAbsorbs(v, Dead(u));
    DetachTwice(s, done, {id});
  }

  // ----- Removing one subtree -----

  /** `remove_subtree_if_exists`. */
  ghost function RemoveSubtree(s: Store, path: string): (Store, Result<()>) {
    match LookupOptionalPath(s, path)
    case Err(e) => (s, Err(e))
    case Ok(None) => (s, Ok(()))
    case Ok(Some(id)) =>
      if id == ROOT_ID then (s, Err(EPERM)) else (Collect(Detach(s, {id})), Ok(()))
  }

  lemma RetireKeepsInv(s: Store, drop: set<Id>)
    requires Inv(s) && drop <= s.nodes.Keys && ROOT_ID !in drop
    ensures var t := Collect(Detach(s, drop)); Inv(t) && t.refs == s.refs
  {
    DetachKeepsShape(s, drop);
    CollectIsSound(Detach(s, drop));
  }

  lemma LookupFindsNodes(s: Store, path: seq<Name>)
    requires Linked(s) && Resolve(s.nodes, ROOT_ID, path).Ok?
    ensures Attached(s, Resolve(s.nodes, ROOT_ID, path).value)
    ensures Resolve(s.nodes, ROOT_ID, path).value == ROOT_ID <==> path == []
  {
    if path != [] {
      LastStep(s, ROOT_ID, path);
    }
    assert Reaches(s.nodes, ROOT_ID, Resolve(s.nodes, ROOT_ID, path).value);
  }

  lemma RemoveSubtreeKeepsInv(s: Store, path: string)
    requires Inv(s)
    ensures var (t, r) := RemoveSubtree(s, path); Inv(t) && t.refs == s.refs
  {
    if LookupPath(s, path).Ok? {
      LookupFindsNodes(s, Segments(path));
      if LookupPath(s, path) != Ok(ROOT_ID) {
        RetireKeepsInv(s, {LookupPath(s, path).value});
      }
    }
  }

  /** The paths to a node are those that end where it is: a path avoids the node exactly when the
      node's own path is no prefix of it. */
  lemma {:induction false} AvoidsNode(s: Store, id: Id, at: seq<Name>, path: seq<Name>)
    requires Linked(s) && Resolve(s.nodes, ROOT_ID, at) == Ok(id) && at != []
    requires Resolve(s.nodes, ROOT_ID, path).Ok?
    ensures Avoids(s.nodes, ROOT_ID, path, {id}) <==> !(at <= path)
    decreases |path|
  {
    if path != [] {
      var front := path[..|path| - 1];
      LastStep(s, ROOT_ID, path);
      AvoidsNode(s, id, at, front);
      if Resolve(s.nodes, ROOT_ID, path).value == id {
        TopPathUnique(s, ROOT_ID, path, ROOT_ID, at);
      }
      assert at <= path <==> at <= front || at == path;
    }
  }

  /** Removal takes away exactly the paths through the removed entry. */
  lemma RemoveSubtreeResolves(s: Store, removed: string, path: seq<Name>)
    requires Inv(s)
    ensures var (t, r) := RemoveSubtree(s, removed);
            && (r.Err? ==> t == s)
            && (r.Ok? ==>
                  && (Resolve(t.nodes, ROOT_ID, path).Ok? <==>
                      Resolve(s.nodes, ROOT_ID, path).Ok? && !(Segments(removed) <= path))
                  && (Resolve(t.nodes, ROOT_ID, path).Ok? ==>
                      Resolve(t.nodes, ROOT_ID, path) == Resolve(s.nodes, ROOT_ID, path)))
  {
    var at := Segments(removed);
    var (t, r) := RemoveSubtree(s, removed);
    if LookupPath(s, removed).Ok? {
      var id := LookupPath(s, removed).value;
      LookupFindsNodes(s, at);
      if id != ROOT_ID {
        DetachKeepsLinked(s, {id});
        CollectKeepsPaths(Detach(s, {id}), path);
        DetachPaths(s, {id}, ROOT_ID, path);
        if Resolve(s.nodes, ROOT_ID, path).Ok? {
          AvoidsNode(s, id, at, path);
        }
      }
    } else if at <= path && Resolve(s.nodes, ROOT_ID, path).Ok? {
      PrefixResolves(s, at, path);
    }
  }

  lemma PrefixResolves(s: Store, at: seq<Name>, path: seq<Name>)
    requires at <= path && Resolve(s.nodes, ROOT_ID, path).Ok?
    ensures Resolve(s.nodes, ROOT_ID, at).Ok?
  {
    assert path == at + path[|at|..];
    ResolveConcat(s.nodes, ROOT_ID, at, path[|at|..]);
  }
}
