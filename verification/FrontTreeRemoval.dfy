/** Removing trees entry by entry: the set bookkeeping behind the recursive removal. */
module FrontTreeRemoval {
  import opened Paths
  import opened FrontStore
  import opened FrontCollect
  import opened FrontSubtrees
  import opened FrontOps

  lemma RemoveNothing(s: Store)
    ensures RemoveNodes(s, {}) == s
  {
    assert RemoveNodes(s, {}).qidIndex == s.qidIndex;
  }

  /** The trees of two detached roots are disjoint. */
  lemma TreeIsApart(s: Store, roots: set<Id>, d: Id)
    requires Linked(s) && roots <= s.detached && d in s.detached && d !in roots
    ensures d !in Trees(s.nodes, roots) && Subtree(s.nodes, d) !! Trees(s.nodes, roots)
  {
    TreesAreClosed(s, roots);
    RemoveKeepsSubtree(s, Trees(s.nodes, roots), d);
  }

  /** A root may leave the detached set before or together with its nodes. */
  lemma DropRoot(view: Store, base: Store, gone: set<Id>, d: Id)
    requires base == view.(detached := view.detached - {d}) && d in view.nodes
    ensures RemoveNodes(base, gone) == RemoveNodes(view, gone).(detached := RemoveNodes(view, gone).detached - {d})
    ensures d in gone ==> RemoveNodes(base, gone) == RemoveNodes(view, gone)
    ensures Indexed(view) ==> Indexed(base)
    ensures Subtree(view.nodes, d) + gone == gone + Subtree(view.nodes, d)
    ensures d in gone + Subtree(view.nodes, d)
  {
    SubtreeHasSelf(view.nodes, d);
    if Indexed(view) {
      SameQidsKeepIndex(view, base);
    }
    assert RemoveNodes(base, gone).detached == RemoveNodes(view, gone).detached - {d};
  }

  lemma OnlyOneDead(view: Store, id: Id)
    requires id in view.detached && !HasRef(view, id)
    requires forall d :: d in view.detached && d != id ==> HasRef(view, d)
    ensures Collect(view) == RemoveNodes(view, Subtree(view.nodes, id))
  {
    assert Dead(view) == {id};
    assert Trees(view.nodes, {id}) == Subtree(view.nodes, id);
  }

  /** The subtrees of the entries already visited, their directory, and what was gone before. */
  ghost function RemovedSoFar(view: Store, id: Id, gone: set<Id>, left: set<Name>): set<Id> {
    gone + {id} + Trees(view.nodes, set k | k in Kids(view.nodes, id) && k !in left :: Kids(view.nodes, id)[k])
  }

  lemma NoneRemoved(view: Store, id: Id, gone: set<Id>)
    ensures RemovedSoFar(view, id, gone, Kids(view.nodes, id).Keys) == gone + {id}
  {
  }

  lemma AllRemoved(view: Store, id: Id, gone: set<Id>)
    requires Linked(view) && id in view.nodes
    ensures RemovedSoFar(view, id, gone, {}) == gone + Subtree(view.nodes, id)
  {
    SubtreeSplits(view, id);
    assert (set k | k in Kids(view.nodes, id) && k !in {} :: Kids(view.nodes, id)[k]) == Entries(view.nodes, id);
  }

  lemma RemoveStep(view: Store, rank: map<Id, nat>, id: Id, gone: set<Id>, left: set<Name>, k: Name)
    requires Linked(view) && Ranked(view, rank) && id in view.nodes && Subtree(view.nodes, id) !! gone
    requires left <= Kids(view.nodes, id).Keys && k in left
    ensures var child := Kids(view.nodes, id)[k];
            && child in view.nodes
            && child !in RemovedSoFar(view, id, gone, left)
            && Subtree(view.nodes, child) !! RemovedSoFar(view, id, gone, left)
            && RemovedSoFar(view, id, gone, left) + Subtree(view.nodes, child)
               == RemovedSoFar(view, id, gone, left - {k})
  {
    var kids := Kids(view.nodes, id);
    var done := set l | l in kids && l !in left :: kids[l];
    NewEntry(view, id, k, kids.Keys - left);
    assert done == set l | l in kids && l in kids.Keys - left :: kids[l];
    NextEntryIsApart(view, rank, id, gone, done, k);
    SubtreeHasSelf(view.nodes, kids[k]);
    TreesPlusOne(view.nodes, gone + {id}, done, kids[k]);
    assert done + {kids[k]} == set l | l in kids && l !in left - {k} :: kids[l];
  }

  lemma LeafSubtree(view: Store, id: Id)
    requires Linked(view) && id in view.nodes && !view.nodes[id].body.Dir?
    ensures Subtree(view.nodes, id) == {id}
  {
    SubtreeSplits(view, id);
    assert Trees(view.nodes, Entries(view.nodes, id)) == {};
  }

  /** Different names lead to different nodes. */
  lemma NewEntry(view: Store, id: Id, k: Name, seen: set<Name>)
    requires Linked(view) && k in Kids(view.nodes, id) && k !in seen && seen <= Kids(view.nodes, id).Keys
    ensures Kids(view.nodes, id)[k] !in (set l | l in Kids(view.nodes, id) && l in seen :: Kids(view.nodes, id)[l])
  {
    assert EntryOk(view, id, k);
    forall l | l in seen
      ensures Kids(view.nodes, id)[l] != Kids(view.nodes, id)[k]
    {
      assert EntryOk(view, id, l);
    }
  }

  lemma {:induction false} CardinalityMono(a: set<Id>, b: set<Id>)
    requires a <= b
    ensures |a| <= |b|
    decreases a
  {
    if a != {} {
      var x :| x in a;
      CardinalityMono(a - {x}, b - {x});
    }
  }

  lemma TreesPlusOne(nodes: map<Id, Node>, base: set<Id>, roots: set<Id>, root: Id)
    ensures base + Trees(nodes, roots) + Subtree(nodes, root) == base + Trees(nodes, roots + {root})
  {
  }

  /** Taking one node out of every table. */
  function Dropped(s: Store, id: Id): Store
    requires id in s.nodes
  {
    s.(nodes := s.nodes - {id}, detached := s.detached - {id}, refs := s.refs - {id},
       qidIndex := s.qidIndex - {s.nodes[id].qidPath},
       intakes := s.intakes - {id}, renameRoots := s.renameRoots - {id})
  }

  lemma DroppedOne(view: Store, gone: set<Id>, id: Id)
    requires Indexed(view) && id in view.nodes && id !in gone
    ensures Dropped(RemoveNodes(view, gone), id) == RemoveNodes(view, gone + {id})
  {
    var s := RemoveNodes(view, gone);
    RemoveTwice(view, gone, {id});
    IndexInverts(view);
    assert s.qidIndex - {view.nodes[id].qidPath} == RemoveNodes(s, {id}).qidIndex;
  }

  /** The next entry's subtree has not been touched yet. */
  lemma NextEntryIsApart(
    view: Store, rank: map<Id, nat>, id: Id, gone: set<Id>, done: set<Id>, k: Name)
    requires Linked(view) && Ranked(view, rank) && id in view.nodes && k in Kids(view.nodes, id)
    requires Subtree(view.nodes, id) !! gone
    requires done <= Entries(view.nodes, id) && Kids(view.nodes, id)[k] !in done
    ensures var child := Kids(view.nodes, id)[k];
            && child in view.nodes && child !in done
            && Subtree(view.nodes, child) !! gone + {id} + Trees(view.nodes, done)
  {
    var child := Kids(view.nodes, id)[k];
    assert child in Entries(view.nodes, id);
    EntryIsBelow(view, rank, id, child);
    forall d | d in done
      ensures Subtree(view.nodes, child) !! Subtree(view.nodes, d)
    {
      EntriesAreApart(view, rank, id, child, d);
    }
  }
}
