/** Detached trees: how they are made, kept while a fid needs them, and collected. */
module FrontCollect {
  import opened Prelude
  import opened Paths
  import opened FrontStore

  // ----- Removing nodes -----

  /** Forgets a set of nodes everywhere they are recorded. */
  function RemoveNodes(s: Store, gone: set<Id>): Store {
    s.(nodes := s.nodes - gone,
       qidIndex := map q | q in s.qidIndex && s.qidIndex[q] !in gone :: s.qidIndex[q],
       refs := s.refs - gone,
       detached := s.detached - gone,
       intakes := s.intakes - gone,
       renameRoots := s.renameRoots - gone)
  }

  /** `gone` is a union of whole trees. */
  ghost predicate Closed(s: Store, gone: set<Id>) {
    && gone <= s.nodes.Keys
    && ROOT_ID !in gone
    && (forall n :: n in s.nodes && !IsTop(s, n) ==> (n in gone <==> s.nodes[n].parent in gone))
  }

  lemma RemoveKeepsLinked(s: Store, gone: set<Id>)
    requires Linked(s) && Closed(s, gone)
    ensures Linked(RemoveNodes(s, gone))
  {
    var t := RemoveNodes(s, gone);
    forall n | n in t.nodes && !IsTop(t, n)
      ensures Hangs(t, n)
    {
      assert Hangs(s, n);
    }
    forall dir, name | name in Kids(t.nodes, dir)
      ensures EntryOk(t, dir, name)
    {
      assert EntryOk(s, dir, name);
    }
  }

  lemma RemoveKeepsTables(s: Store, gone: set<Id>)
    requires Issued(s) && Indexed(s) && Tabled(s)
    ensures var t := RemoveNodes(s, gone); Issued(t) && Indexed(t) && Tabled(t)
  {
    var t := RemoveNodes(s, gone);
    forall n | n in t.nodes
      ensures Given(t, n)
    {
      assert Given(s, n);
    }
    forall q: nat, n: Id
      ensures Inverse(t, q, n)
    {
      assert Inverse(s, q, n);
    }
    forall n | n in t.refs
      ensures Counted(t, n)
    {
      assert Counted(s, n);
    }
  }

  lemma RemoveKeepsAcyclic(s: Store, gone: set<Id>)
    requires Acyclic(s)
    ensures Acyclic(RemoveNodes(s, gone))
  {
    var t := RemoveNodes(s, gone);
    var rank: map<Id, nat> :| Ranked(s, rank);
    var left := rank - gone;
    forall n | n in t.nodes && n != ROOT_ID
      ensures RankFalls(t, left, n)
    {
      assert RankFalls(s, rank, n);
    }
    assert Ranked(t, left);
  }

  lemma RemoveKeepsShape(s: Store, gone: set<Id>)
    requires Shape(s) && Closed(s, gone)
    ensures Shape(RemoveNodes(s, gone))
  {
    RemoveKeepsLinked(s, gone);
    RemoveKeepsTables(s, gone);
    RemoveKeepsAcyclic(s, gone);
  }

  /** From a surviving node every path resolves as before, to surviving nodes. */
  lemma {:induction false} RemoveKeepsPaths(s: Store, gone: set<Id>, id: Id, path: seq<Name>)
    requires Linked(s) && Closed(s, gone) && id !in gone
    ensures Resolve(RemoveNodes(s, gone).nodes, id, path) == Resolve(s.nodes, id, path)
    ensures Resolve(s.nodes, id, path).Ok? ==> Resolve(s.nodes, id, path).value !in gone
    decreases |path|
  {
    if path != [] {
      RemoveKeepsPaths(s, gone, id, path[..|path| - 1]);
      if Resolve(s.nodes, id, path).Ok? {
        LastStep(s, id, path);
      }
    }
  }

  lemma RemoveKeepsSubtree(s: Store, gone: set<Id>, id: Id)
    requires Linked(s) && Closed(s, gone) && id !in gone
    ensures Subtree(RemoveNodes(s, gone).nodes, id) == Subtree(s.nodes, id)
    ensures Subtree(s.nodes, id) !! gone
  {
    var t := RemoveNodes(s, gone);
    forall n | n in Subtree(s.nodes, id)
      ensures n in Subtree(t.nodes, id) && n !in gone
    {
      var path: seq<Name> :| Resolve(s.nodes, id, path) == Ok(n);
      RemoveKeepsPaths(s, gone, id, path);
      assert Resolve(t.nodes, id, path) == Ok(n);
    }
    forall n | n in Subtree(t.nodes, id)
      ensures n in Subtree(s.nodes, id)
    {
      var path: seq<Name> :| Resolve(t.nodes, id, path) == Ok(n);
      RemoveKeepsPaths(s, gone, id, path);
    }
  }

  // ----- Collection -----

  /** All nodes of the trees rooted at `roots`. */
  ghost function Trees(nodes: map<Id, Node>, roots: set<Id>): set<Id> {
    set n | n in nodes && exists d :: d in roots && n in Subtree(nodes, d)
  }

  /** The detached roots no fid needs any more. */
  ghost function Dead(s: Store): set<Id> {
    set d | d in s.detached && !HasRef(s, d)
  }

  /** `collect_unreferenced_detached_subtrees`: every dead tree goes, whole. */
  ghost function Collect(s: Store): Store {
    RemoveNodes(s, Trees(s.nodes, Dead(s)))
  }

  lemma TreesStep(s: Store, roots: set<Id>, n: Id)
    requires Linked(s) && roots <= s.detached && n in s.nodes && !IsTop(s, n)
    ensures n in Trees(s.nodes, roots) <==> s.nodes[n].parent in Trees(s.nodes, roots)
  {
    assert Hangs(s, n);
    if n in Trees(s.nodes, roots) {
      var d :| d in roots && n in Subtree(s.nodes, d);
      SubtreeStep(s, d, n);
    }
    if s.nodes[n].parent in Trees(s.nodes, roots) {
      var d :| d in roots && s.nodes[n].parent in Subtree(s.nodes, d);
      SubtreeStep(s, d, n);
    }
  }

  /** A tree contains no other top. */
  lemma TreesTops(s: Store, roots: set<Id>, top: Id)
    requires Linked(s) && roots <= s.detached && top in s.nodes && IsTop(s, top)
    ensures top in Trees(s.nodes, roots) <==> top in roots
  {
    if top in roots {
      SubtreeHasSelf(s.nodes, top);
    } else if top in Trees(s.nodes, roots) {
      var d :| d in roots && top in Subtree(s.nodes, d);
      SubtreeStep(s, d, top);
    }
  }

  lemma TreesAreClosed(s: Store, roots: set<Id>)
    requires Linked(s) && roots <= s.detached
    ensures Closed(s, Trees(s.nodes, roots))
    ensures forall d :: d in s.detached ==> (d in Trees(s.nodes, roots) <==> d in roots)
  {
    TreesTops(s, roots, ROOT_ID);
    forall d | d in s.detached {
      TreesTops(s, roots, d);
    }
    forall n | n in s.nodes && !IsTop(s, n) {
      TreesStep(s, roots, n);
    }
  }

  lemma DeadTreesHoldNoRefs(s: Store)
    ensures Trees(s.nodes, Dead(s)) !! s.refs.Keys
  {
  }

  lemma CollectKeepsTree(s: Store, top: Id)
    requires Linked(s) && top in s.nodes && IsTop(s, top) && top !in Dead(s)
    ensures Subtree(Collect(s).nodes, top) == Subtree(s.nodes, top)
  {
    TreesAreClosed(s, Dead(s));
    RemoveKeepsSubtree(s, Trees(s.nodes, Dead(s)), top);
  }

  /** Once no fid is left in a detached tree, the whole tree and its qid paths are gone. */
  lemma CollectFreesQids(s: Store, d: Id, n: Id)
    requires Shape(s) && d in Dead(s) && n in Subtree(s.nodes, d)
    ensures n !in Collect(s).nodes && s.nodes[n].qidPath !in Collect(s).qidIndex
  {
    assert n in Trees(s.nodes, Dead(s));
    IndexInverts(s);
  }

  /** Collection restores the invariant and keeps every counted node. */
  lemma CollectIsSound(s: Store)
    requires Shape(s)
    ensures Inv(Collect(s))
    ensures Collect(s).refs == s.refs
    ensures Collect(s).detached == s.detached - Dead(s)
  {
    var t := Collect(s);
    TreesAreClosed(s, Dead(s));
    DeadTreesHoldNoRefs(s);
    RemoveKeepsShape(s, Trees(s.nodes, Dead(s)));
    forall d | d in t.detached
      ensures HasRef(t, d)
    {
      CollectKeepsTree(s, d);
      var n :| n in s.refs && n in Subtree(s.nodes, d);
      assert n in t.refs && n in Subtree(t.nodes, d);
    }
  }

  /** Collection changes no path from the root. */
  lemma CollectKeepsPaths(s: Store, path: seq<Name>)
    requires Linked(s)
    ensures Resolve(Collect(s).nodes, ROOT_ID, path) == Resolve(s.nodes, ROOT_ID, path)
  {
    TreesAreClosed(s, Dead(s));
    RemoveKeepsPaths(s, Trees(s.nodes, Dead(s)), ROOT_ID, path);
  }

  lemma CollectSettledIsNoop(s: Store)
    requires Settled(s)
    ensures Collect(s) == s
  {
    assert Dead(s) == {};
    assert Trees(s.nodes, Dead(s)) == {};
  }

  // ----- Collecting in steps -----

  lemma RemoveTwice(s: Store, a: set<Id>, b: set<Id>)
    ensures RemoveNodes(RemoveNodes(s, a), b) == RemoveNodes(s, a + b)
  {
    var u, v := RemoveNodes(RemoveNodes(s, a), b), RemoveNodes(s, a + b);
    assert u.nodes == v.nodes;
    assert u.qidIndex == v.qidIndex;
    assert u.refs == v.refs;
    assert u.detached == v.detached;
    assert u.intakes == v.intakes;
    assert u.renameRoots == v.renameRoots;
  }

  /** Removing some dead trees first leaves the others, and their verdicts, as they were. */
  lemma RemoveSomeDead(s: Store, some: set<Id>)
    requires Linked(s) && some <= Dead(s)
    ensures var t := RemoveNodes(s, Trees(s.nodes, some));
            && Dead(t) == Dead(s) - some
            && Trees(t.nodes, Dead(t)) + Trees(s.nodes, some) == Trees(s.nodes, Dead(s))
  {
    var gone := Trees(s.nodes, some);
    var t := RemoveNodes(s, gone);
    TreesAreClosed(s, some);
    assert gone !! s.refs.Keys;
    forall d | d in s.detached && d !in some
      ensures Subtree(t.nodes, d) == Subtree(s.nodes, d)
    {
      RemoveKeepsSubtree(s, gone, d);
    }
    assert t.detached == s.detached - some;
    assert t.refs == s.refs;
  }

  /** Collecting after part of the dead is already gone gives the same store. */
  lemma CollectAbsorbs(s: Store, some: set<Id>)
    requires Linked(s) && some <= Dead(s)
    ensures Collect(RemoveNodes(s, Trees(s.nodes, some))) == Collect(s)
  {
    var gone := Trees(s.nodes, some);
    var t := RemoveNodes(s, gone);
    RemoveSomeDead(s, some);
    RemoveTwice(s, gone, Trees(t.nodes, Dead(t)));
    assert gone + Trees(t.nodes, Dead(t)) == Trees(s.nodes, Dead(s));
  }
}
