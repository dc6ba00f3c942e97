/** Fid references on nodes, and the bindings sessions hold. */
module FrontFids {
  import opened Prelude
  import opened FrontStore
  import opened FrontCollect
  import opened FrontOps

  const REFERENCE_MISSING := "front fid node reference missing"

  function RefCount(s: Store, id: Id): nat {
    if id in s.refs then s.refs[id] else 0
  }

  function Inc(s: Store, id: Id): Store {
    s.(refs := s.refs[id := RefCount(s, id) + 1])
  }

  function Dec(s: Store, id: Id): Store {
    if id !in s.refs then s
    else if s.refs[id] > 1 then s.(refs := s.refs[id := s.refs[id] - 1])
    else s.(refs := s.refs - {id})
  }

  /** `retain_fid_node`. */
  function RetainFid(s: Store, id: Id): (Store, Result<()>) {
    if id !in s.nodes then (s, Err(ENOENT)) else (Inc(s, id), Ok(()))
  }

  /** `release_fid_node`. */
  ghost function ReleaseFid(s: Store, id: Id): (Store, Result<()>) {
    if id !in s.refs then (s, Err(REFERENCE_MISSING)) else (Collect(Dec(s, id)), Ok(()))
  }

  lemma RefsAside(s: Store, t: Store)
    requires Shape(s) && t == s.(refs := t.refs)
    requires forall n :: n in t.refs ==> n in s.nodes && t.refs[n] > 0
    ensures Shape(t)
  {
    assert SameEdges(s.nodes, t.nodes);
    SameEdgesKeepLinked(s, t);
    SameEdgesKeepRank(s, t);
    SameQidsKeepIndex(s, t);
    forall n | n in t.refs
      ensures Counted(t, n)
    {
    }
  }

  lemma RefsPositive(s: Store)
    requires Tabled(s)
    ensures forall n :: n in s.refs ==> n in s.nodes && s.refs[n] > 0
  {
    forall n | n in s.refs
      ensures n in s.nodes && s.refs[n] > 0
    {
      assert Counted(s, n);
    }
  }

  lemma IncKeepsInv(s: Store, id: Id)
    requires Inv(s) && id in s.nodes
    ensures Inv(Inc(s, id))
    ensures forall n: Id :: RefCount(Inc(s, id), n) == RefCount(s, n) + (if n == id then 1 else 0)
  {
    var t := Inc(s, id);
    RefsPositive(s);
    RefsAside(s, t);
    forall d | d in t.detached
      ensures HasRef(t, d)
    {
      assert HasRef(s, d);
      var n :| n in s.refs && n in Subtree(s.nodes, d);
      assert n in t.refs;
    }
  }

  lemma DecKeepsShape(s: Store, id: Id)
    requires Shape(s)
    ensures Shape(Dec(s, id))
  {
    RefsPositive(s);
    RefsAside(s, Dec(s, id));
  }

  /** Releasing a reference drops the count by one, keeps the invariant and, with it, every node
      any remaining fid is bound to. */
  lemma ReleaseKeepsInv(s: Store, id: Id)
    requires Inv(s)
    ensures var (t, r) := ReleaseFid(s, id);
            && Inv(t)
            && (r.Ok? <==> id in s.refs)
            && (forall n :: RefCount(t, n) == if n == id && r.Ok? then RefCount(s, n) - 1 else RefCount(s, n))
  {
    hide Collect, Inv;
    if id in s.refs {
      CollectAfterDec(s, id);
      DecLowersOne(s, id);
    }
  }

  lemma CollectAfterDec(s: Store, id: Id)
    requires Inv(s)
    ensures Inv(Collect(Dec(s, id))) && Collect(Dec(s, id)).refs == Dec(s, id).refs
  {
    hide Collect, Dec, Linked, Issued, Indexed, Tabled, Acyclic;
    DecKeepsShape(s, id);
    CollectIsSound(Dec(s, id));
  }

  lemma DecLowersOne(s: Store, id: Id)
    requires Inv(s) && id in s.refs
    ensures forall n: Id :: RefCount(Dec(s, id), n) == if n == id then RefCount(s, n) - 1 else RefCount(s, n)
  {
    RefsPositive(s);
  }

  /** When the last fid leaves a detached tree, all of it goes and its qid paths are free again. */
  lemma LastReleaseFreesTree(s: Store, id: Id, d: Id, n: Id)
    requires Inv(s) && id in s.refs && s.refs[id] == 1
    requires d in s.detached && n in Subtree(s.nodes, d)
    requires forall m :: m in s.refs && m in Subtree(s.nodes, d) ==> m == id
    ensures var t := ReleaseFid(s, id).0; n !in t.nodes && s.nodes[n].qidPath !in t.qidIndex
  {
    var u := Dec(s, id);
    DecKeepsShape(s, id);
    assert !HasRef(u, d);
    CollectFreesQids(u, d, n);
  }

  // ----- Releasing after a collection -----

  lemma DecAfterRemove(s: Store, gone: set<Id>, id: Id)
    requires gone !! s.refs.Keys
    ensures Dec(RemoveNodes(s, gone), id) == RemoveNodes(Dec(s, id), gone)
  {
    assert s.refs - gone == s.refs;
    assert Dec(s, id).refs - gone == Dec(s, id).refs;
  }

  lemma DecKeepsDead(s: Store, id: Id)
    ensures Dead(s) <= Dead(Dec(s, id))
  {
  }

  /** Dropping a reference after a collection, and collecting again, is dropping it first. */
  lemma DecAfterCollect(s: Store, id: Id)
    requires Shape(s)
    ensures ReleaseFid(Collect(s), id).0 == Collect(Dec(s, id))
  {
    DeadTreesHoldNoRefs(s);
    CollectIsSound(s);
    if id in s.refs {
      DecKeepsShape(s, id);
      DecAfterRemove(s, Trees(s.nodes, Dead(s)), id);
      DecKeepsDead(s, id);
      CollectAbsorbs(Dec(s, id), Dead(s));
    }
  }
}
