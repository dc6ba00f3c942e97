/** `FrontTree` of crates/front/src/tree.rs: one session's fids over the shared state. */
module FrontSession {
  import opened Prelude
  import opened Paths
  import opened FrontStore
  import opened FrontCollect
  import opened FrontWorld
  import opened FrontState
  import opened FrontWalk
  import opened FrontAccess

  /** What `walk` does: it sees the store in the states `locks`, two per name, and then binds. */
  ghost function WalkFid(s: Store, fids: Fids, fid: Fid, newfid: Fid, names: seq<Name>, locks: seq<Store>)
    : (Store, Fids, Result<seq<Id>>)
  {
    if fid !in fids then (s, fids, Err(EBADFID)) else EndWalk(s, fids, Walking(newfid, fids[fid], names, locks))
  }

  /** The loop of `walk`, one lock after another. */
  method WalkNames(root: Id, node: Id, names: seq<Name>, locks: seq<Store>) returns (walk: Walk)
    requires |locks| == 2 * |names|
    ensures walk == WalkThrough(locks, root, Looking(names, node, []))
    ensures walk.Over? || (walk.Looking? && walk.left == [] && |walk.visited| == |names|)
  {
    hide WalkThrough;
    var start := Looking(names, node, []);
    var current := node;
    var visited: seq<Id> := [];
    NoLocks(root, start);
    for i := 0 to |names|
      invariant |visited| == i && WalkThrough(locks[..2 * i], root, start) == Looking(names[i..], current, visited)
    {
      var nodes := locks[2 * i].nodes;
      var next := current;
      LockNext(locks, 2 * i, root, start);
      LockNext(locks, 2 * i + 1, root, start);
      if names[i] != DOT_DOT || current != root {
        if current !in nodes {
          OverAfter(locks, 2 * i + 1, root, start);
          return Over(Err(ENOENT));
        }
        if names[i] == DOT_DOT {
          next := nodes[current].parent;
        } else {
          var body := nodes[current].body;
          if !(body.Dir? && names[i] in body.children) {
            OverAfter(locks, 2 * i + 1, root, start);
            return Over(if visited == [] then Err(ENOENT) else Ok(visited));
          }
          next := body.children[names[i]];
        }
      }
      if next !in locks[2 * i + 1].nodes {
        OverAfter(locks, 2 * i + 2, root, start);
        return Over(Err(ENOENT));
      }
      visited := visited + [next];
      current := next;
    }
    assert locks[..2 * |names|] == locks;
    return Looking([], current, visited);
  }

  lemma NoLocks(root: Id, walk: Walk)
    ensures WalkThrough([], root, walk) == walk
  {
  }

  class FrontTree {
    const state: State
    var fids: Fids

    constructor (state: State)
      ensures this.state == state && fids == map[]
    {
      this.state, this.fids := state, map[];
    }

    method Bind(fid: Fid, binding: Binding) returns (r: Result<()>)
      requires state.Valid()
      modifies this, state
      ensures state.Valid() && (state.Snap(), fids, r) == BindFid(old(state.Snap()), old(fids), fid, binding)
    {
      var retained := state.RetainFidNode(binding.node);
      if retained.Err? {
        return retained;
      }
      if fid in fids {
        var previous := fids[fid];
        fids := fids[fid := binding];
        r := state.ReleaseFidNode(previous.node);
        return;
      }
      fids := fids[fid := binding];
      return Ok(());
    }

    method Unbind(fid: Fid) returns (r: Result<()>)
      requires state.Valid()
      modifies this, state
      ensures state.Valid() && (state.Snap(), fids, r) == UnbindFid(old(state.Snap()), old(fids), fid)
    {
      if fid !in fids {
        return Ok(());
      }
      var binding := fids[fid];
      fids := fids - {fid};
      r := state.ReleaseFidNode(binding.node);
    }

    method Attach(fid: Fid, uname: string, aname: string) returns (r: Result<Id>)
      requires state.Valid()
      modifies this, state
      ensures state.Valid()
      ensures (state.Snap(), fids, r) == AttachFid(old(state.Snap()), old(fids), fid, uname, aname)
    {
      var root := ROOT_ID;
      if state.principalsRequired {
        if uname !in state.principals {
          return Err("principal root unavailable");
        }
        var entry := state.principals[uname];
        if !("*" in entry.anames || aname in entry.anames) {
          return Err("principal aname unavailable");
        }
        root := entry.root;
      }
      var principalId := if uname in state.principals then state.principals[uname].principalId else uname;
      if root !in state.nodes {
        return Err(ENOENT);
      }
      var bound := Bind(fid, Binding(root, root, uname, aname, principalId));
      if bound.Err? {
        return Err(bound.error);
      }
      return Ok(root);
    }

    /** Others may change the store between any two locks: `locks` holds its states at all locks but
        the last, and `state` is the store at the last. */
    method Walk(fid: Fid, newfid: Fid, names: seq<Name>, locks: seq<Store>) returns (r: Result<seq<Id>>)
      requires state.Valid() && |locks| == 2 * |names|
      modifies this, state
      ensures state.Valid()
      ensures (state.Snap(), fids, r) == WalkFid(old(state.Snap()), old(fids), fid, newfid, names, locks)
    {
      if fid !in fids {
        return Err(EBADFID);
      }
      var binding := fids[fid];
      var walk := WalkNames(binding.root, binding.node, names, locks);
      if walk.Over? {
        return walk.outcome;
      }
      var bound := Bind(newfid, binding.(node := walk.current));
      if bound.Err? {
        return Err(bound.error);
      }
      return Ok(walk.visited);
    }

    method Clunk(fid: Fid) returns (r: Result<()>)
      requires state.Valid()
      modifies this, state
      ensures state.Valid() && (state.Snap(), fids, r) == UnbindFid(old(state.Snap()), old(fids), fid)
    {
      r := Unbind(fid);
    }

    /** Dropping the session releases every fid, in whatever order. */
    method Drop()
      requires state.Valid()
      modifies this, state
      ensures state.Valid() && fids == map[]
      ensures state.Snap() == Collect(DropAll(old(state.Snap()), old(fids)))
    {
      ghost var order: seq<Fid> := [];
      while fids != map[]
        invariant state.Valid()
        invariant (state.Snap(), fids) == UnbindAll(old(state.Snap()), old(fids), order)
        invariant Picked(order, old(fids), fids)
        decreases fids.Keys
      {
        var fid :| fid in fids;
        UnbindAllSnoc(old(state.Snap()), old(fids), order, fid);
        PickOne(order, old(fids), fids, fid);
        var _ := Unbind(fid);
        order := order + [fid];
      }
      DropCollectsOnce(old(state.Snap()), old(fids), order);
    }
  }

  /** `order` lists, once each, the fids of `fids` that are not left. */
  ghost predicate Picked(order: seq<Fid>, fids: Fids, left: Fids) {
    && left.Keys <= fids.Keys
    && Lists(order, fids - left.Keys)
  }

  lemma PickOne(order: seq<Fid>, fids: Fids, left: Fids, fid: Fid)
    requires Picked(order, fids, left) && fid in left
    ensures Picked(order + [fid], fids, left - {fid})
  {
    forall f
      ensures f in order + [fid] <==> f in fids - (left - {fid}).Keys
    {
      assert f in order <==> f in fids - left.Keys;
    }
  }

  lemma {:induction false} UnbindAllSnoc(s: Store, fids: Fids, order: seq<Fid>, fid: Fid)
    ensures var (t, left) := UnbindAll(s, fids, order);
            var (u, rest, _) := UnbindFid(t, left, fid);
            UnbindAll(s, fids, order + [fid]) == (u, rest)
    decreases |order|
  {
    if order == [] {
      assert (order + [fid])[1..] == [];
    } else {
      var (t, left, _) := UnbindFid(s, fids, order[0]);
      UnbindAllSnoc(t, left, order[1..], fid);
      assert (order + [fid])[1..] == order[1..] + [fid];
    }
  }
}
