/** When the directories on the way to a path can be made: crates/front/src/model.rs. */
module FrontRoom {
  import opened Prelude
  import opened Paths
  import opened FrontStore
  import opened FrontOps
  import opened FrontPublish

  // ----- Free qid paths -----

  ghost function Free(index: map<nat, Id>, from: nat, end: nat): set<nat> {
    set q | from <= q < end && q !in index
  }

  /** Where the search for `count` qid paths from `start` on ends: after the last 64-bit number. Ids of the model are
      not bounded; an id beyond that is taken as its own qid path. */
  function SearchEnd(start: nat, count: nat): nat {
    if start + count > U64_MAX + 1 then start + count else U64_MAX + 1
  }

  /** At least `count` qid paths are free. */
  ghost predicate Room(index: map<nat, Id>, start: nat, count: nat) {
    |Free(index, start, SearchEnd(start, count))| >= count
  }

  /** The qid path is one of the `count` least free ones from `start` on. */
  ghost predicate Drawn(index: map<nat, Id>, start: nat, count: nat, q: nat) {
    start <= q && q !in index && |Free(index, start, q)| < count
  }

  lemma {:induction false} FreeAtMost(index: map<nat, Id>, from: nat, end: nat)
    requires from <= end
    ensures |Free(index, from, end)| <= end - from
    decreases end
  {
    if from == end {
      assert Free(index, from, end) == {};
    } else {
      FreeAtMost(index, from, end - 1);
      var less, rest := Free(index, from, end - 1), Free(index, from, end);
      if end - 1 in index {
        assert rest == less;
      } else {
        assert rest == less + {end - 1};
      }
    }
  }

  lemma {:induction false} NextQidInRange(index: map<nat, Id>, start: nat)
    ensures NextQid(index, start).Ok? ==> NextQid(index, start).value <= U64_MAX || NextQid(index, start).value == start
    ensures NextQid(index, start).Err? ==> start in index && NextQid(index, start).error == QID_EXHAUSTED
    decreases U64_MAX - start
  {
    if start in index && start < U64_MAX {
      NextQidInRange(index, start + 1);
    }
  }

  /** The search fails only when there is no room for even one. */
  lemma NoQidNoRoom(index: map<nat, Id>, start: nat, count: nat)
    requires NextQid(index, start).Err? && count > 0
    ensures !Room(index, start, count)
  {
    NextQidInRange(index, start);
    NextQidIsLeastFree(index, start);
    var end := SearchEnd(start, count);
    var free := Free(index, start, end);
    if start + count > U64_MAX + 1 {
      assert free == Free(index, start + 1, end);
      FreeAtMost(index, start + 1, end);
    } else {
      assert free == {};
    }
  }

  /** Taking the least free qid path leaves the others, */
  lemma FreeAfter(index: map<nat, Id>, start: nat, end: nat, id: Id)
    requires NextQid(index, start).Ok? && NextQid(index, start).value < end
    ensures var q := NextQid(index, start).value;
            |Free(index, start, end)| == |Free(index[q := id], start + 1, end)| + 1
  {
    var q := NextQid(index, start).value;
    NextQidIsLeastFree(index, start);
    var rest := Free(index[q := id], start + 1, end);
    assert Free(index, start, end) == rest + {q};
    assert q !in rest;
  }

  lemma RoomAfter(index: map<nat, Id>, start: nat, count: nat, id: Id)
    requires NextQid(index, start).Ok? && count > 0
    ensures var q := NextQid(index, start).value;
            Room(index, start, count) <==> Room(index[q := id], start + 1, count - 1)
  {
    NextQidInRange(index, start);
    FreeAfter(index, start, SearchEnd(start, count), id);
  }

  lemma DrawnAfter(index: map<nat, Id>, start: nat, count: nat, id: Id, q: nat)
    requires NextQid(index, start).Ok? && count > 0
    ensures var first := NextQid(index, start).value;
            Drawn(index, start, count, q) <==> q == first || Drawn(index[first := id], start + 1, count - 1, q)
  {
    var first := NextQid(index, start).value;
    NextQidIsLeastFree(index, start);
    if q == first {
      assert Free(index, start, q) == {};
    } else if first < q {
      FreeAfter(index, start, q, id);
    }
  }

  /** Room for some is room for fewer. */
  lemma RoomForLess(index: map<nat, Id>, start: nat, count: nat)
    requires Room(index, start, count + 1)
    ensures Room(index, start, count)
  {
    var more, less := Free(index, start, SearchEnd(start, count + 1)), Free(index, start, SearchEnd(start, count));
    var last := SearchEnd(start, count);
    assert more <= less + {last};
    FewerThan(more, less, last);
  }

  lemma FewerThan(more: set<nat>, less: set<nat>, last: nat)
    requires more <= less + {last}
    ensures |more| <= |less| + 1
  {
    assert more - {last} <= less;
    SubsetSize(more - {last}, less);
    assert more <= (more - {last}) + {last};
    SubsetSize(more, (more - {last}) + {last});
  }

  lemma {:induction false} SubsetSize(a: set<nat>, b: set<nat>)
    requires a <= b
    ensures |a| <= |b|
  {
    if a != {} {
      var x :| x in a;
      SubsetSize(a - {x}, b - {x});
    }
  }

  // ----- How far a path leads -----

  /** The number of names that resolve. */
  function Depth(nodes: map<Id, Node>, start: Id, names: seq<Name>): (d: nat)
    ensures d <= |names| && Resolve(nodes, start, names[..d]).Ok?
    ensures forall k :: d < k <= |names| ==> Resolve(nodes, start, names[..k]).Err?
    decreases |names|
  {
    assert names[..|names|] == names;
    if Resolve(nodes, start, names).Ok? then |names|
    else
      var front := names[..|names| - 1];
      assert forall k :: 0 <= k < |names| ==> front[..k] == names[..k];
      Depth(nodes, start, front)
  }

  ghost predicate LeafAt(nodes: map<Id, Node>, start: Id, path: seq<Name>) {
    var r := Resolve(nodes, start, path);
    r.Ok? && r.value in nodes && !nodes[r.value].body.Dir?
  }

  /** Something on the way is no directory. */
  ghost predicate Blocked(nodes: map<Id, Node>, start: Id, names: seq<Name>) {
    exists k :: 0 <= k <= |names| && LeafAt(nodes, start, names[..k])
  }

  ghost predicate IsDirAt(nodes: map<Id, Node>, id: Id) {
    id in nodes && nodes[id].body.Dir?
  }

  lemma FirstName(nodes: map<Id, Node>, start: Id, names: seq<Name>, k: nat)
    requires 0 < k <= |names|
    ensures Resolve(nodes, start, names[..k]) ==
            match Child(nodes, start, names[0])
            case Ok(id) => Resolve(nodes, id, names[1..][..k - 1])
            case Err(e) => Err(e)
  {
    assert names[..k] == [names[0]] + names[1..][..k - 1];
    ResolveConcat(nodes, start, [names[0]], names[1..][..k - 1]);
    assert [names[0]][..0] == [];
    assert Resolve(nodes, start, [names[0]]) == Child(nodes, start, names[0]);
  }

  lemma DepthIs(nodes: map<Id, Node>, start: Id, names: seq<Name>, d: nat)
    requires d <= |names| && Resolve(nodes, start, names[..d]).Ok?
    requires forall k :: d < k <= |names| ==> Resolve(nodes, start, names[..k]).Err?
    ensures Depth(nodes, start, names) == d
  {
    var e := Depth(nodes, start, names);
    assert Resolve(nodes, start, names[..e]).Ok? && Resolve(nodes, start, names[..d]).Ok?;
  }

  lemma DepthFront(nodes: map<Id, Node>, start: Id, names: seq<Name>)
    requires names != []
    ensures Depth(nodes, start, names) ==
            match Child(nodes, start, names[0])
            case Ok(id) => 1 + Depth(nodes, id, names[1..])
            case Err(_) => 0
  {
    hide Resolve;
    var first := Child(nodes, start, names[0]);
    var d := if first.Ok? then 1 + Depth(nodes, first.value, names[1..]) else 0;
    assert Resolve(nodes, start, names[..0]).Ok? by {
      NoNames(nodes, start, names[..0]);
    }
    forall k | 0 < k <= |names|
      ensures Resolve(nodes, start, names[..k]) ==
              if first.Ok? then Resolve(nodes, first.value, names[1..][..k - 1]) else Err(first.error)
    {
      FirstName(nodes, start, names, k);
    }
    DepthIs(nodes, start, names, d);
  }

  lemma NoNames(nodes: map<Id, Node>, start: Id, names: seq<Name>)
    requires names == []
    ensures Resolve(nodes, start, names) == Ok(start)
  {
  }

  lemma BlockedFront(nodes: map<Id, Node>, start: Id, names: seq<Name>)
    requires names != [] && IsDirAt(nodes, start)
    ensures Blocked(nodes, start, names) <==>
            match Child(nodes, start, names[0])
            case Ok(id) => Blocked(nodes, id, names[1..])
            case Err(_) => false
  {
    hide Resolve;
    NoNames(nodes, start, names[..0]);
    var first := Child(nodes, start, names[0]);
    forall k | 0 < k <= |names|
      ensures LeafAt(nodes, start, names[..k]) <==>
              first.Ok? && LeafAt(nodes, first.value, names[1..][..k - 1])
    {
      FirstName(nodes, start, names, k);
    }
    if first.Ok? && Blocked(nodes, first.value, names[1..]) {
      var j :| 0 <= j <= |names[1..]| && LeafAt(nodes, first.value, names[1..][..j]);
      assert LeafAt(nodes, start, names[..j + 1]);
    }
  }

  // ----- Making them -----

  /** The directories that are not there. */
  function Missing(nodes: map<Id, Node>, start: Id, names: seq<Name>): nat {
    |names| - Depth(nodes, start, names)
  }

  ghost predicate Made(s: Store, start: Id, names: seq<Name>, t: Store, dir: Id) {
    var missing := Missing(s.nodes, start, names);
    && t.nextId == s.nextId + missing && IsDirAt(t.nodes, dir)
    && (if missing == 0 then t == s && Resolve(s.nodes, start, names) == Ok(dir)
        else dir == t.nextId - 1 && t.nodes[dir].body == EMPTY_DIR)
  }

  /** Making directories takes the least free qid paths and no others. */
  ghost predicate Draws(s: Store, t: Store, count: nat) {
    forall q :: q in t.qidIndex <==> q in s.qidIndex || Drawn(s.qidIndex, s.nextId, count, q)
  }

  lemma DrawsNone(s: Store)
    ensures Draws(s, s, 0)
  {
  }

  lemma OneMore(s: Store, parent: Id, name: Name, t: Store, count: nat)
    requires NextQid(s.qidIndex, s.nextId).Ok? && count > 0
    requires var node := PlainNode(name, parent, NextQid(s.qidIndex, s.nextId).value, EMPTY_DIR);
             IsDirAt(s.nodes, parent) && Draws(Insert(s, node), t, count - 1)
    ensures Draws(s, t, count)
  {
    var qid := NextQid(s.qidIndex, s.nextId).value;
    forall q: nat {
      DrawnAfter(s.qidIndex, s.nextId, count, s.nextId, q);
    }
  }

  lemma EmptyHasNothing(nodes: map<Id, Node>, dir: Id, names: seq<Name>)
    requires dir in nodes && nodes[dir].body == EMPTY_DIR
    ensures Depth(nodes, dir, names) == 0 && !Blocked(nodes, dir, names)
  {
    if names == [] {
      assert names[..0] == names;
      NoNames(nodes, dir, names);
    } else {
      DepthFront(nodes, dir, names);
      BlockedFront(nodes, dir, names);
    }
  }

  /** What making the directories comes to. */
  ghost predicate DirsOutcome(s: Store, start: Id, names: seq<Name>, more: nat, t: Store, r: Result<Id>) {
    var missing := Missing(s.nodes, start, names);
    if Blocked(s.nodes, start, names) then t == s && r == Err(ENOTDIR)
    else if !Room(s.qidIndex, s.nextId, missing) then r == Err(QID_EXHAUSTED)
    else
      && r.Ok? && Made(s, start, names, t, r.value) && Draws(s, t, missing)
      && (Room(t.qidIndex, t.nextId, more) <==> Room(s.qidIndex, s.nextId, missing + more))
  }

  lemma FoundFirst(s: Store, start: Id, names: seq<Name>, more: nat, id: Id, t: Store, r: Result<Id>)
    requires names != [] && IsDirAt(s.nodes, start) && Child(s.nodes, start, names[0]) == Ok(id)
    requires DirsOutcome(s, id, names[1..], more, t, r)
    ensures DirsOutcome(s, start, names, more, t, r)
  {
    hide Resolve, Draws, Room, Drawn, Blocked, Depth;
    DepthFront(s.nodes, start, names);
    BlockedFront(s.nodes, start, names);
    FirstName(s.nodes, start, names, |names|);
    assert names[..|names|] == names && names[1..][..|names| - 1] == names[1..];
  }

  lemma MadeFirst(s: Store, start: Id, names: seq<Name>, more: nat, u: Store, r: Result<Id>)
    requires Inv(s) && names != [] && IsDirAt(s.nodes, start) && Child(s.nodes, start, names[0]).Err?
    requires NextQid(s.qidIndex, s.nextId).Ok?
    requires var t := Insert(s, PlainNode(names[0], start, NextQid(s.qidIndex, s.nextId).value, EMPTY_DIR));
             DirsOutcome(t, s.nextId, names[1..], more, u, r)
    ensures DirsOutcome(s, start, names, more, u, r)
  {
    hide Inv, Resolve, Draws, Room, Drawn, Blocked, NextQid, Depth;
    var node := PlainNode(names[0], start, NextQid(s.qidIndex, s.nextId).value, EMPTY_DIR);
    var t := Insert(s, node);
    DepthFront(s.nodes, start, names);
    BlockedFront(s.nodes, start, names);
    NewDir(s, node);
    EmptyHasNothing(t.nodes, s.nextId, names[1..]);
    RoomAfter(s.qidIndex, s.nextId, |names|, s.nextId);
    RoomAfter(s.qidIndex, s.nextId, |names| + more, s.nextId);
    if r.Ok? {
      OneMore(s, start, names[0], u, |names|);
      if names[1..] == [] {
        NoNames(t.nodes, s.nextId, names[1..]);
      }
    }
  }

  /** The directories of a path are made if and only if nothing on the way is something else and there are free qid
      paths for those that are not there. */
  lemma {:induction false} EnsureDirsIff(s: Store, start: Id, names: seq<Name>, more: nat)
    requires Inv(s) && IsDirAt(s.nodes, start)
    ensures var (t, r) := EnsureDirs(s, start, names);
            DirsOutcome(s, start, names, more, t, r)
    decreases |names|
  {
    hide Inv, Resolve, Draws, Room, Drawn, Blocked, NextQid, Depth, Insert;
    if names == [] {
      NoNames(s.nodes, start, names);
      DrawsNone(s);
      NothingMissing(s, start, names);
    } else {
      ChildOfDirectory(s, start, names[0]);
      EnsureDirKeepsInv(s, start, names[0]);
      var (t, r) := EnsureDir(s, start, names[0]);
      var first := Child(s.nodes, start, names[0]);
      if r.Ok? {
        EnsureDirsIff(t, r.value, names[1..], more);
        var (u, dir) := EnsureDirs(t, r.value, names[1..]);
        if first.Ok? {
          FoundFirst(s, start, names, more, first.value, u, dir);
        } else {
          MadeFirst(s, start, names, more, u, dir);
        }
      } else if first.Ok? {
        BlockedFront(s.nodes, start, names);
        LeafBlocks(s.nodes, first.value, names[1..]);
      } else {
        DepthFront(s.nodes, start, names);
        BlockedFront(s.nodes, start, names);
        NextQidInRange(s.qidIndex, s.nextId);
        NoQidNoRoom(s.qidIndex, s.nextId, |names|);
      }
    }
  }

  lemma NewDir(s: Store, node: Node)
    requires Inv(s) && IsDirAt(s.nodes, node.parent)
    ensures Insert(s, node).nodes[s.nextId] == node
  {
    NextIdIsNew(s);
  }

  lemma NothingMissing(s: Store, start: Id, names: seq<Name>)
    requires names == [] && IsDirAt(s.nodes, start)
    ensures Depth(s.nodes, start, names) == 0 && !Blocked(s.nodes, start, names)
    ensures Room(s.qidIndex, s.nextId, 0)
  {
  }

  lemma LeafBlocks(nodes: map<Id, Node>, id: Id, names: seq<Name>)
    requires id in nodes && !nodes[id].body.Dir?
    ensures Blocked(nodes, id, names)
  {
    assert LeafAt(nodes, id, names[..0]);
  }
}
