/** One store shared by any number of sessions, over every run of operations. */
module FrontWorld {
  import opened Prelude
  import opened Paths
  import opened FrontStore
  import opened FrontCollect
  import opened FrontOps
  import opened FrontPublish
  import opened FrontPublishPaths
  import opened FrontRetire
  import opened FrontRetain
  import opened FrontGrants
  import opened FrontRegister
  import opened FrontFids

  type Fid = nat

  type SessionId = nat

  datatype Binding = Binding(node: Id, root: Id, uname: string, aname: string, principalId: string)

  type Fids = map<Fid, Binding>

  /** `bind_fid`: the new node is retained before the old one is released. */
  ghost function BindFid(s: Store, fids: Fids, fid: Fid, binding: Binding): (Store, Fids, Result<()>) {
    match RetainFid(s, binding.node)
    case (_, Err(e)) => (s, fids, Err(e))
    case (t, Ok(_)) =>
      if fid in fids then
        var (u, r) := ReleaseFid(t, fids[fid].node);
        (u, fids[fid := binding], r)
      else (t, fids[fid := binding], Ok(()))
  }

  /** `unbind_fid`. */
  ghost function UnbindFid(s: Store, fids: Fids, fid: Fid): (Store, Fids, Result<()>) {
    if fid in fids then
      var (t, r) := ReleaseFid(s, fids[fid].node);
      (t, fids - {fid}, r)
    else (s, fids, Ok(()))
  }

  datatype World = World(store: Store, sessions: map<SessionId, Fids>)

  /** The handles, over all sessions, bound to a node. */
  ghost function Holders(sessions: map<SessionId, Fids>, id: Id): set<(SessionId, Fid)> {
    set sid, fid | sid in sessions && fid in sessions[sid] && sessions[sid][fid].node == id :: (sid, fid)
  }

  ghost predicate CountedAt(w: World, id: Id) {
    RefCount(w.store, id) == |Holders(w.sessions, id)|
  }

  /** Every reference count is the number of fids bound to the node, over all sessions. */
  ghost predicate CountsAgree(w: World) {
    forall id: Id :: CountedAt(w, id)
  }

  ghost predicate GoodWorld(w: World) {
    Inv(w.store) && CountsAgree(w)
  }

  /** One locked operation. Attach, walk and create all end in `Bind`; the lock is released between
      looking a node up and binding it, so the node may be any id at all. */
  datatype Step =
    | MakeDirs(path: string)
    | Publish(path: string, body: Leaf)
    | Push(path: string, kind: Kind, metadata: Metadata)
    | Repush(id: Id, metadata: Metadata)
    | Retouch(id: Id, next: Node)
    | Adopt(parent: Id, name: Name, metadata: Metadata, readPrefix: string, removal: Removal)
    | Create(parent: Id, name: string, qid: CreatedQid, generation: nat, prefix: string)
    | Remove(path: string)
    | Retain(rootPath: string, paths: seq<string>)
    | GrantRoot(uname: string, principalId: string, aname: string, rootPath: string)
    | RetainPrincipals(unames: set<string>)
    | AddIntake(prefix: string)
    | AddRenameRelay(path: string, prefix: string)
    | SetLogCapacity(capacity: nat)
    | Open(sid: SessionId)
    | Bind(sid: SessionId, fid: Fid, binding: Binding)
    | Clunk(sid: SessionId, fid: Fid)
    | Drop(sid: SessionId, order: seq<Fid>)

  /** What an operation on the namespace leaves of the store. */
  ghost function StoreAfter(s: Store, step: Step): Store {
    match step
    case MakeDirs(path) => EnsurePathDir(s, path).0
    case Publish(path, body) => Place(s, path, body).0
    case Push(path, kind, metadata) => PlacePushed(s, path, kind, metadata).0
    case Repush(id, metadata) =>
      if id in s.nodes then ApplyPushed(s, id, DirectoryKind, metadata).0 else s
    case Retouch(id, next) => if id in s.nodes && KeepsPlace(s.nodes[id], next) then Touch(s, id, next) else s
    case Adopt(parent, name, metadata, readPrefix, removal) =>
      InsertPushedChild(s, parent, name, metadata, readPrefix, removal).0
    case Create(parent, name, qid, generation, prefix) => InsertCreated(s, parent, name, qid, generation, prefix).0
    case Remove(path) => RemoveSubtree(s, path).0
    case Retain(rootPath, paths) => RetainPaths(s, rootPath, paths).0
    case GrantRoot(uname, principalId, aname, rootPath) => Grant(s, uname, principalId, aname, rootPath).0
    case RetainPrincipals(unames) => KeepPrincipals(s, unames)
    case AddIntake(prefix) => RegisterIntake(s, prefix).0
    case AddRenameRelay(path, prefix) => RegisterRename(s, path, prefix).0
    case SetLogCapacity(capacity) => s.(logCapacity := if capacity > 1 then capacity else 1)
    case _ => s
  }

  /** Releases the listed fids one after another, as dropping a session does. */
  ghost function UnbindAll(s: Store, fids: Fids, order: seq<Fid>): (Store, Fids)
    decreases |order|
  {
    if order == [] then (s, fids)
    else
      var (t, rest, _) := UnbindFid(s, fids, order[0]);
      UnbindAll(t, rest, order[1..])
  }

  ghost function Next(w: World, step: Step): World {
    match step
    case Open(sid) => if sid in w.sessions then w else w.(sessions := w.sessions[sid := map[]])
    case Bind(sid, fid, binding) =>
      if sid !in w.sessions then w
      else
        var (t, fids, _) := BindFid(w.store, w.sessions[sid], fid, binding);
        World(t, w.sessions[sid := fids])
    case Clunk(sid, fid) =>
      if sid !in w.sessions then w
      else
        var (t, fids, _) := UnbindFid(w.store, w.sessions[sid], fid);
        World(t, w.sessions[sid := fids])
    case Drop(sid, order) =>
      if sid !in w.sessions then w
      else
        var (t, fids) := UnbindAll(w.store, w.sessions[sid], order);
        World(t, if fids == map[] then w.sessions - {sid} else w.sessions[sid := fids])
    case _ => w.(store := StoreAfter(w.store, step))
  }

  ghost function Run(w: World, steps: seq<Step>): World {
    if steps == [] then w else Next(Run(w, steps[..|steps| - 1]), steps[|steps| - 1])
  }

  ghost function Start(): World {
    World(Fresh(), map[])
  }

  // ----- Namespace operations -----

  lemma SmallStepKeepsInv(s: Store, step: Step)
    requires Inv(s)
    requires step.MakeDirs? || step.Repush? || step.Retouch? || step.GrantRoot? || step.RetainPrincipals?
             || step.SetLogCapacity?
    ensures Inv(StoreAfter(s, step)) && StoreAfter(s, step).refs == s.refs
  {
    hide Inv, EnsureDirs, Touch, KeepsPlace, ApplyPushed, Grant;
    match step {
      case MakeDirs(path) =>
        if SplitPath(path).Ok? {
          EnsureDirsKeepInv(s, ROOT_ID, SplitPath(path).value);
        }
      case Repush(id, metadata) =>
        if id in s.nodes {
          ApplyPushedKeepsInv(s, id, DirectoryKind, metadata);
        }
      case Retouch(id, next) =>
        if id in s.nodes && KeepsPlace(s.nodes[id], next) {
          TouchKeepsInv(s, id, next);
        }
      case GrantRoot(uname, principalId, aname, rootPath) =>
        GrantIsAside(s, uname, principalId, aname, rootPath);
        GrantKeepsInv(s, uname, principalId, aname, rootPath);
      case RetainPrincipals(unames) => SettingsAside(s, StoreAfter(s, step));
      case SetLogCapacity(_) => SettingsAside(s, StoreAfter(s, step));
    }
  }

  lemma StoreAfterKeepsInv(s: Store, step: Step)
    requires Inv(s)
    ensures Inv(StoreAfter(s, step)) && StoreAfter(s, step).refs == s.refs
  {
    hide Inv, Place, PlacePushed, InsertPushedChild, InsertCreated, RemoveSubtree, RetainPaths, RegisterIntake,
      RegisterRename;
    match step {
      case Publish(path, body) => PlaceKeepsInv(s, path, body);
      case Push(path, kind, metadata) => PlacePushedKeepsInv(s, path, kind, metadata);
      case Adopt(parent, name, metadata, readPrefix, removal) =>
        InsertPushedChildKeepsInv(s, parent, name, metadata, readPrefix, removal);
      case Create(parent, name, qid, generation, prefix) =>
        InsertCreatedKeepsInv(s, parent, name, qid, generation, prefix);
      case Remove(path) => RemoveSubtreeKeepsInv(s, path);
      case Retain(rootPath, paths) => RetainKeepsInv(s, rootPath, paths);
      case AddIntake(prefix) => RegisterIntakeKeepsInv(s, prefix);
      case AddRenameRelay(path, prefix) => RegisterRenameKeepsInv(s, path, prefix);
      case Open(_) =>
      case Bind(_, _, _) =>
      case Clunk(_, _) =>
      case Drop(_, _) =>
      case _ => SmallStepKeepsInv(s, step);
    }
  }

  // ----- Session operations -----

  /** Binding moves one handle from the old node's holders to the new node's. */
  lemma HoldersAfterBind(sessions: map<SessionId, Fids>, sid: SessionId, fid: Fid, binding: Binding, id: Id)
    requires sid in sessions
    ensures var fids := sessions[sid];
            var after := Holders(sessions[sid := fids[fid := binding]], id);
            after == (if binding.node == id then Holders(sessions, id) + {(sid, fid)}
                      else Holders(sessions, id) - {(sid, fid)})
  {
  }

  lemma HoldersAfterUnbind(sessions: map<SessionId, Fids>, sid: SessionId, fid: Fid, id: Id)
    requires sid in sessions
    ensures Holders(sessions[sid := sessions[sid] - {fid}], id) == Holders(sessions, id) - {(sid, fid)}
  {
  }

  lemma HolderCounts(sessions: map<SessionId, Fids>, sid: SessionId, fid: Fid, id: Id)
    requires sid in sessions
    ensures var held := fid in sessions[sid] && sessions[sid][fid].node == id;
            && |Holders(sessions, id) + {(sid, fid)}| == |Holders(sessions, id)| + (if held then 0 else 1)
            && |Holders(sessions, id) - {(sid, fid)}| == |Holders(sessions, id)| - (if held then 1 else 0)
  {
    assert (sid, fid) in Holders(sessions, id) <==> (fid in sessions[sid] && sessions[sid][fid].node == id);
  }

  /** A bound node is counted, so it is in the store. */
  lemma BoundNodeIsCounted(w: World, sid: SessionId, fid: Fid)
    requires GoodWorld(w) && sid in w.sessions && fid in w.sessions[sid]
    ensures w.sessions[sid][fid].node in w.store.refs && w.sessions[sid][fid].node in w.store.nodes
  {
    var id := w.sessions[sid][fid].node;
    assert (sid, fid) in Holders(w.sessions, id);
    assert CountedAt(w, id);
    RefsPositive(w.store);
  }

  /** Binding counts one more fid on the new node and one less on the fid's old node. */
  lemma BindCounts(s: Store, fids: Fids, fid: Fid, binding: Binding)
    requires Inv(s) && binding.node in s.nodes && (fid in fids ==> fids[fid].node in s.refs)
    ensures var (t, after, r) := BindFid(s, fids, fid, binding);
            && Inv(t) && r.Ok? && after == fids[fid := binding]
            && (forall n: Id :: RefCount(t, n) == RefCount(s, n) + (if n == binding.node then 1 else 0)
                                               - (if fid in fids && fids[fid].node == n then 1 else 0))
  {
    IncKeepsInv(s, binding.node);
    var t := Inc(s, binding.node);
    assert forall n: Id :: RefCount(t, n) == RefCount(s, n) + (if n == binding.node then 1 else 0);
    if fid in fids {
      ReleaseKeepsInv(t, fids[fid].node);
    }
  }

  lemma BindKeepsWorld(w: World, sid: SessionId, fid: Fid, binding: Binding)
    requires GoodWorld(w) && sid in w.sessions
    ensures GoodWorld(Next(w, Bind(sid, fid, binding)))
    ensures BindFid(w.store, w.sessions[sid], fid, binding).2.Ok? <==> binding.node in w.store.nodes
  {
    hide Linked, Issued, Indexed, Tabled, Acyclic, Settled;
    var v := Next(w, Bind(sid, fid, binding));
    var fids := w.sessions[sid];
    if binding.node in w.store.nodes {
      if fid in fids {
        BoundNodeIsCounted(w, sid, fid);
      }
      BindCounts(w.store, fids, fid, binding);
      forall id: Id
        ensures CountedAt(v, id)
      {
        assert CountedAt(w, id);
        HoldersAfterBind(w.sessions, sid, fid, binding, id);
        HolderCounts(w.sessions, sid, fid, id);
      }
    } else {
      assert w.sessions[sid := fids] == w.sessions;
    }
  }

  lemma UnbindKeepsWorld(w: World, sid: SessionId, fid: Fid)
    requires GoodWorld(w) && sid in w.sessions
    ensures GoodWorld(Next(w, Clunk(sid, fid)))
    ensures UnbindFid(w.store, w.sessions[sid], fid).2.Ok?
  {
    hide Inv, Collect, Holders;
    var v := Next(w, Clunk(sid, fid));
    if fid in w.sessions[sid] {
      BoundNodeIsCounted(w, sid, fid);
      ReleaseKeepsInv(w.store, w.sessions[sid][fid].node);
      forall id: Id
        ensures CountedAt(v, id)
      {
        assert CountedAt(w, id);
        HoldersAfterUnbind(w.sessions, sid, fid, id);
        HolderCounts(w.sessions, sid, fid, id);
      }
    } else {
      assert w.sessions[sid := w.sessions[sid]] == w.sessions;
    }
  }

  lemma {:induction false} UnbindAllKeepsWorld(w: World, sid: SessionId, order: seq<Fid>)
    requires GoodWorld(w) && sid in w.sessions
    ensures var (t, fids) := UnbindAll(w.store, w.sessions[sid], order);
            GoodWorld(World(t, w.sessions[sid := fids]))
    decreases |order|
  {
    if order == [] {
      assert w.sessions[sid := w.sessions[sid]] == w.sessions;
    } else {
      UnbindKeepsWorld(w, sid, order[0]);
      var v := Next(w, Clunk(sid, order[0]));
      UnbindAllKeepsWorld(v, sid, order[1..]);
      var fids := UnbindAll(v.store, v.sessions[sid], order[1..]).1;
      assert v.sessions[sid := fids] == w.sessions[sid := fids];
    }
  }

  // ----- Dropping a session -----

  ghost function Holding(fids: Fids, n: Id): set<Fid> {
    set f | f in fids && fids[f].node == n
  }

  /** Every count lowered by the number of the session's fids on the node. */
  ghost function DropAll(s: Store, fids: Fids): Store {
    s.(refs := map n | n in s.refs && s.refs[n] > |Holding(fids, n)| :: s.refs[n] - |Holding(fids, n)|)
  }

  /** Each fid once. */
  ghost predicate Lists(order: seq<Fid>, fids: Fids) {
    && (forall i, j :: 0 <= i < j < |order| ==> order[i] != order[j])
    && (forall f :: f in order <==> f in fids)
  }

  lemma HoldingOneLess(fids: Fids, fid: Fid, n: Id)
    requires fid in fids
    ensures |Holding(fids - {fid}, n)| == |Holding(fids, n)| - (if n == fids[fid].node then 1 else 0)
  {
    assert Holding(fids - {fid}, n) == Holding(fids, n) - {fid};
    assert n == fids[fid].node ==> fid in Holding(fids, n);
  }

  function Less(a: nat, b: nat): nat {
    if a > b then a - b else 0
  }

  lemma DropCount(s: Store, fids: Fids, n: Id)
    ensures RefCount(DropAll(s, fids), n) == Less(RefCount(s, n), |Holding(fids, n)|)
  {
    hide Holding;
  }

  lemma DecCount(s: Store, id: Id, n: Id)
    requires Positive(s)
    ensures RefCount(Dec(s, id), n) == Less(RefCount(s, n), if n == id then 1 else 0)
  {
  }

  ghost predicate Positive(s: Store) {
    forall n :: n in s.refs ==> s.refs[n] > 0
  }

  lemma DropsArePositive(s: Store, fids: Fids, id: Id)
    requires Positive(s)
    ensures Positive(DropAll(s, fids)) && Positive(Dec(s, id))
  {
    hide Holding;
  }

  lemma DropOneAt(s: Store, fids: Fids, fid: Fid, n: Id)
    requires fid in fids && Positive(s)
    ensures RefCount(DropAll(Dec(s, fids[fid].node), fids - {fid}), n) == RefCount(DropAll(s, fids), n)
  {
    hide Holding, DropAll, Dec, RefCount, Positive;
    HoldingOneLess(fids, fid, n);
    DropCount(Dec(s, fids[fid].node), fids - {fid}, n);
    DropCount(s, fids, n);
    DecCount(s, fids[fid].node, n);
  }

  /** Stores that differ in their counts only are equal once the counts are. */
  lemma SameCounts(s: Store, t: Store)
    requires t == s.(refs := t.refs) && Positive(s) && Positive(t)
    requires forall n: Id :: RefCount(s, n) == RefCount(t, n)
    ensures s == t
  {
    forall n: Id
      ensures n in s.refs <==> n in t.refs
      ensures n in s.refs ==> s.refs[n] == t.refs[n]
    {
      assert RefCount(s, n) == RefCount(t, n);
    }
    assert s.refs == t.refs;
  }

  lemma DropOneFirst(s: Store, fids: Fids, fid: Fid)
    requires Tabled(s) && fid in fids
    ensures DropAll(Dec(s, fids[fid].node), fids - {fid}) == DropAll(s, fids)
  {
    hide Holding, DropAll, Dec, RefCount, Tabled;
    var id, rest := fids[fid].node, fids - {fid};
    RefsPositive(s);
    DropsArePositive(s, fids, id);
    DropsArePositive(Dec(s, id), rest, id);
    DropsDifferInCounts(s, id, fids, rest);
    forall n: Id {
      DropOneAt(s, fids, fid, n);
    }
    SameCounts(DropAll(s, fids), DropAll(Dec(s, id), rest));
  }

  lemma DropsDifferInCounts(s: Store, id: Id, fids: Fids, rest: Fids)
    ensures DropAll(Dec(s, id), rest) == DropAll(s, fids).(refs := DropAll(Dec(s, id), rest).refs)
  {
    hide Holding, Dec;
    DecKeepsRest(s, id);
  }

  lemma DecKeepsRest(s: Store, id: Id)
    ensures Dec(s, id) == s.(refs := Dec(s, id).refs)
  {
  }

  lemma DropNone(s: Store)
    requires Tabled(s)
    ensures DropAll(s, map[]) == s
  {
    RefsPositive(s);
    assert forall n: Id :: Holding(map[], n) == {};
    assert DropAll(s, map[]).refs == s.refs;
  }

  lemma {:induction false} UnbindAllAfterCollect(s: Store, fids: Fids, order: seq<Fid>)
    requires Shape(s) && Lists(order, fids)
    ensures UnbindAll(Collect(s), fids, order) == (Collect(DropAll(s, fids)), map[])
    decreases |order|
  {
    if order == [] {
      assert fids == map[];
      DropNone(s);
    } else {
      var fid := order[0];
      var id := fids[fid].node;
      ListsRest(order, fids);
      DecAfterCollect(s, id);
      DecKeepsShape(s, id);
      DropOneFirst(s, fids, fid);
      UnbindAllAfterCollect(Dec(s, id), fids - {fid}, order[1..]);
    }
  }

  lemma ListsRest(order: seq<Fid>, fids: Fids)
    requires order != [] && Lists(order, fids)
    ensures order[0] in fids && Lists(order[1..], fids - {order[0]})
  {
    forall f
      ensures f in order[1..] <==> f in fids - {order[0]}
    {
      assert f in order <==> f == order[0] || f in order[1..];
    }
  }

  /** Dropping a session, fid by fid and collecting each time, is lowering all counts and collecting
      once; the order of the fids does not show. */
  lemma DropCollectsOnce(s: Store, fids: Fids, order: seq<Fid>)
    requires Inv(s) && Lists(order, fids)
    ensures UnbindAll(s, fids, order) == (Collect(DropAll(s, fids)), map[])
  {
    CollectSettledIsNoop(s);
    UnbindAllAfterCollect(s, fids, order);
  }

  lemma EmptySessionAside(store: Store, sessions: map<SessionId, Fids>, sid: SessionId)
    requires GoodWorld(World(store, sessions)) && sid in sessions && sessions[sid] == map[]
    ensures GoodWorld(World(store, sessions - {sid}))
  {
    forall id: Id
      ensures CountedAt(World(store, sessions - {sid}), id)
    {
      assert CountedAt(World(store, sessions), id);
      assert Holders(sessions - {sid}, id) == Holders(sessions, id);
    }
  }

  lemma OpenKeepsWorld(w: World, sid: SessionId)
    requires GoodWorld(w)
    ensures GoodWorld(Next(w, Open(sid)))
  {
    var v := Next(w, Open(sid));
    forall id: Id
      ensures CountedAt(v, id)
    {
      assert CountedAt(w, id);
      assert Holders(v.sessions, id) == Holders(w.sessions, id);
    }
  }

  lemma DropKeepsWorld(w: World, sid: SessionId, order: seq<Fid>)
    requires GoodWorld(w)
    ensures GoodWorld(Next(w, Drop(sid, order)))
  {
    if sid in w.sessions {
      UnbindAllKeepsWorld(w, sid, order);
      var (t, fids) := UnbindAll(w.store, w.sessions[sid], order);
      if fids == map[] {
        EmptySessionAside(t, w.sessions[sid := fids], sid);
        assert w.sessions[sid := fids] - {sid} == w.sessions - {sid};
      }
    }
  }

  lemma NextKeepsWorld(w: World, step: Step)
    requires GoodWorld(w)
    ensures GoodWorld(Next(w, step))
  {
    hide GoodWorld, StoreAfter, BindFid, UnbindFid, UnbindAll;
    match step {
      case Open(sid) => OpenKeepsWorld(w, sid);
      case Bind(sid, fid, binding) =>
        if sid in w.sessions {
          BindKeepsWorld(w, sid, fid, binding);
        }
      case Clunk(sid, fid) =>
        if sid in w.sessions {
          UnbindKeepsWorld(w, sid, fid);
        }
      case Drop(sid, order) => DropKeepsWorld(w, sid, order);
      case _ => StoreStepKeepsWorld(w, step);
    }
  }

  lemma StoreStepKeepsWorld(w: World, step: Step)
    requires GoodWorld(w) && !step.Open? && !step.Bind? && !step.Clunk? && !step.Drop?
    ensures GoodWorld(Next(w, step))
  {
    hide Inv, StoreAfter;
    StoreAfterKeepsInv(w.store, step);
    var v := Next(w, step);
    forall id: Id
      ensures CountedAt(v, id)
    {
      assert CountedAt(w, id);
    }
  }

  lemma StartIsGood()
    ensures GoodWorld(Start())
  {
    var w := Start();
    FreshStoreIsGood(w.store);
    forall id: Id
      ensures CountedAt(w, id)
    {
      assert Holders(w.sessions, id) == {};
    }
  }

  /** Over every run, counts are exact, the index is the inverse of the nodes, parent pointers are
      acyclic, and detached trees are exactly those some fid still needs. */
  lemma {:induction false} RunKeepsWorld(steps: seq<Step>)
    ensures GoodWorld(Run(Start(), steps))
  {
    if steps == [] {
      StartIsGood();
    } else {
      RunKeepsWorld(steps[..|steps| - 1]);
      NextKeepsWorld(Run(Start(), steps[..|steps| - 1]), steps[|steps| - 1]);
    }
  }

  /** No operation of any session ever invalidates a live fid. */
  lemma LiveFidsStayValid(steps: seq<Step>, sid: SessionId, fid: Fid)
    requires sid in Run(Start(), steps).sessions && fid in Run(Start(), steps).sessions[sid]
    ensures var w := Run(Start(), steps);
            && w.sessions[sid][fid].node in w.store.nodes
            && RefCount(w.store, w.sessions[sid][fid].node) == |Holders(w.sessions, w.sessions[sid][fid].node)|
  {
    RunKeepsWorld(steps);
    var w := Run(Start(), steps);
    BoundNodeIsCounted(w, sid, fid);
    assert CountedAt(w, w.sessions[sid][fid].node);
  }

  /** A node nobody can reach from the root is in exactly one detached tree, and that tree holds a
      node some fid is bound to. */
  lemma UnreachableNodesAreHeld(steps: seq<Step>, n: Id) returns (d: Id, sid: SessionId, fid: Fid)
    requires n in Run(Start(), steps).store.nodes && !Attached(Run(Start(), steps).store, n)
    ensures var w := Run(Start(), steps);
            && d in w.store.detached && n in Subtree(w.store.nodes, d)
            && sid in w.sessions && fid in w.sessions[sid]
            && w.sessions[sid][fid].node in Subtree(w.store.nodes, d)
  {
    RunKeepsWorld(steps);
    var w := Run(Start(), steps);
    NodesArePartitioned(w.store, n);
    d :| IsTop(w.store, d) && n in Subtree(w.store.nodes, d);
    assert HasRef(w.store, d);
    var m :| m in w.store.refs && m in Subtree(w.store.nodes, d);
    assert CountedAt(w, m) && Counted(w.store, m);
    var holder :| holder in Holders(w.sessions, m);
    sid, fid := holder.0, holder.1;
  }
}
