/** Attach roots over whole runs: sessions attach, walk lock by lock and create, while owners publish,
    remove and push beside them. */
module FrontAccess {
  import opened Prelude
  import opened Paths
  import opened FrontStore
  import opened FrontPaths
  import opened FrontPublish
  import opened FrontFids
  import opened FrontWorld
  import opened FrontWalk
  import opened FrontLines
  import opened FrontParents
  import opened FrontUproot

  /** `attach_root_for`. */
  function AttachRoot(s: Store, uname: string, aname: string): Result<Id> {
    if !s.principalsRequired then Ok(ROOT_ID)
    else if uname !in s.principals then Err("principal root unavailable")
    else if "*" in s.principals[uname].anames || aname in s.principals[uname].anames then
      Ok(s.principals[uname].root)
    else Err("principal aname unavailable")
  }

  function PrincipalOf(s: Store, uname: string): string {
    if uname in s.principals then s.principals[uname].principalId else uname
  }

  /** What `attach` does to the store and the session's fids. */
  ghost function AttachFid(s: Store, fids: Fids, fid: Fid, uname: string, aname: string): (Store, Fids, Result<Id>) {
    match AttachRoot(s, uname, aname)
    case Err(e) => (s, fids, Err(e))
    case Ok(root) =>
      if root !in s.nodes then (s, fids, Err(ENOENT))
      else
        match BindFid(s, fids, fid, Binding(root, root, uname, aname, PrincipalOf(s, uname)))
        case (t, after, Err(e)) => (t, after, Err(e))
        case (t, after, Ok(_)) => (t, after, Ok(root))
  }

  /** A walk of `names` that has seen the store in these states, one per lock. */
  datatype Walking = Walking(newfid: Fid, binding: Binding, names: seq<Name>, seen: seq<Store>)

  function WalkOf(walking: Walking): Walk {
    WalkThrough(walking.seen, walking.binding.root, Looking(walking.names, walking.binding.node, []))
  }

  /** What the end of `walk` does: the new fid is bound only if every name was walked. */
  ghost function EndWalk(s: Store, fids: Fids, walking: Walking): (Store, Fids, Result<seq<Id>>) {
    match WalkOf(walking)
    case Over(outcome) => (s, fids, outcome)
    case Found(_, _, visited, _) => (s, fids, Ok(visited))
    case Looking(left, current, visited) =>
      if left != [] then (s, fids, Ok(visited))
      else
        match BindFid(s, fids, walking.newfid, walking.binding.(node := current))
        case (t, after, Err(e)) => (t, after, Err(e))
        case (t, after, Ok(_)) => (t, after, Ok(visited))
  }

  // ----- Runs -----

  /** A create in progress: what the client asked for, and the nodes the owner has made for it so far, by
      the qid path reported. The client waits without the lock until one of them is accepted. */
  datatype Creating = Creating(
    fid: Fid,
    binding: Binding,
    name: string,
    generation: nat,
    prefix: string,
    made: map<nat, Id>)

  /** What `create` asks the owner for; nothing if it fails at once. */
  function CreateRequest(s: Store, fid: Fid, binding: Binding, name: string): Option<Creating> {
    if binding.node !in s.nodes then None
    else
      var parent := s.nodes[binding.node];
      if parent.body.Dir? && parent.createRelay.Some?
         && PathRelativeTo(s, binding.node, binding.root).Ok? && PathRelativeTo(s, binding.node, ROOT_ID).Ok? then
        Some(Creating(fid, binding, name, parent.generation, parent.createRelay.value, map[]))
      else None
  }

  /** What `complete_create_with` does to the store. */
  function MakeFor(s: Store, creating: Creating, qid: CreatedQid): (Store, Result<Id>) {
    InsertCreated(s, creating.binding.node, creating.name, qid, creating.generation, creating.prefix)
  }

  datatype Access = Access(world: World, walks: map<SessionId, Walking>, creates: map<SessionId, Creating>)

  datatype Act =
    | Other(step: Step)
    | Attach(sid: SessionId, fid: Fid, uname: string, aname: string)
    | BeginWalk(sid: SessionId, fid: Fid, newfid: Fid, names: seq<Name>)
    | Lock(sid: SessionId)
    | FinishWalk(sid: SessionId)
    | BeginCreate(sid: SessionId, fid: Fid, name: string)
    | MakeCreated(sid: SessionId, qid: CreatedQid)
    | FinishCreate(sid: SessionId, qidPath: nat)
    | GiveUpCreate(sid: SessionId)

  ghost predicate Bound(w: World, sid: SessionId, fid: Fid) {
    sid in w.sessions && fid in w.sessions[sid]
  }

  /** The create of the session is answered with a qid path that the owner made a node under. */
  ghost predicate Answered(a: Access, sid: SessionId, qidPath: nat) {
    sid in a.creates && qidPath in a.creates[sid].made
  }

  /** The answer finds a node to bind. */
  ghost predicate Binds(a: Access, sid: SessionId, qidPath: nat) {
    Answered(a, sid, qidPath) && sid in a.world.sessions && qidPath in a.world.store.qidIndex
  }

  /** The operation of the world that an act comes down to, if any. Sessions bind only by attaching,
      walking and creating, and owners create only what a session asked for. */
  ghost function StepOf(a: Access, act: Act): Option<Step> {
    var s := a.world.store;
    match act
    case Other(step) => if step.Bind? || step.Create? then None else Some(step)
    case Attach(sid, fid, uname, aname) =>
      var root := AttachRoot(s, uname, aname);
      if root.Ok? && root.value in s.nodes then
        Some(Bind(sid, fid, Binding(root.value, root.value, uname, aname, PrincipalOf(s, uname))))
      else None
    case BeginWalk(_, _, _, _) => None
    case Lock(_) => None
    case FinishWalk(sid) =>
      if sid in a.walks && WalkOf(a.walks[sid]).Looking? && WalkOf(a.walks[sid]).left == [] then
        var walking := a.walks[sid];
        Some(Bind(sid, walking.newfid, walking.binding.(node := WalkOf(walking).current)))
      else None
    case BeginCreate(_, _, _) => None
    case MakeCreated(sid, qid) =>
      if sid in a.creates then
        var creating := a.creates[sid];
        Some(Create(creating.binding.node, creating.name, qid, creating.generation, creating.prefix))
      else None
    case FinishCreate(sid, qidPath) =>
      if Binds(a, sid, qidPath) then
        Some(Bind(sid, a.creates[sid].fid, a.creates[sid].binding.(node := s.qidIndex[qidPath])))
      else None
    case GiveUpCreate(_) => None
  }

  ghost function WalksAfter(a: Access, act: Act): map<SessionId, Walking> {
    match act
    case BeginWalk(sid, fid, newfid, names) =>
      if Bound(a.world, sid, fid) then a.walks[sid := Walking(newfid, a.world.sessions[sid][fid], names, [])]
      else a.walks
    case Lock(sid) =>
      if sid in a.walks then a.walks[sid := a.walks[sid].(seen := a.walks[sid].seen + [a.world.store])] else a.walks
    case FinishWalk(sid) => a.walks - {sid}
    case _ => a.walks
  }

  ghost function CreatesAfter(a: Access, act: Act): map<SessionId, Creating> {
    match act
    case BeginCreate(sid, fid, name) =>
      if !Bound(a.world, sid, fid) then a.creates
      else
        (match CreateRequest(a.world.store, fid, a.world.sessions[sid][fid], name)
         case None => a.creates
         case Some(creating) => a.creates[sid := creating])
    case MakeCreated(sid, qid) =>
      if sid !in a.creates then a.creates
      else
        var creating := a.creates[sid];
        (match MakeFor(a.world.store, creating, qid).1
         case Err(_) => a.creates
         case Ok(id) => a.creates[sid := creating.(made := creating.made[qid.path := id])])
    case FinishCreate(sid, qidPath) => if Answered(a, sid, qidPath) then a.creates - {sid} else a.creates
    case GiveUpCreate(sid) => a.creates - {sid}
    case _ => a.creates
  }

  ghost function After(a: Access, act: Act): Access {
    var step := StepOf(a, act);
    Access(if step.Some? then Next(a.world, step.value) else a.world, WalksAfter(a, act), CreatesAfter(a, act))
  }

  ghost function Acted(a: Access, acts: seq<Act>): Access {
    if acts == [] then a else After(Acted(a, acts[..|acts| - 1]), acts[|acts| - 1])
  }

  ghost function Begin(): Access {
    Access(Start(), map[], map[])
  }

  // ----- The pairs of a node and the attach root it is held under -----

  datatype Pair = Pair(node: Id, root: Id)

  ghost function PairOf(binding: Binding): Pair {
    Pair(binding.node, binding.root)
  }

  ghost function WalkPairs(walking: Walking): set<Pair> {
    match WalkOf(walking)
    case Looking(_, current, _) => {Pair(current, walking.binding.root)}
    case Found(_, current, _, id) => {Pair(current, walking.binding.root), Pair(id, walking.binding.root)}
    case Over(_) => {}
  }

  ghost function CreatePairs(creating: Creating): set<Pair> {
    {PairOf(creating.binding)} + set q | q in creating.made :: Pair(creating.made[q], creating.binding.root)
  }

  /** The pair is that of a bound fid, of a walk or of a create in progress. */
  ghost predicate Tracks(a: Access, pair: Pair) {
    || (exists sid, fid :: Bound(a.world, sid, fid) && pair == PairOf(a.world.sessions[sid][fid]))
    || (exists sid :: sid in a.walks && pair in WalkPairs(a.walks[sid]))
    || (exists sid :: sid in a.creates && pair in CreatePairs(a.creates[sid]))
  }

  ghost predicate Safe(s: Store, pair: Pair) {
    pair.node < s.nextId && pair.root < s.nextId && Confined(s, pair.node, pair.root)
  }

  /** No fid, no walk and no created node is out of its attach root. */
  ghost predicate Contained(a: Access) {
    forall pair {:trigger Tracks(a, pair)} :: Tracks(a, pair) ==> Safe(a.world.store, pair)
  }

  /** Binding the session's fid to `to` takes away a node above `to`. */
  ghost predicate CutsFor(w: World, sid: SessionId, fid: Fid, to: Id) {
    Bound(w, sid, fid) && Cuts(w.store, w.sessions[sid][fid].node, to)
  }

  /** The qid path of an answer belongs by now to another node than the one made, and that one is outside
      the attach root, with all that is above it staying. */
  ghost predicate Misnamed(a: Access, sid: SessionId, qidPath: nat) {
    Binds(a, sid, qidPath)
    && var creating, id := a.creates[sid], a.world.store.qidIndex[qidPath];
       && id != creating.made[qidPath]
       && !Confined(a.world.store, id, creating.binding.root) && !CutsFor(a.world, sid, creating.fid, id)
  }

  /** The act lets nobody out: a push brings nothing back across an attach root, and an answered create
      binds the node made for it or another one within the attach root. */
  ghost predicate Spares(a: Access, act: Act) {
    match act
    case Other(Push(place, kind, metadata)) =>
      forall pair {:trigger Tracks(a, pair)} :: Tracks(a, pair) ==>
        !LetsOut(a.world.store, place, kind, metadata, pair.node, pair.root)
    case FinishCreate(sid, qidPath) => !Misnamed(a, sid, qidPath)
    case _ => true
  }

  // ----- One act -----

  lemma AfterKeepsWorld(a: Access, act: Act)
    requires GoodWorld(a.world)
    ensures GoodWorld(After(a, act).world)
  {
    var step := StepOf(a, act);
    if step.Some? {
      NextKeepsWorld(a.world, step.value);
    }
  }

  lemma SafeInherits(s: Store, t: Store, pair: Pair)
    requires Inv(s) && Inv(t) && Inherits(s, t) && Safe(s, pair)
    ensures Safe(t, pair)
  {
    var rank: map<Id, nat> :| Ranked(t, rank);
    InheritsConfines(s, t, rank, pair.node, pair.root);
  }

  /** One name of a walk stays within the attach root. */
  lemma WalkNameIsSafe(s: Store, root: Id, current: Id, name: Name)
    requires Inv(s) && Safe(s, Pair(current, root))
    ensures var r := WalkName(s, root, current, name);
            r.Ok? && r.value.Some? ==> Safe(s, Pair(r.value.value, root))
  {
    hide Indexed, Tabled, Settled, Confined;
    var r := WalkName(s, root, current, name);
    if r.Ok? && r.value.Some? && r.value != Some(current) {
      var id := r.value.value;
      ConfinedStep(s, current, root);
      ConfinedStep(s, id, root);
      assert Given(s, current);
      if name != DOT_DOT {
        assert EntryOk(s, current, name) && Given(s, id);
      }
    }
  }

  /** So does what a walk does under one lock. */
  lemma LockIsSafe(s: Store, walking: Walking, pair: Pair)
    requires Inv(s) && forall p :: p in WalkPairs(walking) ==> Safe(s, p)
    requires pair in WalkPairs(walking.(seen := walking.seen + [s]))
    ensures Safe(s, pair)
  {
    hide Inv, Safe;
    var root, walk := walking.binding.root, WalkOf(walking);
    assert (walking.seen + [s])[..|walking.seen|] == walking.seen;
    assert WalkOf(walking.(seen := walking.seen + [s])) == Locked(s, root, walk);
    match walk {
      case Looking(left, current, _) =>
        assert Pair(current, root) in WalkPairs(walking);
        if left != [] {
          WalkNameIsSafe(s, root, current, left[0]);
        }
      case Found(_, current, _, id) =>
        assert Pair(id, root) in WalkPairs(walking);
      case Over(_) =>
    }
  }

  lemma AttachIsSafe(s: Store, root: Id)
    requires Inv(s) && root in s.nodes
    ensures Safe(s, Pair(root, root))
  {
    assert Given(s, root);
    ConfinedStep(s, root, root);
  }

  lemma {:induction false} UnbindAllKeepsRest(s: Store, fids: Fids, order: seq<Fid>, fid: Fid)
    requires fid in UnbindAll(s, fids, order).1
    ensures fid in fids && UnbindAll(s, fids, order).1[fid] == fids[fid]
    decreases |order|
  {
    if order != [] {
      var (t, rest, _) := UnbindFid(s, fids, order[0]);
      UnbindAllKeepsRest(t, rest, order[1..], fid);
    }
  }

  /** After a step, a fid is bound as before, or as the step bound it. */
  lemma BindingsAfter(w: World, step: Step, sid: SessionId, fid: Fid)
    requires Bound(Next(w, step), sid, fid)
    ensures var binding := Next(w, step).sessions[sid][fid];
            || (Bound(w, sid, fid) && binding == w.sessions[sid][fid])
            || (step.Bind? && step.sid == sid && binding == step.binding)
  {
    hide StoreAfter, RetainFid, ReleaseFid;
    match step {
      case Drop(dropped, order) =>
        if dropped == sid && sid in w.sessions {
          UnbindAllKeepsRest(w.store, w.sessions[sid], order, fid);
        }
      case _ =>
    }
  }

  /** The pair of the node an owner makes for a create. */
  ghost predicate Makes(a: Access, act: Act, pair: Pair) {
    && act.MakeCreated? && act.sid in a.creates
    && MakeFor(a.world.store, a.creates[act.sid], act.qid).1 == Ok(pair.node)
    && pair.root == a.creates[act.sid].binding.root
  }

  lemma CreatesTrackedAfter(a: Access, act: Act, sid: SessionId, pair: Pair)
    requires sid in CreatesAfter(a, act) && pair in CreatePairs(CreatesAfter(a, act)[sid])
    ensures Tracks(a, pair) || Makes(a, act, pair)
  {
    hide MakeFor, PathRelativeTo, WalkPairs;
    if act.BeginCreate? && sid == act.sid && CreatesAfter(a, act) != a.creates {
      assert Bound(a.world, sid, act.fid) && pair == PairOf(a.world.sessions[sid][act.fid]);
    } else if sid in a.creates && pair in CreatePairs(a.creates[sid]) {
      assert Tracks(a, pair);
    } else {
      assert act.MakeCreated? && act.sid == sid;
    }
  }

  /** What is tracked after an act was tracked before, or is what the act itself brought. */
  lemma TrackedAfter(a: Access, act: Act, pair: Pair)
    requires Tracks(After(a, act), pair)
    ensures || Tracks(a, pair) || Makes(a, act, pair)
            || (StepOf(a, act).Some? && StepOf(a, act).value.Bind? && pair == PairOf(StepOf(a, act).value.binding))
            || (act.Lock? && act.sid in a.walks && pair in WalkPairs(WalksAfter(a, act)[act.sid]))
  {
    hide Next, StepOf, WalkPairs, CreatesAfter, CreatePairs, Makes;
    var b := After(a, act);
    if sid, fid :| Bound(b.world, sid, fid) && pair == PairOf(b.world.sessions[sid][fid]) {
      if StepOf(a, act).Some? {
        BindingsAfter(a.world, StepOf(a, act).value, sid, fid);
      }
      assert Bound(a.world, sid, fid) && pair == PairOf(a.world.sessions[sid][fid]) ==> Tracks(a, pair);
    } else if sid :| sid in b.walks && pair in WalkPairs(b.walks[sid]) {
      if act.BeginWalk? && sid == act.sid && Bound(a.world, sid, act.fid) {
        BegunPairs(b.walks[sid]);
        assert Bound(a.world, sid, act.fid) && pair == PairOf(a.world.sessions[sid][act.fid]);
      }
      assert sid in a.walks && pair in WalkPairs(a.walks[sid]) ==> Tracks(a, pair);
    } else {
      var sid :| sid in b.creates && pair in CreatePairs(b.creates[sid]);
      CreatesTrackedAfter(a, act, sid, pair);
    }
  }

  lemma BegunPairs(walking: Walking)
    requires walking.seen == []
    ensures WalkPairs(walking) == {PairOf(walking.binding)}
  {
  }

  /** A fid bound by attaching or by walking is within its attach root. */
  lemma BoundIsSafe(a: Access, act: Act)
    requires GoodWorld(a.world) && Contained(a) && !act.FinishCreate?
    requires StepOf(a, act).Some? && StepOf(a, act).value.Bind?
    ensures Safe(a.world.store, PairOf(StepOf(a, act).value.binding))
  {
    hide Confined, Linked, Acyclic, Tabled, Settled, CountsAgree;
    var s := a.world.store;
    match act {
      case Attach(sid, fid, uname, aname) => AttachIsSafe(s, AttachRoot(s, uname, aname).value);
      case FinishWalk(sid) =>
        var pair := Pair(WalkOf(a.walks[sid]).current, a.walks[sid].binding.root);
        assert pair in WalkPairs(a.walks[sid]);
        assert Tracks(a, pair);
    }
  }

  lemma LockedPairIsSafe(a: Access, sid: SessionId, pair: Pair)
    requires Inv(a.world.store) && Contained(a) && sid in a.walks
    requires pair in WalkPairs(a.walks[sid].(seen := a.walks[sid].seen + [a.world.store]))
    ensures Safe(a.world.store, pair)
  {
    hide Safe, Inv, WalkPairs;
    forall p | p in WalkPairs(a.walks[sid])
      ensures Safe(a.world.store, p)
    {
      assert Tracks(a, p);
    }
    LockIsSafe(a.world.store, a.walks[sid], pair);
  }

  /** A node made for a create is made within the attach root. */
  lemma MadeIsSafe(a: Access, act: Act, pair: Pair)
    requires GoodWorld(a.world) && Contained(a) && Makes(a, act, pair)
    ensures Safe(After(a, act).world.store, pair)
  {
    hide Inv, CountsAgree, Confined;
    var creating := a.creates[act.sid];
    var s, parent := a.world.store, PairOf(creating.binding);
    assert parent in CreatePairs(creating) && Tracks(a, parent);
    CreatedIsConfined(s, parent.node, creating.name, act.qid, creating.generation, creating.prefix, parent.root);
    CreateInherits(s, parent.node, creating.name, act.qid, creating.generation, creating.prefix);
  }

  /** No act but a push or the answer to a create lets anybody out. */
  lemma OtherActContains(a: Access, act: Act)
    requires GoodWorld(a.world) && Contained(a) && !(act.Other? && act.step.Push?) && !act.FinishCreate?
    ensures Contained(After(a, act))
  {
    hide Safe, Inv, Next, WalkPairs, CountsAgree, Inherits;
    var s, b := a.world.store, After(a, act);
    AfterKeepsWorld(a, act);
    if StepOf(a, act).Some? {
      NextInherits(a.world, StepOf(a, act).value);
    } else {
      InheritsSelf(s);
    }
    forall pair | Tracks(b, pair)
      ensures Safe(b.world.store, pair)
    {
      TrackedAfter(a, act, pair);
      if Makes(a, act, pair) {
        MadeIsSafe(a, act, pair);
      } else {
        if !Tracks(a, pair) {
          if act.Lock? {
            LockedPairIsSafe(a, act.sid, pair);
          } else {
            BoundIsSafe(a, act);
          }
        }
        SafeInherits(s, b.world.store, pair);
      }
    }
  }

  lemma InheritsGrows(s: Store, t: Store)
    requires Inherits(s, t)
    ensures s.nextId <= t.nextId
  {
  }

  lemma PushInGrows(s: Store, place: string, parent: Id, name: Name, kind: Kind, metadata: Metadata)
    ensures s.nextId <= PushIn(s, place, parent, name, kind, metadata).0.nextId
  {
    hide ApplyPushed, Attached, Inherits, PathRelativeTo;
    match Child(s.nodes, parent, name) {
      case Ok(id) =>
        ApplyPushedInherits(s, id, kind, metadata);
        InheritsGrows(s, ApplyPushed(s, id, kind, metadata).0);
      case Err(_) =>
        if parent in s.nodes && s.nodes[parent].body.Dir? {
          var (t, r) := Reattach(s, place, parent, name, metadata.qidPath, kind);
          assert t.nextId == s.nextId;
          if r.Ok? && r.value.Some? {
            ApplyPushedInherits(t, r.value.value, kind, metadata);
            InheritsGrows(t, ApplyPushed(t, r.value.value, kind, metadata).0);
          }
        }
    }
  }

  lemma PushGrows(s: Store, place: string, kind: Kind, metadata: Metadata)
    requires Inv(s)
    ensures s.nextId <= PlacePushed(s, place, kind, metadata).0.nextId
  {
    hide Inv, Inherits, EnsureDirs, PushIn;
    if SplitPath(place).Ok? {
      var names := SplitPath(place).value;
      var (t, r) := EnsureDirs(s, ROOT_ID, names[..|names| - 1]);
      EnsureDirsInherit(s, ROOT_ID, names[..|names| - 1]);
      InheritsGrows(s, t);
      if r.Ok? {
        PushInGrows(t, place, r.value, names[|names| - 1], kind, metadata);
      }
    }
  }

  lemma PushTracks(a: Access, place: string, kind: Kind, metadata: Metadata, pair: Pair)
    ensures Tracks(After(a, Other(Push(place, kind, metadata))), pair) <==> Tracks(a, pair)
  {
    hide StoreAfter, WalkPairs;
  }

  /** A push lets somebody out exactly when it brings a node back across an attach root. */
  lemma PushContainsIff(a: Access, place: string, kind: Kind, metadata: Metadata)
    requires GoodWorld(a.world) && Contained(a)
    ensures Contained(After(a, Other(Push(place, kind, metadata)))) <==> Spares(a, Other(Push(place, kind, metadata)))
  {
    hide Inv, PlacePushed, Confined, LetsOut, Tracks;
    var s, act := a.world.store, Other(Push(place, kind, metadata));
    var b := After(a, act);
    assert b.world.store == PlacePushed(s, place, kind, metadata).0;
    PushGrows(s, place, kind, metadata);
    forall pair: Pair
      ensures Tracks(b, pair) <==> Tracks(a, pair)
      ensures Tracks(a, pair) ==>
                (Safe(b.world.store, pair) <==> !LetsOut(s, place, kind, metadata, pair.node, pair.root))
    {
      PushTracks(a, place, kind, metadata, pair);
      if Tracks(a, pair) {
        PushConfinesIff(s, place, kind, metadata, pair.node, pair.root);
      }
    }
  }

  /** What binding a created node does to the store. */
  lemma BindsFid(w: World, sid: SessionId, fid: Fid, binding: Binding)
    requires GoodWorld(w) && sid in w.sessions && binding.node in w.store.nodes
    ensures var v := Next(w, Bind(sid, fid, binding));
            && v.store.nodes == (if !Bound(w, sid, fid) then w.store.nodes
                                 else Rebound(w.store, w.sessions[sid][fid].node, binding.node).nodes)
            && Bound(v, sid, fid) && v.sessions[sid][fid] == binding
  {
    hide Inv;
  }

  /** A node that is out is let in again by the release of a fid exactly when that cuts its line. */
  lemma BoundIsSafeIff(w: World, sid: SessionId, fid: Fid, binding: Binding)
    requires GoodWorld(w) && sid in w.sessions && binding.node in w.store.nodes && binding.root < w.store.nextId
    ensures Safe(Next(w, Bind(sid, fid, binding)).store, PairOf(binding)) <==>
              Confined(w.store, binding.node, binding.root) || CutsFor(w, sid, fid, binding.node)
  {
    hide Confined, Line, Settled, Indexed, Tabled, Next, CountsAgree, Inherits, Rebound, Cuts;
    var s, t := w.store, Next(w, Bind(sid, fid, binding)).store;
    NextKeepsWorld(w, Bind(sid, fid, binding));
    NextInherits(w, Bind(sid, fid, binding));
    BindsFid(w, sid, fid, binding);
    InheritsGrows(s, t);
    assert Given(s, binding.node);
    var rank: map<Id, nat> :| Ranked(t, rank);
    if Confined(s, binding.node, binding.root) {
      InheritsConfines(s, t, rank, binding.node, binding.root);
    } else {
      ConfinedAgainIff(s, t, rank, binding.node, binding.root);
      var before: map<Id, nat> :| Ranked(s, before);
      OutLineIsThere(s, before, binding.node, binding.root);
      if Bound(w, sid, fid) {
        BoundNodeIsCounted(w, sid, fid);
        CutsIff(s, w.sessions[sid][fid].node, binding.node);
      }
    }
  }

  lemma AnswerIsIssued(a: Access, sid: SessionId, qidPath: nat)
    requires GoodWorld(a.world) && Contained(a) && Binds(a, sid, qidPath)
    ensures var s, creating := a.world.store, a.creates[sid];
            && s.qidIndex[qidPath] in s.nodes && creating.binding.root < s.nextId
            && Tracks(a, Pair(creating.made[qidPath], creating.binding.root))
  {
    hide Linked, Acyclic, Tabled, Settled, CountsAgree, Confined;
    var creating := a.creates[sid];
    IndexInverts(a.world.store);
    assert Pair(creating.made[qidPath], creating.binding.root) in CreatePairs(creating);
    assert Tracks(a, Pair(creating.made[qidPath], creating.binding.root));
  }

  /** The answer to a create lets the fid out exactly when its qid path belongs to another node by then,
      outside the attach root. */
  lemma AnswerContainsIff(a: Access, sid: SessionId, qidPath: nat)
    requires GoodWorld(a.world) && Contained(a) && Binds(a, sid, qidPath)
    ensures Contained(After(a, FinishCreate(sid, qidPath))) <==> !Misnamed(a, sid, qidPath)
  {
    hide Inv, Next, WalkPairs, CreatePairs, CountsAgree, Inherits, Confined, CutsFor, Makes;
    var s, act := a.world.store, FinishCreate(sid, qidPath);
    var b, step := After(a, act), StepOf(a, act).value;
    var added := PairOf(step.binding);
    AfterKeepsWorld(a, act);
    NextInherits(a.world, step);
    AnswerIsIssued(a, sid, qidPath);
    BindsFid(a.world, sid, step.fid, step.binding);
    BoundIsSafeIff(a.world, sid, step.fid, step.binding);
    assert Tracks(b, added);
    forall pair | Tracks(b, pair) && pair != added
      ensures Safe(b.world.store, pair)
    {
      TrackedAfter(a, act, pair);
      assert !Makes(a, act, pair) by {
        NothingMade(a, act, pair);
      }
      SafeInherits(s, b.world.store, pair);
    }
  }

  lemma NothingMade(a: Access, act: Act, pair: Pair)
    requires !act.MakeCreated?
    ensures !Makes(a, act, pair)
  {
  }

  lemma IdleAnswerContains(a: Access, sid: SessionId, qidPath: nat)
    requires Contained(a) && !Binds(a, sid, qidPath)
    ensures Contained(After(a, FinishCreate(sid, qidPath)))
  {
    hide Safe, WalkPairs, CreatePairs;
    var b := After(a, FinishCreate(sid, qidPath));
    forall pair | Tracks(b, pair)
      ensures Tracks(a, pair)
    {
      if other :| other in b.creates && pair in CreatePairs(b.creates[other]) {
        assert other in a.creates && pair in CreatePairs(a.creates[other]);
      }
    }
  }

  /** Containment is kept by every act but for the exact cases `Spares` names. */
  lemma ActContainsIff(a: Access, act: Act)
    requires GoodWorld(a.world) && Contained(a)
    ensures Contained(After(a, act)) <==> Spares(a, act)
  {
    hide Contained, GoodWorld, After, Binds;
    if act.Other? && act.step.Push? {
      PushContainsIff(a, act.step.path, act.step.kind, act.step.metadata);
    } else if act.FinishCreate? {
      if Binds(a, act.sid, act.qidPath) {
        AnswerContainsIff(a, act.sid, act.qidPath);
      } else {
        IdleAnswerContains(a, act.sid, act.qidPath);
      }
    } else {
      OtherActContains(a, act);
    }
  }

  /** The acts are those of `attach` and of the end of `walk`. */
  lemma ActsAreCalls(a: Access, sid: SessionId, fid: Fid, uname: string, aname: string)
    requires sid in a.world.sessions
    ensures var w := After(a, Attach(sid, fid, uname, aname)).world;
            var (t, fids, _) := AttachFid(a.world.store, a.world.sessions[sid], fid, uname, aname);
            w == World(t, a.world.sessions[sid := fids])
    ensures sid in a.walks ==>
              var w := After(a, FinishWalk(sid)).world;
              var (t, fids, _) := EndWalk(a.world.store, a.world.sessions[sid], a.walks[sid]);
              w == World(t, a.world.sessions[sid := fids])
  {
    hide BindFid, WalkOf;
    assert a.world.sessions[sid := a.world.sessions[sid]] == a.world.sessions;
  }

  // ----- Whole runs -----

  ghost predicate AllSpare(acts: seq<Act>) {
    forall i :: 0 <= i < |acts| ==> Spares(Acted(Begin(), acts[..i]), acts[i])
  }

  lemma {:induction false} RunKeepsGoodWorld(acts: seq<Act>)
    ensures GoodWorld(Acted(Begin(), acts).world)
  {
    if acts == [] {
      StartIsGood();
    } else {
      RunKeepsGoodWorld(acts[..|acts| - 1]);
      AfterKeepsWorld(Acted(Begin(), acts[..|acts| - 1]), acts[|acts| - 1]);
    }
  }

  /** Over every run without such a push or answer, every fid, every walk and every node made for a client
      stays within its attach root. */
  lemma {:induction false} RunContains(acts: seq<Act>)
    requires AllSpare(acts)
    ensures Contained(Acted(Begin(), acts))
  {
    hide Contained, GoodWorld, After, Spares, Begin;
    if acts == [] {
      BeginIsContained();
    } else {
      var front := acts[..|acts| - 1];
      assert forall i :: 0 <= i < |front| ==> front[..i] == acts[..i];
      assert AllSpare(front);
      RunContains(front);
      RunKeepsGoodWorld(front);
      ActContainsIff(Acted(Begin(), front), acts[|acts| - 1]);
    }
  }

  lemma BeginIsContained()
    ensures Contained(Begin())
  {
  }

  /** What it means for a client: a fid is on the root of the namespace only if that is its attach
      root, and a fid on a node that can be reached is under its attach root. */
  lemma BoundFidsStayUnder(acts: seq<Act>, sid: SessionId, fid: Fid)
    requires AllSpare(acts) && Bound(Acted(Begin(), acts).world, sid, fid)
    ensures var w := Acted(Begin(), acts).world;
            var binding := w.sessions[sid][fid];
            && (binding.node == ROOT_ID ==> binding.root == ROOT_ID)
            && (Attached(w.store, binding.node) ==> Under(w.store, binding.node, binding.root))
  {
    hide Acted, AllSpare;
    var a := Acted(Begin(), acts);
    var binding := a.world.sessions[sid][fid];
    RunContains(acts);
    RunKeepsGoodWorld(acts);
    assert Tracks(a, PairOf(binding));
    ConfinedIsNotRoot(a.world.store, binding.root);
    if Attached(a.world.store, binding.node) {
      ConfinedIsUnder(a.world.store, binding.node, binding.root);
    }
  }
}
