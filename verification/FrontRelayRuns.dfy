/** The relay tables under every interleaving of sessions and owners. */
module FrontRelayRuns {
  import opened Prelude
  import opened Paths
  import opened FrontRelay

  type Fid = nat

  datatype Kind = FileRequest | DirectoryRequest

  datatype Listing = Listing(node: nat, inflight: Option<RequestId>)

  /** The requests a session's fids are waiting for. */
  datatype Session = Session(rpc: map<Fid, RequestId>, snapshots: map<Fid, RequestId>, listings: map<Fid, Listing>)

  /** `issued` remembers, for every slot ever made, which kind of read it was made for. */
  datatype World = World(relay: Relay, issued: map<RequestId, Kind>, sessions: map<nat, Session>)

  /** What `read_target_at` hands to the reader: a slot to wait on, and how to read it. */
  datatype Target = NoTarget | FileTarget(id: RequestId) | DirectoryTarget(id: RequestId)

  datatype Step =
    | Open(sid: nat)
    | ReadRpc(sid: nat, fid: Fid, buffer: Option<(string, seq<byte>)>)
    | ReadRelay(prefix: string)
    | ReadSnapshot(sid: nat, fid: Fid, prefix: string)
    | ReadDirectory(sid: nat, fid: Fid, node: nat, prefix: string)
    | RestartRpc(sid: nat, fid: Fid)
    | AskElsewhere(queued: bool, prefix: string, bytes: seq<byte>)
    | OwnerPops(prefix: string)
    | OwnerCompletes(prefix: string, id: RequestId, bytes: seq<byte>, intakes: set<string>)
    | OwnerCompletesDirectory(prefix: string, id: RequestId, names: seq<Name>, eof: bool)
    | OwnerRejects(prefix: string, id: RequestId, message: string)
    | GiveUp(id: RequestId)
    | ApplyDirectory(sid: nat, fid: Fid, node: nat, id: RequestId)
    | Clunk(sid: nat, fid: Fid)

  /** A fresh slot, for a file or a directory read. */
  function Asked(w: World, kind: Kind, prefix: string, bytes: seq<byte>): World {
    w.(relay := Submit(w.relay, kind.DirectoryRequest?, prefix, bytes), issued := w.issued[w.relay.next := kind])
  }

  function WithSession(w: World, sid: nat, session: Session): World {
    w.(sessions := w.sessions[sid := session])
  }

  function Withdrawn(w: World, id: RequestId): World {
    w.(relay := Withdraw(w.relay, id))
  }

  /** The request is read again while its slot exists, and asked anew otherwise. */
  function SnapshotAnswerable(w: World, session: Session, fid: Fid): bool {
    fid in session.snapshots && session.snapshots[fid] in w.relay.responses
  }

  function ListingOf(session: Session, fid: Fid, node: nat): Listing {
    if fid in session.listings && session.listings[fid].node == node then session.listings[fid] else Listing(node, None)
  }

  function Next(w: World, step: Step): (World, Target) {
    match step
    case Open(sid) =>
      (if sid in w.sessions then w else WithSession(w, sid, Session(map[], map[], map[])), NoTarget)
    case ReadRpc(sid, fid, buffer) =>
      if sid !in w.sessions then (w, NoTarget)
      else if fid in w.sessions[sid].rpc then (w, FileTarget(w.sessions[sid].rpc[fid]))
      else if buffer.None? then (w, NoTarget)
      else
        var session := w.sessions[sid];
        (WithSession(Asked(w, FileRequest, buffer.value.0, buffer.value.1), sid,
                     session.(rpc := session.rpc[fid := w.relay.next])), FileTarget(w.relay.next))
    case ReadRelay(prefix) => (Asked(w, FileRequest, prefix, []), FileTarget(w.relay.next))
    case ReadSnapshot(sid, fid, prefix) =>
      if sid !in w.sessions then (w, NoTarget)
      else
        var session := w.sessions[sid];
        if SnapshotAnswerable(w, session, fid) then (w, FileTarget(session.snapshots[fid]))
        else (WithSession(Asked(w, FileRequest, prefix, []), sid,
                          session.(snapshots := session.snapshots[fid := w.relay.next])), FileTarget(w.relay.next))
    case ReadDirectory(sid, fid, node, prefix) =>
      if sid !in w.sessions then (w, NoTarget)
      else
        var session := w.sessions[sid];
        var listing := ListingOf(session, fid, node);
        if listing.inflight.Some? then
          (WithSession(w, sid, session.(listings := session.listings[fid := listing])),
           DirectoryTarget(listing.inflight.value))
        else
          (WithSession(Asked(w, DirectoryRequest, prefix, []), sid,
                       session.(listings := session.listings[fid := Listing(node, Some(w.relay.next))])),
           DirectoryTarget(w.relay.next))
    case RestartRpc(sid, fid) =>
      if sid !in w.sessions || fid !in w.sessions[sid].rpc then (w, NoTarget)
      else
        var session := w.sessions[sid];
        (Withdrawn(WithSession(w, sid, session.(rpc := session.rpc - {fid})), session.rpc[fid]), NoTarget)
    case AskElsewhere(queued, prefix, bytes) => (w.(relay := SubmitElsewhere(w.relay, queued, prefix, bytes)), NoTarget)
    case OwnerPops(prefix) => (w.(relay := Pop(w.relay, prefix).0), NoTarget)
    case OwnerCompletes(prefix, id, bytes, intakes) =>
      (w.(relay := Complete(w.relay, prefix, id, bytes, intakes).0), NoTarget)
    case OwnerCompletesDirectory(prefix, id, names, eof) =>
      (w.(relay := CompleteDirectory(w.relay, prefix, id, names, eof).0), NoTarget)
    case OwnerRejects(prefix, id, message) => (w.(relay := Reject(w.relay, prefix, id, message).0), NoTarget)
    case GiveUp(id) => (Withdrawn(w, id), NoTarget)
    case ApplyDirectory(sid, fid, node, id) =>
      if sid !in w.sessions || fid !in w.sessions[sid].listings then (w, NoTarget)
      else
        var session := w.sessions[sid];
        var listing := session.listings[fid];
        if listing.node != node || listing.inflight != Some(id) then (Withdrawn(w, id), NoTarget)
        else
          (Withdrawn(WithSession(w, sid, session.(listings := session.listings[fid := Listing(node, None)])), id),
           NoTarget)
    case Clunk(sid, fid) => (if sid in w.sessions then Clunked(w, sid, fid) else w, NoTarget)
  }

  /** A clunk withdraws the listing's request and the rpc's, or else the snapshot's. */
  function Clunked(w: World, sid: nat, fid: Fid): World
    requires sid in w.sessions
  {
    var session := w.sessions[sid];
    var v :=
      if fid in session.listings && session.listings[fid].inflight.Some?
      then Withdrawn(w, session.listings[fid].inflight.value) else w;
    var rest := session.(listings := session.listings - {fid});
    if fid in session.rpc then
      Withdrawn(WithSession(v, sid, rest.(rpc := rest.rpc - {fid})), session.rpc[fid])
    else if fid in session.snapshots then
      Withdrawn(WithSession(v, sid, rest.(snapshots := rest.snapshots - {fid})), session.snapshots[fid])
    else WithSession(v, sid, rest)
  }

  function Run(steps: seq<Step>): World {
    if steps == [] then World(NewRelay(), map[], map[])
    else Next(Run(steps[..|steps| - 1]), steps[|steps| - 1]).0
  }

  // ----- Consistency -----

  predicate SlotOk(w: World, id: RequestId)
    requires id in w.relay.responses
  {
    && id in w.issued && id < w.relay.next
    && (id in w.relay.directories <==> w.issued[id].DirectoryRequest?)
    && (w.relay.responses[id].Some? ==>
          match w.relay.responses[id].value
          case Accepted(_) => w.issued[id].FileRequest?
          case DirectoryAccepted(_, _) => w.issued[id].DirectoryRequest?
          case Rejected(_) => true)
  }

  predicate TablesAgree(w: World) {
    && w.relay.responses.Keys == w.relay.prefixes.Keys
    && w.relay.directories <= w.relay.responses.Keys
    && (forall id :: id in w.relay.responses ==> SlotOk(w, id))
    && (forall id :: id in w.issued ==> id < w.relay.next)
    && (forall i :: 0 <= i < |w.relay.pending| ==> w.relay.pending[i].id < w.relay.next)
  }

  predicate IssuedAs(w: World, id: RequestId, kind: Kind) {
    id in w.issued && w.issued[id] == kind
  }

  predicate SessionOk(w: World, session: Session) {
    && (forall fid :: fid in session.rpc ==> IssuedAs(w, session.rpc[fid], FileRequest))
    && (forall fid :: fid in session.snapshots ==> IssuedAs(w, session.snapshots[fid], FileRequest))
    && (forall fid :: fid in session.listings && session.listings[fid].inflight.Some? ==>
          IssuedAs(w, session.listings[fid].inflight.value, DirectoryRequest))
  }

  predicate SessionsAgree(w: World) {
    forall sid :: sid in w.sessions ==> SessionOk(w, w.sessions[sid])
  }

  predicate GoodWorld(w: World) {
    TablesAgree(w) && SessionsAgree(w)
  }

  lemma {:induction false} WithoutShrinks(pending: seq<Request>, id: RequestId, next: RequestId)
    requires forall i :: 0 <= i < |pending| ==> pending[i].id < next
    ensures forall i :: 0 <= i < |Without(pending, id)| ==>
              Without(pending, id)[i].id < next && Without(pending, id)[i].id != id
  {
    if pending != [] {
      WithoutShrinks(pending[1..], id, next);
    }
  }

  lemma WithdrawKeeps(w: World, id: RequestId)
    requires GoodWorld(w)
    ensures GoodWorld(Withdrawn(w, id))
  {
    var v := Withdrawn(w, id);
    WithoutShrinks(w.relay.pending, id, w.relay.next);
    forall k | k in v.relay.responses
      ensures SlotOk(v, k)
    {
      assert SlotOk(w, k);
    }
    SameIssuedSameSessions(w, v);
  }

  /** Session books only depend on what has been issued. */
  lemma SameIssuedSameSessions(w: World, v: World)
    requires SessionsAgree(w) && v.sessions == w.sessions
    requires forall id :: id in w.issued ==> id in v.issued && v.issued[id] == w.issued[id]
    ensures SessionsAgree(v)
  {
    forall sid | sid in v.sessions
      ensures SessionOk(v, v.sessions[sid])
    {
      assert SessionOk(w, w.sessions[sid]);
    }
  }

  lemma AskKeeps(w: World, kind: Kind, prefix: string, bytes: seq<byte>)
    requires GoodWorld(w)
    ensures GoodWorld(Asked(w, kind, prefix, bytes)) && IssuedAs(Asked(w, kind, prefix, bytes), w.relay.next, kind)
  {
    var v := Asked(w, kind, prefix, bytes);
    forall id | id in v.relay.responses
      ensures SlotOk(v, id)
    {
      if id != w.relay.next {
        assert SlotOk(w, id);
      }
    }
    SameIssuedSameSessions(w, v);
  }

  lemma SetSessionKeeps(w: World, sid: nat, session: Session)
    requires GoodWorld(w) && SessionOk(w, session)
    ensures GoodWorld(WithSession(w, sid, session))
  {
    var v := WithSession(w, sid, session);
    forall id | id in v.relay.responses
      ensures SlotOk(v, id)
    {
      assert SlotOk(w, id);
    }
    forall s | s in v.sessions
      ensures SessionOk(v, v.sessions[s])
    {
      assert s != sid ==> SessionOk(w, w.sessions[s]);
      assert SessionOk(w, session);
    }
  }

  lemma FillKeeps(w: World, id: RequestId, reply: Reply)
    requires GoodWorld(w) && id in w.relay.responses
    requires reply.Accepted? ==> id !in w.relay.directories
    requires reply.DirectoryAccepted? ==> id in w.relay.directories
    ensures GoodWorld(w.(relay := Fill(w.relay, id, reply)))
  {
    var v := w.(relay := Fill(w.relay, id, reply));
    forall k | k in v.relay.responses
      ensures SlotOk(v, k)
    {
      assert SlotOk(w, k);
    }
    SameIssuedSameSessions(w, v);
  }

  lemma QueueKeeps(w: World, pending: seq<Request>, next: RequestId)
    requires GoodWorld(w) && w.relay.next <= next
    requires forall i :: 0 <= i < |pending| ==> pending[i].id < next
    ensures GoodWorld(w.(relay := w.relay.(pending := pending, next := next)))
  {
    var v := w.(relay := w.relay.(pending := pending, next := next));
    forall k | k in v.relay.responses
      ensures SlotOk(v, k)
    {
      assert SlotOk(w, k);
    }
    SameIssuedSameSessions(w, v);
  }

  lemma OwnerKeeps(w: World, step: Step)
    requires GoodWorld(w)
    requires step.OwnerCompletes? || step.OwnerCompletesDirectory? || step.OwnerRejects?
    ensures GoodWorld(Next(w, step).0)
  {
    var v := Next(w, step).0;
    if v != w {
      match step {
        case OwnerCompletes(_, id, bytes, _) => FillKeeps(w, id, Accepted(bytes));
        case OwnerCompletesDirectory(_, id, names, eof) => FillKeeps(w, id, DirectoryAccepted(names, eof));
        case OwnerRejects(_, id, message) => FillKeeps(w, id, Rejected(message));
      }
    }
  }

  /** A session's new books after asking for `id` on `fid`. */
  lemma AskForSession(w: World, sid: nat, session: Session, kind: Kind, prefix: string, bytes: seq<byte>, next: Session)
    requires GoodWorld(w) && sid in w.sessions && w.sessions[sid] == session
    requires SessionOk(Asked(w, kind, prefix, bytes), next)
    ensures GoodWorld(WithSession(Asked(w, kind, prefix, bytes), sid, next))
  {
    AskKeeps(w, kind, prefix, bytes);
    SetSessionKeeps(Asked(w, kind, prefix, bytes), sid, next);
  }

  lemma ReadKeeps(w: World, step: Step)
    requires GoodWorld(w)
    requires step.ReadRpc? || step.ReadRelay? || step.ReadSnapshot? || step.ReadDirectory?
    ensures var (v, target) := Next(w, step);
            && GoodWorld(v)
            && (target.FileTarget? ==> IssuedAs(v, target.id, FileRequest))
            && (target.DirectoryTarget? ==> IssuedAs(v, target.id, DirectoryRequest))
  {
    match step {
      case ReadRelay(prefix) => AskKeeps(w, FileRequest, prefix, []);
      case ReadRpc(sid, fid, buffer) =>
        if sid in w.sessions {
          assert SessionOk(w, w.sessions[sid]);
          if fid !in w.sessions[sid].rpc && buffer.Some? {
            AskKeeps(w, FileRequest, buffer.value.0, buffer.value.1);
            AskForSession(w, sid, w.sessions[sid], FileRequest, buffer.value.0, buffer.value.1,
                          w.sessions[sid].(rpc := w.sessions[sid].rpc[fid := w.relay.next]));
          }
        }
      case ReadSnapshot(sid, fid, prefix) =>
        if sid in w.sessions {
          assert SessionOk(w, w.sessions[sid]);
          if !SnapshotAnswerable(w, w.sessions[sid], fid) {
            AskKeeps(w, FileRequest, prefix, []);
            AskForSession(w, sid, w.sessions[sid], FileRequest, prefix, [],
                          w.sessions[sid].(snapshots := w.sessions[sid].snapshots[fid := w.relay.next]));
          }
        }
      case ReadDirectory(sid, fid, node, prefix) =>
        if sid in w.sessions {
          var session := w.sessions[sid];
          assert SessionOk(w, session);
          var listing := ListingOf(session, fid, node);
          if listing.inflight.Some? {
            SetSessionKeeps(w, sid, session.(listings := session.listings[fid := listing]));
          } else {
            AskKeeps(w, DirectoryRequest, prefix, []);
            AskForSession(w, sid, session, DirectoryRequest, prefix, [],
                          session.(listings := session.listings[fid := Listing(node, Some(w.relay.next))]));
          }
        }
    }
  }

  lemma ClunkKeeps(w: World, sid: nat, fid: Fid)
    requires GoodWorld(w) && sid in w.sessions
    ensures GoodWorld(Clunked(w, sid, fid))
  {
    var session := w.sessions[sid];
    assert SessionOk(w, session);
    var v :=
      if fid in session.listings && session.listings[fid].inflight.Some?
      then Withdrawn(w, session.listings[fid].inflight.value) else w;
    if v != w {
      WithdrawKeeps(w, session.listings[fid].inflight.value);
    }
    var rest := session.(listings := session.listings - {fid});
    var next :=
      if fid in session.rpc then rest.(rpc := rest.rpc - {fid})
      else if fid in session.snapshots then rest.(snapshots := rest.snapshots - {fid})
      else rest;
    SetSessionKeeps(v, sid, next);
    if fid in session.rpc {
      WithdrawKeeps(WithSession(v, sid, next), session.rpc[fid]);
    } else if fid in session.snapshots {
      WithdrawKeeps(WithSession(v, sid, next), session.snapshots[fid]);
    }
  }

  lemma SessionStepKeeps(w: World, step: Step)
    requires GoodWorld(w)
    requires step.Open? || step.RestartRpc? || step.ApplyDirectory? || step.Clunk?
    ensures GoodWorld(Next(w, step).0)
  {
    match step {
      case Open(sid) => SetSessionKeeps(w, sid, Session(map[], map[], map[]));
      case RestartRpc(sid, fid) =>
        if sid in w.sessions && fid in w.sessions[sid].rpc {
          var session := w.sessions[sid];
          assert SessionOk(w, session);
          SetSessionKeeps(w, sid, session.(rpc := session.rpc - {fid}));
          WithdrawKeeps(WithSession(w, sid, session.(rpc := session.rpc - {fid})), session.rpc[fid]);
        }
      case ApplyDirectory(sid, fid, node, id) =>
        if sid in w.sessions && fid in w.sessions[sid].listings {
          var session := w.sessions[sid];
          assert SessionOk(w, session);
          var next := session.(listings := session.listings[fid := Listing(node, None)]);
          SetSessionKeeps(w, sid, next);
          WithdrawKeeps(WithSession(w, sid, next), id);
          WithdrawKeeps(w, id);
        }
      case Clunk(sid, fid) =>
        if sid in w.sessions {
          ClunkKeeps(w, sid, fid);
        }
    }
  }

  lemma NextKeeps(w: World, step: Step)
    requires GoodWorld(w)
    ensures GoodWorld(Next(w, step).0)
  {
    match step {
      case ReadRpc(_, _, _) => ReadKeeps(w, step);
      case ReadRelay(_) => ReadKeeps(w, step);
      case ReadSnapshot(_, _, _) => ReadKeeps(w, step);
      case ReadDirectory(_, _, _, _) => ReadKeeps(w, step);
      case AskElsewhere(queued, prefix, bytes) =>
        var r := SubmitElsewhere(w.relay, queued, prefix, bytes);
        QueueKeeps(w, r.pending, r.next);
      case OwnerPops(prefix) => QueueKeeps(w, Pop(w.relay, prefix).0.pending, w.relay.next);
      case OwnerCompletes(_, _, _, _) => OwnerKeeps(w, step);
      case OwnerCompletesDirectory(_, _, _, _) => OwnerKeeps(w, step);
      case OwnerRejects(_, _, _) => OwnerKeeps(w, step);
      case GiveUp(id) => WithdrawKeeps(w, id);
      case _ => SessionStepKeeps(w, step);
    }
  }

  /** Over every run the tables have equal keys, directory marks are exactly the directory requests
      among them, and ids are never ahead of the counter. */
  lemma {:induction false} RunKeepsTables(steps: seq<Step>)
    ensures GoodWorld(Run(steps))
  {
    if steps != [] {
      RunKeepsTables(steps[..|steps| - 1]);
      NextKeeps(Run(steps[..|steps| - 1]), steps[|steps| - 1]);
    }
  }

  // ----- No reader ever meets a reply of the wrong kind -----

  /** The slot holds a reply of the other kind, which `read_rpc` and `directory_response` report as
      "directory response used as a file response" and the reverse. */
  predicate WrongKind(relay: Relay, target: Target) {
    && target != NoTarget && target.id in relay.responses && relay.responses[target.id].Some?
    && (if target.FileTarget? then relay.responses[target.id].value.DirectoryAccepted?
        else relay.responses[target.id].value.Accepted?)
  }

  /** Whatever slot a read was sent to, and whatever happens before it looks, it never finds a reply
      of the other kind there. */
  lemma WrongKindIsUnreachable(steps: seq<Step>, more: seq<Step>)
    requires steps != []
    ensures !WrongKind(Run(steps + more).relay, Next(Run(steps[..|steps| - 1]), steps[|steps| - 1]).1)
  {
    var before, step := Run(steps[..|steps| - 1]), steps[|steps| - 1];
    var target := Next(before, step).1;
    var w := Run(steps + more);
    RunKeepsTables(steps[..|steps| - 1]);
    RunKeepsTables(steps + more);
    if target != NoTarget {
      ReadKeeps(before, step);
      IssuedForever(steps, more, target.id);
      assert target.id in w.relay.responses ==> SlotOk(w, target.id);
    }
  }

  lemma IssuedStays(w: World, step: Step, id: RequestId)
    requires GoodWorld(w) && id in w.issued
    ensures var v := Next(w, step).0; id in v.issued && v.issued[id] == w.issued[id] && w.relay.next <= v.relay.next
  {
  }

  lemma RunStep(steps: seq<Step>, more: seq<Step>)
    requires more != []
    ensures Run(steps + more) == Next(Run(steps + more[..|more| - 1]), more[|more| - 1]).0
  {
    assert (steps + more)[..|steps + more| - 1] == steps + more[..|more| - 1];
  }

  lemma {:induction false} IssuedForever(steps: seq<Step>, more: seq<Step>, id: RequestId)
    requires id in Run(steps).issued
    ensures id in Run(steps + more).issued && Run(steps + more).issued[id] == Run(steps).issued[id]
    decreases |more|
  {
    if more == [] {
      assert steps + more == steps;
    } else {
      var front := more[..|more| - 1];
      IssuedForever(steps, front, id);
      RunStep(steps, more);
      RunKeepsTables(steps + front);
      IssuedStays(Run(steps + front), more[|more| - 1], id);
    }
  }

  // ----- A slot is filled at most once -----

  /** A slot that held a reply still holds that reply, or is gone; a slot that was gone stays gone. */
  predicate SlotEvolves(w: World, v: World, id: RequestId) {
    && (id in w.relay.responses && w.relay.responses[id].Some? && id in v.relay.responses ==>
          v.relay.responses[id] == w.relay.responses[id])
    && (id !in w.relay.responses && id < w.relay.next ==> id !in v.relay.responses)
    && w.relay.next <= v.relay.next
  }

  lemma StepEvolves(w: World, step: Step, id: RequestId)
    requires GoodWorld(w)
    ensures SlotEvolves(w, Next(w, step).0, id)
  {
    if step.OwnerCompletes? || step.OwnerCompletesDirectory? || step.OwnerRejects? {
      OwnerStepEvolves(w, step, id);
    } else if step.Clunk? {
      ClunkEvolves(w, step.sid, step.fid, id);
    } else {
      SessionStepEvolves(w, step, id);
    }
  }

  lemma OwnerStepEvolves(w: World, step: Step, id: RequestId)
    requires step.OwnerCompletes? || step.OwnerCompletesDirectory? || step.OwnerRejects?
    ensures SlotEvolves(w, Next(w, step).0, id)
  {
    hide Normalised, ValidChild, Trim;
  }

  lemma ClunkEvolves(w: World, sid: nat, fid: Fid, id: RequestId)
    ensures SlotEvolves(w, Next(w, Clunk(sid, fid)).0, id)
  {
    hide Without;
  }

  lemma SessionStepEvolves(w: World, step: Step, id: RequestId)
    requires GoodWorld(w) && !step.Clunk?
    requires !step.OwnerCompletes? && !step.OwnerCompletesDirectory? && !step.OwnerRejects?
    ensures SlotEvolves(w, Next(w, step).0, id)
  {
    hide Without;
  }

  /** A filled reply slot never changes, over any continuation of any run. */
  lemma {:induction false} FilledSlotNeverChanges(steps: seq<Step>, more: seq<Step>, id: RequestId)
    ensures SlotEvolves(Run(steps), Run(steps + more), id)
    decreases |more|
  {
    if more == [] {
      assert steps + more == steps;
    } else {
      var front := more[..|more| - 1];
      FilledSlotNeverChanges(steps, front, id);
      RunStep(steps, more);
      RunKeepsTables(steps + front);
      RunKeepsTables(steps);
      StepEvolves(Run(steps + front), more[|more| - 1], id);
      if id in Run(steps).relay.responses {
        assert SlotOk(Run(steps), id);
      }
    }
  }

  /** The step answers the request: its slot was empty and is filled now. */
  predicate Answers(steps: seq<Step>, i: nat, id: RequestId)
    requires i < |steps|
  {
    && id in Run(steps[..i]).relay.responses && Run(steps[..i]).relay.responses[id].None?
    && id in Run(steps[..i + 1]).relay.responses && Run(steps[..i + 1]).relay.responses[id].Some?
  }

  /** In every run each request is answered at most once. */
  lemma AnsweredAtMostOnce(steps: seq<Step>, i: nat, j: nat, id: RequestId)
    requires i < j < |steps| && Answers(steps, i, id)
    ensures !Answers(steps, j, id)
  {
    var more := steps[i + 1..j];
    assert steps[..i + 1] + more == steps[..j];
    FilledSlotNeverChanges(steps[..i + 1], more, id);
  }

  /** A reply the owner gives reaches the reader as it was given, however long the reader waits, unless
      the request is withdrawn first. */
  lemma CompletionReachesReader(steps: seq<Step>, more: seq<Step>, prefix: string, id: RequestId, bytes: seq<byte>,
                                intakes: set<string>, offset: nat, count: nat)
    requires id in Run(steps).relay.responses && Complete(Run(steps).relay, prefix, id, bytes, intakes).1.Ok?
    requires var later := Run(steps + [OwnerCompletes(prefix, id, bytes, intakes)] + more).relay;
             id in later.responses
    ensures var later := Run(steps + [OwnerCompletes(prefix, id, bytes, intakes)] + more).relay;
            var start := Min(offset, |bytes|);
            LookFile(later, id, offset, count) == Done(Ok(bytes[start..Min(start + count, |bytes|)]))
  {
    var now := steps + [OwnerCompletes(prefix, id, bytes, intakes)];
    assert now[..|now| - 1] == steps;
    FilledSlotNeverChanges(now, more, id);
  }

  lemma ListingReachesReader(steps: seq<Step>, more: seq<Step>, prefix: string, id: RequestId,
                             names: seq<Name>, eof: bool)
    requires CompleteDirectory(Run(steps).relay, prefix, id, names, eof).1.Ok?
    requires var later := Run(steps + [OwnerCompletesDirectory(prefix, id, names, eof)] + more).relay;
             id in later.responses
    ensures var later := Run(steps + [OwnerCompletesDirectory(prefix, id, names, eof)] + more).relay;
            LookDirectory(later, id) == Done(Ok((names, eof)))
  {
    var now := steps + [OwnerCompletesDirectory(prefix, id, names, eof)];
    assert now[..|now| - 1] == steps;
    FilledSlotNeverChanges(now, more, id);
  }

  lemma RejectionReachesReader(steps: seq<Step>, more: seq<Step>, prefix: string, id: RequestId, message: string,
                               offset: nat, count: nat)
    requires Reject(Run(steps).relay, prefix, id, message).1.Ok?
    requires id in Run(steps + [OwnerRejects(prefix, id, message)] + more).relay.responses
    ensures var later := Run(steps + [OwnerRejects(prefix, id, message)] + more).relay;
            && LookFile(later, id, offset, count) == Done(Err(message))
            && LookDirectory(later, id) == Done(Err(message))
  {
    var now := steps + [OwnerRejects(prefix, id, message)];
    assert now[..|now| - 1] == steps;
    FilledSlotNeverChanges(now, more, id);
  }
}
