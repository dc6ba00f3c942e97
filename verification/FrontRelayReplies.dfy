/** Which replies of an owner are taken, in every run: crates/front/src/model.rs. */
module FrontRelayReplies {
  import opened Prelude
  import opened Paths
  import opened FrontRelay
  import opened FrontRelayRuns
  import opened FrontRelayQueue

  // ----- Slots -----

  /** The requests whose reader is gone. */
  function Withdrawing(w: World, step: Step): set<RequestId> {
    if step.OwnerPops? then {} else Taken(w, step)
  }

  ghost function Abandoned(steps: seq<Step>): set<RequestId> {
    if steps == [] then {}
    else Abandoned(steps[..|steps| - 1]) + Withdrawing(Run(steps[..|steps| - 1]), steps[|steps| - 1])
  }

  /** The step makes a slot and gives it the next id. */
  predicate Opens(w: World, step: Step) {
    Asking(w, step).Some? && !step.AskElsewhere?
  }

  ghost predicate SlotsMove(w: World, step: Step, v: World) {
    && v.relay.responses.Keys == w.relay.responses.Keys - Withdrawing(w, step)
                                 + (if Opens(w, step) then {w.relay.next} else {})
    && v.issued.Keys == w.issued.Keys + (if Opens(w, step) then {w.relay.next} else {})
  }

  lemma WithdrawSlots(w: World, step: Step)
    requires GoodWorld(w) && (step.RestartRpc? || step.GiveUp? || step.ApplyDirectory?)
    ensures SlotsMove(w, step, Next(w, step).0)
  {
    hide SessionsAgree, Without;
    forall id | id in w.relay.responses
      ensures id < w.relay.next
    {
      assert SlotOk(w, id);
    }
  }

  lemma ClunkSlots(w: World, sid: nat, fid: Fid)
    requires GoodWorld(w)
    ensures SlotsMove(w, Clunk(sid, fid), Next(w, Clunk(sid, fid)).0)
  {
    hide SessionsAgree, Without;
    forall id | id in w.relay.responses
      ensures id < w.relay.next
    {
      assert SlotOk(w, id);
    }
  }

  lemma OwnerSlots(w: World, step: Step)
    requires step.OwnerPops? || step.OwnerCompletes? || step.OwnerCompletesDirectory? || step.OwnerRejects?
    ensures SlotsMove(w, step, Next(w, step).0)
  {
    hide FirstUnder, Normalised;
  }

  lemma ReadSlots(w: World, step: Step)
    requires step.ReadRpc? || step.ReadRelay? || step.ReadSnapshot? || step.ReadDirectory?
    ensures SlotsMove(w, step, Next(w, step).0)
  {
  }

  lemma NextSlots(w: World, step: Step)
    requires GoodWorld(w)
    ensures SlotsMove(w, step, Next(w, step).0)
  {
    if step.RestartRpc? || step.GiveUp? || step.ApplyDirectory? {
      WithdrawSlots(w, step);
    } else if step.Clunk? {
      ClunkSlots(w, step.sid, step.fid);
    } else if step.ReadRpc? || step.ReadRelay? || step.ReadSnapshot? || step.ReadDirectory? {
      ReadSlots(w, step);
    } else if step.Open? || step.AskElsewhere? {
      hide GoodWorld;
    } else {
      OwnerSlots(w, step);
    }
  }

  /** In every run a slot is there if and only if it was made and its request was not withdrawn. */
  lemma {:induction false} SlotIsOpenIff(steps: seq<Step>, id: RequestId)
    ensures id in Run(steps).relay.responses <==> id in Run(steps).issued && id !in Abandoned(steps)
    ensures id in Abandoned(steps) ==> id < Run(steps).relay.next
    decreases |steps|
  {
    hide Next, Withdrawing;
    if steps != [] {
      var before, step := steps[..|steps| - 1], steps[|steps| - 1];
      var w := Run(before);
      SlotIsOpenIff(before, id);
      RunKeepsTables(before);
      NextSlots(w, step);
      WithdrawnIsOld(w, step, id);
      IdsGrow(w, step);
    }
  }

  lemma WithdrawnIsOld(w: World, step: Step, id: RequestId)
    ensures id in Withdrawing(w, step) ==> id < w.relay.next
  {
  }

  lemma IdsGrow(w: World, step: Step)
    requires GoodWorld(w)
    ensures w.relay.next <= Next(w, step).0.relay.next
  {
    StepEvolves(w, step, 0);
  }

  // ----- Replies -----

  ghost predicate AskedUnder(steps: seq<Step>, id: RequestId, prefix: string) {
    exists q :: q in Asks(steps) && q.id == id && q.prefix == prefix
  }

  /** The request was made with a slot, under this prefix, and is neither withdrawn nor answered. */
  ghost predicate Awaits(steps: seq<Step>, id: RequestId, prefix: string) {
    && id in Run(steps).issued && id !in Abandoned(steps) && AskedUnder(steps, id, Trim(prefix)) && Trim(prefix) != ""
    && (id in Run(steps).relay.responses ==> Run(steps).relay.responses[id].None?)
  }

  lemma PrefixIsAsked(steps: seq<Step>, id: RequestId, prefix: string)
    requires id in Run(steps).relay.responses
    ensures var w := Run(steps);
            id in w.relay.prefixes && (w.relay.prefixes[id] == prefix <==> AskedUnder(steps, id, prefix))
  {
    var w := Run(steps);
    RunKeepsTables(steps);
    assert id in w.relay.responses.Keys;
    SlotHasPrefixAsked(steps, id);
    QueueIsLedger(steps);
    if AskedUnder(steps, id, prefix) {
      var q :| q in Asks(steps) && q.id == id && q.prefix == prefix;
      var p :| p in Asks(steps) && p.id == id && p.prefix == w.relay.prefixes[id];
      SameIdSame(Asks(steps), w.relay.next, q, p);
    }
  }

  /** Only the slot of the answered request changes. */
  ghost predicate Answered(r: Relay, s: Relay, id: RequestId, reply: Reply) {
    id in r.responses && s == r.(responses := r.responses[id := Some(reply)])
  }

  /** The reply to a file read is taken if and only if the request awaits it; it then fills that slot, and otherwise
      changes nothing. Without a slot it is a file under an intake. */
  lemma FileReplyIff(steps: seq<Step>, prefix: string, id: RequestId, bytes: seq<byte>, intakes: set<string>)
    ensures var w := Run(steps);
            var (s, r) := Complete(w.relay, prefix, id, bytes, intakes);
            if id in w.issued && id !in Abandoned(steps) then
              && (r.Ok? <==> w.issued[id].FileRequest? && Awaits(steps, id, prefix))
              && (if r.Ok? then Answered(w.relay, s, id, Accepted(bytes)) else s == w.relay)
            else s == w.relay && r == if Trim(prefix) in intakes then Ok(()) else Err(ENOENT)
  {
    hide Run, Trim;
    SlotIsOpenIff(steps, id);
    RunKeepsTables(steps);
    var w := Run(steps);
    if id in w.relay.responses {
      PrefixIsAsked(steps, id, Trim(prefix));
      assert SlotOk(w, id);
    }
  }

  /** The reply to a directory read, whose names must all be names: not empty, not `.` or `..`, without a slash and
      short enough for the wire. */
  lemma DirectoryReplyIff(steps: seq<Step>, prefix: string, id: RequestId, names: seq<Name>, eof: bool)
    ensures var w := Run(steps);
            var (s, r) := CompleteDirectory(w.relay, prefix, id, names, eof);
            && (r.Ok? <==>
                  && (forall i :: 0 <= i < |names| ==>
                        names[i] !in {"", ".", ".."} && '/' !in names[i] && |names[i]| < 0x1_0000)
                  && Awaits(steps, id, prefix) && w.issued[id].DirectoryRequest?)
            && (if r.Ok? then Answered(w.relay, s, id, DirectoryAccepted(names, eof)) else s == w.relay)
  {
    hide Run, Trim;
    SlotIsOpenIff(steps, id);
    RunKeepsTables(steps);
    var w := Run(steps);
    assert (exists i :: 0 <= i < |names| && !ValidChild(names[i])) <==>
           !(forall i :: 0 <= i < |names| ==>
               names[i] !in {"", ".", ".."} && '/' !in names[i] && |names[i]| < 0x1_0000);
    if id in w.relay.responses {
      PrefixIsAsked(steps, id, Trim(prefix));
      assert SlotOk(w, id);
    }
  }

  /** A rejection, of either kind. */
  lemma RejectionIff(steps: seq<Step>, prefix: string, id: RequestId, message: string)
    ensures var w := Run(steps);
            var (s, r) := Reject(w.relay, prefix, id, message);
            && (r.Ok? <==> Awaits(steps, id, prefix))
            && (if r.Ok? then Answered(w.relay, s, id, Rejected(message)) else s == w.relay)
  {
    hide Run, Trim;
    SlotIsOpenIff(steps, id);
    RunKeepsTables(steps);
    var w := Run(steps);
    assert w.relay.responses.Keys == w.relay.prefixes.Keys;
    if id in w.relay.responses {
      PrefixIsAsked(steps, id, Trim(prefix));
    }
  }

  /** A second reply is told that the request is complete. */
  lemma SecondReplyIsRefused(steps: seq<Step>, prefix: string, id: RequestId, message: string)
    requires var w := Run(steps);
             && id in w.issued && id !in Abandoned(steps) && id in w.relay.responses && w.relay.responses[id].Some?
             && AskedUnder(steps, id, Trim(prefix)) && Trim(prefix) != ""
    ensures Reject(Run(steps).relay, prefix, id, message).1 == Err(COMPLETED)
    ensures forall bytes, intakes :: Run(steps).issued[id].FileRequest? ==>
              Complete(Run(steps).relay, prefix, id, bytes, intakes).1 == Err(COMPLETED)
  {
    hide Run, Trim;
    RunKeepsTables(steps);
    PrefixIsAsked(steps, id, Trim(prefix));
    assert SlotOk(Run(steps), id);
  }

  /** A reader waits if and only if its request is neither withdrawn nor answered; once withdrawn, it is told so. */
  lemma ReaderWaitsIff(steps: seq<Step>, id: RequestId, offset: nat, count: nat)
    requires id in Run(steps).issued
    ensures var r := Run(steps).relay;
            var open := id in r.responses && r.responses[id].None?;
            && (LookFile(r, id, offset, count) == Wait <==> id !in Abandoned(steps) && open)
            && (LookDirectory(r, id) == Wait <==> id !in Abandoned(steps) && open)
            && (id in Abandoned(steps) ==>
                  LookFile(r, id, offset, count) == Done(Err(ENOENT)) && LookDirectory(r, id) == Done(Err(ENOENT)))
  {
    hide Run;
    SlotIsOpenIff(steps, id);
  }

  // ----- Reading again -----

  /** The step ends what a fid is reading. */
  predicate EndsRpc(step: Step, sid: nat, fid: Fid) {
    step == RestartRpc(sid, fid) || step == Clunk(sid, fid)
  }

  predicate EndsListing(step: Step, sid: nat, fid: Fid, node: nat, id: RequestId) {
    || step == Clunk(sid, fid) || step == ApplyDirectory(sid, fid, node, id)
    || (step.ReadDirectory? && step.sid == sid && step.fid == fid && step.node != node)
  }

  predicate ReadingRpc(w: World, sid: nat, fid: Fid, id: RequestId) {
    sid in w.sessions && fid in w.sessions[sid].rpc && w.sessions[sid].rpc[fid] == id
  }

  predicate ReadingListing(w: World, sid: nat, fid: Fid, node: nat, id: RequestId) {
    sid in w.sessions && fid in w.sessions[sid].listings && w.sessions[sid].listings[fid] == Listing(node, Some(id))
  }

  lemma RpcStays(w: World, step: Step, sid: nat, fid: Fid, id: RequestId)
    requires ReadingRpc(w, sid, fid, id) && !EndsRpc(step, sid, fid)
    ensures ReadingRpc(Next(w, step).0, sid, fid, id)
  {
    hide Submit, Pop, Complete, CompleteDirectory, Reject, SubmitElsewhere, Withdraw;
  }

  lemma ListingStays(w: World, step: Step, sid: nat, fid: Fid, node: nat, id: RequestId)
    requires ReadingListing(w, sid, fid, node, id) && !EndsListing(step, sid, fid, node, id)
    ensures ReadingListing(Next(w, step).0, sid, fid, node, id)
  {
    hide Submit, Pop, Complete, CompleteDirectory, Reject, SubmitElsewhere, Withdraw;
  }

  /** Until it is restarted or clunked, every read of an rpc fid looks at the slot of the first one. */
  lemma {:induction false} RpcReadsShareSlot(steps: seq<Step>, more: seq<Step>, sid: nat, fid: Fid,
                                             request: (string, seq<byte>), again: Option<(string, seq<byte>)>)
    requires sid in Run(steps).sessions && fid !in Run(steps).sessions[sid].rpc
    requires forall i :: 0 <= i < |more| ==> !EndsRpc(more[i], sid, fid)
    ensures var first := ReadRpc(sid, fid, Some(request));
            var target := FileTarget(Run(steps).relay.next);
            && Next(Run(steps), first).1 == target
            && ReadingRpc(Run(steps + [first] + more), sid, fid, target.id)
            && Next(Run(steps + [first] + more), ReadRpc(sid, fid, again)).1 == target
    decreases |more|
  {
    var first := ReadRpc(sid, fid, Some(request));
    var now := steps + [first];
    assert now[..|now| - 1] == steps;
    if more == [] {
      assert now + more == now;
    } else {
      var before := more[..|more| - 1];
      RpcReadsShareSlot(steps, before, sid, fid, request, again);
      RunStep(now, more);
      RpcStays(Run(now + before), more[|more| - 1], sid, fid, Run(steps).relay.next);
    }
  }

  /** Until its page is taken, it is clunked or moved to another directory, every read of a directory fid looks at the
      slot of the first one. */
  lemma {:induction false} DirectoryReadsShareSlot(steps: seq<Step>, more: seq<Step>, sid: nat, fid: Fid, node: nat,
                                                   prefix: string)
    requires sid in Run(steps).sessions && ListingOf(Run(steps).sessions[sid], fid, node).inflight.None?
    requires forall i :: 0 <= i < |more| ==> !EndsListing(more[i], sid, fid, node, Run(steps).relay.next)
    ensures var read := ReadDirectory(sid, fid, node, prefix);
            var target := DirectoryTarget(Run(steps).relay.next);
            && Next(Run(steps), read).1 == target
            && ReadingListing(Run(steps + [read] + more), sid, fid, node, target.id)
            && Next(Run(steps + [read] + more), read).1 == target
    decreases |more|
  {
    var read := ReadDirectory(sid, fid, node, prefix);
    var now := steps + [read];
    assert now[..|now| - 1] == steps;
    if more == [] {
      assert now + more == now;
    } else {
      var before := more[..|more| - 1];
      DirectoryReadsShareSlot(steps, before, sid, fid, node, prefix);
      RunStep(now, more);
      ListingStays(Run(now + before), more[|more| - 1], sid, fid, node, Run(steps).relay.next);
    }
  }
}
