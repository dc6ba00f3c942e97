/** The queue of requests under every interleaving of sessions and owners: crates/front/src/model.rs. */
module FrontRelayQueue {
  import opened Prelude
  import opened FrontRelay
  import opened FrontRelayRuns

  // ----- The ledger -----

  /** The prefix and the bytes a step asks an owner for, if it does. */
  function Asking(w: World, step: Step): Option<(string, seq<byte>)> {
    match step
    case ReadRpc(sid, fid, Some(request)) =>
      if sid in w.sessions && fid !in w.sessions[sid].rpc then Some(request) else None
    case ReadRelay(prefix) => Some((prefix, []))
    case ReadSnapshot(sid, fid, prefix) =>
      if sid in w.sessions
         && !(fid in w.sessions[sid].snapshots && w.sessions[sid].snapshots[fid] in w.relay.responses)
      then Some((prefix, [])) else None
    case ReadDirectory(sid, fid, node, prefix) =>
      if sid in w.sessions
         && !(fid in w.sessions[sid].listings && w.sessions[sid].listings[fid].node == node
              && w.sessions[sid].listings[fid].inflight.Some?)
      then Some((prefix, [])) else None
    case AskElsewhere(true, prefix, bytes) => Some((prefix, bytes))
    case _ => None
  }

  /** Every request of a run, as it was asked, in the order of asking. */
  ghost function Asks(steps: seq<Step>): seq<Request> {
    if steps == [] then []
    else
      var before := steps[..|steps| - 1];
      match Asking(Run(before), steps[|steps| - 1])
      case None => Asks(before)
      case Some(ask) => Asks(before) + [Request(Run(before).relay.next, ask.0, ask.1)]
  }

  /** What the owner of a prefix is handed by a step. */
  function Handed(w: World, step: Step): Option<Request> {
    if step.OwnerPops? then Pop(w.relay, step.prefix).1 else None
  }

  /** The requests a step hands out, or whose reader is gone with it. */
  function Leaving(w: World, step: Step): set<RequestId> {
    match step
    case OwnerPops(_) => if Handed(w, step).Some? then {Handed(w, step).value.id} else {}
    case RestartRpc(sid, fid) =>
      if sid in w.sessions && fid in w.sessions[sid].rpc then {w.sessions[sid].rpc[fid]} else {}
    case GiveUp(id) => {id}
    case ApplyDirectory(sid, fid, _, id) =>
      if sid in w.sessions && fid in w.sessions[sid].listings then {id} else {}
    case Clunk(sid, fid) =>
      if sid !in w.sessions then {}
      else
        var session := w.sessions[sid];
        (if fid in session.listings && session.listings[fid].inflight.Some?
         then {session.listings[fid].inflight.value} else {})
        + (if fid in session.rpc then {session.rpc[fid]}
           else if fid in session.snapshots then {session.snapshots[fid]} else {})
    case _ => {}
  }

  /** Those of them that were asked before. */
  function Taken(w: World, step: Step): set<RequestId> {
    set id | id in Leaving(w, step) && id < w.relay.next
  }

  /** Every request of a run that was handed out or withdrawn. */
  ghost function Gone(steps: seq<Step>): set<RequestId> {
    if steps == [] then {}
    else Gone(steps[..|steps| - 1]) + Taken(Run(steps[..|steps| - 1]), steps[|steps| - 1])
  }

  /** The requests of a list that are not in a set, in order. */
  function Kept(requests: seq<Request>, gone: set<RequestId>): seq<Request> {
    if requests == [] then []
    else if requests[0].id in gone then Kept(requests[1..], gone)
    else [requests[0]] + Kept(requests[1..], gone)
  }

  ghost predicate Increasing(requests: seq<Request>, below: RequestId) {
    && (forall i :: 0 <= i < |requests| ==> requests[i].id < below)
    && (forall i, j :: 0 <= i < j < |requests| ==> requests[i].id < requests[j].id)
  }

  // ----- Filtering -----

  lemma KeptFirst(a: seq<Request>, gone: set<RequestId>, first: Request, rest: seq<Request>)
    requires a == [first] + rest
    ensures Kept(a, gone) == (if first.id in gone then [] else [first]) + Kept(rest, gone)
  {
    assert a[1..] == rest;
  }

  lemma {:induction false} KeptPlus(a: seq<Request>, b: seq<Request>, gone: set<RequestId>)
    ensures Kept(a + b, gone) == Kept(a, gone) + Kept(b, gone)
    decreases |a|
  {
    if a == [] {
      assert a + b == b;
    } else {
      hide Kept;
      var first, rest := a[0], a[1..];
      KeptPlus(rest, b, gone);
      KeptFirst(a, gone, first, rest);
      KeptFirst(a + b, gone, first, rest + b);
    }
  }

  lemma {:induction false} KeptTwice(a: seq<Request>, gone: set<RequestId>, more: set<RequestId>)
    ensures Kept(Kept(a, gone), more) == Kept(a, gone + more)
  {
    if a != [] {
      KeptTwice(a[1..], gone, more);
      if a[0].id !in gone {
        assert ([a[0]] + Kept(a[1..], gone))[1..] == Kept(a[1..], gone);
      }
    }
  }

  lemma {:induction false} KeptAll(a: seq<Request>, gone: set<RequestId>)
    requires forall i :: 0 <= i < |a| ==> a[i].id !in gone
    ensures Kept(a, gone) == a
  {
    if a != [] {
      KeptAll(a[1..], gone);
    }
  }

  lemma {:induction false} KeptIsFilter(a: seq<Request>, gone: set<RequestId>, q: Request)
    ensures q in Kept(a, gone) <==> q in a && q.id !in gone
  {
    if a != [] {
      KeptIsFilter(a[1..], gone, q);
      assert q in a <==> q == a[0] || q in a[1..];
    }
  }

  lemma {:induction false} WithoutIsKept(a: seq<Request>, id: RequestId)
    ensures Without(a, id) == Kept(a, {id})
  {
    if a != [] {
      WithoutIsKept(a[1..], id);
    }
  }

  lemma IncreasingRest(a: seq<Request>, below: RequestId)
    requires Increasing(a, below) && a != []
    ensures Increasing(a[1..], below) && a[0].id < below
    ensures forall q :: q in a[1..] ==> a[0].id < q.id
  {
    var rest := a[1..];
    assert forall i :: 0 <= i < |rest| ==> rest[i] == a[i + 1];
  }

  lemma IncreasingMore(first: Request, rest: seq<Request>, below: RequestId)
    requires Increasing(rest, below) && first.id < below
    requires forall q :: q in rest ==> first.id < q.id
    ensures Increasing([first] + rest, below)
  {
    var a := [first] + rest;
    assert forall i :: 0 < i < |a| ==> a[i] == rest[i - 1];
  }

  lemma {:induction false} KeptIncreasing(a: seq<Request>, gone: set<RequestId>, below: RequestId)
    requires Increasing(a, below)
    ensures Increasing(Kept(a, gone), below)
    decreases |a|
  {
    if a != [] {
      hide Increasing;
      var rest := a[1..];
      IncreasingRest(a, below);
      KeptIncreasing(rest, gone, below);
      if a[0].id !in gone {
        var kept := Kept(rest, gone);
        forall q | q in kept
          ensures a[0].id < q.id
        {
          KeptIsFilter(rest, gone, q);
        }
        IncreasingMore(a[0], kept, below);
      }
    }
  }

  lemma {:induction false} OneOutIsKept(a: seq<Request>, i: nat, below: RequestId)
    requires Increasing(a, below) && i < |a|
    ensures a[..i] + a[i + 1..] == Kept(a, {a[i].id})
    decreases i
  {
    hide Increasing;
    var first, rest := a[0], a[1..];
    IncreasingRest(a, below);
    if i == 0 {
      KeptAll(rest, {first.id});
    } else {
      OneOutIsKept(rest, i - 1, below);
      assert rest[i - 1] == a[i] && a[i] in rest;
      assert a[..i] + a[i + 1..] == [first] + (rest[..i - 1] + rest[i..]);
    }
  }

  // ----- One step -----

  /** Nothing but what a step takes leaves the queue, and what it asks for joins at the end. */
  ghost predicate Queued(w: World, step: Step, v: World) {
    && w.relay.next <= v.relay.next
    && match Asking(w, step)
       case None => v.relay.pending == Kept(w.relay.pending, Taken(w, step))
       case Some(ask) =>
         && v.relay.pending == Kept(w.relay.pending, Taken(w, step)) + [Request(w.relay.next, ask.0, ask.1)]
         && v.relay.next == w.relay.next + 1
  }

  lemma TakenIsEnough(w: World, step: Step)
    requires Increasing(w.relay.pending, w.relay.next)
    ensures Kept(w.relay.pending, Leaving(w, step)) == Kept(w.relay.pending, Taken(w, step))
  {
    KeptAgree(w.relay.pending, Leaving(w, step), Taken(w, step));
  }

  lemma {:induction false} KeptAgree(a: seq<Request>, ids: set<RequestId>, others: set<RequestId>)
    requires forall i :: 0 <= i < |a| ==> (a[i].id in ids <==> a[i].id in others)
    ensures Kept(a, ids) == Kept(a, others)
  {
    if a != [] {
      KeptAgree(a[1..], ids, others);
    }
  }

  lemma PopTakes(w: World, prefix: string)
    requires Increasing(w.relay.pending, w.relay.next)
    ensures Pop(w.relay, prefix).0.pending == Kept(w.relay.pending, Leaving(w, OwnerPops(prefix)))
  {
    FirstUnderIsFirst(w.relay.pending, prefix);
    match FirstUnder(w.relay.pending, prefix)
    case None => KeptAll(w.relay.pending, {});
    case Some(i) => OneOutIsKept(w.relay.pending, i, w.relay.next);
  }

  lemma ClunkTakes(w: World, sid: nat, fid: Fid)
    requires Increasing(w.relay.pending, w.relay.next) && sid in w.sessions
    ensures Clunked(w, sid, fid).relay.pending == Kept(w.relay.pending, Leaving(w, Clunk(sid, fid)))
    ensures Clunked(w, sid, fid).relay.next == w.relay.next
  {
    var session := w.sessions[sid];
    var inflight: set<RequestId> :=
      if fid in session.listings && session.listings[fid].inflight.Some?
      then {session.listings[fid].inflight.value} else {};
    KeptAll(w.relay.pending, {});
    if inflight != {} {
      WithoutIsKept(w.relay.pending, session.listings[fid].inflight.value);
    }
    var pending := Kept(w.relay.pending, inflight);
    if fid in session.rpc {
      WithoutIsKept(pending, session.rpc[fid]);
      KeptTwice(w.relay.pending, inflight, {session.rpc[fid]});
    } else if fid in session.snapshots {
      WithoutIsKept(pending, session.snapshots[fid]);
      KeptTwice(w.relay.pending, inflight, {session.snapshots[fid]});
    } else {
      assert inflight + {} == inflight;
    }
  }

  /** Before what was asked before is sorted out. */
  ghost predicate Moves(w: World, step: Step, v: World) {
    && w.relay.next <= v.relay.next
    && match Asking(w, step)
       case None => v.relay.pending == Kept(w.relay.pending, Leaving(w, step))
       case Some(ask) =>
         && v.relay.pending == w.relay.pending + [Request(w.relay.next, ask.0, ask.1)]
         && v.relay.next == w.relay.next + 1 && Leaving(w, step) == {}
  }

  lemma SessionMoves(w: World, step: Step)
    requires Increasing(w.relay.pending, w.relay.next)
    requires step.RestartRpc? || step.GiveUp? || step.ApplyDirectory? || step.Clunk?
    ensures Moves(w, step, Next(w, step).0)
  {
    hide Kept, Without, Increasing;
    KeptAll(w.relay.pending, {});
    match step
    case RestartRpc(sid, fid) =>
      if sid in w.sessions && fid in w.sessions[sid].rpc {
        WithoutIsKept(w.relay.pending, w.sessions[sid].rpc[fid]);
      }
    case GiveUp(id) => WithoutIsKept(w.relay.pending, id);
    case ApplyDirectory(sid, fid, node, id) => WithoutIsKept(w.relay.pending, id);
    case Clunk(sid, fid) =>
      if sid in w.sessions {
        ClunkTakes(w, sid, fid);
      }
  }

  lemma NextMoves(w: World, step: Step)
    requires Increasing(w.relay.pending, w.relay.next)
    ensures Moves(w, step, Next(w, step).0)
  {
    hide Kept, Without, Increasing, Clunked, FirstUnder;
    if step.OwnerPops? {
      PopTakes(w, step.prefix);
    } else if step.RestartRpc? || step.GiveUp? || step.ApplyDirectory? || step.Clunk? {
      SessionMoves(w, step);
    } else {
      KeptAll(w.relay.pending, {});
    }
  }

  lemma NextQueues(w: World, step: Step)
    requires Increasing(w.relay.pending, w.relay.next)
    ensures Queued(w, step, Next(w, step).0)
  {
    hide Kept, Increasing, Next, Asking, Leaving;
    NextMoves(w, step);
    TakenIsEnough(w, step);
    KeptAll(w.relay.pending, {});
  }

  // ----- Runs -----

  /** In every run the queue is exactly the requests asked so far, with the prefix and the bytes they were asked
      with and in that order, less those handed out or withdrawn: none is lost, altered, doubled or overtaken. */
  lemma {:induction false} QueueIsLedger(steps: seq<Step>)
    ensures Run(steps).relay.pending == Kept(Asks(steps), Gone(steps))
    ensures Increasing(Asks(steps), Run(steps).relay.next)
    ensures forall id :: id in Gone(steps) ==> id < Run(steps).relay.next
    decreases |steps|
  {
    if steps != [] {
      var before, step := steps[..|steps| - 1], steps[|steps| - 1];
      QueueIsLedger(before);
      var w := Run(before);
      KeptIncreasing(Asks(before), Gone(before), w.relay.next);
      NextQueues(w, step);
      KeptTwice(Asks(before), Gone(before), Taken(w, step));
      match Asking(w, step)
      case None =>
      case Some(ask) =>
        var q := Request(w.relay.next, ask.0, ask.1);
        KeptPlus(Asks(before), [q], Gone(steps));
        KeptAll([q], Gone(steps));
    }
  }

  /** The request `q` is the first of its prefix that is not gone. */
  ghost predicate Oldest(asks: seq<Request>, gone: set<RequestId>, prefix: string, q: Request) {
    && q in asks && q.prefix == prefix && q.id !in gone
    && forall r :: r in asks && r.prefix == prefix && r.id < q.id ==> r.id in gone
  }

  ghost predicate AllGone(asks: seq<Request>, gone: set<RequestId>, prefix: string) {
    forall r :: r in asks && r.prefix == prefix ==> r.id in gone
  }

  lemma EarlierIsBefore(a: seq<Request>, below: RequestId, i: nat, r: Request)
    requires Increasing(a, below) && i < |a| && r in a && r.id < a[i].id
    ensures exists j :: 0 <= j < i && a[j] == r
  {
    var j :| 0 <= j < |a| && a[j] == r;
    assert !(i < j) && i != j;
  }

  lemma FirstIsOldest(asks: seq<Request>, gone: set<RequestId>, below: RequestId, prefix: string)
    requires Increasing(asks, below)
    ensures match FirstUnder(Kept(asks, gone), prefix)
            case None => AllGone(asks, gone, prefix)
            case Some(k) => k < |Kept(asks, gone)| && Oldest(asks, gone, prefix, Kept(asks, gone)[k])
  {
    hide Kept, FirstUnder, Increasing;
    var kept := Kept(asks, gone);
    KeptIncreasing(asks, gone, below);
    FirstUnderIsFirst(kept, prefix);
    forall r: Request
      ensures r in kept <==> r in asks && r.id !in gone
    {
      KeptIsFilter(asks, gone, r);
    }
    match FirstUnder(kept, prefix)
    case None =>
    case Some(k) =>
      assert kept[k] in kept;
      forall r | r in asks && r.prefix == prefix && r.id < kept[k].id
        ensures r.id in gone
      {
        if r.id !in gone {
          EarlierIsBefore(kept, below, k, r);
        }
      }
  }

  /** The owner of a prefix is handed the oldest request under it that is neither handed out nor withdrawn, as it
      was asked; it is told there is none only when there is none. */
  lemma PopHandsOldest(steps: seq<Step>, prefix: string)
    ensures match Pop(Run(steps).relay, prefix).1
            case None => AllGone(Asks(steps), Gone(steps), prefix)
            case Some(q) => Oldest(Asks(steps), Gone(steps), prefix, q)
  {
    hide Run, Asks, Gone, Kept, FirstUnder, Increasing, Oldest, AllGone;
    QueueIsLedger(steps);
    FirstIsOldest(Asks(steps), Gone(steps), Run(steps).relay.next, prefix);
  }

  lemma {:induction false} LedgerGrows(steps: seq<Step>, end: nat)
    requires end <= |steps|
    ensures Asks(steps[..end]) <= Asks(steps) && Gone(steps[..end]) <= Gone(steps)
    ensures forall i :: |Asks(steps[..end])| <= i < |Asks(steps)| ==>
              Run(steps[..end]).relay.next <= Asks(steps)[i].id
    ensures Run(steps[..end]).relay.next <= Run(steps).relay.next
    decreases |steps|
  {
    if end == |steps| {
      assert steps[..end] == steps;
    } else {
      var before, step := steps[..|steps| - 1], steps[|steps| - 1];
      LedgerGrows(before, end);
      assert before[..end] == steps[..end];
      QueueIsLedger(before);
      KeptIncreasing(Asks(before), Gone(before), Run(before).relay.next);
      NextQueues(Run(before), step);
    }
  }

  /** No request is handed out twice. */
  lemma HandedOnce(steps: seq<Step>, i: nat, j: nat)
    requires i < j < |steps|
    requires Handed(Run(steps[..i]), steps[i]).Some? && Handed(Run(steps[..j]), steps[j]).Some?
    ensures Handed(Run(steps[..i]), steps[i]).value.id != Handed(Run(steps[..j]), steps[j]).value.id
  {
    hide Run, Pop, Asks;
    var first := Handed(Run(steps[..i]), steps[i]).value;
    PopHandsOldest(steps[..i], steps[i].prefix);
    PopHandsOldest(steps[..j], steps[j].prefix);
    var after := steps[..i + 1];
    assert after[..i] == steps[..i] && steps[..j][..i + 1] == after;
    QueueIsLedger(steps[..i]);
    var f :| 0 <= f < |Asks(steps[..i])| && Asks(steps[..i])[f] == first;
    assert first.id in Gone(after);
    LedgerGrows(steps[..j], i + 1);
  }

  lemma LaterIsHigher(steps: seq<Step>, end: nat, prefix: string, first: Request, second: Request)
    requires end <= |steps| && Pop(Run(steps[..end]).relay, prefix).1 == Some(first)
    requires second in Asks(steps) && second.prefix == prefix && second.id !in Gone(steps)
    ensures first.id <= second.id
  {
    hide Run, Pop, Asks, Gone;
    PopHandsOldest(steps[..end], prefix);
    QueueIsLedger(steps[..end]);
    LedgerGrows(steps, end);
    var k :| 0 <= k < |Asks(steps)| && Asks(steps)[k] == second;
    if k < |Asks(steps[..end])| {
      assert Asks(steps[..end])[k] == second;
    }
  }

  /** One prefix is served in the order of asking. */
  lemma PopsAreInOrder(steps: seq<Step>, i: nat, j: nat)
    requires i < j < |steps| && steps[i].OwnerPops? && steps[j] == steps[i]
    requires Handed(Run(steps[..i]), steps[i]).Some? && Handed(Run(steps[..j]), steps[j]).Some?
    ensures Handed(Run(steps[..i]), steps[i]).value.id < Handed(Run(steps[..j]), steps[j]).value.id
  {
    hide Run, Pop, Asks, Gone;
    var first, second := Handed(Run(steps[..i]), steps[i]).value, Handed(Run(steps[..j]), steps[j]).value;
    HandedOnce(steps, i, j);
    PopHandsOldest(steps[..j], steps[j].prefix);
    assert steps[..j][..i] == steps[..i];
    LaterIsHigher(steps[..j], i, steps[i].prefix, first, second);
  }

  lemma {:induction false} GoneSomewhere(steps: seq<Step>, id: RequestId) returns (j: nat)
    requires id in Gone(steps)
    ensures j < |steps| && id in Taken(Run(steps[..j]), steps[j])
    decreases |steps|
  {
    var before := steps[..|steps| - 1];
    if id in Gone(before) {
      j := GoneSomewhere(before, id);
      assert before[..j] == steps[..j];
    } else {
      j := |steps| - 1;
    }
  }

  /** A step hands out this very request, or withdraws it. */
  ghost predicate Settles(steps: seq<Step>, j: nat, q: Request)
    requires j < |steps|
  {
    var w := Run(steps[..j]);
    if steps[j].OwnerPops? then q.prefix == steps[j].prefix && Handed(w, steps[j]) == Some(q)
    else q.id in Leaving(w, steps[j])
  }

  /** Every request ever asked is in the queue, once and unaltered, or was handed to the owner of its prefix
      unaltered, or was withdrawn. */
  lemma RequestIsAccounted(steps: seq<Step>, q: Request)
    requires q in Asks(steps)
    ensures q in Run(steps).relay.pending || exists j :: 0 <= j < |steps| && Settles(steps, j, q)
    ensures multiset(Run(steps).relay.pending)[q] <= 1
  {
    hide Run, Asks, Gone, Pop;
    var pending := Run(steps).relay.pending;
    QueueIsLedger(steps);
    KeptIncreasing(Asks(steps), Gone(steps), Run(steps).relay.next);
    OnceAtMost(pending, Run(steps).relay.next, q);
    KeptIsFilter(Asks(steps), Gone(steps), q);
    if q.id in Gone(steps) {
      var j := GoneSomewhere(steps, q.id);
      if steps[j].OwnerPops? {
        PopHandsOldest(steps[..j], steps[j].prefix);
        LedgerGrows(steps, j);
        var other := Handed(Run(steps[..j]), steps[j]).value;
        assert other in Asks(steps);
        SameIdSame(Asks(steps), Run(steps).relay.next, q, other);
      }
      assert Settles(steps, j, q);
    }
  }

  lemma SameIdSame(a: seq<Request>, below: RequestId, q: Request, other: Request)
    requires Increasing(a, below) && q in a && other in a && q.id == other.id
    ensures q == other
  {
    var i, j :| 0 <= i < |a| && 0 <= j < |a| && a[i] == q && a[j] == other;
    assert !(i < j) && !(j < i);
  }

  lemma {:induction false} OnceAtMost(a: seq<Request>, below: RequestId, q: Request)
    requires Increasing(a, below)
    ensures multiset(a)[q] <= 1
  {
    if a != [] {
      var rest := a[1..];
      assert a == [a[0]] + rest && forall k :: 0 <= k < |rest| ==> rest[k] == a[k + 1];
      OnceAtMost(rest, below, q);
      assert a[0] !in rest;
    }
  }

  // ----- Slots -----

  lemma PrefixesStep(w: World, step: Step, id: RequestId)
    requires id in Next(w, step).0.relay.prefixes
    ensures (id in w.relay.prefixes && Next(w, step).0.relay.prefixes[id] == w.relay.prefixes[id])
            || (id == w.relay.next && Asking(w, step).Some?
                && Next(w, step).0.relay.prefixes[id] == Asking(w, step).value.0)
  {
  }

  /** A slot answers to the prefix its request was asked under. */
  lemma {:induction false} SlotHasPrefixAsked(steps: seq<Step>, id: RequestId)
    requires id in Run(steps).relay.prefixes
    ensures exists q :: q in Asks(steps) && q.id == id && q.prefix == Run(steps).relay.prefixes[id]
    decreases |steps|
  {
    var before, step := steps[..|steps| - 1], steps[|steps| - 1];
    var w := Run(before);
    PrefixesStep(w, step, id);
    if id in w.relay.prefixes && Run(steps).relay.prefixes[id] == w.relay.prefixes[id] {
      SlotHasPrefixAsked(before, id);
    } else {
      var q := Asks(steps)[|Asks(before)|];
      assert q in Asks(steps);
    }
  }
}
