/** The reverse broker's threads: crates/reverse/src/broker.rs. Each step below is one atomic action of
    the reverse acceptor, a handshake thread, the proxy acceptor or a bridge thread; a run interleaves
    them in any order. Streams are named by the handshake they came from. */
module Broker {
  import opened Prelude

  type Id = nat

  /** Where the proxy acceptor is. It holds a bridge slot in every phase but the first. */
  datatype Proxy =
    | Idle
    | Waiting              // before `recv_timeout`
    | Popped(stream: Id)   // before `waiting_stream_removed`
    | Checking(stream: Id) // before `peer_closed`
    | Claimed(stream: Id)  // before the bridge thread starts

  /** What a handshake thread does next. It holds a handshake slot until it leaves. */
  datatype Phase =
    | Starting      // authenticate
    | Authenticated // `waiting_stream_added`
    | Counted       // `try_send`
    | Refused       // `waiting_stream_removed`
    | Leaving       // drop the slot

  datatype State = State(
    nextId: Id,
    handshakes: map<Id, Phase>,
    proxy: Proxy,
    bridging: set<Id>,
    // Shared counters, as signed numbers so that an underflow would show.
    waitingStreams: int,
    activeHandshakes: int,
    activeBridges: int,
    queue: seq<Id>,
    // What became of streams: everything queued, taken from the queue, bridged, or thrown away.
    queued: seq<Id>,
    taken: seq<Id>,
    bridged: seq<Id>,
    discarded: seq<Id>,
    sessions: set<Id>)     // every stream that was authenticated

  datatype Limits = Limits(waiting: nat, bridges: nat)

  datatype Step =
    | AcquireHandshake
    | FailHandshake(id: Id)
    | Authenticate(id: Id)
    | AddWaiting(id: Id)
    | Send(id: Id)
    | RemoveRefused(id: Id)
    | LeaveHandshake(id: Id)
    | AcquireBridge
    | GiveUpWaiting
    | Receive
    | RemoveReceived
    | FindClosed
    | FindOpen
    | StartBridge
    | FailBridge
    | FinishBridge(id: Id)

  function Init(): State {
    State(0, map[], Idle, {}, 0, 0, 0, [], [], [], [], [], {})
  }

  predicate At(s: State, id: Id, phase: Phase) {
    id in s.handshakes && s.handshakes[id] == phase
  }

  predicate Enabled(l: Limits, s: State, step: Step) {
    match step
    case AcquireHandshake => s.activeHandshakes < l.waiting
    case FailHandshake(id) => At(s, id, Starting)
    case Authenticate(id) => At(s, id, Starting)
    case AddWaiting(id) => At(s, id, Authenticated)
    case Send(id) => At(s, id, Counted)
    case RemoveRefused(id) => At(s, id, Refused)
    case LeaveHandshake(id) => At(s, id, Leaving)
    case AcquireBridge => s.proxy.Idle? && s.activeBridges < l.bridges
    case GiveUpWaiting => s.proxy.Waiting?
    case Receive => s.proxy.Waiting? && s.queue != []
    case RemoveReceived => s.proxy.Popped?
    case FindClosed => s.proxy.Checking?
    case FindOpen => s.proxy.Checking?
    case StartBridge => s.proxy.Claimed?
    case FailBridge => s.proxy.Claimed?
    case FinishBridge(id) => id in s.bridging
  }

  function Next(l: Limits, s: State, step: Step): State
    requires Enabled(l, s, step)
  {
    match step
    case AcquireHandshake =>
      s.(nextId := s.nextId + 1, handshakes := s.handshakes[s.nextId := Starting],
         activeHandshakes := s.activeHandshakes + 1)
    case FailHandshake(id) => s.(handshakes := s.handshakes[id := Leaving])
    case Authenticate(id) => s.(handshakes := s.handshakes[id := Authenticated], sessions := s.sessions + {id})
    case AddWaiting(id) => s.(handshakes := s.handshakes[id := Counted], waitingStreams := s.waitingStreams + 1)
    case Send(id) =>
      if |s.queue| < l.waiting then
        s.(handshakes := s.handshakes[id := Leaving], queue := s.queue + [id], queued := s.queued + [id])
      else s.(handshakes := s.handshakes[id := Refused])
    case RemoveRefused(id) =>
      s.(handshakes := s.handshakes[id := Leaving], waitingStreams := s.waitingStreams - 1,
         discarded := s.discarded + [id])
    case LeaveHandshake(id) => s.(handshakes := s.handshakes - {id}, activeHandshakes := s.activeHandshakes - 1)
    case AcquireBridge => s.(proxy := Waiting, activeBridges := s.activeBridges + 1)
    case GiveUpWaiting => s.(proxy := Idle, activeBridges := s.activeBridges - 1)
    case Receive => s.(proxy := Popped(s.queue[0]), queue := s.queue[1..], taken := s.taken + [s.queue[0]])
    case RemoveReceived => s.(proxy := Checking(s.proxy.stream), waitingStreams := s.waitingStreams - 1)
    case FindClosed => s.(proxy := Waiting, discarded := s.discarded + [s.proxy.stream])
    case FindOpen => s.(proxy := Claimed(s.proxy.stream))
    case StartBridge =>
      s.(proxy := Idle, bridging := s.bridging + {s.proxy.stream}, bridged := s.bridged + [s.proxy.stream])
    case FailBridge =>
      s.(proxy := Idle, activeBridges := s.activeBridges - 1, discarded := s.discarded + [s.proxy.stream])
    case FinishBridge(id) => s.(bridging := s.bridging - {id}, activeBridges := s.activeBridges - 1)
  }

  // ----- Counters -----

  predicate ByHandshake(step: Step) {
    step.AcquireHandshake? || step.FailHandshake? || step.Authenticate? || step.AddWaiting? || step.Send?
    || step.RemoveRefused? || step.LeaveHandshake?
  }

  /** The handshake threads whose stream is counted but not in the queue. */
  function Between(handshakes: map<Id, Phase>): set<Id> {
    set id | id in handshakes && (handshakes[id].Counted? || handshakes[id].Refused?)
  }

  function Flag(b: bool): nat {
    if b then 1 else 0
  }

  /** Each counter is what it counts: streams queued, about to be, or just taken; handshake threads;
      bridge threads and the slot in the proxy acceptor's hand. */
  ghost predicate Tallied(l: Limits, s: State) {
    && s.waitingStreams == |s.queue| + |Between(s.handshakes)| + Flag(s.proxy.Popped?)
    && s.activeHandshakes == |s.handshakes| <= l.waiting
    && s.activeBridges == |s.bridging| + Flag(!s.proxy.Idle?) <= l.bridges
  }

  lemma HandshakeKeepsTally(l: Limits, s: State, step: Step)
    requires Tallied(l, s) && Enabled(l, s, step) && ByHandshake(step)
    requires s.nextId !in s.handshakes
    ensures Tallied(l, Next(l, s, step))
  {
    hide Between;
    var keys, keys' := s.handshakes.Keys, Next(l, s, step).handshakes.Keys;
    BetweenMoves(l, s, step);
    assert keys' == if step.AcquireHandshake? then keys + {s.nextId}
                    else if step.LeaveHandshake? then keys - {step.id} else keys;
  }

  lemma NextKeepsTally(l: Limits, s: State, step: Step)
    requires Tallied(l, s) && Enabled(l, s, step)
    requires s.nextId !in s.handshakes
    requires s.proxy.Claimed? ==> s.proxy.stream !in s.bridging
    ensures Tallied(l, Next(l, s, step))
  {
    if ByHandshake(step) {
      HandshakeKeepsTally(l, s, step);
    }
  }

  predicate IsBetween(phase: Phase) {
    phase.Counted? || phase.Refused?
  }

  lemma BetweenUpdate(handshakes: map<Id, Phase>, id: Id, phase: Phase)
    ensures var b := Between(handshakes);
            Between(handshakes[id := phase]) == if IsBetween(phase) then b + {id} else b - {id}
  {
  }

  lemma BetweenWithout(handshakes: map<Id, Phase>, id: Id)
    ensures Between(handshakes - {id}) == Between(handshakes) - {id}
  {
  }

  lemma BetweenIff(handshakes: map<Id, Phase>, id: Id)
    ensures id in Between(handshakes) <==> id in handshakes && IsBetween(handshakes[id])
  {
  }

  lemma BetweenGrows(handshakes: map<Id, Phase>, id: Id)
    requires id in handshakes && !IsBetween(handshakes[id])
    ensures |Between(handshakes[id := Counted])| == |Between(handshakes)| + 1
  {
    BetweenUpdate(handshakes, id, Counted);
    BetweenIff(handshakes, id);
  }

  lemma BetweenShrinks(handshakes: map<Id, Phase>, id: Id)
    requires id in handshakes && IsBetween(handshakes[id])
    ensures |Between(handshakes[id := Leaving])| == |Between(handshakes)| - 1
    ensures Between(handshakes[id := Refused]) == Between(handshakes)
  {
    BetweenUpdate(handshakes, id, Leaving);
    BetweenUpdate(handshakes, id, Refused);
    BetweenIff(handshakes, id);
  }

  lemma BetweenStays(handshakes: map<Id, Phase>, id: Id, phase: Phase)
    requires !IsBetween(phase) && (id in handshakes ==> !IsBetween(handshakes[id]))
    ensures Between(handshakes[id := phase]) == Between(handshakes)
    ensures Between(handshakes - {id}) == Between(handshakes)
  {
    BetweenUpdate(handshakes, id, phase);
    BetweenWithout(handshakes, id);
    BetweenIff(handshakes, id);
  }

  lemma BetweenMoves(l: Limits, s: State, step: Step)
    requires Enabled(l, s, step) && s.nextId !in s.handshakes && ByHandshake(step)
    ensures var b, b' := |Between(s.handshakes)|, |Between(Next(l, s, step).handshakes)|;
            b' == if step.AddWaiting? then b + 1
                  else if step.RemoveRefused? || (step.Send? && |s.queue| < l.waiting) then b - 1 else b
  {
    hide Between;
    var h := s.handshakes;
    match step {
      case AcquireHandshake => BetweenStays(h, s.nextId, Starting);
      case FailHandshake(id) => BetweenStays(h, id, Leaving);
      case Authenticate(id) => BetweenStays(h, id, Authenticated);
      case AddWaiting(id) => BetweenGrows(h, id);
      case Send(id) => BetweenShrinks(h, id);
      case RemoveRefused(id) => BetweenShrinks(h, id);
      case LeaveHandshake(id) => BetweenStays(h, id, Leaving);
    }
  }

  /** No decrement of a shared counter finds it at zero. */
  lemma NoUnderflow(l: Limits, s: State, step: Step)
    requires Tallied(l, s) && Enabled(l, s, step)
    ensures step.RemoveRefused? || step.RemoveReceived? ==> s.waitingStreams > 0
    ensures step.LeaveHandshake? ==> s.activeHandshakes > 0
    ensures step.GiveUpWaiting? || step.FailBridge? || step.FinishBridge? ==> s.activeBridges > 0
  {
    if step.RemoveRefused? {
      assert step.id in Between(s.handshakes);
    }
  }

  // ----- Streams -----

  function InHand(p: Proxy): Option<Id> {
    if p.Popped? || p.Checking? || p.Claimed? then Some(p.stream) else None
  }

  /** A handshake thread still has the stream. */
  predicate WithThread(s: State, id: Id) {
    At(s, id, Authenticated) || At(s, id, Counted) || At(s, id, Refused)
  }

  function Times(ids: seq<Id>, id: Id): nat {
    if ids == [] then 0 else Flag(ids[0] == id) + Times(ids[1..], id)
  }

  /** In how many places a stream is: with its handshake thread, queued, in the proxy acceptor's hand,
      bridged, discarded. */
  function Places(s: State, id: Id): nat {
    Flag(WithThread(s, id)) + Times(s.queue, id) + Flag(InHand(s.proxy) == Some(id))
    + Times(s.bridged, id) + Times(s.discarded, id)
  }

  /** Each authenticated stream is in exactly one place, and no other stream is anywhere. What was queued
      was taken in order or still is. */
  ghost predicate Conserved(s: State) {
    && (forall id :: Places(s, id) == Flag(id in s.sessions))
    && (forall id :: id in s.handshakes ==> id < s.nextId && (s.handshakes[id].Starting? ==> id !in s.sessions))
    && (forall id :: id in s.sessions ==> id < s.nextId)
    && (forall id :: id in s.bridging ==> id in s.bridged)
    && s.queued == s.taken + s.queue
  }

  lemma {:induction false} TimesSnoc(ids: seq<Id>, x: Id, id: Id)
    ensures Times(ids + [x], id) == Times(ids, id) + Flag(x == id)
  {
    if ids == [] {
      assert [x][1..] == [];
    } else {
      assert (ids + [x])[1..] == ids[1..] + [x];
      TimesSnoc(ids[1..], x, id);
    }
  }

  lemma {:induction false} TimesIn(ids: seq<Id>, id: Id)
    ensures id in ids <==> Times(ids, id) > 0
  {
    if ids != [] {
      TimesIn(ids[1..], id);
      assert id in ids <==> id == ids[0] || id in ids[1..];
    }
  }

  lemma HandshakeMoves(l: Limits, s: State, step: Step, id: Id)
    requires Enabled(l, s, step) && s.nextId !in s.handshakes && ByHandshake(step)
    ensures Places(Next(l, s, step), id) == Places(s, id) + Flag(step == Authenticate(id))
  {
    match step {
      case Send(x) => TimesSnoc(s.queue, x, id);
      case RemoveRefused(x) => TimesSnoc(s.discarded, x, id);
      case _ =>
    }
  }

  lemma ProxyMoves(l: Limits, s: State, step: Step, id: Id)
    requires Enabled(l, s, step) && !ByHandshake(step)
    ensures Places(Next(l, s, step), id) == Places(s, id)
  {
    match step {
      case FindClosed => TimesSnoc(s.discarded, s.proxy.stream, id);
      case StartBridge => TimesSnoc(s.bridged, s.proxy.stream, id);
      case FailBridge => TimesSnoc(s.discarded, s.proxy.stream, id);
      case _ =>
    }
  }

  /** A step moves streams and never copies or loses one; only authentication makes one. */
  lemma PlacesMove(l: Limits, s: State, step: Step, id: Id)
    requires Enabled(l, s, step) && s.nextId !in s.handshakes
    ensures Places(Next(l, s, step), id) == Places(s, id) + Flag(step == Authenticate(id))
  {
    if ByHandshake(step) {
      HandshakeMoves(l, s, step, id);
    } else {
      ProxyMoves(l, s, step, id);
    }
  }

  lemma QueueIsFifo(l: Limits, s: State, step: Step)
    requires Enabled(l, s, step) && s.queued == s.taken + s.queue
    ensures var s' := Next(l, s, step); s'.queued == s'.taken + s'.queue
  {
    if step.Receive? {
      assert s.queue == [s.queue[0]] + s.queue[1..];
    }
  }

  lemma NextConserves(l: Limits, s: State, step: Step)
    requires Conserved(s) && Enabled(l, s, step)
    ensures Conserved(Next(l, s, step))
  {
    var s' := Next(l, s, step);
    forall id
      ensures Places(s', id) == Flag(id in s'.sessions)
    {
      PlacesMove(l, s, step, id);
    }
    QueueIsFifo(l, s, step);
    if step.StartBridge? {
      assert s'.bridged[|s.bridged|] == s.proxy.stream;
    }
  }

  // ----- Runs -----

  ghost predicate Good(l: Limits, s: State) {
    Tallied(l, s) && Conserved(s)
  }

  lemma NextIsGood(l: Limits, s: State, step: Step)
    requires Good(l, s) && Enabled(l, s, step)
    ensures Good(l, Next(l, s, step))
  {
    if s.proxy.Claimed? {
      HandIsNotBridged(s);
    }
    NextKeepsTally(l, s, step);
    NextConserves(l, s, step);
  }

  lemma HandIsNotBridged(s: State)
    requires Conserved(s) && s.proxy.Claimed?
    ensures s.proxy.stream !in s.bridging
  {
    var id := s.proxy.stream;
    assert Places(s, id) <= 1;
    TimesIn(s.bridged, id);
  }

  ghost predicate Run(l: Limits, states: seq<State>, steps: seq<Step>) {
    && |states| == |steps| + 1
    && states[0] == Init()
    && forall i :: 0 <= i < |steps| ==> Enabled(l, states[i], steps[i]) && states[i + 1] == Next(l, states[i], steps[i])
  }

  lemma {:induction false} RunIsGood(l: Limits, states: seq<State>, steps: seq<Step>, i: nat)
    requires Run(l, states, steps) && i < |states|
    ensures Good(l, states[i])
  {
    if i > 0 {
      RunIsGood(l, states, steps, i - 1);
      assert Enabled(l, states[i - 1], steps[i - 1]);
      NextIsGood(l, states[i - 1], steps[i - 1]);
    }
  }

  /** In every reachable state the count of waiting streams is at least the queue, and equal to it when no
      thread is between its steps; and neither limit is exceeded. */
  lemma CountersAreRight(l: Limits, states: seq<State>, steps: seq<Step>, i: nat)
    requires Run(l, states, steps) && i < |states|
    ensures var s := states[i];
            && |s.queue| <= s.waitingStreams
            && (Between(s.handshakes) == {} && !s.proxy.Popped? ==> s.waitingStreams == |s.queue|)
            && 0 <= s.activeHandshakes <= l.waiting && 0 <= s.activeBridges <= l.bridges
  {
    RunIsGood(l, states, steps, i);
  }

  /** In every reachable state each authenticated stream is queued, on its way, bridged or discarded, in
      exactly one of these and once; no stream is bridged that was not authenticated; and streams leave
      the queue in the order in which they entered it. */
  lemma StreamsEndOnce(l: Limits, states: seq<State>, steps: seq<Step>, i: nat, id: Id)
    requires Run(l, states, steps) && i < |states|
    ensures var s := states[i];
            && Times(s.queue, id) + Times(s.bridged, id) + Times(s.discarded, id) <= Flag(id in s.sessions)
            && (!WithThread(s, id) && InHand(s.proxy) != Some(id) ==>
                  Times(s.queue, id) + Times(s.bridged, id) + Times(s.discarded, id) == Flag(id in s.sessions))
            && s.taken <= s.queued
  {
    RunIsGood(l, states, steps, i);
    assert Places(states[i], id) == Flag(id in states[i].sessions);
  }
}
