/** What replies do to a 9P client: crates/core/src/client.rs. */
module ClientReplies {
  import opened Prelude
  import opened Messages
  import opened Requests
  import opened ClientTags

  // ----- One reply -----

  /** A version may be answered as it was offered. */
  predicate Agrees(offer: Option<nat>, msize: nat) {
    offer.Some? && MIN_MSIZE <= msize <= offer.value
  }

  /** A reply is taken if and only if it answers something: the version offered, or a tag in flight. An open or create
      must also keep to the size agreed on. */
  lemma ReplyTakenIff(c: ClientState, m: RMessage)
    ensures Receive(c, m).1.Ok? <==>
            match m
            case RVersion(tag, msize, _) => tag == NOTAG && Agrees(c.requestedMsize, msize)
            case RError(tag, _) => if tag == NOTAG then c.requestedMsize.Some? else tag in ClientTags.Live(c)
            case _ =>
              && m.tag != NOTAG && m.tag in ClientTags.Live(c)
              && (m.ROpen? || m.RCreate? ==> m.iounit == 0 || m.iounit + IOUNIT_HEADER_SIZE <= c.msize)
  {
  }

  /** The tags a reply takes out of flight: all of them with a new version, its own, and with the reply to a flush also
      the one flushed. */
  function Ended(c: ClientState, m: RMessage): set<Tag> {
    match m
    case RVersion(_, _, _) => if Receive(c, m).1.Ok? then ClientTags.Live(c) else {}
    case RFlush(tag) =>
      if tag == NOTAG || tag !in ClientTags.Live(c) then {}
      else if tag in c.flushTargets && c.flushTargets[tag] != NOTAG then {tag, c.flushTargets[tag]}
      else {tag}
    case _ => if m.tag == NOTAG then {} else {m.tag}
  }

  lemma ReplyEnds(c: ClientState, m: RMessage)
    ensures ClientTags.Live(Receive(c, m).0) == ClientTags.Live(c) - Ended(c, m)
  {
  }

  /** What the tags in flight were to flush is forgotten with a new version, with an error and with the reply to the
      flush, and with nothing else. */
  lemma ReplyForgets(c: ClientState, m: RMessage)
    ensures Receive(c, m).0.flushTargets ==
            if Receive(c, m).1.Err? then c.flushTargets
            else if m.RVersion? then map[]
            else if m.RError? || m.RFlush? then c.flushTargets - {m.tag}
            else c.flushTargets
  {
    assert m.RFlush? && m.tag !in c.flushTargets ==> c.flushTargets - {m.tag} == c.flushTargets;
  }

  /** Giving a tag up takes it out of flight and forgets what it was to flush; a new negotiation takes all out. */
  lemma GivenUp(c: ClientState, tag: Tag, msize: nat)
    ensures tag != NOTAG ==>
              var d := Abandon(c, tag);
              ClientTags.Live(d) == ClientTags.Live(c) - {tag} && d.flushTargets == c.flushTargets - {tag}
    ensures ClientTags.Live(Abandon(c, NOTAG)) == ClientTags.Live(c)
    ensures ClientTags.Live(RequestVersion(c, msize)) == {}
  {
  }

  // ----- The size and the version agreed on -----

  /** The size offered and not yet answered. */
  function Offer(steps: seq<ClientTags.Step>): Option<nat> {
    if steps == [] then None
    else
      var before := Offer(steps[..|steps| - 1]);
      match steps[|steps| - 1]
      case AskVersion(msize) => Some(msize)
      case Hear(RVersion(tag, _, _)) => if tag == NOTAG then None else before
      case Hear(RError(tag, _)) => if tag == NOTAG then None else before
      case GiveUp(tag) => if tag == NOTAG then None else before
      case _ => before
  }

  /** The last answer that agrees with its offer. */
  function Agreed(steps: seq<ClientTags.Step>): (nat, seq<byte>) {
    if steps == [] then (DEFAULT_MSIZE, PLAIN_VERSION)
    else
      var before := steps[..|steps| - 1];
      match steps[|steps| - 1]
      case AskVersion(_) => (Agreed(before).0, UNKNOWN_VERSION)
      case Hear(RVersion(tag, msize, version)) =>
        if tag == NOTAG && Agrees(Offer(before), msize) then (msize, version) else Agreed(before)
      case _ => Agreed(before)
  }

  /** In every run the client uses the size and the version of the server's last answer that agreed with its offer,
      and no version while an offer is open. */
  lemma {:induction false} ClientUsesAgreed(steps: seq<ClientTags.Step>)
    ensures var c := ClientAfter(NewClient(), steps);
            c.requestedMsize == Offer(steps) && (c.msize, c.version) == Agreed(steps)
    decreases |steps|
  {
    if steps != [] {
      var before, step := steps[..|steps| - 1], steps[|steps| - 1];
      ClientUsesAgreed(before);
      hide FirstTry;
      var c := ClientAfter(NewClient(), before);
      match step
      case Hear(reply) => ReplyKeepsSize(c, reply);
      case _ =>
    }
  }

  lemma ReplyKeepsSize(c: ClientState, m: RMessage)
    ensures var d := Receive(c, m).0;
            match m
            case RVersion(tag, msize, version) =>
              && d.requestedMsize == (if tag == NOTAG then None else c.requestedMsize)
              && (d.msize, d.version) ==
                 if tag == NOTAG && Agrees(c.requestedMsize, msize) then (msize, version) else (c.msize, c.version)
            case _ =>
              && d.requestedMsize == (if m.RError? && m.tag == NOTAG then None else c.requestedMsize)
              && d.msize == c.msize && d.version == c.version
  {
  }

  // ----- Flushing -----

  ghost predicate SameTarget(c: ClientState, d: ClientState, tag: Tag) {
    tag in c.flushTargets && tag in d.flushTargets && d.flushTargets[tag] == c.flushTargets[tag]
  }

  lemma ReplyKeepsTarget(c: ClientState, m: RMessage, tag: Tag)
    requires tag != NOTAG && tag in c.flushTargets && tag in ClientTags.Live(Receive(c, m).0)
    ensures SameTarget(c, Receive(c, m).0, tag)
  {
  }

  /** While a flush is in flight the client knows which tag it is for. */
  lemma TargetStays(c: ClientState, step: ClientTags.Step, tag: Tag)
    requires tag != NOTAG && tag in ClientTags.Live(c) && tag in c.flushTargets
    requires tag in ClientTags.Live(Apply(c, step))
    ensures SameTarget(c, Apply(c, step), tag)
  {
    hide Receive, Alloc;
    match step
    case Ask => AllocKeepsTargets(c);
    case AskFlush(oldtag) =>
      AllocKeepsTargets(c);
      AllocTakesFree(c);
    case AskVersion(_) =>
    case Hear(reply) => ReplyKeepsTarget(c, reply, tag);
    case GiveUp(dropped) =>
  }

  lemma AllocKeepsTargets(c: ClientState)
    ensures Alloc(c).0.flushTargets == c.flushTargets
  {
  }

  lemma {:induction false} TargetStaysLong(c: ClientState, steps: seq<ClientTags.Step>, tag: Tag)
    requires tag != NOTAG && tag in c.flushTargets
    requires forall i :: 0 <= i <= |steps| ==> tag in ClientTags.Live(ClientAfter(c, steps[..i]))
    ensures SameTarget(c, ClientAfter(c, steps), tag)
    decreases |steps|
  {
    hide Apply;
    assert steps[..|steps|] == steps;
    if steps != [] {
      var before := steps[..|steps| - 1];
      assert forall i :: 0 <= i <= |before| ==> before[..i] == steps[..i];
      TargetStaysLong(c, before, tag);
      assert before[..|before|] == before;
      TargetStays(ClientAfter(c, before), steps[|steps| - 1], tag);
    }
  }

  /** The reply to a flush that is still in flight takes the flushed request out of flight, whatever happened since the
      flush was asked for. */
  lemma FlushReplyCancels(c: ClientState, oldtag: Tag, steps: seq<ClientTags.Step>)
    requires RequestFlush(c, oldtag).1.Ok?
    requires var (d, r) := RequestFlush(c, oldtag);
             forall i :: 0 <= i <= |steps| ==> r.value in ClientTags.Live(ClientAfter(d, steps[..i]))
    ensures var (d, r) := RequestFlush(c, oldtag);
            var e, reply := ClientAfter(d, steps), RFlush(r.value);
            && Receive(e, reply).1 == Ok(Completion(reply))
            && ClientTags.Live(Receive(e, reply).0) == ClientTags.Live(e) - {r.value, oldtag}
  {
    var (d, r) := RequestFlush(c, oldtag);
    var e := ClientAfter(d, steps);
    AllocTakesFree(c);
    assert steps[..|steps|] == steps;
    TargetStaysLong(d, steps, r.value);
    FlushAnswered(e, r.value, oldtag);
  }

  lemma FlushAnswered(e: ClientState, tag: Tag, oldtag: Tag)
    requires tag in ClientTags.Live(e) && tag != NOTAG && oldtag != NOTAG
    requires tag in e.flushTargets && e.flushTargets[tag] == oldtag
    ensures Receive(e, RFlush(tag)).1 == Ok(Completion(RFlush(tag)))
    ensures ClientTags.Live(Receive(e, RFlush(tag)).0) == ClientTags.Live(e) - {tag, oldtag}
  {
  }
}
