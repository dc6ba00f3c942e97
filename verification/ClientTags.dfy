/** The tags of a 9P client: crates/core/src/client.rs. */
module ClientTags {
  import opened Prelude
  import opened Wire
  import opened Messages
  import opened Requests

  const MIN_MSIZE: nat := 256
  const IOUNIT_HEADER_SIZE: nat := 24
  const IOUNIT_TOO_LARGE := "iounit exceeds negotiated msize"
  const UNKNOWN_TAG := "unknown response tag"
  const UNKNOWN_VERSION: seq<byte> := [117, 110, 107, 110, 111, 119, 110]
  const PLAIN_VERSION: seq<byte> := [57, 80, 50, 48, 48, 48]
  const DEFAULT_MSIZE: nat := 8192
  const TAGS: nat := 0x1_0000
  const TRIES: nat := 0xFFFF

  const R_VERSION: seq<byte> := PLAIN_VERSION + [46, 82]

  datatype Variant = Plain | R

  function WireName(variant: Variant): seq<byte> {
    if variant == R then R_VERSION else PLAIN_VERSION
  }

  datatype ClientState = ClientState(
    msize: nat,
    version: seq<byte>,
    requestedMsize: Option<nat>,
    nextTag: Tag,
    pending: Table,
    flushTargets: map<Tag, Tag>)

  /** What a reply means to the caller: an error of the server, or a completion. */
  datatype Response = ErrorResponse(tag: Tag, ename: seq<byte>) | Completion(reply: RMessage)

  // ----- Choosing a tag -----

  function Nth(next: Tag, k: nat): Tag {
    (next + k) % TAGS
  }

  lemma NthStep(next: Tag, k: nat)
    ensures Nth(next, 0) == next
    ensures Nth(next, k + 1) == Nth(Nth(next, k), 1) == (Nth(next, k) + 1) % TAGS
  {
  }

  predicate Usable(live: map<Tag, Key>, tag: Tag) {
    tag != NOTAG && tag !in live
  }

  /** The first of tries `k` up to `tries` that meets a usable tag. */
  function FirstTry(live: map<Tag, Key>, next: Tag, k: nat, tries: nat): Option<nat>
    decreases tries - k
  {
    if k >= tries then None
    else if Usable(live, Nth(next, k)) then Some(k)
    else FirstTry(live, next, k + 1, tries)
  }

  lemma {:induction false} FirstTryIsFirst(live: map<Tag, Key>, next: Tag, k: nat, tries: nat)
    ensures match FirstTry(live, next, k, tries)
            case Some(n) => k <= n < tries && Usable(live, Nth(next, n))
                            && forall m :: k <= m < n ==> !Usable(live, Nth(next, m))
            case None => forall m :: k <= m < tries ==> !Usable(live, Nth(next, m))
    decreases tries - k
  {
    if k < tries {
      FirstTryIsFirst(live, next, k + 1, tries);
    }
  }

  function Alloc(c: ClientState): (ClientState, Result<Tag>) {
    match FirstTry(c.pending.live, c.nextTag, 0, TRIES)
    case None => (c.(nextTag := Nth(c.nextTag, TRIES)), Err(EDUPTAG))
    case Some(k) =>
      var tag := Nth(c.nextTag, k);
      match Begin(c.pending, tag)
      case Err(e) => (c.(nextTag := Nth(tag, 1)), Err(e))
      case Ok((t, _)) => (c.(nextTag := Nth(tag, 1), pending := t), Ok(tag))
  }

  /** The one tag that the tries never reach. */
  function Unvisited(next: Tag): Tag {
    Nth(next, TRIES)
  }

  /** Every tag but the unvisited one is met by some try. */
  lemma TriesMeet(next: Tag, tag: Tag)
    requires tag != Unvisited(next)
    ensures exists k :: 0 <= k < TRIES && Nth(next, k) == tag
  {
    var k := (tag + TAGS - next) % TAGS;
    assert Nth(next, k) == tag;
    assert k != TRIES;
  }

  /** A tag is found exactly when a usable one exists that is not the unvisited one. */
  lemma AllocSucceedsIff(c: ClientState)
    ensures Alloc(c).1.Ok? <==> exists tag: Tag :: Usable(c.pending.live, tag) && tag != Unvisited(c.nextTag)
  {
    FirstTryIsFirst(c.pending.live, c.nextTag, 0, TRIES);
    var found := FirstTry(c.pending.live, c.nextTag, 0, TRIES);
    if found.Some? {
      var tag := Nth(c.nextTag, found.value);
      assert Usable(c.pending.live, tag) && tag != Unvisited(c.nextTag);
    } else {
      forall tag: Tag | Usable(c.pending.live, tag)
        ensures tag == Unvisited(c.nextTag)
      {
        if tag != Unvisited(c.nextTag) {
          TriesMeet(c.nextTag, tag);
        }
      }
    }
  }

  /** Two usable tags are enough. */
  lemma TwoFreeTagsSuffice(c: ClientState, a: Tag, b: Tag)
    requires a != b && Usable(c.pending.live, a) && Usable(c.pending.live, b)
    ensures Alloc(c).1.Ok?
  {
    AllocSucceedsIff(c);
  }

  /** One usable tag is not, when it is the one the tries do not reach. */
  lemma OneFreeTagMayFail(c: ClientState)
    requires Usable(c.pending.live, Unvisited(c.nextTag))
    requires forall tag: Tag :: tag != Unvisited(c.nextTag) ==> !Usable(c.pending.live, tag)
    ensures Alloc(c).1 == Err(EDUPTAG)
  {
    AllocSucceedsIff(c);
    FirstTryIsFirst(c.pending.live, c.nextTag, 0, TRIES);
  }

  /** What is allocated was usable, is live afterwards, and nothing else changes. */
  lemma AllocTakesFree(c: ClientState)
    ensures var (c', r) := Alloc(c);
            match r
            case Ok(tag) =>
              && Usable(c.pending.live, tag)
              && c'.pending.live == c.pending.live[tag := Key(tag, c.pending.next)]
            case Err(_) => c'.pending == c.pending
  {
    FirstTryIsFirst(c.pending.live, c.nextTag, 0, TRIES);
  }

  // ----- Replies -----

  function Without<V>(m: map<Tag, V>, tag: Tag): map<Tag, V> {
    m - {tag}
  }

  /** `finish`: takes a tag out of flight, or reports that it is not in flight. */
  function Settle(c: ClientState, tag: Tag): Result<ClientState> {
    match Flush(c.pending, tag)
    case Err(e) => Err(e)
    case Ok((_, Unknown)) => Err(UNKNOWN_TAG)
    case Ok((t, Cancelled(_))) => Ok(c.(pending := t))
  }

  function CancelOld(c: ClientState, tag: Tag): ClientState {
    if tag in c.flushTargets then
      var c' := c.(flushTargets := Without(c.flushTargets, tag));
      match Flush(c.pending, c.flushTargets[tag])
      case Err(_) => c'
      case Ok((t, _)) => c'.(pending := t)
    else c
  }

  function ReceiveVersion(c: ClientState, m: RMessage): (ClientState, Result<Response>)
    requires m.RVersion?
  {
    if m.tag != NOTAG then (c, Err("Rversion did not use NOTAG"))
    else if c.requestedMsize.None? then (c, Err("unsolicited Rversion"))
    else
      var c' := c.(requestedMsize := None);
      if m.msize < MIN_MSIZE || m.msize > c.requestedMsize.value then (c', Err("invalid negotiated msize"))
      else (c'.(msize := m.msize, version := m.version, pending := Reset(c.pending), flushTargets := map[]),
            Ok(Completion(m)))
  }

  function ReceiveError(c: ClientState, m: RMessage): (ClientState, Result<Response>)
    requires m.RError?
  {
    var settled :=
      if m.tag == NOTAG then
        if c.requestedMsize.None? then Err(UNKNOWN_TAG) else Ok(c.(requestedMsize := None))
      else Settle(c, m.tag);
    match settled
    case Err(e) => (c, Err(e))
    case Ok(c') => (c'.(flushTargets := Without(c'.flushTargets, m.tag)), Ok(ErrorResponse(m.tag, m.ename)))
  }

  /** `validate_iounit`, which only replies to open and create have to pass. */
  predicate IounitFits(msize: nat, m: RMessage) {
    m.ROpen? || m.RCreate? ==> m.iounit == 0 || m.iounit <= Max(msize - IOUNIT_HEADER_SIZE, 0)
  }

  function Receive(c: ClientState, m: RMessage): (ClientState, Result<Response>) {
    match m
    case RVersion(_, _, _) => ReceiveVersion(c, m)
    case RError(_, _) => ReceiveError(c, m)
    case _ =>
      match Settle(c, m.tag)
      case Err(e) => (c, Err(e))
      case Ok(c') =>
        if m.RFlush? then (CancelOld(c', m.tag), Ok(Completion(m)))
        else if !IounitFits(c.msize, m) then (c', Err(IOUNIT_TOO_LARGE))
        else (c', Ok(Completion(m)))
  }

  // ----- Other operations -----

  function RequestVersion(c: ClientState, msize: nat): ClientState {
    c.(pending := Reset(c.pending), flushTargets := map[], version := UNKNOWN_VERSION, requestedMsize := Some(msize))
  }

  function RequestFlush(c: ClientState, oldtag: Tag): (ClientState, Result<Tag>) {
    if oldtag == NOTAG then (c, Err(EBADTAG))
    else
      var (c', r) := Alloc(c);
      if r.Ok? then (c'.(flushTargets := c'.flushTargets[r.value := oldtag]), r) else (c', r)
  }

  function Abandon(c: ClientState, tag: Tag): ClientState {
    if tag == NOTAG then c.(requestedMsize := None)
    else
      var t := match Flush(c.pending, tag) case Ok((t, _)) => t case Err(_) => c.pending;
      c.(pending := t, flushTargets := Without(c.flushTargets, tag))
  }

  // ----- Runs -----

  datatype Step =
    | Ask
    | AskFlush(oldtag: Tag)
    | AskVersion(msize: nat)
    | Hear(reply: RMessage)
    | GiveUp(tag: Tag)

  /** What happened to a tag: it was issued, a reply took it out of flight, or it was dropped. */
  datatype Event = Issued(tag: Tag) | Answered(tag: Tag) | Dropped(tags: set<Tag>)

  datatype Conversation = Conversation(client: ClientState, history: seq<Event>)

  function Live(c: ClientState): set<Tag> {
    c.pending.live.Keys
  }

  /** The events of one step, from what became of the tags in flight. */
  function EventsOf(c: ClientState, c': ClientState, step: Step): seq<Event> {
    var lost := Live(c) - Live(c');
    var issued := match step
                  case Ask => IssuedBy(Alloc(c).1)
                  case AskFlush(oldtag) => IssuedBy(RequestFlush(c, oldtag).1)
                  case _ => [];
    var answered := if step.Hear? && step.reply.tag in lost && !step.reply.RVersion?
                    then [Answered(step.reply.tag)] else [];
    var others := if answered == [] then lost else lost - {step.reply.tag};
    issued + answered + (if others == {} then [] else [Dropped(others)])
  }

  function IssuedBy(r: Result<Tag>): seq<Event> {
    if r.Ok? then [Issued(r.value)] else []
  }

  function Apply(c: ClientState, step: Step): ClientState {
    match step
    case Ask => Alloc(c).0
    case AskFlush(oldtag) => RequestFlush(c, oldtag).0
    case AskVersion(msize) => RequestVersion(c, msize)
    case Hear(reply) => Receive(c, reply).0
    case GiveUp(tag) => Abandon(c, tag)
  }

  function Next(w: Conversation, step: Step): Conversation {
    var c' := Apply(w.client, step);
    Conversation(c', w.history + EventsOf(w.client, c', step))
  }

  predicate About(e: Event, tag: Tag) {
    match e
    case Issued(t) => t == tag
    case Answered(t) => t == tag
    case Dropped(tags) => tag in tags
  }

  /** The last thing that happened to a tag. */
  function LastAbout(history: seq<Event>, tag: Tag): Option<Event> {
    if history == [] then None
    else
      var n := |history| - 1;
      if About(history[n], tag) then Some(history[n]) else LastAbout(history[..n], tag)
  }

  /** Every answer is to a tag issued and not answered or dropped since; every issue is of a tag that
      is not in flight. */
  ghost predicate Matched(history: seq<Event>) {
    forall j :: 0 <= j < |history| ==>
      && (history[j].Answered? ==> LastAbout(history[..j], history[j].tag) == Some(Issued(history[j].tag)))
      && (history[j].Issued? ==> LastAbout(history[..j], history[j].tag) != Some(Issued(history[j].tag)))
  }

  lemma LastAboutSnoc(history: seq<Event>, e: Event, tag: Tag)
    ensures LastAbout(history + [e], tag) == if About(e, tag) then Some(e) else LastAbout(history, tag)
  {
    assert (history + [e])[..|history|] == history;
  }

  /** One more event keeps the book, when it is an issue of a tag not in flight or an answer to one that is. */
  lemma EventMatches(history: seq<Event>, e: Event)
    requires Matched(history)
    requires e.Answered? ==> LastAbout(history, e.tag) == Some(Issued(e.tag))
    requires e.Issued? ==> LastAbout(history, e.tag) != Some(Issued(e.tag))
    ensures Matched(history + [e])
  {
    var h := history + [e];
    forall j | 0 <= j < |h|
      ensures h[j].Answered? ==> LastAbout(h[..j], h[j].tag) == Some(Issued(h[j].tag))
      ensures h[j].Issued? ==> LastAbout(h[..j], h[j].tag) != Some(Issued(h[j].tag))
    {
      assert h[..j] == history[..j];
      assert history[..|history|] == history;
    }
  }

  /** The tags in flight as a history tells them. */
  ghost predicate Tells(history: seq<Event>, live: set<Tag>) {
    forall tag: Tag :: tag in live <==> LastAbout(history, tag) == Some(Issued(tag))
  }

  lemma TellsIssued(history: seq<Event>, live: set<Tag>, tag: Tag)
    requires Tells(history, live) && Matched(history) && tag !in live
    ensures Tells(history + [Issued(tag)], live + {tag}) && Matched(history + [Issued(tag)])
  {
    EventMatches(history, Issued(tag));
    forall t: Tag
      ensures t in live + {tag} <==> LastAbout(history + [Issued(tag)], t) == Some(Issued(t))
    {
      LastAboutSnoc(history, Issued(tag), t);
    }
  }

  lemma TellsAnswered(history: seq<Event>, live: set<Tag>, tag: Tag)
    requires Tells(history, live) && Matched(history) && tag in live
    ensures Tells(history + [Answered(tag)], live - {tag}) && Matched(history + [Answered(tag)])
  {
    EventMatches(history, Answered(tag));
    forall t: Tag
      ensures t in live - {tag} <==> LastAbout(history + [Answered(tag)], t) == Some(Issued(t))
    {
      LastAboutSnoc(history, Answered(tag), t);
    }
  }

  lemma TellsDropped(history: seq<Event>, live: set<Tag>, tags: set<Tag>)
    requires Tells(history, live) && Matched(history)
    ensures Tells(history + [Dropped(tags)], live - tags) && Matched(history + [Dropped(tags)])
  {
    EventMatches(history, Dropped(tags));
    forall t: Tag
      ensures t in live - tags <==> LastAbout(history + [Dropped(tags)], t) == Some(Issued(t))
    {
      LastAboutSnoc(history, Dropped(tags), t);
    }
  }

  /** The only tag a step can put in flight is the one it issues. */
  lemma StepIssues(c: ClientState, step: Step)
    ensures var c' := Apply(c, step);
            var issued := match step case Ask => Alloc(c).1 case AskFlush(o) => RequestFlush(c, o).1 case _ => Err("");
            if issued.Ok? then issued.value !in Live(c) && Live(c') == Live(c) + {issued.value} else Live(c') <= Live(c)
  {
    AllocTakesFree(c);
  }

  lemma NextMatches(w: Conversation, step: Step)
    requires Tells(w.history, Live(w.client)) && Matched(w.history)
    ensures var w' := Next(w, step); Tells(w'.history, Live(w'.client)) && Matched(w'.history)
  {
    hide Tells, Matched, LastAbout, About;
    var c, h := w.client, w.history;
    var c' := Apply(c, step);
    StepIssues(c, step);
    var lost := Live(c) - Live(c');
    var issued := match step case Ask => Alloc(c).1 case AskFlush(o) => RequestFlush(c, o).1 case _ => Err("");
    if issued.Ok? {
      TellsIssued(h, Live(c), issued.value);
      assert lost == {};
      assert Next(w, step).history == h + [Issued(issued.value)];
    } else if step.Hear? && step.reply.tag in lost && !step.reply.RVersion? {
      var tag := step.reply.tag;
      TellsAnswered(h, Live(c), tag);
      var others := lost - {tag};
      TellsDropped(h + [Answered(tag)], Live(c) - {tag}, others);
      assert Live(c) - {tag} - others == Live(c');
      assert others == {} ==> Next(w, step).history == h + [Answered(tag)] && Live(c') == Live(c) - {tag};
      assert others != {} ==> Next(w, step).history == h + [Answered(tag)] + [Dropped(others)];
    } else {
      TellsDropped(h, Live(c), lost);
      assert Live(c) - lost == Live(c');
      assert lost == {} ==> Next(w, step).history == h && Live(c') == Live(c);
      assert lost != {} ==> Next(w, step).history == h + [Dropped(lost)];
    }
  }

  /** A reply is taken only for a tag in flight, and takes it out of flight. */
  lemma RepliesNeedLiveTags(c: ClientState, m: RMessage)
    requires m.tag != NOTAG && Receive(c, m).1.Ok?
    ensures m.tag in Live(c) && m.tag !in Live(Receive(c, m).0)
  {
  }

  /** Every accepted reply is an answer in the history. */
  lemma AcceptedIsAnswered(w: Conversation, m: RMessage)
    requires m.tag != NOTAG && Receive(w.client, m).1.Ok?
    ensures var h := Next(w, Hear(m)).history;
            |h| > |w.history| && h[..|w.history|] == w.history && h[|w.history|] == Answered(m.tag)
  {
    RepliesNeedLiveTags(w.client, m);
  }

  ghost predicate Run(worlds: seq<Conversation>, steps: seq<Step>) {
    && |worlds| == |steps| + 1
    && worlds[0].history == [] && worlds[0].client.pending.live == map[]
    && forall i :: 0 <= i < |steps| ==> worlds[i + 1] == Next(worlds[i], steps[i])
  }

  /** Over every run each issued tag accepts at most one reply: between any two answers to a tag, and
      before the first, the tag was issued anew. */
  lemma {:induction false} RunMatches(worlds: seq<Conversation>, steps: seq<Step>, i: nat)
    requires Run(worlds, steps) && i < |worlds|
    ensures Tells(worlds[i].history, Live(worlds[i].client)) && Matched(worlds[i].history)
  {
    if i > 0 {
      RunMatches(worlds, steps, i - 1);
      NextMatches(worlds[i - 1], steps[i - 1]);
    }
  }

  // ----- A run that finds no tag -----

  function ClientAfter(c: ClientState, steps: seq<Step>): ClientState {
    if steps == [] then c else Apply(ClientAfter(c, steps[..|steps| - 1]), steps[|steps| - 1])
  }

  function Asks(count: nat): (steps: seq<Step>)
    ensures |steps| == count && forall i :: 0 <= i < count ==> steps[i] == Ask
  {
    seq(count, _ => Ask)
  }

  /** The state of a client as it is made. */
  function NewClient(): ClientState {
    ClientState(DEFAULT_MSIZE, PLAIN_VERSION, None, 0, Table(0, map[]), map[])
  }

  /** A new client gives out the tags in order. */
  lemma {:induction false} AsksTakeTagsInOrder(count: nat)
    requires count <= TRIES
    ensures var c := ClientAfter(NewClient(), Asks(count));
            c.nextTag == count && forall tag: Tag :: tag in c.pending.live <==> tag < count
  {
    hide Apply, Usable;
    if count > 0 {
      var before := count - 1;
      assert Asks(count)[..before] == Asks(before);
      AsksTakeTagsInOrder(before);
      var c := ClientAfter(NewClient(), Asks(before));
      NextIsUsable(c);
      AskTakesNext(c);
      assert ClientAfter(NewClient(), Asks(count)) == Apply(c, Ask);
    }
  }

  lemma NextIsUsable(c: ClientState)
    requires c.nextTag < TRIES && c.nextTag !in c.pending.live
    ensures Usable(c.pending.live, c.nextTag) && Nth(c.nextTag, 1) == c.nextTag + 1
  {
  }

  lemma AskTakesNext(c: ClientState)
    requires Usable(c.pending.live, c.nextTag)
    ensures var c' := Apply(c, Ask);
            c'.nextTag == Nth(c.nextTag, 1) && c'.pending.live.Keys == c.pending.live.Keys + {c.nextTag}
  {
    assert Nth(c.nextTag, 0) == c.nextTag;
  }

  /** A new client that has given out all tags and hears from the last of them finds none, although
      that one is free. */
  lemma FreeTagIsMissed()
    ensures var c := ClientAfter(NewClient(), Asks(TRIES) + [Hear(RClunk(TRIES - 1))]);
            Usable(c.pending.live, TRIES - 1) && Alloc(c).1 == Err(EDUPTAG)
  {
    var steps := Asks(TRIES) + [Hear(RClunk(TRIES - 1))];
    assert steps[..TRIES] == Asks(TRIES);
    AsksTakeTagsInOrder(TRIES);
    var c := ClientAfter(NewClient(), steps);
    assert c == Apply(ClientAfter(NewClient(), Asks(TRIES)), Hear(RClunk(TRIES - 1)));
    assert Unvisited(c.nextTag) == TRIES - 1;
    OneFreeTagMayFail(c);
  }

  // ----- The client itself -----

  class Client {
    var msize: nat
    var version: seq<byte>
    var requestedMsize: Option<nat>
    var nextTag: Tag
    const pending: RequestTable
    var flushTargets: map<Tag, Tag>

    function State(): ClientState
      reads this, pending
    {
      ClientState(msize, version, requestedMsize, nextTag, pending.Contents(), flushTargets)
    }

    constructor ()
      ensures State() == NewClient()
      ensures fresh(pending)
    {
      msize, version, requestedMsize, nextTag, flushTargets := DEFAULT_MSIZE, PLAIN_VERSION, None, 0, map[];
      pending := new RequestTable();
    }

    /** Tries 65535 of the 65536 tags, beginning at the one after the last it gave out. */
    method AllocTag() returns (r: Result<Tag>)
      modifies this, pending
      ensures (State(), r) == Alloc(old(State()))
    {
      hide Nth;
      ghost var first := nextTag;
      NthStep(first, 0);
      for k := 0 to TRIES
        invariant State() == old(State()).(nextTag := Nth(first, k))
        invariant FirstTry(pending.live, first, 0, TRIES) == FirstTry(pending.live, first, k, TRIES)
      {
        var tag := nextTag;
        nextTag := (nextTag + 1) % TAGS;
        NthStep(first, k);
        if tag != NOTAG && tag !in pending.live {
          var key := pending.BeginRequest(tag);
          return Ok(tag);
        }
      }
      return Err(EDUPTAG);
    }

    method FlushTag(oldtag: Tag) returns (r: Result<Tag>)
      modifies this, pending
      ensures (State(), r) == RequestFlush(old(State()), oldtag)
    {
      if oldtag == NOTAG {
        return Err(EBADTAG);
      }
      r := AllocTag();
      if r.Ok? {
        flushTargets := flushTargets[r.value := oldtag];
      }
    }

    method VersionRequest(size: u32, variant: Variant) returns (m: TMessage)
      modifies this, pending
      ensures State() == RequestVersion(old(State()), size)
      ensures m == TVersion(NOTAG, size, WireName(variant))
    {
      pending.ResetTable();
      flushTargets := map[];
      version := UNKNOWN_VERSION;
      requestedMsize := Some(size);
      return TVersion(NOTAG, size, WireName(variant));
    }

    method AbandonTag(tag: Tag)
      modifies this, pending
      ensures State() == Abandon(old(State()), tag)
    {
      if tag == NOTAG {
        requestedMsize := None;
      } else {
        var _ := pending.FlushRequest(tag);
        flushTargets := flushTargets - {tag};
      }
    }

    method FinishTag(tag: Tag) returns (failure: Option<string>)
      modifies this, pending
      ensures match Settle(old(State()), tag)
              case Ok(c) => failure == None && State() == c
              case Err(e) => failure == Some(e) && State() == old(State())
    {
      var outcome := pending.FlushRequest(tag);
      failure := if outcome.Err? then Some(outcome.error)
                 else if outcome.value.Unknown? then Some(UNKNOWN_TAG) else None;
    }

    method ReceiveVersionReply(m: RMessage) returns (r: Result<Response>)
      requires m.RVersion?
      modifies this, pending
      ensures (State(), r) == ReceiveVersion(old(State()), m)
    {
      if m.tag != NOTAG {
        return Err("Rversion did not use NOTAG");
      }
      if requestedMsize.None? {
        return Err("unsolicited Rversion");
      }
      var requested := requestedMsize.value;
      requestedMsize := None;
      if m.msize < MIN_MSIZE || m.msize > requested {
        return Err("invalid negotiated msize");
      }
      msize, version := m.msize, m.version;
      pending.ResetTable();
      flushTargets := map[];
      return Ok(Completion(m));
    }

    method ReceiveErrorReply(m: RMessage) returns (r: Result<Response>)
      requires m.RError?
      modifies this, pending
      ensures (State(), r) == ReceiveError(old(State()), m)
    {
      if m.tag == NOTAG {
        if requestedMsize.None? {
          return Err(UNKNOWN_TAG);
        }
        requestedMsize := None;
      } else {
        var failure := FinishTag(m.tag);
        if failure.Some? {
          return Err(failure.value);
        }
      }
      flushTargets := flushTargets - {m.tag};
      return Ok(ErrorResponse(m.tag, m.ename));
    }

    method ReceiveReply(m: RMessage) returns (r: Result<Response>)
      modifies this, pending
      ensures (State(), r) == Receive(old(State()), m)
    {
      if m.RVersion? {
        r := ReceiveVersionReply(m);
        return;
      }
      if m.RError? {
        r := ReceiveErrorReply(m);
        return;
      }
      var failure := FinishTag(m.tag);
      if failure.Some? {
        return Err(failure.value);
      }
      if m.RFlush? {
        if m.tag in flushTargets {
          var oldtag := flushTargets[m.tag];
          flushTargets := flushTargets - {m.tag};
          var _ := pending.FlushRequest(oldtag);
        }
      } else if !IounitFits(msize, m) {
        return Err(IOUNIT_TOO_LARGE);
      }
      return Ok(Completion(m));
    }
  }
}
