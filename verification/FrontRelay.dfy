/** The relay request tables of crates/front/src/model.rs: requests a session hands to the owner of a
    path, and the replies the owner puts into their slots. */
module FrontRelay {
  import opened Prelude
  import opened Paths

  type RequestId = nat

  datatype Reply =
    | Accepted(bytes: seq<byte>)
    | DirectoryAccepted(names: seq<Name>, eof: bool)
    | Rejected(message: string)

  datatype Request = Request(id: RequestId, prefix: string, bytes: seq<byte>)

  datatype Relay = Relay(
    responses: map<RequestId, Option<Reply>>,
    prefixes: map<RequestId, string>,
    directories: set<RequestId>,
    pending: seq<Request>,
    next: RequestId)

  const COMPLETED := "request already completed"
  const NEEDS_DIRECTORY := "directory request requires directory completion"
  const DIRECTORY_AS_FILE := "directory response used as a file response"
  const FILE_AS_DIRECTORY := "file response used as a directory response"
  const BAD_CHILD := "invalid directory response child name"

  function NewRelay(): Relay {
    Relay(map[], map[], {}, [], 1)
  }

  /** `normalise_request_prefix`. */
  function Normalised(prefix: string): Result<string> {
    if Trim(prefix) == "" then Err(EPERM) else Ok(Trim(prefix))
  }

  // ----- Requests -----

  /** A new response slot and its request. */
  function Submit(r: Relay, directory: bool, prefix: string, bytes: seq<byte>): Relay {
    Relay(r.responses[r.next := None], r.prefixes[r.next := prefix],
          if directory then r.directories + {r.next} else r.directories,
          r.pending + [Request(r.next, prefix, bytes)], r.next + 1)
  }

  /** A request answered through another table: it takes an id and waits in the queue. */
  function SubmitElsewhere(r: Relay, queued: bool, prefix: string, bytes: seq<byte>): Relay {
    r.(pending := if queued then r.pending + [Request(r.next, prefix, bytes)] else r.pending, next := r.next + 1)
  }

  function Without(pending: seq<Request>, id: RequestId): seq<Request> {
    if pending == [] then []
    else if pending[0].id == id then Without(pending[1..], id)
    else [pending[0]] + Without(pending[1..], id)
  }

  /** `remove_response_request`. */
  function Withdraw(r: Relay, id: RequestId): Relay {
    r.(responses := r.responses - {id}, prefixes := r.prefixes - {id}, directories := r.directories - {id},
       pending := Without(r.pending, id))
  }

  /** The first request under a prefix, or none. */
  function FirstUnder(pending: seq<Request>, prefix: string): Option<nat> {
    if pending == [] then None
    else if pending[0].prefix == prefix then Some(0)
    else
      match FirstUnder(pending[1..], prefix)
      case None => None
      case Some(i) => Some(i + 1)
  }

  lemma {:induction false} FirstUnderIsFirst(pending: seq<Request>, prefix: string)
    ensures match FirstUnder(pending, prefix)
            case None => forall j :: 0 <= j < |pending| ==> pending[j].prefix != prefix
            case Some(i) => i < |pending| && pending[i].prefix == prefix &&
                            forall j :: 0 <= j < i ==> pending[j].prefix != prefix
  {
    if pending != [] && pending[0].prefix != prefix {
      FirstUnderIsFirst(pending[1..], prefix);
      forall j | 0 < j < |pending|
        ensures pending[j] == pending[1..][j - 1]
      {
      }
    }
  }

  /** `pop_pending_for_prefix`. */
  function Pop(r: Relay, prefix: string): (Relay, Option<Request>) {
    match FirstUnder(r.pending, prefix)
    case None => (r, None)
    case Some(i) =>
      if i < |r.pending| then
        (r.(pending := r.pending[..i] + r.pending[i + 1..]), Some(r.pending[i]))
      else (r, None)
  }

  // ----- Replies -----

  function Fill(r: Relay, id: RequestId, reply: Reply): Relay {
    r.(responses := r.responses[id := Some(reply)])
  }

  /** `complete_request`, the part that answers a response slot. Without a slot the reply is a file
      under the intake prefix, which does not concern these tables. */
  function Complete(r: Relay, prefix: string, id: RequestId, bytes: seq<byte>, intakes: set<string>)
    : (Relay, Result<()>)
  {
    if id in r.responses then
      if id in r.directories then (r, Err(NEEDS_DIRECTORY))
      else
        match Normalised(prefix)
        case Err(e) => (r, Err(e))
        case Ok(trimmed) =>
          if !(id in r.prefixes && r.prefixes[id] == trimmed) then (r, Err(ENOENT))
          else if r.responses[id].Some? then (r, Err(COMPLETED))
          else (Fill(r, id, Accepted(bytes)), Ok(()))
    else if Trim(prefix) !in intakes then (r, Err(ENOENT))
    else (r, Ok(()))
  }

  predicate ValidChild(name: Name) {
    name != "" && name != "." && name != ".." && '/' !in name && |name| <= U16_MAX
  }

  /** `complete_directory_request`. */
  function CompleteDirectory(r: Relay, prefix: string, id: RequestId, names: seq<Name>, eof: bool)
    : (Relay, Result<()>)
  {
    if exists i :: 0 <= i < |names| && !ValidChild(names[i]) then (r, Err(BAD_CHILD))
    else
      match Normalised(prefix)
      case Err(e) => (r, Err(e))
      case Ok(trimmed) =>
        if !(id in r.prefixes && r.prefixes[id] == trimmed) || id !in r.directories then (r, Err(ENOENT))
        else if id !in r.responses then (r, Err(ENOENT))
        else if r.responses[id].Some? then (r, Err(COMPLETED))
        else (Fill(r, id, DirectoryAccepted(names, eof)), Ok(()))
  }

  /** `reject_request`. */
  function Reject(r: Relay, prefix: string, id: RequestId, message: string): (Relay, Result<()>) {
    match Normalised(prefix)
    case Err(e) => (r, Err(e))
    case Ok(trimmed) =>
      if !(id in r.prefixes && r.prefixes[id] == trimmed) then (r, Err(ENOENT))
      else if id !in r.responses then (r, Err(ENOENT))
      else if r.responses[id].Some? then (r, Err(COMPLETED))
      else (Fill(r, id, Rejected(message)), Ok(()))
  }

  // ----- Waiting readers -----

  /** What a reader sees when it looks at its slot once: a result, or that it has to wait on. */
  datatype Look<T> = Wait | Done(result: Result<T>)

  /** `read_rpc`, one pass of the loop. */
  function LookFile(r: Relay, id: RequestId, offset: nat, count: nat): Look<seq<byte>> {
    if id !in r.responses then Done(Err(ENOENT))
    else
      match r.responses[id]
      case None => Wait
      case Some(Accepted(bytes)) =>
        var start := Min(offset, |bytes|);
        Done(Ok(bytes[start..Min(start + count, |bytes|)]))
      case Some(DirectoryAccepted(_, _)) => Done(Err(DIRECTORY_AS_FILE))
      case Some(Rejected(message)) => Done(Err(message))
  }

  /** `directory_response`, one pass of the loop. */
  function LookDirectory(r: Relay, id: RequestId): Look<(seq<Name>, bool)> {
    if id !in r.responses then Done(Err(ENOENT))
    else
      match r.responses[id]
      case None => Wait
      case Some(DirectoryAccepted(names, eof)) => Done(Ok((names, eof)))
      case Some(Rejected(message)) => Done(Err(message))
      case Some(Accepted(_)) => Done(Err(FILE_AS_DIRECTORY))
  }

  class RelayTables {
    var responses: map<RequestId, Option<Reply>>
    var prefixes: map<RequestId, string>
    var directories: set<RequestId>
    var pending: seq<Request>
    var next: RequestId

    ghost function View(): Relay
      reads this
    {
      Relay(responses, prefixes, directories, pending, next)
    }

    constructor ()
      ensures View() == NewRelay()
    {
      responses, prefixes, directories, pending, next := map[], map[], {}, [], 1;
    }

    method SubmitRequest(directory: bool, prefix: string, bytes: seq<byte>) returns (id: RequestId)
      modifies this
      ensures id == old(next) && View() == Submit(old(View()), directory, prefix, bytes)
    {
      id := next;
      next := next + 1;
      responses := responses[id := None];
      prefixes := prefixes[id := prefix];
      if directory {
        directories := directories + {id};
      }
      pending := pending + [Request(id, prefix, bytes)];
    }

    method RemovePendingRequest(id: RequestId)
      modifies this`pending
      ensures pending == Without(old(pending), id)
    {
      var kept: seq<Request> := [];
      assert pending[0..] == pending;
      for i := 0 to |pending|
        invariant kept + Without(pending[i..], id) == Without(pending, id)
      {
        assert pending[i..][0] == pending[i] && pending[i..][1..] == pending[i + 1..];
        if pending[i].id != id {
          kept := kept + [pending[i]];
        }
      }
      assert kept + [] == kept;
      pending := kept;
    }

    method RemoveResponseRequest(id: RequestId)
      modifies this
      ensures View() == Withdraw(old(View()), id)
    {
      responses := responses - {id};
      prefixes := prefixes - {id};
      directories := directories - {id};
      RemovePendingRequest(id);
    }

    method PopPendingForPrefix(prefix: string) returns (request: Option<Request>)
      modifies this
      ensures (View(), request) == Pop(old(View()), prefix)
    {
      FirstUnderIsFirst(pending, prefix);
      for i := 0 to |pending|
        invariant View() == old(View())
        invariant forall j :: 0 <= j < i ==> pending[j].prefix != prefix
      {
        if pending[i].prefix == prefix {
          request := Some(pending[i]);
          pending := pending[..i] + pending[i + 1..];
          return;
        }
      }
      return None;
    }

    method CompleteRequest(prefix: string, id: RequestId, bytes: seq<byte>, intakes: set<string>)
      returns (r: Result<()>)
      modifies this
      ensures (View(), r) == Complete(old(View()), prefix, id, bytes, intakes)
    {
      if id in responses {
        if id in directories {
          return Err(NEEDS_DIRECTORY);
        }
        var trimmed := Normalised(prefix);
        if trimmed.Err? {
          return Err(trimmed.error);
        }
        if !(id in prefixes && prefixes[id] == trimmed.value) {
          return Err(ENOENT);
        }
        if responses[id].Some? {
          return Err(COMPLETED);
        }
        responses := responses[id := Some(Accepted(bytes))];
        return Ok(());
      }
      return if Trim(prefix) in intakes then Ok(()) else Err(ENOENT);
    }

    method CompleteDirectoryRequest(prefix: string, id: RequestId, names: seq<Name>, eof: bool)
      returns (r: Result<()>)
      modifies this
      ensures (View(), r) == CompleteDirectory(old(View()), prefix, id, names, eof)
    {
      for i := 0 to |names|
        invariant View() == old(View())
        invariant forall j :: 0 <= j < i ==> ValidChild(names[j])
      {
        if !ValidChild(names[i]) {
          return Err(BAD_CHILD);
        }
      }
      var trimmed := Normalised(prefix);
      if trimmed.Err? {
        return Err(trimmed.error);
      }
      if !(id in prefixes && prefixes[id] == trimmed.value) || id !in directories || id !in responses {
        return Err(ENOENT);
      }
      if responses[id].Some? {
        return Err(COMPLETED);
      }
      responses := responses[id := Some(DirectoryAccepted(names, eof))];
      return Ok(());
    }

    method RejectRequest(prefix: string, id: RequestId, message: string) returns (r: Result<()>)
      modifies this
      ensures (View(), r) == Reject(old(View()), prefix, id, message)
    {
      var trimmed := Normalised(prefix);
      if trimmed.Err? {
        return Err(trimmed.error);
      }
      if !(id in prefixes && prefixes[id] == trimmed.value) || id !in responses {
        return Err(ENOENT);
      }
      if responses[id].Some? {
        return Err(COMPLETED);
      }
      responses := responses[id := Some(Rejected(message))];
      return Ok(());
    }
  }
}
