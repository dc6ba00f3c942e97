/** Reading frames from a stream that delivers bytes in arbitrary pieces: `read_frame_checked` of
    crates/core/src/codec.rs. */
module Frames {
  import opened Prelude
  import opened Wire
  import opened Chunks
  import opened Messages
  import opened Codec
  import Layout

  // ----- The stream -----

  /** What the next call of `read` does. `Deliver(n)` gives at most `n` bytes, and at least one unless
      the stream has ended. */
  datatype Event = Deliver(n: nat) | Interrupted | ConnectionReset | BrokenPipe | Fault(message: string)

  predicate Calm(script: seq<Event>) {
    forall i :: 0 <= i < |script| ==> script[i].Deliver? || script[i].Interrupted?
  }

  /** A connection: the bytes still to come and how the coming reads behave. Once the script is used
      up every read delivers all it is asked for. */
  class Reader {
    var pending: seq<byte>
    var script: seq<Event>

    constructor (pending: seq<byte>, script: seq<Event>)
      ensures this.pending == pending && this.script == script
    {
      this.pending, this.script := pending, script;
    }

    /** One call of `read` into a buffer of `room` bytes. */
    method Read(room: nat) returns (event: Event, data: seq<byte>)
      requires room > 0
      modifies this
      ensures old(pending) == data + pending && |data| <= room
      ensures event.Deliver? ==> (data == [] <==> old(pending) == [])
      ensures !event.Deliver? ==> data == []
      ensures Calm(old(script)) ==> Calm(script) && (event.Deliver? || event.Interrupted?)
      ensures |script| < |old(script)| || (script == old(script) == [] && event.Deliver?)
    {
      event := Deliver(room);
      if script != [] {
        event := script[0];
        script := script[1..];
      }
      data := [];
      if event.Deliver? {
        var n := Min(Min(Max(event.n, 1), room), |pending|);
        data := pending[..n];
        pending := pending[n..];
      }
    }
  }

  // ----- One frame -----

  datatype Failure =
    | TruncatedSize
    | SizeFault(event: Event)
    | ShortFrame(size: nat)
    | LongFrame(size: nat)
    | BodyFault(event: Event)
    | BodyEnded

  datatype Outcome = Frame(frame: seq<byte>) | End | Failed(failure: Failure)

  /** What a frame reader sees in a stream, however the bytes arrive. */
  function NextFrame(stream: seq<byte>, max: nat): Outcome {
    if stream == [] then End
    else if |stream| < 4 then Failed(TruncatedSize)
    else
      var size := GetLE(stream[..4]);
      if size < HEADER then Failed(ShortFrame(size))
      else if size > max then Failed(LongFrame(size))
      else if |stream| < size then Failed(BodyEnded)
      else Frame(stream[..size])
  }

  predicate WellSized(frame: seq<byte>, max: nat) {
    HEADER <= |frame| <= max && GetLE(frame[..4]) == |frame|
  }

  /** A quiet end: the stream is over, or the peer went away. */
  /** A frame that is cut off is told apart from the end of the stream, and by where it is cut. */
  lemma CutFrame(frame: seq<byte>, max: nat, cut: nat)
    requires WellSized(frame, max) && 0 < cut < |frame|
    ensures NextFrame(frame[..cut], max) == Failed(if cut < 4 then TruncatedSize else BodyEnded)
  {
    if cut >= 4 {
      assert frame[..cut][..4] == frame[..4];
    }
  }

  predicate Gone(event: Event) {
    event.ConnectionReset? || event.BrokenPipe?
  }

  /** `read_exact`: fills a buffer of `n` bytes or fails. */
  method ReadExact(reader: Reader, n: nat) returns (data: seq<byte>, failure: Option<Failure>)
    modifies reader
    ensures old(reader.pending) == data + reader.pending && |data| <= n
    ensures |reader.script| <= |old(reader.script)|
    ensures failure == None <==> |data| == n
    ensures Calm(old(reader.script)) ==>
              Calm(reader.script) && (failure == None || (failure == Some(BodyEnded) && reader.pending == []))
    ensures failure == Some(BodyEnded) ==> reader.pending == []
    ensures failure.Some? ==> failure.value.BodyEnded? || failure.value.BodyFault?
  {
    data, failure := [], None;
    while |data| < n
      invariant old(reader.pending) == data + reader.pending && |data| <= n
      invariant |reader.script| <= |old(reader.script)|
      invariant Calm(old(reader.script)) ==> Calm(reader.script)
      decreases |reader.script| + (n - |data|)
    {
      var event, more := reader.Read(n - |data|);
      if event.Deliver? {
        if more == [] {
          failure := Some(BodyEnded);
          return;
        }
        data := data + more;
      } else if !event.Interrupted? {
        failure := Some(BodyFault(event));
        return;
      }
    }
  }

  /** The four size bytes: none at all on a quiet end at the very start. */
  method ReadSize(reader: Reader) returns (prefix: seq<byte>, stop: Option<Outcome>)
    modifies reader
    ensures old(reader.pending) == prefix + reader.pending && |prefix| <= 4
    ensures stop == None <==> |prefix| == 4
    ensures stop.Some? ==> stop.value == End || stop.value == Failed(TruncatedSize)
                           || (stop.value.Failed? && stop.value.failure.SizeFault?)
    ensures stop == Some(End) ==> prefix == []
    ensures stop == Some(Failed(TruncatedSize)) ==> prefix != [] && reader.pending == []
    ensures Calm(old(reader.script)) ==>
              && Calm(reader.script)
              && (stop.Some? ==>
                    reader.pending == [] && stop.value == (if prefix == [] then End else Failed(TruncatedSize)))
  {
    prefix, stop := [], None;
    while |prefix| < 4
      invariant old(reader.pending) == prefix + reader.pending && |prefix| <= 4
      invariant Calm(old(reader.script)) ==> Calm(reader.script)
      decreases |reader.script| + (4 - |prefix|)
    {
      var event, more := reader.Read(4 - |prefix|);
      if event.Deliver? {
        if more == [] {
          stop := Some(if prefix == [] then End else Failed(TruncatedSize));
          return;
        }
        prefix := prefix + more;
      } else if event.Interrupted? {
      } else if prefix == [] && Gone(event) {
        stop := Some(End);
        return;
      } else {
        stop := Some(Failed(SizeFault(event)));
        return;
      }
    }
  }

  /** `read_frame_checked`. A frame is read whole or not at all, the stream ends quietly only between
      frames, and without faults the outcome depends on the bytes alone. */
  method ReadFrame(reader: Reader, max: nat) returns (outcome: Outcome)
    modifies reader
    ensures outcome.Frame? ==>
              WellSized(outcome.frame, max) && old(reader.pending) == outcome.frame + reader.pending
    ensures outcome.End? ==> reader.pending == old(reader.pending)
    ensures Calm(old(reader.script)) ==> Calm(reader.script) && outcome == NextFrame(old(reader.pending), max)
  {
    ghost var stream := reader.pending;
    var prefix, stop := ReadSize(reader);
    if stop.Some? {
      return stop.value;
    }
    assert stream[..4] == prefix;
    var size := GetLE(prefix);
    if size < HEADER {
      return Failed(ShortFrame(size));
    }
    if size > max {
      return Failed(LongFrame(size));
    }
    var body, failure := ReadExact(reader, size - 4);
    assert stream == prefix + body + reader.pending;
    if failure.Some? {
      return Failed(failure.value);
    }
    assert (prefix + body)[..4] == prefix;
    assert stream[..size] == prefix + body;
    return Frame(prefix + body);
  }

  // ----- Many frames -----

  /** The frames of a stream and why no more follow. */
  function AllFrames(stream: seq<byte>, max: nat): (seq<seq<byte>>, Outcome)
    decreases |stream|
  {
    var next := NextFrame(stream, max);
    if next.Frame? then
      var (more, last) := AllFrames(stream[|next.frame|..], max);
      ([next.frame] + more, last)
    else ([], next)
  }

  predicate AllSized(frames: seq<seq<byte>>, max: nat) {
    forall i :: 0 <= i < |frames| ==> WellSized(frames[i], max)
  }

  lemma FirstFrame(frame: seq<byte>, rest: seq<byte>, max: nat)
    requires WellSized(frame, max)
    ensures NextFrame(frame + rest, max) == Frame(frame) && (frame + rest)[|frame|..] == rest
  {
    assert (frame + rest)[..4] == frame[..4];
    assert (frame + rest)[..|frame|] == frame;
  }

  /** Frames written back to back are read back one by one, and then comes the quiet end. */
  lemma {:induction false} BackToBack(frames: seq<seq<byte>>, max: nat)
    requires AllSized(frames, max)
    ensures AllFrames(Flatten(frames), max) == (frames, End)
  {
    if frames != [] {
      FirstFrame(frames[0], Flatten(frames[1..]), max);
      BackToBack(frames[1..], max);
      assert frames == [frames[0]] + frames[1..];
    }
  }

  /** A quiet end is met exactly at a frame boundary: when the stream is whole frames and no more. */
  lemma {:induction false} QuietEndIsBoundary(stream: seq<byte>, max: nat)
    ensures var (frames, last) := AllFrames(stream, max);
            && AllSized(frames, max)
            && Flatten(frames) <= stream
            && (last == End <==> Flatten(frames) == stream)
            && !last.Frame?
    decreases |stream|
  {
    var next := NextFrame(stream, max);
    if next.Frame? {
      var rest := stream[|next.frame|..];
      QuietEndIsBoundary(rest, max);
      var (more, last) := AllFrames(rest, max);
      assert stream == next.frame + rest;
      assert ([next.frame] + more)[1..] == more;
      assert next.frame[..4] == stream[..4];
    }
  }

  ghost function Before(frames: seq<seq<byte>>, r: (seq<seq<byte>>, Outcome)): (seq<seq<byte>>, Outcome) {
    (frames + r.0, r.1)
  }

  lemma {:induction false} AllFramesStep(stream: seq<byte>, max: nat, frames: seq<seq<byte>>,
                                         frame: seq<byte>, rest: seq<byte>)
    requires WellSized(frame, max) && stream == frame + rest
    ensures Before(frames, AllFrames(stream, max)) == Before(frames + [frame], AllFrames(rest, max))
  {
    FirstFrame(frame, rest, max);
    var (more, last) := AllFrames(rest, max);
    assert frames + ([frame] + more) == frames + [frame] + more;
  }

  /** A server's or client's receive loop. Whatever the pieces, the frames read are frames of the
      stream in order; without faults they are all of them. */
  method ReceiveAll(reader: Reader, max: nat) returns (frames: seq<seq<byte>>, last: Outcome)
    modifies reader
    ensures !last.Frame?
    ensures frames <= AllFrames(old(reader.pending), max).0
    ensures Calm(old(reader.script)) ==> (frames, last) == AllFrames(old(reader.pending), max)
  {
    frames := [];
    ghost var goal := AllFrames(reader.pending, max);
    assert [] + goal.0 == goal.0;
    while true
      invariant goal == Before(frames, AllFrames(reader.pending, max))
      invariant Calm(old(reader.script)) ==> Calm(reader.script)
      decreases |reader.pending|
    {
      ghost var stream := reader.pending;
      last := ReadFrame(reader, max);
      if !last.Frame? {
        assert frames <= goal.0;
        assert Calm(old(reader.script)) ==> frames + [] == frames;
        return;
      }
      AllFramesStep(stream, max, frames, last.frame, reader.pending);
      frames := frames + [last.frame];
    }
  }

  // ----- Messages over the stream -----

  /** A sealed frame passes the size checks of a reader that allows its length. */
  lemma SealedIsSized(f: Format, p: Parts, max: nat)
    requires PartsFit(f, p) && Seal(f, p).Ok? && |Seal(f, p).value| <= max
    ensures WellSized(Seal(f, p).value, max)
  {
    var fields, tail := PutAll(f.kinds, p.values).value, PutTail(f.tail, p.tail).value;
    HeaderReads(HEADER + |fields| + |tail|, p.mtype, p.tag, fields + tail);
  }

  /** `encode_tmessage_checked` succeeds on every message. */
  predicate Sendable(ms: seq<TMessage>, msize: nat) {
    forall i :: 0 <= i < |ms| ==> EncodeT(ms[i]).Ok? && |EncodeT(ms[i]).value| <= msize
  }

  function Sent(ms: seq<TMessage>, msize: nat): (frames: seq<seq<byte>>)
    requires Sendable(ms, msize)
    ensures |frames| == |ms|
  {
    seq(|ms|, i requires 0 <= i < |ms| => EncodeT(ms[i]).value)
  }

  /** Requests sent within the negotiated size arrive: the receiver finds the same frames, decodes each
      to the request that was sent, and then meets the quiet end. */
  lemma RequestsArrive(ms: seq<TMessage>, msize: nat)
    requires Sendable(ms, msize)
    ensures AllFrames(Flatten(Sent(ms, msize)), msize) == (Sent(ms, msize), End)
    ensures forall i :: 0 <= i < |ms| ==> DecodeT(Sent(ms, msize)[i]) == Ok(ms[i])
  {
    forall i | 0 <= i < |ms|
      ensures WellSized(Sent(ms, msize)[i], msize) && DecodeT(Sent(ms, msize)[i]) == Ok(ms[i])
    {
      RequestArrives(ms[i], msize);
    }
    BackToBack(Sent(ms, msize), msize);
  }

  lemma RequestArrives(m: TMessage, msize: nat)
    requires EncodeT(m).Ok? && |EncodeT(m).value| <= msize
    ensures WellSized(EncodeT(m).value, msize) && DecodeT(EncodeT(m).value) == Ok(m)
  {
    TPartsFit(m);
    SealedIsSized(TFormat(TParts(m).mtype).value, TParts(m), msize);
    TRoundTrip(m);
  }

  lemma ReplyArrives(m: RMessage, msize: nat)
    requires EncodeR(m).Ok? && |EncodeR(m).value| <= msize
    ensures WellSized(EncodeR(m).value, msize) && DecodeR(EncodeR(m).value) == Ok(m)
  {
    RPartsRoundTrip(m);
    SealedIsSized(RFormat(RParts(m).mtype).value, RParts(m), msize);
    RRoundTrip(m);
  }

  // ----- Counts that keep frames within the agreed size -----

  const RREAD_HEADER_SIZE: nat := 11
  const TWRITE_HEADER_SIZE: nat := 23

  /** `clamp_read_count`. */
  function ClampReadCount(msize: nat, requested: nat): nat {
    Min(requested, Max(msize - RREAD_HEADER_SIZE, 0))
  }

  /** `max_write_payload`. */
  function MaxWritePayload(msize: nat): nat {
    Max(msize - TWRITE_HEADER_SIZE, 0)
  }

  /** A reply with a clamped count of bytes fits the agreed size, whenever an empty one does. */
  lemma ClampedReadFits(msize: nat, requested: nat, tag: u16, data: seq<byte>)
    requires RREAD_HEADER_SIZE <= msize <= U32_MAX && |data| <= ClampReadCount(msize, requested)
    ensures EncodeR(RRead(tag, data)).Ok? && WellSized(EncodeR(RRead(tag, data)).value, msize)
  {
    var m := RRead(tag, data);
    RPartsRoundTrip(m);
    Widths();
    SealedIsSized(RFormat(117).value, RParts(m), msize);
  }

  /** So does a request that writes at most the largest payload. */
  lemma LargestWriteFits(msize: nat, tag: u16, fid: u32, offset: u64, data: seq<byte>)
    requires TWRITE_HEADER_SIZE <= msize <= U32_MAX && |data| <= MaxWritePayload(msize)
    ensures EncodeT(TWrite(tag, fid, offset, data)).Ok?
    ensures WellSized(EncodeT(TWrite(tag, fid, offset, data)).value, msize)
  {
    var m := TWrite(tag, fid, offset, data);
    TPartsFit(m);
    Widths();
    WriteFieldsSize(fid, offset);
    SealedIsSized(TFormat(118).value, TParts(m), msize);
  }

  /** Neither count could be larger. */
  lemma ClampIsLargest(msize: nat, requested: nat, tag: u16, data: seq<byte>)
    requires RREAD_HEADER_SIZE <= msize <= U32_MAX && |data| <= requested
    requires EncodeR(RRead(tag, data)).Ok? && |EncodeR(RRead(tag, data)).value| <= msize
    ensures |data| <= ClampReadCount(msize, requested)
  {
    Layout.ReplyAsInManual(RRead(tag, data));
  }

  lemma LargestWriteIsLargest(msize: nat, tag: u16, fid: u32, offset: u64, data: seq<byte>)
    requires TWRITE_HEADER_SIZE <= msize <= U32_MAX
    requires EncodeT(TWrite(tag, fid, offset, data)).Ok? && |EncodeT(TWrite(tag, fid, offset, data)).value| <= msize
    ensures |data| <= MaxWritePayload(msize)
  {
    Layout.RequestAsInManual(TWrite(tag, fid, offset, data));
  }

  lemma WriteFieldsSize(fid: u32, offset: u64)
    requires AllFit([U32, U64], [Num(fid), Num(offset)])
    ensures var r := PutAll([U32, U64], [Num(fid), Num(offset)]); r.Ok? && |r.value| == 12
  {
    assert [U32, U64][1..] == [U64] && [Num(fid), Num(offset)][1..] == [Num(offset)];
    assert [U64][1..] == [] && [Num(offset)][1..] == [];
    assert Fits([U32, U64][1], [Num(fid), Num(offset)][1]);
    assert PutAll([U64], [Num(offset)]) == Ok(PutLE(offset, 8) + []);
  }
}
