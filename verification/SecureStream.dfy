/** The encrypted record stream: crates/auth/src/stream.rs. The cipher is a pair of functions with the
    properties of an ideal one; the transport is the connection of `Frames`. */
module SecureStream {
  import opened Prelude
  import opened Chunks
  import opened Frames

  const AUTH_TAG_BYTES: nat := 16
  const MAX_CIPHERTEXT_BYTES: nat := U16_MAX
  const MAX_PLAINTEXT_BYTES: nat := MAX_CIPHERTEXT_BYTES - AUTH_TAG_BYTES

  type Seal = (nat, seq<byte>) -> seq<byte>
  type Unseal = (nat, seq<byte>) -> Option<seq<byte>>

  /** A ciphertext is its plaintext and a tag. */
  ghost predicate Tagged(seal: Seal) {
    forall nonce: nat, plaintext :: |seal(nonce, plaintext)| == |plaintext| + AUTH_TAG_BYTES
  }

  /** What was sent opens under its own nonce. */
  ghost predicate Opens(seal: Seal, unseal: Unseal, sealed: seq<seq<byte>>) {
    forall nonce :: 0 <= nonce < |sealed| ==> unseal(nonce, seal(nonce, sealed[nonce])) == Some(sealed[nonce])
  }

  /** Nothing opens but what was sent: under nonce `n`, only the n-th record. */
  ghost predicate Authentic(unseal: Unseal, sealed: seq<seq<byte>>) {
    forall nonce: nat, ciphertext :: unseal(nonce, ciphertext).Some? ==>
      nonce < |sealed| && unseal(nonce, ciphertext).value == sealed[nonce]
  }

  // ----- Records on the wire -----

  /** A two-byte big-endian length and the ciphertext. */
  function Record(ciphertext: seq<byte>): seq<byte>
    requires |ciphertext| <= MAX_CIPHERTEXT_BYTES
  {
    [|ciphertext| / 256, |ciphertext| % 256] + ciphertext
  }

  predicate Fits(records: seq<seq<byte>>) {
    forall i :: 0 <= i < |records| ==> 0 < |records[i]| <= MAX_PLAINTEXT_BYTES
  }

  /** The records from number `i` on, each sealed under its own number. */
  ghost function WireFrom(seal: Seal, records: seq<seq<byte>>, i: nat): seq<byte>
    requires Tagged(seal) && Fits(records) && i <= |records|
    decreases |records| - i
  {
    if i == |records| then [] else Record(seal(i, records[i])) + WireFrom(seal, records, i + 1)
  }

  lemma {:induction false} WireSnoc(seal: Seal, records: seq<seq<byte>>, p: seq<byte>, i: nat)
    requires Tagged(seal) && Fits(records) && i <= |records| && 0 < |p| <= MAX_PLAINTEXT_BYTES
    ensures Fits(records + [p])
    ensures WireFrom(seal, records + [p], i) == WireFrom(seal, records, i) + Record(seal(|records|, p))
    decreases |records| - i
  {
    var more := records + [p];
    if i == |records| {
      assert WireFrom(seal, more, i + 1) == [];
      assert Record(seal(i, p)) + [] == [] + Record(seal(i, p));
    } else {
      WireSnoc(seal, records, p, i + 1);
      assert more[i] == records[i];
    }
  }

  // ----- Writing -----

  class SecureWriter {
    const seal: Seal
    var nonce: nat
    var wire: seq<byte>
    var shut: bool

    /** The plaintexts of the records sent whole. */
    ghost var sent: seq<seq<byte>>

    ghost predicate Valid()
      reads this
    {
      && Tagged(seal) && Fits(sent)
      && |sent| <= nonce <= U64_MAX
      && WireFrom(seal, sent, 0) <= wire
      && (!shut ==> nonce == |sent| && wire == WireFrom(seal, sent, 0))
    }

    constructor (seal: Seal)
      requires Tagged(seal)
      ensures Valid() && this.seal == seal && nonce == 0 && wire == [] && sent == [] && !shut
    {
      this.seal, nonce, wire, shut, sent := seal, 0, [], false, [];
    }

    /** One `write`. The transport takes the whole record, or fails after `broken.value` bytes of it.
        What is counted as written is one record sealed under a nonce never used before; whatever reaches
        the wire is the beginning of that record, and after a failure nothing follows it. */
    method Write(input: seq<byte>, broken: Option<nat>) returns (r: Result<nat>)
      requires Valid()
      modifies this
      ensures Valid() && nonce >= old(nonce) && (old(shut) ==> shut && wire == old(wire))
      ensures r.Err? ==> sent == old(sent) && shut
      ensures r.Ok? ==> r.value == Min(|input|, MAX_PLAINTEXT_BYTES) && shut == old(shut)
                        && sent == (if input == [] then old(sent) else old(sent) + [input[..r.value]])
      ensures wire != old(wire) ==>
                var n := Min(|input|, MAX_PLAINTEXT_BYTES);
                && nonce == old(nonce) + 1
                && old(wire) <= wire && wire[|old(wire)|..] <= Record(seal(old(nonce), input[..n]))
      ensures !old(shut) && broken == None && old(nonce) < U64_MAX ==> r.Ok?
    {
      if input == [] {
        return Ok(0);
      }
      var count: nat := Min(|input|, MAX_PLAINTEXT_BYTES);
      var ciphertext := seal(nonce, input[..count]);
      var record := Record(ciphertext);
      if nonce == U64_MAX {
        shut := true;
        return Err("encrypted 9P session exhausted its record nonce");
      }
      nonce := nonce + 1;
      if shut {
        return Err("transport is shut down");
      }
      if broken.Some? && broken.value < |record| {
        wire := wire + record[..broken.value];
        shut := true;
        return Err("transport failed");
      }
      WireSnoc(seal, sent, input[..count], 0);
      sent := sent + [input[..count]];
      wire := wire + record;
      return Ok(count);
    }

    /** `write_all`: writes until nothing is left. */
    method WriteAll(input: seq<byte>) returns (ok: bool)
      requires Valid()
      modifies this
      ensures Valid()
      ensures ok ==> Flatten(sent) == old(Flatten(sent)) + input && shut == old(shut)
      ensures !old(shut) && old(nonce) + |input| <= U64_MAX ==> ok && nonce <= old(nonce) + |input|
    {
      var done: nat := 0;
      while done < |input|
        invariant Valid() && done <= |input| && shut == old(shut)
        invariant Flatten(sent) == old(Flatten(sent)) + input[..done]
        invariant !old(shut) ==> nonce <= old(nonce) + done
      {
        var rest := input[done..];
        ghost var before := sent;
        var n := Write(rest, None);
        if n.Err? {
          return false;
        }
        FlattenAppend(before, rest[..n.value]);
        assert input[..done + n.value] == input[..done] + rest[..n.value];
        done := done + n.value;
      }
      assert input[..done] == input;
      return true;
    }
  }

  // ----- Reading -----

  datatype ReadResult = Data(bytes: seq<byte>) | ReadFailed

  class SecureReader {
    const unseal: Unseal
    const transport: Reader
    var nonce: nat
    var plaintext: seq<byte>
    var offset: nat
    var shut: bool

    /** All bytes handed out so far. */
    ghost var delivered: seq<byte>

    constructor (unseal: Unseal, transport: Reader)
      ensures this.unseal == unseal && this.transport == transport
      ensures nonce == 0 && plaintext == [] && offset == 0 && delivered == [] && !shut
    {
      this.unseal, this.transport := unseal, transport;
      nonce, plaintext, offset, delivered, shut := 0, [], 0, [], false;
    }

    /** What was handed out, and what of the current record was not, are the records opened so far. */
    ghost predicate Valid(sealed: seq<seq<byte>>)
      reads this
    {
      && Authentic(unseal, sealed) && nonce <= |sealed| && nonce <= U64_MAX && offset <= |plaintext|
      && delivered + plaintext[offset..] == Flatten(sealed[..nonce])
    }

    /** The transport still holds exactly the records not read yet, and no read of it will fail. */
    ghost predicate Honest(seal: Seal, sealed: seq<seq<byte>>)
      reads this, transport
    {
      && Tagged(seal) && Opens(seal, unseal, sealed) && Fits(sealed) && nonce <= |sealed| < U64_MAX
      && Calm(transport.script)
      && transport.pending == WireFrom(seal, sealed, nonce)
    }

    /** Reads and opens the next record. One that is too short, that does not open or that comes after
        the last nonce shuts the transport down. */
    method ReadRecord(ghost seal: Seal, ghost sealed: seq<seq<byte>>) returns (r: RecordResult)
      requires Valid(sealed) && offset == |plaintext|
      modifies this, transport
      ensures Valid(sealed) && delivered == old(delivered) && |transport.script| <= old(|transport.script|)
      ensures r.Opened? ==>
                && nonce == old(nonce) + 1 && offset == 0 && plaintext == sealed[old(nonce)]
                && |transport.pending| < old(|transport.pending|)
      ensures !r.Opened? ==> nonce == old(nonce) && plaintext == old(plaintext) && offset == old(offset)
      ensures r.StreamEnded? ==> transport.pending == old(transport.pending) == []
      ensures shut == (old(shut) || r.RecordRefused?)
      ensures old(Honest(seal, sealed)) ==>
                && Honest(seal, sealed) && !r.RecordRefused?
                && (r.RecordFailed? ==> |transport.script| < old(|transport.script|))
                && (r.StreamEnded? ==> nonce == |sealed|)
    {
      ghost var honest := Honest(seal, sealed);
      if honest {
        NextRecord(seal, sealed, nonce);
      }
      var outcome, ciphertext := ReadCiphertext(transport,
        if honest && nonce < |sealed| then Some(seal(nonce, sealed[nonce])) else None,
        if honest && nonce < |sealed| then WireFrom(seal, sealed, nonce + 1) else []);
      if !outcome.Opened? {
        shut := shut || outcome.RecordRefused?;
        return outcome;
      }
      var message := unseal(nonce, ciphertext);
      if message.None? || nonce == U64_MAX {
        shut := true;
        return RecordRefused;
      }
      FlattenSnoc(sealed, nonce);
      plaintext, offset, nonce := message.value, 0, nonce + 1;
      assert plaintext[0..] == plaintext;
      return Opened;
    }

    /** Copies what fits from the current record. */
    method HandOut(room: nat, ghost sealed: seq<seq<byte>>) returns (bytes: seq<byte>)
      requires Valid(sealed) && offset < |plaintext| && room > 0
      modifies this
      ensures Valid(sealed) && bytes != [] && |bytes| <= room && delivered == old(delivered) + bytes
      ensures nonce == old(nonce) && shut == old(shut)
    {
      var count: nat := Min(room, |plaintext| - offset);
      bytes := plaintext[offset..offset + count];
      assert plaintext[offset..] == bytes + plaintext[offset + count..];
      delivered := delivered + bytes;
      offset := offset + count;
      if offset == |plaintext| {
        plaintext, offset := [], 0;
      }
    }

    /** One `read` into a buffer of `room` bytes. Whatever arrives on the transport, the bytes handed out
        are the beginning of the bytes written; a nonempty buffer is left empty only at the end. */
    method Read(room: nat, ghost seal: Seal, ghost sealed: seq<seq<byte>>) returns (r: ReadResult)
      requires Valid(sealed)
      modifies this, transport
      ensures Valid(sealed) && delivered <= Flatten(sealed)
      ensures r.Data? ==> delivered == old(delivered) + r.bytes && |r.bytes| <= room
      ensures r.ReadFailed? ==> delivered == old(delivered)
      ensures r == Data([]) && room > 0 ==> transport.pending == []
      ensures old(Honest(seal, sealed)) ==>
                && Honest(seal, sealed)
                && (r.ReadFailed? ==> |transport.script| < old(|transport.script|))
                && |transport.script| <= old(|transport.script|)
                && (r == Data([]) && room > 0 ==> delivered == Flatten(sealed))
                && shut == old(shut)
    {
      if room == 0 {
        HandedOut(sealed);
        assert delivered + [] == delivered;
        return Data([]);
      }
      while true
        invariant Valid(sealed) && delivered == old(delivered)
        invariant old(Honest(seal, sealed)) ==>
                    Honest(seal, sealed) && |transport.script| <= old(|transport.script|) && shut == old(shut)
        decreases |transport.pending|
      {
        if offset < |plaintext| {
          var bytes := HandOut(room, sealed);
          HandedOut(sealed);
          return Data(bytes);
        }
        var record := ReadRecord(seal, sealed);
        if record.RecordFailed? || record.RecordRefused? {
          HandedOut(sealed);
          return ReadFailed;
        }
        if record.StreamEnded? {
          HandedOut(sealed);
          assert delivered + [] == delivered;
          assert nonce == |sealed| ==> sealed[..nonce] == sealed;
          return Data([]);
        }
      }
    }

    lemma HandedOut(sealed: seq<seq<byte>>)
      requires Valid(sealed)
      ensures delivered <= Flatten(sealed)
    {
      FlattenSplit(sealed, nonce);
    }
  }

  /** A record that cannot be one is refused; any other trouble is the transport's. */
  datatype RecordResult = Opened | StreamEnded | RecordFailed | RecordRefused

  function BigEndian(high: byte, low: byte): nat {
    var h: nat := high;
    h * 256 + low
  }

  /** Takes one record off the transport. The length comes in two steps, so that an end of stream before
      its first byte is told from one inside a record. A whole record at the front is taken whole, or,
      when the first step is interrupted, not at all. */
  method ReadCiphertext(transport: Reader, ghost whole: Option<seq<byte>>, ghost rest: seq<byte>)
    returns (r: RecordResult, ciphertext: seq<byte>)
    requires whole.Some? ==> AUTH_TAG_BYTES <= |whole.value| <= MAX_CIPHERTEXT_BYTES
                             && transport.pending == Record(whole.value) + rest && Calm(transport.script)
    modifies transport
    ensures |transport.script| <= old(|transport.script|)
    ensures Calm(old(transport.script)) ==> Calm(transport.script)
    ensures r.Opened? ==> |transport.pending| < old(|transport.pending|)
    ensures r.StreamEnded? ==> transport.pending == old(transport.pending) == []
    ensures whole.Some? ==>
              && !r.StreamEnded? && !r.RecordRefused?
              && (r.Opened? ==> ciphertext == whole.value && transport.pending == rest)
              && (r.RecordFailed? ==>
                    transport.pending == old(transport.pending) && |transport.script| < old(|transport.script|))
    ensures Calm(old(transport.script)) && old(transport.pending) == [] ==>
              r.StreamEnded? || (r.RecordFailed? && |transport.script| < old(|transport.script|))
    ensures old(transport.pending) == [] ==> transport.pending == [] && !r.Opened?
    ensures r.RecordRefused? ==>
              var wire := old(transport.pending); |wire| >= 2 && BigEndian(wire[0], wire[1]) < AUTH_TAG_BYTES
  {
    ciphertext := [];
    ghost var wire := transport.pending;
    var event, high := transport.Read(1);
    if !event.Deliver? {
      return RecordFailed, [];
    }
    if high == [] {
      return StreamEnded, [];
    }
    var low, failure := ReadExact(transport, 1);
    assert wire == high + low + transport.pending;
    if failure.Some? {
      assert whole.None?;
      return RecordFailed, [];
    }
    var size := BigEndian(high[0], low[0]);
    assert high == [wire[0]] && low == [wire[1]] && transport.pending == wire[2..];
    if whole.Some? {
      assert wire[2..] == whole.value + rest;
      assert size == |whole.value|;
    }
    if size < AUTH_TAG_BYTES {
      return RecordRefused, [];
    }
    ghost var body := transport.pending;
    var bytes, failure' := ReadExact(transport, size);
    if failure'.Some? {
      assert whole.None?;
      return RecordFailed, [];
    }
    assert bytes == body[..size] && transport.pending == body[size..];
    assert whole.Some? ==> body[..size] == whole.value && body[size..] == rest;
    return Opened, bytes;
  }

  /** What the wire begins with while records are left. */
  lemma NextRecord(seal: Seal, sealed: seq<seq<byte>>, i: nat)
    requires Tagged(seal) && Fits(sealed) && i <= |sealed|
    ensures i == |sealed| ==> WireFrom(seal, sealed, i) == []
    ensures i < |sealed| ==>
              && AUTH_TAG_BYTES <= |seal(i, sealed[i])| <= MAX_CIPHERTEXT_BYTES
              && WireFrom(seal, sealed, i) == Record(seal(i, sealed[i])) + WireFrom(seal, sealed, i + 1)
  {
  }

  /** Reads what a writer has put on the wire, with buffers of any sizes, until a read gives nothing;
      interrupted reads are tried again. All that was written comes out, and nothing else. */
  method ReadToEnd(writer: SecureWriter, unseal: Unseal, sizes: nat -> nat, script: seq<Event>)
    returns (output: seq<byte>)
    requires writer.Valid() && !writer.shut && |writer.sent| < U64_MAX
    requires Opens(writer.seal, unseal, writer.sent) && Authentic(unseal, writer.sent) && Calm(script)
    requires forall n :: sizes(n) > 0
    ensures output == Flatten(writer.sent)
  {
    var transport := new Reader(writer.wire, script);
    var reader := new SecureReader(unseal, transport);
    ghost var seal, sealed := writer.seal, writer.sent;
    output := [];
    var n: nat := 0;
    while true
      invariant reader.Valid(sealed) && reader.Honest(seal, sealed) && reader.delivered == output
      invariant fresh(reader) && fresh(transport) && reader.transport == transport
      decreases |Flatten(sealed)| - |output|, |transport.script|
    {
      var r := reader.Read(sizes(n), seal, sealed);
      if r == Data([]) {
        return;
      }
      if r.Data? {
        output := output + r.bytes;
      }
      n := n + 1;
    }
  }
}
