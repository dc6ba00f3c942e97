/** Encoding into a growing buffer and decoding from a moving cursor: the loops of
    crates/core/src/codec.rs. */
module Framing {
  import opened Prelude
  import opened Wire
  import opened Stats
  import opened Messages
  import opened Codec

  /** What was written so far in front of what is still to be written. */
  ghost function Joined(out: seq<byte>, r: Result<seq<byte>>): Result<seq<byte>> {
    match r
    case Err(e) => Err(e)
    case Ok(more) => Ok(out + more)
  }

  lemma JoinNone(r: Result<seq<byte>>)
    ensures Joined([], r) == r
  {
    if r.Ok? {
      assert [] + r.value == r.value;
    }
  }

  lemma JoinMore(out: seq<byte>, b: seq<byte>, r: Result<seq<byte>>)
    ensures Joined(out + b, r) == Joined(out, Joined(b, r))
  {
    if r.Ok? {
      assert out + b + r.value == out + (b + r.value);
    }
  }

  method PushFields(kinds: seq<Kind>, values: seq<Value>) returns (r: Result<seq<byte>>)
    requires AllFit(kinds, values)
    ensures r == PutAll(kinds, values)
  {
    var out: seq<byte> := [];
    ghost var goal := PutAll(kinds, values);
    assert kinds[0..] == kinds && values[0..] == values;
    JoinNone(goal);
    for i := 0 to |kinds|
      invariant AllFit(kinds[i..], values[i..]) && goal == Joined(out, PutAll(kinds[i..], values[i..]))
    {
      assert kinds[i..][1..] == kinds[i + 1..] && values[i..][1..] == values[i + 1..];
      var b := Put(kinds[i], values[i]);
      if b.Err? {
        return b;
      }
      JoinMore(out, b.value, PutAll(kinds[i + 1..], values[i + 1..]));
      out := out + b.value;
    }
    assert out + [] == out;
    return Ok(out);
  }

  method PushReferrals(referrals: seq<Referral>) returns (r: Result<seq<byte>>)
    ensures r == PutReferrals(referrals)
  {
    var out: seq<byte> := [];
    ghost var goal := PutReferrals(referrals);
    assert referrals[0..] == referrals;
    JoinNone(goal);
    for i := 0 to |referrals|
      invariant goal == Joined(out, PutReferrals(referrals[i..]))
    {
      assert referrals[i..][0] == referrals[i] && referrals[i..][1..] == referrals[i + 1..];
      var complaint := Complaint(referrals[i]);
      if complaint.Some? {
        return Err(complaint.value);
      }
      var b := PushFields(REFERRAL_KINDS, ReferralValues(referrals[i]));
      if b.Err? {
        return b;
      }
      JoinMore(out, b.value, PutReferrals(referrals[i + 1..]));
      out := out + b.value;
    }
    assert out + [] == out;
    return Ok(out);
  }

  method PushRun(kind: Kind, values: seq<Value>) returns (r: Result<seq<byte>>)
    requires AllFit(Repeat(kind, |values|), values)
    ensures r == PutRun(kind, values)
  {
    if |values| > MAXWELEM {
      return Err(NAME_TOO_LONG);
    }
    var b := PushFields(Repeat(kind, |values|), values);
    r := if b.Err? then b else Ok(PutLE(|values|, 2) + b.value);
  }

  method PushTail(kind: TailKind, tail: Tail) returns (r: Result<seq<byte>>)
    requires TailFits(kind, tail)
    ensures r == PutTail(kind, tail)
  {
    match kind {
      case NothingTail => r := Ok([]);
      case NamesTail => r := PushRun(Text, NameValues(tail.names));
      case QidsTail => r := PushRun(QidKind, QidValues(tail.qids));
      case DataTail(tooLarge) => r := PutBlock(4, tail.data, tooLarge);
      case RecordTail =>
        var record := EncodeStat(tail.stat);
        r := if record.Err? then record else PutBlock(2, record.value, STAT_TOO_LARGE);
      case ReferralsTail =>
        if |tail.referrals| > U16_MAX {
          return Err("too many namespace referrals");
        }
        var b := PushReferrals(tail.referrals);
        r := if b.Err? then b else Ok(PutLE(|tail.referrals|, 2) + b.value);
    }
  }

  /** Writes a zero size, the header and the body, and then patches the size. */
  method EncodeFrame(f: Format, p: Parts) returns (r: Result<seq<byte>>)
    requires PartsFit(f, p)
    ensures r == Seal(f, p)
  {
    var frame := PutLE(0, 4) + [p.mtype] + PutLE(p.tag, 2);
    var fields := PushFields(f.kinds, p.values);
    if fields.Err? {
      return fields;
    }
    var tail := PushTail(f.tail, p.tail);
    if tail.Err? {
      return tail;
    }
    frame := frame + fields.value + tail.value;
    if |frame| > U32_MAX {
      return Err(FRAME_TOO_LARGE);
    }
    Patched(p.mtype, p.tag, fields.value, tail.value, PutLE(|frame|, 4));
    return Ok(PutLE(|frame|, 4) + frame[4..]);
  }

  lemma Patched(mtype: u8, tag: u16, fields: seq<byte>, tail: seq<byte>, size: seq<byte>)
    ensures size + (PutLE(0, 4) + [mtype] + PutLE(tag, 2) + fields + tail)[4..]
         == size + [mtype] + PutLE(tag, 2) + (fields + tail)
  {
    hide PutLE;
    var rest := [mtype] + PutLE(tag, 2) + fields + tail;
    assert PutLE(0, 4) + [mtype] + PutLE(tag, 2) + fields + tail == PutLE(0, 4) + rest;
    assert (PutLE(0, 4) + rest)[4..] == rest;
    assert size + rest == size + [mtype] + PutLE(tag, 2) + (fields + tail);
  }

  method EncodeTMessage(m: TMessage) returns (r: Result<seq<byte>>)
    ensures r == EncodeT(m)
  {
    TPartsFit(m);
    r := EncodeFrame(TFormat(TParts(m).mtype).value, TParts(m));
  }

  method EncodeRMessage(m: RMessage) returns (r: Result<seq<byte>>)
    ensures r == EncodeR(m)
  {
    RPartsRoundTrip(m);
    r := EncodeFrame(RFormat(RParts(m).mtype).value, RParts(m));
  }

  // ----- Decoding -----

  ghost function Ahead(referrals: seq<Referral>, r: Result<(seq<Referral>, seq<byte>)>)
    : Result<(seq<Referral>, seq<byte>)> {
    match r
    case Err(e) => Err(e)
    case Ok((more, rest)) => Ok((referrals + more, rest))
  }

  lemma AheadNone(r: Result<(seq<Referral>, seq<byte>)>)
    ensures Ahead([], r) == r
  {
    if r.Ok? {
      assert [] + r.value.0 == r.value.0;
    }
  }

  lemma AheadMore(referrals: seq<Referral>, referral: Referral, r: Result<(seq<Referral>, seq<byte>)>)
    ensures Ahead(referrals + [referral], r) == Ahead(referrals, Ahead([referral], r))
  {
    if r.Ok? {
      assert referrals + [referral] + r.value.0 == referrals + ([referral] + r.value.0);
    }
  }

  method ReadReferral(cursor: Cursor) returns (r: Result<Referral>)
    requires cursor.Valid()
    modifies cursor
    ensures cursor.Valid()
    ensures match GetReferral(old(cursor.Rest()))
            case Ok((referral, rest)) => r == Ok(referral) && cursor.Rest() == rest
            case Err(e) => r == Err(e)
  {
    var values := cursor.Fields(REFERRAL_KINDS);
    if values.Err? {
      return Err(values.error);
    }
    var referral := ReferralOf(values.value);
    var complaint := Complaint(referral);
    r := if complaint.Some? then Err(complaint.value) else Ok(referral);
  }

  method ReadReferrals(cursor: Cursor, n: nat) returns (r: Result<seq<Referral>>)
    requires cursor.Valid()
    modifies cursor
    ensures cursor.Valid()
    ensures match GetReferrals(n, old(cursor.Rest()))
            case Ok((referrals, rest)) => r == Ok(referrals) && cursor.Rest() == rest
            case Err(e) => r == Err(e)
  {
    var referrals: seq<Referral> := [];
    ghost var goal := GetReferrals(n, cursor.Rest());
    AheadNone(goal);
    for i := 0 to n
      invariant cursor.Valid()
      invariant goal == Ahead(referrals, GetReferrals(n - i, cursor.Rest()))
    {
      var referral := ReadReferral(cursor);
      if referral.Err? {
        return Err(referral.error);
      }
      AheadMore(referrals, referral.value, GetReferrals(n - i - 1, cursor.Rest()));
      referrals := referrals + [referral.value];
    }
    assert referrals + [] == referrals;
    return Ok(referrals);
  }

  method ReadRun(cursor: Cursor, kind: Kind) returns (r: Result<seq<Value>>)
    requires cursor.Valid()
    modifies cursor
    ensures cursor.Valid()
    ensures match GetRun(kind, old(cursor.Rest()))
            case Ok((values, rest)) => r == Ok(values) && cursor.Rest() == rest
            case Err(e) => r == Err(e)
  {
    var count := cursor.Take(2);
    if count.Err? {
      return Err(count.error);
    }
    if GetLE(count.value) > MAXWELEM {
      return Err(NAME_TOO_LONG);
    }
    r := cursor.Fields(Repeat(kind, GetLE(count.value)));
  }

  method ReadBlock(cursor: Cursor, width: nat) returns (r: Result<seq<byte>>)
    requires cursor.Valid()
    modifies cursor
    ensures cursor.Valid()
    ensures match GetBlock(width, old(cursor.Rest()))
            case Ok((block, rest)) => r == Ok(block) && cursor.Rest() == rest
            case Err(e) => r == Err(e)
  {
    var size := cursor.Take(width);
    if size.Err? {
      return size;
    }
    r := cursor.Take(GetLE(size.value));
  }

  method ReadTail(cursor: Cursor, kind: TailKind) returns (r: Result<Tail>)
    requires cursor.Valid()
    modifies cursor
    ensures cursor.Valid()
    ensures match GetTail(kind, old(cursor.Rest()))
            case Ok((tail, rest)) => r == Ok(tail) && cursor.Rest() == rest
            case Err(e) => r == Err(e)
  {
    match kind {
      case NothingTail => r := Ok(Nothing);
      case NamesTail =>
        var values := ReadRun(cursor, Text);
        r := if values.Err? then Err(values.error) else Ok(Names(NamesOf(values.value)));
      case QidsTail =>
        var values := ReadRun(cursor, QidKind);
        r := if values.Err? then Err(values.error) else Ok(Qids(QidsOf(values.value)));
      case DataTail(_) =>
        var block := ReadBlock(cursor, 4);
        r := if block.Err? then Err(block.error) else Ok(Data(block.value));
      case RecordTail =>
        var block := ReadBlock(cursor, 2);
        if block.Err? {
          return Err(block.error);
        }
        var stat := DecodeStat(block.value);
        r := if stat.Err? then Err(stat.error) else Ok(Record(stat.value));
      case ReferralsTail =>
        var count := cursor.Take(2);
        if count.Err? {
          return Err(count.error);
        }
        var referrals := ReadReferrals(cursor, GetLE(count.value));
        r := if referrals.Err? then Err(referrals.error) else Ok(Referrals(referrals.value));
    }
  }

  method DecodeFrame(formats: u8 -> Option<Format>, frame: seq<byte>) returns (r: Result<Parts>)
    ensures r == Open(formats, frame)
  {
    var complaint := SizeComplaint(frame);
    if complaint.Some? {
      return Err(complaint.value);
    }
    var format := formats(frame[4]);
    if format.None? {
      return Err("unknown message type");
    }
    var cursor := new Cursor(frame[HEADER..]);
    var values := cursor.Fields(format.value.kinds);
    if values.Err? {
      return Err(values.error);
    }
    var tail := ReadTail(cursor, format.value.tail);
    if tail.Err? {
      return Err(tail.error);
    }
    var remaining := cursor.Remaining();
    r := if remaining != 0 then Err("trailing frame bytes")
         else Ok(Parts(frame[4], Tag(frame), values.value, tail.value));
  }

  method DecodeTMessage(frame: seq<byte>) returns (r: Result<TMessage>)
    ensures r == DecodeT(frame)
  {
    var parts := DecodeFrame(TFormat, frame);
    if parts.Err? {
      return Err(parts.error);
    }
    OpenSeals(TFormat, frame);
    return Ok(TOf(parts.value));
  }

  method DecodeRMessage(frame: seq<byte>) returns (r: Result<RMessage>)
    ensures r == DecodeR(frame)
  {
    var parts := DecodeFrame(RFormat, frame);
    if parts.Err? {
      return Err(parts.error);
    }
    OpenSeals(RFormat, frame);
    return Ok(ROf(parts.value));
  }
}
