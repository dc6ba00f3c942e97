/** Frames of 9P2000: crates/core/src/codec.rs. A frame is size[4] type[1] tag[2], the fields and the
    tail its format prescribes. */
module Codec {
  import opened Prelude
  import opened Wire
  import opened Stats
  import opened Messages

  const MAXWELEM := 16
  const HEADER := 7

  const NAME_TOO_LONG := "name too long"
  const FRAME_TOO_LARGE := "frame too large"

  // ----- Runs of equal fields -----

  function Repeat(kind: Kind, n: nat): seq<Kind> {
    seq(n, _ => kind)
  }

  function NameValues(names: seq<seq<byte>>): seq<Value> {
    seq(|names|, i requires 0 <= i < |names| => Bytes(names[i]))
  }

  function QidValues(qids: seq<Qid>): seq<Value> {
    seq(|qids|, i requires 0 <= i < |qids| => QidValue(qids[i]))
  }

  function NamesOf(v: seq<Value>): seq<seq<byte>> {
    seq(|v|, i requires 0 <= i < |v| => Str(v, i))
  }

  function QidsOf(v: seq<Value>): seq<Qid> {
    seq(|v|, i requires 0 <= i < |v| => QidAt(v, i))
  }

  lemma NamesReadBack(v: seq<Value>)
    requires AllFit(Repeat(Text, |v|), v)
    ensures NameValues(NamesOf(v)) == v
  {
    assert forall i :: 0 <= i < |v| ==> Fits(Repeat(Text, |v|)[i], v[i]);
  }

  lemma QidsReadBack(v: seq<Value>)
    requires AllFit(Repeat(QidKind, |v|), v)
    ensures QidValues(QidsOf(v)) == v
  {
    assert forall i :: 0 <= i < |v| ==> Fits(Repeat(QidKind, |v|)[i], v[i]);
  }

  /** A two-byte count and that many fields of one kind. */
  function PutRun(kind: Kind, values: seq<Value>): Result<seq<byte>>
    requires AllFit(Repeat(kind, |values|), values)
  {
    if |values| > MAXWELEM then Err(NAME_TOO_LONG)
    else
      match PutAll(Repeat(kind, |values|), values)
      case Err(e) => Err(e)
      case Ok(b) => Ok(PutLE(|values|, 2) + b)
  }

  function GetRun(kind: Kind, data: seq<byte>): Result<(seq<Value>, seq<byte>)> {
    match SplitAt(data, 2)
    case Err(e) => Err(e)
    case Ok((count, rest)) =>
      if GetLE(count) > MAXWELEM then Err(NAME_TOO_LONG) else GetAll(Repeat(kind, GetLE(count)), rest)
  }

  lemma RunRoundTrip(kind: Kind, values: seq<Value>, rest: seq<byte>)
    requires AllFit(Repeat(kind, |values|), values) && PutRun(kind, values).Ok?
    ensures GetRun(kind, PutRun(kind, values).value + rest) == Ok((values, rest))
  {
    var count, b := PutLE(|values|, 2), PutAll(Repeat(kind, |values|), values).value;
    Widths();
    GetAfterPut(|values|, 2);
    assert count + b + rest == count + (b + rest);
    SplitAppended(count, b + rest);
    FieldsRoundTrip(Repeat(kind, |values|), values, rest);
  }

  lemma RunReadBack(kind: Kind, data: seq<byte>)
    requires GetRun(kind, data).Ok?
    ensures var (values, rest) := GetRun(kind, data).value;
            && AllFit(Repeat(kind, |values|), values) && PutRun(kind, values).Ok?
            && data == PutRun(kind, values).value + rest
  {
    var count, after := data[..2], data[2..];
    PutAfterGet(count);
    Widths();
    FieldsReadBack(Repeat(kind, GetLE(count)), after);
    var (values, rest) := GetAll(Repeat(kind, GetLE(count)), after).value;
    assert data == count + after;
    assert data == count + PutAll(Repeat(kind, |values|), values).value + rest;
  }

  // ----- A length and that many bytes -----

  function PutBlock(width: nat, block: seq<byte>, tooLarge: string): Result<seq<byte>> {
    if |block| >= Pow256(width) then Err(tooLarge) else Ok(PutLE(|block|, width) + block)
  }

  function GetBlock(width: nat, data: seq<byte>): Result<(seq<byte>, seq<byte>)> {
    match SplitAt(data, width)
    case Err(e) => Err(e)
    case Ok((size, rest)) => SplitAt(rest, GetLE(size))
  }

  lemma BlockRoundTrip(width: nat, block: seq<byte>, tooLarge: string, rest: seq<byte>)
    requires PutBlock(width, block, tooLarge).Ok?
    ensures GetBlock(width, PutBlock(width, block, tooLarge).value + rest) == Ok((block, rest))
  {
    var size := PutLE(|block|, width);
    GetAfterPut(|block|, width);
    assert size + block + rest == size + (block + rest);
    SplitAppended(size, block + rest);
    SplitAppended(block, rest);
  }

  lemma BlockReadBack(width: nat, data: seq<byte>, tooLarge: string)
    requires GetBlock(width, data).Ok?
    ensures var (block, rest) := GetBlock(width, data).value;
            PutBlock(width, block, tooLarge).Ok? && data == PutBlock(width, block, tooLarge).value + rest
  {
    var size, after := data[..width], data[width..];
    PutAfterGet(size);
    assert data == size + after[..GetLE(size)] + after[GetLE(size)..];
  }

  // ----- Referrals -----

  function PutReferrals(referrals: seq<Referral>): Result<seq<byte>> {
    if referrals == [] then Ok([])
    else if Complaint(referrals[0]).Some? then Err(Complaint(referrals[0]).value)
    else
      match PutAll(REFERRAL_KINDS, ReferralValues(referrals[0]))
      case Err(e) => Err(e)
      case Ok(b) =>
        match PutReferrals(referrals[1..])
        case Err(e) => Err(e)
        case Ok(rest) => Ok(b + rest)
  }

  function GetReferral(data: seq<byte>): Result<(Referral, seq<byte>)> {
    match GetAll(REFERRAL_KINDS, data)
    case Err(e) => Err(e)
    case Ok((values, rest)) =>
      var referral := ReferralOf(values);
      if Complaint(referral).Some? then Err(Complaint(referral).value) else Ok((referral, rest))
  }

  function GetReferrals(n: nat, data: seq<byte>): Result<(seq<Referral>, seq<byte>)> {
    if n == 0 then Ok(([], data))
    else
      match GetReferral(data)
      case Err(e) => Err(e)
      case Ok((referral, rest)) =>
        match GetReferrals(n - 1, rest)
        case Err(e) => Err(e)
        case Ok((more, after)) => Ok(([referral] + more, after))
  }

  lemma ReferralRoundTrip(r: Referral, rest: seq<byte>)
    requires Complaint(r) == None && PutAll(REFERRAL_KINDS, ReferralValues(r)).Ok?
    ensures GetReferral(PutAll(REFERRAL_KINDS, ReferralValues(r)).value + rest) == Ok((r, rest))
  {
    FieldsRoundTrip(REFERRAL_KINDS, ReferralValues(r), rest);
    assert ReferralOf(ReferralValues(r)) == r;
  }

  lemma ReferralReadBack(data: seq<byte>)
    requires GetReferral(data).Ok?
    ensures var (r, rest) := GetReferral(data).value;
            && Complaint(r) == None && PutAll(REFERRAL_KINDS, ReferralValues(r)).Ok?
            && data == PutAll(REFERRAL_KINDS, ReferralValues(r)).value + rest
  {
    FieldsReadBack(REFERRAL_KINDS, data);
    ReferralValuesReadBack(GetAll(REFERRAL_KINDS, data).value.0);
  }

  lemma {:induction false} ReferralsRoundTrip(referrals: seq<Referral>, rest: seq<byte>)
    requires PutReferrals(referrals).Ok?
    ensures GetReferrals(|referrals|, PutReferrals(referrals).value + rest) == Ok((referrals, rest))
  {
    hide PutAll, GetAll, Complaint, GetReferral;
    if referrals == [] {
      assert PutReferrals(referrals).value + rest == rest;
    } else {
      var b := PutAll(REFERRAL_KINDS, ReferralValues(referrals[0])).value;
      var more := PutReferrals(referrals[1..]).value;
      assert b + more + rest == b + (more + rest);
      ReferralRoundTrip(referrals[0], more + rest);
      ReferralsRoundTrip(referrals[1..], rest);
      assert referrals == [referrals[0]] + referrals[1..];
    }
  }

  lemma {:induction false} ReferralsReadBack(n: nat, data: seq<byte>)
    requires GetReferrals(n, data).Ok?
    ensures var (referrals, rest) := GetReferrals(n, data).value;
            |referrals| == n && PutReferrals(referrals).Ok? && data == PutReferrals(referrals).value + rest
  {
    hide PutAll, GetAll, Complaint, GetReferral;
    if n > 0 {
      ReferralReadBack(data);
      var (referral, rest) := GetReferral(data).value;
      ReferralsReadBack(n - 1, rest);
      var (more, after) := GetReferrals(n - 1, rest).value;
      ConsReferral(referral, more, after);
    }
  }

  lemma ConsReferral(r: Referral, more: seq<Referral>, rest: seq<byte>)
    requires Complaint(r) == None && PutAll(REFERRAL_KINDS, ReferralValues(r)).Ok? && PutReferrals(more).Ok?
    ensures PutReferrals([r] + more).Ok?
    ensures PutReferrals([r] + more).value + rest
         == PutAll(REFERRAL_KINDS, ReferralValues(r)).value + (PutReferrals(more).value + rest)
  {
    hide PutAll, Complaint;
    assert ([r] + more)[1..] == more;
  }

  // ----- Tails -----

  function PutTail(kind: TailKind, tail: Tail): Result<seq<byte>>
    requires TailFits(kind, tail)
  {
    match kind
    case NothingTail => Ok([])
    case NamesTail => PutRun(Text, NameValues(tail.names))
    case QidsTail => PutRun(QidKind, QidValues(tail.qids))
    case DataTail(tooLarge) => PutBlock(4, tail.data, tooLarge)
    case RecordTail =>
      (match EncodeStat(tail.stat)
       case Err(e) => Err(e)
       case Ok(record) => PutBlock(2, record, STAT_TOO_LARGE))
    case ReferralsTail =>
      if |tail.referrals| > U16_MAX then Err("too many namespace referrals")
      else
        match PutReferrals(tail.referrals)
        case Err(e) => Err(e)
        case Ok(b) => Ok(PutLE(|tail.referrals|, 2) + b)
  }

  function GetTail(kind: TailKind, data: seq<byte>): Result<(Tail, seq<byte>)> {
    match kind
    case NothingTail => Ok((Nothing, data))
    case NamesTail =>
      (match GetRun(Text, data)
       case Err(e) => Err(e)
       case Ok((values, rest)) => Ok((Names(NamesOf(values)), rest)))
    case QidsTail =>
      (match GetRun(QidKind, data)
       case Err(e) => Err(e)
       case Ok((values, rest)) => Ok((Qids(QidsOf(values)), rest)))
    case DataTail(_) =>
      (match GetBlock(4, data)
       case Err(e) => Err(e)
       case Ok((block, rest)) => Ok((Data(block), rest)))
    case RecordTail =>
      (match GetBlock(2, data)
       case Err(e) => Err(e)
       case Ok((block, rest)) =>
         match DecodeStat(block)
         case Err(e) => Err(e)
         case Ok(stat) => Ok((Record(stat), rest)))
    case ReferralsTail =>
      match SplitAt(data, 2)
      case Err(e) => Err(e)
      case Ok((count, rest)) =>
        match GetReferrals(GetLE(count), rest)
        case Err(e) => Err(e)
        case Ok((referrals, after)) => Ok((Referrals(referrals), after))
  }

  lemma TailRoundTrip(kind: TailKind, tail: Tail, rest: seq<byte>)
    requires TailFits(kind, tail) && PutTail(kind, tail).Ok?
    ensures GetTail(kind, PutTail(kind, tail).value + rest) == Ok((tail, rest))
  {
    match kind {
      case NothingTail => assert PutTail(kind, tail).value + rest == rest;
      case NamesTail =>
        RunRoundTrip(Text, NameValues(tail.names), rest);
        assert NamesOf(NameValues(tail.names)) == tail.names;
      case QidsTail =>
        RunRoundTrip(QidKind, QidValues(tail.qids), rest);
        assert QidsOf(QidValues(tail.qids)) == tail.qids;
      case DataTail(tooLarge) => BlockRoundTrip(4, tail.data, tooLarge, rest);
      case RecordTail => RecordRoundTrip(tail.stat, rest);
      case ReferralsTail => ReferralTailRoundTrip(tail.referrals, rest);
    }
  }

  lemma RecordRoundTrip(stat: Stat, rest: seq<byte>)
    requires PutTail(RecordTail, Record(stat)).Ok?
    ensures GetTail(RecordTail, PutTail(RecordTail, Record(stat)).value + rest) == Ok((Record(stat), rest))
  {
    BlockRoundTrip(2, EncodeStat(stat).value, STAT_TOO_LARGE, rest);
    StatRoundTrip(stat);
  }

  lemma ReferralTailRoundTrip(referrals: seq<Referral>, rest: seq<byte>)
    requires PutTail(ReferralsTail, Referrals(referrals)).Ok?
    ensures GetTail(ReferralsTail, PutTail(ReferralsTail, Referrals(referrals)).value + rest)
         == Ok((Referrals(referrals), rest))
  {
    hide PutAll, GetAll, PutReferrals, GetReferrals;
    var count, b := PutLE(|referrals|, 2), PutReferrals(referrals).value;
    Widths();
    GetAfterPut(|referrals|, 2);
    assert count + b + rest == count + (b + rest);
    SplitAppended(count, b + rest);
    ReferralsRoundTrip(referrals, rest);
  }

  lemma TailReadBack(kind: TailKind, data: seq<byte>)
    requires GetTail(kind, data).Ok?
    ensures var (tail, rest) := GetTail(kind, data).value;
            TailFits(kind, tail) && PutTail(kind, tail).Ok? && data == PutTail(kind, tail).value + rest
  {
    match kind {
      case NothingTail => assert [] + data == data;
      case NamesTail =>
        RunReadBack(Text, data);
        NamesReadBack(GetRun(Text, data).value.0);
      case QidsTail =>
        RunReadBack(QidKind, data);
        QidsReadBack(GetRun(QidKind, data).value.0);
      case DataTail(tooLarge) => BlockReadBack(4, data, tooLarge);
      case RecordTail => RecordReadBack(data);
      case ReferralsTail => ReferralTailReadBack(data);
    }
  }

  lemma RecordReadBack(data: seq<byte>)
    requires GetTail(RecordTail, data).Ok?
    ensures var (tail, rest) := GetTail(RecordTail, data).value;
            && tail.Record? && PutTail(RecordTail, tail).Ok?
            && data == PutTail(RecordTail, tail).value + rest
  {
    BlockReadBack(2, data, STAT_TOO_LARGE);
    StatReadBack(GetBlock(2, data).value.0);
  }

  lemma ReferralTailReadBack(data: seq<byte>)
    requires GetTail(ReferralsTail, data).Ok?
    ensures var (tail, rest) := GetTail(ReferralsTail, data).value;
            && tail.Referrals? && PutTail(ReferralsTail, tail).Ok?
            && data == PutTail(ReferralsTail, tail).value + rest
  {
    hide PutAll, GetAll, PutReferrals, GetReferrals;
    var count, after := data[..2], data[2..];
    PutAfterGet(count);
    Widths();
    ReferralsReadBack(GetLE(count), after);
    var (referrals, rest) := GetReferrals(GetLE(count), after).value;
    assert data == count + after;
    assert data == count + PutReferrals(referrals).value + rest;
  }

  // ----- Whole frames -----

  /** The frame of a message: its size covers the size field itself. */
  function Seal(f: Format, p: Parts): Result<seq<byte>>
    requires PartsFit(f, p)
  {
    match PutAll(f.kinds, p.values)
    case Err(e) => Err(e)
    case Ok(fields) =>
      match PutTail(f.tail, p.tail)
      case Err(e) => Err(e)
      case Ok(tail) =>
        var size := HEADER + |fields| + |tail|;
        if size > U32_MAX then Err(FRAME_TOO_LARGE)
        else Ok(PutLE(size, 4) + [p.mtype] + PutLE(p.tag, 2) + (fields + tail))
  }

  /** `validate_frame_size`: the complaint, if any. */
  function SizeComplaint(frame: seq<byte>): Option<string> {
    if |frame| < HEADER then Some(TRUNCATED)
    else if |frame| > U32_MAX then Some(FRAME_TOO_LARGE)
    else if GetLE(frame[..4]) != |frame| then Some("frame size mismatch")
    else None
  }

  function Tag(frame: seq<byte>): u16
    requires |frame| >= HEADER
  {
    PutAfterGet(frame[5..7]);
    Widths();
    GetLE(frame[5..7])
  }

  function Open(formats: u8 -> Option<Format>, frame: seq<byte>): Result<Parts> {
    if SizeComplaint(frame).Some? then Err(SizeComplaint(frame).value)
    else
      match formats(frame[4])
      case None => Err("unknown message type")
      case Some(f) =>
        match GetAll(f.kinds, frame[HEADER..])
        case Err(e) => Err(e)
        case Ok((values, rest)) =>
          match GetTail(f.tail, rest)
          case Err(e) => Err(e)
          case Ok((tail, after)) =>
            if after != [] then Err("trailing frame bytes")
            else Ok(Parts(frame[4], Tag(frame), values, tail))
  }

  /** Opening a sealed frame gives the parts back. */
  lemma SealOpens(formats: u8 -> Option<Format>, p: Parts)
    requires formats(p.mtype).Some? && PartsFit(formats(p.mtype).value, p) && Seal(formats(p.mtype).value, p).Ok?
    ensures Open(formats, Seal(formats(p.mtype).value, p).value) == Ok(p)
  {
    hide PutAll, GetAll, PutTail, GetTail, TailFits, PutLE, GetLE;
    var f := formats(p.mtype).value;
    var fields, tail := PutAll(f.kinds, p.values).value, PutTail(f.tail, p.tail).value;
    HeaderReads(HEADER + |fields| + |tail|, p.mtype, p.tag, fields + tail);
    FieldsRoundTrip(f.kinds, p.values, tail);
    TailRoundTrip(f.tail, p.tail, []);
    assert tail + [] == tail;
  }

  lemma HeaderReads(size: nat, mtype: u8, tag: u16, body: seq<byte>)
    requires size == HEADER + |body| <= U32_MAX
    ensures var frame := PutLE(size, 4) + [mtype] + PutLE(tag, 2) + body;
            SizeComplaint(frame) == None && frame[4] == mtype && Tag(frame) == tag && frame[HEADER..] == body
  {
    var frame := PutLE(size, 4) + [mtype] + PutLE(tag, 2) + body;
    Widths();
    GetAfterPut(size, 4);
    GetAfterPut(tag, 2);
    assert frame[..4] == PutLE(size, 4) && frame[5..7] == PutLE(tag, 2);
  }

  /** Sealing what an accepted frame held gives the frame back. */
  lemma OpenSeals(formats: u8 -> Option<Format>, frame: seq<byte>)
    requires Open(formats, frame).Ok?
    ensures var p := Open(formats, frame).value;
            && formats(p.mtype).Some? && PartsFit(formats(p.mtype).value, p)
            && Seal(formats(p.mtype).value, p) == Ok(frame)
  {
    hide PutAll, GetAll, PutTail, GetTail, Tag, TailFits, PutLE, GetLE;
    var f := formats(frame[4]).value;
    FieldsReadBack(f.kinds, frame[HEADER..]);
    var (values, rest) := GetAll(f.kinds, frame[HEADER..]).value;
    TailReadBack(f.tail, rest);
    var fields, tail := PutAll(f.kinds, values).value, PutTail(f.tail, GetTail(f.tail, rest).value.0).value;
    assert tail + [] == tail;
    assert frame[HEADER..] == fields + tail;
    HeaderWrites(frame);
  }

  lemma HeaderWrites(frame: seq<byte>)
    requires SizeComplaint(frame) == None
    ensures frame == PutLE(|frame|, 4) + [frame[4]] + PutLE(Tag(frame), 2) + frame[HEADER..]
  {
    hide PutLE, GetLE;
    PutAfterGet(frame[..4]);
    PutAfterGet(frame[5..7]);
    HeaderParts(frame);
  }

  lemma HeaderParts(frame: seq<byte>)
    requires |frame| >= HEADER
    ensures frame == frame[..4] + [frame[4]] + frame[5..7] + frame[HEADER..]
  {
  }

  // ----- Messages -----

  function EncodeT(m: TMessage): Result<seq<byte>> {
    TPartsFit(m);
    Seal(TFormat(TParts(m).mtype).value, TParts(m))
  }

  function EncodeR(m: RMessage): Result<seq<byte>> {
    RPartsRoundTrip(m);
    Seal(RFormat(RParts(m).mtype).value, RParts(m))
  }

  function DecodeT(frame: seq<byte>): Result<TMessage> {
    match Open(TFormat, frame)
    case Err(e) => Err(e)
    case Ok(p) =>
      OpenSeals(TFormat, frame);
      Ok(TOf(p))
  }

  function DecodeR(frame: seq<byte>): Result<RMessage> {
    match Open(RFormat, frame)
    case Err(e) => Err(e)
    case Ok(p) =>
      OpenSeals(RFormat, frame);
      Ok(ROf(p))
  }

  /** Every request that encodes decodes to itself. */
  lemma TRoundTrip(m: TMessage)
    requires EncodeT(m).Ok?
    ensures DecodeT(EncodeT(m).value) == Ok(m)
  {
    TPartsRoundTrip(m);
    SealOpens(TFormat, TParts(m));
  }

  /** Every frame accepted as a request is the only frame of that request. */
  lemma TReadBack(frame: seq<byte>)
    requires DecodeT(frame).Ok?
    ensures EncodeT(DecodeT(frame).value) == Ok(frame)
  {
    OpenSeals(TFormat, frame);
    TPartsReadBack(Open(TFormat, frame).value);
  }

  /** Every reply that encodes decodes to itself. */
  lemma RRoundTrip(m: RMessage)
    requires EncodeR(m).Ok?
    ensures DecodeR(EncodeR(m).value) == Ok(m)
  {
    RPartsRoundTrip(m);
    SealOpens(RFormat, RParts(m));
  }

  /** Every frame accepted as a reply is the only frame of that reply. */
  lemma RReadBack(frame: seq<byte>)
    requires DecodeR(frame).Ok?
    ensures EncodeR(DecodeR(frame).value) == Ok(frame)
  {
    OpenSeals(RFormat, frame);
    RPartsReadBack(Open(RFormat, frame).value);
  }
}
