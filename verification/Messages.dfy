/** The 9P2000 messages and their parts: crates/core/src/message.rs and crates/core/src/referral.rs. */
module Messages {
  import opened Prelude
  import opened Wire
  import opened Stats

  datatype Referral = Referral(
    mountPath: seq<byte>,
    endpoint: seq<byte>,
    uname: seq<byte>,
    aname: seq<byte>,
    exportedRoot: seq<byte>,
    authorityBoundary: seq<byte>,
    generation: u64,
    validForMs: u64)

  datatype TMessage =
    | TVersion(tag: u16, msize: u32, version: seq<byte>)
    | TAuth(tag: u16, afid: u32, uname: seq<byte>, aname: seq<byte>)
    | TAttach(tag: u16, fid: u32, afid: u32, uname: seq<byte>, aname: seq<byte>)
    | TFlush(tag: u16, oldtag: u16)
    | TWalk(tag: u16, fid: u32, newfid: u32, wnames: seq<seq<byte>>)
    | TOpen(tag: u16, fid: u32, openMode: u8)
    | TCreate(tag: u16, fid: u32, name: seq<byte>, perm: u32, createMode: u8)
    | TRead(tag: u16, fid: u32, offset: u64, count: u32)
    | TWrite(tag: u16, fid: u32, offset: u64, data: seq<byte>)
    | TClunk(tag: u16, fid: u32)
    | TRemove(tag: u16, fid: u32)
    | TStat(tag: u16, fid: u32)
    | TWstat(tag: u16, fid: u32, stat: Stat)
    | TRenameAt(tag: u16, olddirfid: u32, oldname: seq<byte>, newdirfid: u32, newname: seq<byte>)
    | TReferrals(tag: u16, fid: u32)

  datatype RMessage =
    | RVersion(tag: u16, msize: u32, version: seq<byte>)
    | RAuth(tag: u16, aqid: Qid)
    | RAttach(tag: u16, qid: Qid)
    | RError(tag: u16, ename: seq<byte>)
    | RFlush(tag: u16)
    | RWalk(tag: u16, qids: seq<Qid>)
    | ROpen(tag: u16, qid: Qid, iounit: u32)
    | RCreate(tag: u16, qid: Qid, iounit: u32)
    | RRead(tag: u16, data: seq<byte>)
    | RWrite(tag: u16, count: u32)
    | RClunk(tag: u16)
    | RRemove(tag: u16)
    | RStat(tag: u16, stat: Stat)
    | RWstat(tag: u16)
    | RRenameAt(tag: u16)
    | RReferrals(tag: u16, referrals: seq<Referral>)

  // ----- What a message is made of -----

  /** What follows the plain fields of a message. */
  datatype Tail =
    | Nothing
    | Names(names: seq<seq<byte>>)
    | Qids(qids: seq<Qid>)
    | Data(data: seq<byte>)
    | Record(stat: Stat)
    | Referrals(referrals: seq<Referral>)

  datatype TailKind =
    | NothingTail
    | NamesTail
    | QidsTail
    | DataTail(tooLarge: string)
    | RecordTail
    | ReferralsTail

  datatype Format = Format(kinds: seq<Kind>, tail: TailKind)

  datatype Parts = Parts(mtype: u8, tag: u16, values: seq<Value>, tail: Tail)

  predicate TailFits(kind: TailKind, tail: Tail) {
    match kind
    case NothingTail => tail.Nothing?
    case NamesTail => tail.Names?
    case QidsTail => tail.Qids?
    case DataTail(_) => tail.Data?
    case RecordTail => tail.Record?
    case ReferralsTail => tail.Referrals?
  }

  predicate PartsFit(f: Format, p: Parts) {
    AllFit(f.kinds, p.values) && TailFits(f.tail, p.tail)
  }

  function Fields(kinds: seq<Kind>): Option<Format> {
    Some(Format(kinds, NothingTail))
  }

  /** The layout of each request. */
  function TFormat(mtype: u8): Option<Format> {
    match mtype
    case 74 => Fields([U32, Text, U32, Text])
    case 100 => Fields([U32, Text])
    case 102 => Fields([U32, Text, Text])
    case 104 => Fields([U32, U32, Text, Text])
    case 108 => Fields([U16])
    case 110 => Some(Format([U32, U32], NamesTail))
    case 112 => Fields([U32, U8])
    case 114 => Fields([U32, Text, U32, U8])
    case 116 => Fields([U32, U64, U32])
    case 118 => Some(Format([U32, U64], DataTail("write too large")))
    case 120 => Fields([U32])
    case 122 => Fields([U32])
    case 124 => Fields([U32])
    case 126 => Some(Format([U32], RecordTail))
    case 200 => Fields([U32])
    case _ => None
  }

  /** The layout of each reply. */
  function RFormat(mtype: u8): Option<Format> {
    match mtype
    case 75 => Fields([])
    case 101 => Fields([U32, Text])
    case 103 => Fields([QidKind])
    case 105 => Fields([QidKind])
    case 107 => Fields([Text])
    case 109 => Fields([])
    case 111 => Some(Format([], QidsTail))
    case 113 => Fields([QidKind, U32])
    case 115 => Fields([QidKind, U32])
    case 117 => Some(Format([], DataTail("read too large")))
    case 119 => Fields([U32])
    case 121 => Fields([])
    case 123 => Fields([])
    case 125 => Some(Format([], RecordTail))
    case 127 => Fields([])
    case 201 => Some(Format([], ReferralsTail))
    case _ => None
  }

  function TParts(m: TMessage): Parts {
    match m
    case TRenameAt(tag, olddirfid, oldname, newdirfid, newname) =>
      Parts(74, tag, [Num(olddirfid), Bytes(oldname), Num(newdirfid), Bytes(newname)], Nothing)
    case TVersion(tag, msize, version) => Parts(100, tag, [Num(msize), Bytes(version)], Nothing)
    case TAuth(tag, afid, uname, aname) => Parts(102, tag, [Num(afid), Bytes(uname), Bytes(aname)], Nothing)
    case TAttach(tag, fid, afid, uname, aname) =>
      Parts(104, tag, [Num(fid), Num(afid), Bytes(uname), Bytes(aname)], Nothing)
    case TFlush(tag, oldtag) => Parts(108, tag, [Num(oldtag)], Nothing)
    case TWalk(tag, fid, newfid, wnames) => Parts(110, tag, [Num(fid), Num(newfid)], Names(wnames))
    case TOpen(tag, fid, mode) => Parts(112, tag, [Num(fid), Num(mode)], Nothing)
    case TCreate(tag, fid, name, perm, mode) => Parts(114, tag, [Num(fid), Bytes(name), Num(perm), Num(mode)], Nothing)
    case TRead(tag, fid, offset, count) => Parts(116, tag, [Num(fid), Num(offset), Num(count)], Nothing)
    case TWrite(tag, fid, offset, data) => Parts(118, tag, [Num(fid), Num(offset)], Data(data))
    case TClunk(tag, fid) => Parts(120, tag, [Num(fid)], Nothing)
    case TRemove(tag, fid) => Parts(122, tag, [Num(fid)], Nothing)
    case TStat(tag, fid) => Parts(124, tag, [Num(fid)], Nothing)
    case TWstat(tag, fid, stat) => Parts(126, tag, [Num(fid)], Record(stat))
    case TReferrals(tag, fid) => Parts(200, tag, [Num(fid)], Nothing)
  }

  function RParts(m: RMessage): Parts {
    match m
    case RRenameAt(tag) => Parts(75, tag, [], Nothing)
    case RVersion(tag, msize, version) => Parts(101, tag, [Num(msize), Bytes(version)], Nothing)
    case RAuth(tag, aqid) => Parts(103, tag, [QidValue(aqid)], Nothing)
    case RAttach(tag, qid) => Parts(105, tag, [QidValue(qid)], Nothing)
    case RError(tag, ename) => Parts(107, tag, [Bytes(ename)], Nothing)
    case RFlush(tag) => Parts(109, tag, [], Nothing)
    case RWalk(tag, qids) => Parts(111, tag, [], Qids(qids))
    case ROpen(tag, qid, iounit) => Parts(113, tag, [QidValue(qid), Num(iounit)], Nothing)
    case RCreate(tag, qid, iounit) => Parts(115, tag, [QidValue(qid), Num(iounit)], Nothing)
    case RRead(tag, data) => Parts(117, tag, [], Data(data))
    case RWrite(tag, count) => Parts(119, tag, [Num(count)], Nothing)
    case RClunk(tag) => Parts(121, tag, [], Nothing)
    case RRemove(tag) => Parts(123, tag, [], Nothing)
    case RStat(tag, stat) => Parts(125, tag, [], Record(stat))
    case RWstat(tag) => Parts(127, tag, [], Nothing)
    case RReferrals(tag, referrals) => Parts(201, tag, [], Referrals(referrals))
  }

  // Fields of a decoded message; the fallbacks are never met, since the format was followed.

  function Num8(v: seq<Value>, i: nat): u8 {
    if i < |v| && v[i].Num? && v[i].n <= 0xFF then v[i].n else 0
  }

  function Num16(v: seq<Value>, i: nat): u16 {
    if i < |v| && v[i].Num? && v[i].n <= U16_MAX then v[i].n else 0
  }

  function Num32(v: seq<Value>, i: nat): u32 {
    if i < |v| && v[i].Num? && v[i].n <= U32_MAX then v[i].n else 0
  }

  function Num64(v: seq<Value>, i: nat): u64 {
    if i < |v| && v[i].Num? && v[i].n <= U64_MAX then v[i].n else 0
  }

  function Str(v: seq<Value>, i: nat): seq<byte> {
    if i < |v| && v[i].Bytes? then v[i].bytes else []
  }

  function QidAt(v: seq<Value>, i: nat): Qid {
    if i < |v| && v[i].QidValue? then v[i].qid else Qid(0, 0, 0)
  }

  function TOf(p: Parts): TMessage
    requires TFormat(p.mtype).Some? && PartsFit(TFormat(p.mtype).value, p)
  {
    var v := p.values;
    match p.mtype
    case 74 => TRenameAt(p.tag, Num32(v, 0), Str(v, 1), Num32(v, 2), Str(v, 3))
    case 100 => TVersion(p.tag, Num32(v, 0), Str(v, 1))
    case 102 => TAuth(p.tag, Num32(v, 0), Str(v, 1), Str(v, 2))
    case 104 => TAttach(p.tag, Num32(v, 0), Num32(v, 1), Str(v, 2), Str(v, 3))
    case 108 => TFlush(p.tag, Num16(v, 0))
    case 110 => TWalk(p.tag, Num32(v, 0), Num32(v, 1), p.tail.names)
    case 112 => TOpen(p.tag, Num32(v, 0), Num8(v, 1))
    case 114 => TCreate(p.tag, Num32(v, 0), Str(v, 1), Num32(v, 2), Num8(v, 3))
    case 116 => TRead(p.tag, Num32(v, 0), Num64(v, 1), Num32(v, 2))
    case 118 => TWrite(p.tag, Num32(v, 0), Num64(v, 1), p.tail.data)
    case 120 => TClunk(p.tag, Num32(v, 0))
    case 122 => TRemove(p.tag, Num32(v, 0))
    case 124 => TStat(p.tag, Num32(v, 0))
    case 126 => TWstat(p.tag, Num32(v, 0), p.tail.stat)
    case 200 => TReferrals(p.tag, Num32(v, 0))
  }

  function ROf(p: Parts): RMessage
    requires RFormat(p.mtype).Some? && PartsFit(RFormat(p.mtype).value, p)
  {
    var v := p.values;
    match p.mtype
    case 75 => RRenameAt(p.tag)
    case 101 => RVersion(p.tag, Num32(v, 0), Str(v, 1))
    case 103 => RAuth(p.tag, QidAt(v, 0))
    case 105 => RAttach(p.tag, QidAt(v, 0))
    case 107 => RError(p.tag, Str(v, 0))
    case 109 => RFlush(p.tag)
    case 111 => RWalk(p.tag, p.tail.qids)
    case 113 => ROpen(p.tag, QidAt(v, 0), Num32(v, 1))
    case 115 => RCreate(p.tag, QidAt(v, 0), Num32(v, 1))
    case 117 => RRead(p.tag, p.tail.data)
    case 119 => RWrite(p.tag, Num32(v, 0))
    case 121 => RClunk(p.tag)
    case 123 => RRemove(p.tag)
    case 125 => RStat(p.tag, p.tail.stat)
    case 127 => RWstat(p.tag)
    case 201 => RReferrals(p.tag, p.tail.referrals)
  }

  lemma TPartsFit(m: TMessage)
    ensures var p := TParts(m); TFormat(p.mtype).Some? && PartsFit(TFormat(p.mtype).value, p)
  {
    Widths();
  }

  /** A request and its parts determine each other. */
  lemma TPartsRoundTrip(m: TMessage)
    ensures var p := TParts(m);
            TFormat(p.mtype).Some? && PartsFit(TFormat(p.mtype).value, p) && TOf(p) == m
  {
    TPartsFit(m);
  }

  lemma EachFits(kinds: seq<Kind>, v: seq<Value>)
    requires AllFit(kinds, v)
    ensures |v| > 0 ==> Fits(kinds[0], v[0])
    ensures |v| > 1 ==> Fits(kinds[1], v[1])
    ensures |v| > 2 ==> Fits(kinds[2], v[2])
    ensures |v| > 3 ==> Fits(kinds[3], v[3])
  {
  }

  lemma TPartsReadBack(p: Parts)
    requires TFormat(p.mtype).Some? && PartsFit(TFormat(p.mtype).value, p)
    ensures TParts(TOf(p)) == p
  {
    if p.mtype < 114 {
      TPartsReadBackLow(p);
    } else {
      TPartsReadBackHigh(p);
    }
  }

  lemma TPartsReadBackLow(p: Parts)
    requires TFormat(p.mtype).Some? && PartsFit(TFormat(p.mtype).value, p) && p.mtype < 114
    ensures TParts(TOf(p)) == p
  {
    Widths();
    EachFits(TFormat(p.mtype).value.kinds, p.values);
    assert TParts(TOf(p)).values == p.values;
  }

  lemma TPartsReadBackHigh(p: Parts)
    requires TFormat(p.mtype).Some? && PartsFit(TFormat(p.mtype).value, p) && p.mtype >= 114
    ensures TParts(TOf(p)) == p
  {
    Widths();
    EachFits(TFormat(p.mtype).value.kinds, p.values);
    assert TParts(TOf(p)).values == p.values;
  }

  /** A reply and its parts determine each other. */
  lemma RPartsRoundTrip(m: RMessage)
    ensures var p := RParts(m);
            RFormat(p.mtype).Some? && PartsFit(RFormat(p.mtype).value, p) && ROf(p) == m
  {
    Widths();
  }

  lemma RPartsReadBack(p: Parts)
    requires RFormat(p.mtype).Some? && PartsFit(RFormat(p.mtype).value, p)
    ensures RParts(ROf(p)) == p
  {
    Widths();
    EachFits(RFormat(p.mtype).value.kinds, p.values);
    assert RParts(ROf(p)).values == p.values;
  }

  // ----- Referrals -----

  const REFERRAL_KINDS: seq<Kind> := [Text, Text, Text, Text, Text, Text, U64, U64]

  const SLASH: byte := 47
  const DOT: byte := 46

  predicate Control(b: byte) {
    b < 32 || b == 127
  }

  predicate HasControl(bytes: seq<byte>) {
    exists i :: 0 <= i < |bytes| && Control(bytes[i])
  }

  /** The pieces between slashes. */
  function SplitSlash(bytes: seq<byte>): (pieces: seq<seq<byte>>)
    ensures |pieces| > 0
  {
    if bytes == [] then [[]]
    else
      var rest := SplitSlash(bytes[1..]);
      if bytes[0] == SLASH then [[]] + rest else [[bytes[0]] + rest[0]] + rest[1..]
  }

  predicate PlainSegment(segment: seq<byte>) {
    segment != [] && segment != [DOT] && segment != [DOT, DOT]
  }

  predicate CanonicalPath(path: seq<byte>, allowRoot: bool) {
    if path == [SLASH] then allowRoot
    else
      && path != [] && path[0] == SLASH && path[|path| - 1] != SLASH
      && (var pieces := SplitSlash(path); forall i :: 1 <= i < |pieces| ==> PlainSegment(pieces[i]))
      && !HasControl(path)
  }

  function CheckPath(field: string, path: seq<byte>, allowRoot: bool): Option<string> {
    if CanonicalPath(path, allowRoot) then None
    else Some("namespace referral " + field + " must be a canonical absolute path")
  }

  function CheckText(field: string, value: seq<byte>): Option<string> {
    if value == [] then Some("namespace referral " + field + " must not be empty")
    else if HasControl(value) then Some("namespace referral " + field + " contains a control byte")
    else None
  }

  function FirstSome(checks: seq<Option<string>>): Option<string> {
    if checks == [] then None
    else if checks[0].Some? then checks[0]
    else FirstSome(checks[1..])
  }

  /** `NamespaceReferral::validate`: the first complaint, if any. */
  function Complaint(r: Referral): Option<string> {
    FirstSome([
      CheckPath("mount_path", r.mountPath, false),
      CheckPath("exported_root", r.exportedRoot, true),
      CheckText("endpoint", r.endpoint),
      CheckText("uname", r.uname),
      CheckText("aname", r.aname),
      CheckText("authority_boundary", r.authorityBoundary),
      if r.generation == 0 then Some("namespace referral generation must be positive") else None,
      if r.validForMs == 0 then Some("namespace referral valid_for_ms must be positive") else None])
  }

  function ReferralValues(r: Referral): (values: seq<Value>)
    ensures AllFit(REFERRAL_KINDS, values)
  {
    Widths();
    [Bytes(r.mountPath), Bytes(r.endpoint), Bytes(r.uname), Bytes(r.aname), Bytes(r.exportedRoot),
     Bytes(r.authorityBoundary), Num(r.generation), Num(r.validForMs)]
  }

  function ReferralOf(v: seq<Value>): Referral {
    Referral(Str(v, 0), Str(v, 1), Str(v, 2), Str(v, 3), Str(v, 4), Str(v, 5), Num64(v, 6), Num64(v, 7))
  }

  lemma ReferralValuesReadBack(v: seq<Value>)
    requires AllFit(REFERRAL_KINDS, v)
    ensures ReferralValues(ReferralOf(v)) == v
  {
    Widths();
    assert Fits(REFERRAL_KINDS[0], v[0]) && Fits(REFERRAL_KINDS[1], v[1]) && Fits(REFERRAL_KINDS[2], v[2]);
    assert Fits(REFERRAL_KINDS[3], v[3]) && Fits(REFERRAL_KINDS[4], v[4]) && Fits(REFERRAL_KINDS[5], v[5]);
    assert Fits(REFERRAL_KINDS[6], v[6]) && Fits(REFERRAL_KINDS[7], v[7]);
  }
}
