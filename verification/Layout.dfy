/** The layouts of 9P2000 messages as the Plan 9 Programmer's Manual lists them, intro(5) and stat(5), and
    that the encoder of crates/core/src/codec.rs produces exactly these bytes, exactly when they exist.
    Trenameat has the shape it has in 9P2000.L; the referral messages are the library's own. */
module Layout {
  import opened Prelude
  import opened Wire
  import opened Stats
  import opened Messages
  import opened Codec

  // The manual's notation: a number of n bytes, a string, a qid.

  function N1(n: nat): seq<byte> {
    PutLE(n, 1)
  }

  function N2(n: nat): seq<byte> {
    PutLE(n, 2)
  }

  function N4(n: nat): seq<byte> {
    PutLE(n, 4)
  }

  function N8(n: nat): seq<byte> {
    PutLE(n, 8)
  }

  function Str16(s: seq<byte>): seq<byte> {
    N2(|s|) + s
  }

  function QidBytes(q: Qid): seq<byte> {
    N1(q.qtype) + N4(q.version) + N8(q.path)
  }

  function Strings(names: seq<seq<byte>>): seq<byte> {
    if names == [] then [] else Str16(names[0]) + Strings(names[1..])
  }

  function QidRun(qids: seq<Qid>): seq<byte> {
    if qids == [] then [] else QidBytes(qids[0]) + QidRun(qids[1..])
  }

  function StatBody(s: Stat): seq<byte> {
    N2(s.kind) + N4(s.dev) + QidBytes(s.qid) + N4(s.mode) + N4(s.atime) + N4(s.mtime) + N8(s.length)
    + Str16(s.name) + Str16(s.uid) + Str16(s.gid) + Str16(s.muid)
  }

  function StatRecord(s: Stat): seq<byte> {
    N2(|StatBody(s)|) + StatBody(s)
  }

  function ReferralBytes(r: Referral): seq<byte> {
    Str16(r.mountPath) + Str16(r.endpoint) + Str16(r.uname) + Str16(r.aname) + Str16(r.exportedRoot)
    + Str16(r.authorityBoundary) + N8(r.generation) + N8(r.validForMs)
  }

  function ReferralRun(referrals: seq<Referral>): seq<byte> {
    if referrals == [] then [] else ReferralBytes(referrals[0]) + ReferralRun(referrals[1..])
  }

  /** What follows size, type and tag in each request. */
  function RequestBody(m: TMessage): seq<byte> {
    match m
    case TVersion(_, msize, version) => N4(msize) + Str16(version)
    case TAuth(_, afid, uname, aname) => N4(afid) + Str16(uname) + Str16(aname)
    case TAttach(_, fid, afid, uname, aname) => N4(fid) + N4(afid) + Str16(uname) + Str16(aname)
    case TFlush(_, oldtag) => N2(oldtag)
    case TWalk(_, fid, newfid, wnames) => N4(fid) + N4(newfid) + N2(|wnames|) + Strings(wnames)
    case TOpen(_, fid, mode) => N4(fid) + N1(mode)
    case TCreate(_, fid, name, perm, mode) => N4(fid) + Str16(name) + N4(perm) + N1(mode)
    case TRead(_, fid, offset, count) => N4(fid) + N8(offset) + N4(count)
    case TWrite(_, fid, offset, data) => N4(fid) + N8(offset) + N4(|data|) + data
    case TClunk(_, fid) => N4(fid)
    case TRemove(_, fid) => N4(fid)
    case TStat(_, fid) => N4(fid)
    case TWstat(_, fid, stat) => N4(fid) + N2(|StatRecord(stat)|) + StatRecord(stat)
    case TRenameAt(_, olddirfid, oldname, newdirfid, newname) =>
      N4(olddirfid) + Str16(oldname) + N4(newdirfid) + Str16(newname)
    case TReferrals(_, fid) => N4(fid)
  }

  /** What follows size, type and tag in each reply. */
  function ReplyBody(m: RMessage): seq<byte> {
    match m
    case RVersion(_, msize, version) => N4(msize) + Str16(version)
    case RAuth(_, aqid) => QidBytes(aqid)
    case RAttach(_, qid) => QidBytes(qid)
    case RError(_, ename) => Str16(ename)
    case RFlush(_) => []
    case RWalk(_, qids) => N2(|qids|) + QidRun(qids)
    case ROpen(_, qid, iounit) => QidBytes(qid) + N4(iounit)
    case RCreate(_, qid, iounit) => QidBytes(qid) + N4(iounit)
    case RRead(_, data) => N4(|data|) + data
    case RWrite(_, count) => N4(count)
    case RClunk(_) => []
    case RRemove(_) => []
    case RStat(_, stat) => N2(|StatRecord(stat)|) + StatRecord(stat)
    case RWstat(_) => []
    case RRenameAt(_) => []
    case RReferrals(_, referrals) => N2(|referrals|) + ReferralRun(referrals)
  }

  // ----- Fields -----

  /** The bytes of a field, without the limit on strings. */
  function FieldBytes(kind: Kind, value: Value): seq<byte>
    requires Fits(kind, value)
  {
    match kind
    case U8 => N1(value.n)
    case U16 => N2(value.n)
    case U32 => N4(value.n)
    case U64 => N8(value.n)
    case QidKind => QidBytes(value.qid)
    case Text => Str16(value.bytes)
  }

  predicate ShortEnough(value: Value) {
    value.Bytes? ==> |value.bytes| <= U16_MAX
  }

  predicate AllShort(values: seq<Value>) {
    forall i :: 0 <= i < |values| ==> ShortEnough(values[i])
  }

  function Laid(kinds: seq<Kind>, values: seq<Value>): seq<byte>
    requires AllFit(kinds, values)
  {
    if kinds == [] then [] else FieldBytes(kinds[0], values[0]) + Laid(kinds[1..], values[1..])
  }

  /** Fields are written in order, exactly when every string is short enough. */
  lemma {:induction false} FieldsAreLaid(kinds: seq<Kind>, values: seq<Value>)
    requires AllFit(kinds, values)
    ensures PutAll(kinds, values).Ok? <==> AllShort(values)
    ensures PutAll(kinds, values).Ok? ==> PutAll(kinds, values).value == Laid(kinds, values)
  {
    if kinds != [] {
      var value, rest := values[0], values[1..];
      FieldsAreLaid(kinds[1..], rest);
      assert Fits(kinds[0], value);
      assert Put(kinds[0], value).Ok? <==> ShortEnough(value);
      assert AllShort(values) <==> ShortEnough(value) && AllShort(rest) by {
        assert forall i :: 1 <= i < |values| ==> values[i] == rest[i - 1];
        assert forall i :: 0 <= i < |rest| ==> rest[i] == values[i + 1];
      }
    }
  }

  lemma LaidCons(k: Kind, v: Value, kinds: seq<Kind>, values: seq<Value>)
    requires Fits(k, v) && AllFit(kinds, values)
    ensures AllFit([k] + kinds, [v] + values)
           && Laid([k] + kinds, [v] + values) == FieldBytes(k, v) + Laid(kinds, values)
  {
    assert ([k] + kinds)[1..] == kinds && ([v] + values)[1..] == values;
  }

  lemma Laid1(a: Kind, x: Value)
    requires Fits(a, x)
    ensures AllFit([a], [x]) && Laid([a], [x]) == FieldBytes(a, x)
  {
    LaidCons(a, x, [], []);
    assert [a] == [a] + [] && [x] == [x] + [];
  }

  lemma Laid2(a: Kind, x: Value, b: Kind, y: Value)
    requires Fits(a, x) && Fits(b, y)
    ensures AllFit([a, b], [x, y]) && Laid([a, b], [x, y]) == FieldBytes(a, x) + FieldBytes(b, y)
  {
    Laid1(b, y);
    LaidCons(a, x, [b], [y]);
    assert [a, b] == [a] + [b] && [x, y] == [x] + [y];
  }

  lemma Laid3(a: Kind, x: Value, b: Kind, y: Value, c: Kind, z: Value)
    requires Fits(a, x) && Fits(b, y) && Fits(c, z)
    ensures AllFit([a, b, c], [x, y, z])
    ensures Laid([a, b, c], [x, y, z]) == FieldBytes(a, x) + FieldBytes(b, y) + FieldBytes(c, z)
  {
    hide FieldBytes, Fits, Laid;
    Laid2(b, y, c, z);
    LaidCons(a, x, [b, c], [y, z]);
    assert [a, b, c] == [a] + [b, c] && [x, y, z] == [x] + [y, z];
  }

  lemma Laid4(a: Kind, x: Value, b: Kind, y: Value, c: Kind, z: Value, d: Kind, w: Value)
    requires Fits(a, x) && Fits(b, y) && Fits(c, z) && Fits(d, w)
    ensures AllFit([a, b, c, d], [x, y, z, w])
    ensures Laid([a, b, c, d], [x, y, z, w]) ==
            FieldBytes(a, x) + FieldBytes(b, y) + FieldBytes(c, z) + FieldBytes(d, w)
  {
    hide FieldBytes, Fits, Laid;
    Laid3(b, y, c, z, d, w);
    LaidCons(a, x, [b, c, d], [y, z, w]);
    Append3(FieldBytes(a, x), FieldBytes(b, y), FieldBytes(c, z), FieldBytes(d, w));
    assert [a, b, c, d] == [a] + [b, c, d] && [x, y, z, w] == [x] + [y, z, w];
  }

  lemma Append3(x: seq<byte>, a: seq<byte>, b: seq<byte>, c: seq<byte>)
    ensures x + (a + b + c) == x + a + b + c
  {
  }

  lemma Append4(x: seq<byte>, a: seq<byte>, b: seq<byte>, c: seq<byte>, d: seq<byte>)
    ensures x + (a + b + c + d) == x + a + b + c + d
  {
    Append3(x, a, b, c);
    assert x + (a + b + c + d) == x + (a + b + c) + d;
  }

  lemma AllFitConcat(k1: seq<Kind>, v1: seq<Value>, k2: seq<Kind>, v2: seq<Value>)
    requires AllFit(k1, v1) && AllFit(k2, v2)
    ensures AllFit(k1 + k2, v1 + v2)
  {
    hide Fits;
  }

  lemma {:induction false} LaidConcat(k1: seq<Kind>, v1: seq<Value>, k2: seq<Kind>, v2: seq<Value>)
    requires AllFit(k1, v1) && AllFit(k2, v2)
    ensures AllFit(k1 + k2, v1 + v2) && Laid(k1 + k2, v1 + v2) == Laid(k1, v1) + Laid(k2, v2)
  {
    hide FieldBytes, Fits;
    AllFitConcat(k1, v1, k2, v2);
    if k1 == [] {
      assert k1 + k2 == k2 && v1 + v2 == v2;
    } else {
      LaidConcat(k1[1..], v1[1..], k2, v2);
      assert (k1 + k2)[1..] == k1[1..] + k2 && (v1 + v2)[1..] == v1[1..] + v2;
    }
  }

  // ----- Stat records -----

  predicate StatFits(s: Stat) {
    && |s.name| <= U16_MAX && |s.uid| <= U16_MAX && |s.gid| <= U16_MAX && |s.muid| <= U16_MAX
    && |StatBody(s)| <= U16_MAX
  }

  lemma StatLaid(s: Stat)
    ensures Laid(STAT_KINDS, StatValues(s)) == StatBody(s)
  {
    hide Laid, PutLE, Str16, QidBytes;
    Widths();
    var v := StatValues(s);
    Laid4(U16, v[0], U32, v[1], QidKind, v[2], U32, v[3]);
    Laid3(U32, v[4], U32, v[5], U64, v[6]);
    Laid4(Text, v[7], Text, v[8], Text, v[9], Text, v[10]);
    var k1, k2, k3 := [U16, U32, QidKind, U32], [U32, U32, U64], [Text, Text, Text, Text];
    var v1, v2, v3 := [v[0], v[1], v[2], v[3]], [v[4], v[5], v[6]], [v[7], v[8], v[9], v[10]];
    LaidConcat(k1, v1, k2, v2);
    LaidConcat(k1 + k2, v1 + v2, k3, v3);
    assert STAT_KINDS == k1 + k2 + k3 && v == v1 + v2 + v3;
    var head := N2(s.kind) + N4(s.dev) + QidBytes(s.qid) + N4(s.mode);
    Append3(head, N4(s.atime), N4(s.mtime), N8(s.length));
    Append4(head + N4(s.atime) + N4(s.mtime) + N8(s.length), Str16(s.name), Str16(s.uid), Str16(s.gid), Str16(s.muid));
  }

  lemma StatStringsShort(s: Stat)
    ensures AllShort(StatValues(s)) <==>
              |s.name| <= U16_MAX && |s.uid| <= U16_MAX && |s.gid| <= U16_MAX && |s.muid| <= U16_MAX
  {
    var v := StatValues(s);
    assert ShortEnough(v[0]) && ShortEnough(v[1]) && ShortEnough(v[2]) && ShortEnough(v[3]) && ShortEnough(v[4]);
    assert ShortEnough(v[5]) && ShortEnough(v[6]);
    assert AllShort(v) ==> ShortEnough(v[7]) && ShortEnough(v[8]) && ShortEnough(v[9]) && ShortEnough(v[10]);
  }

  /** A stat encodes to its manual layout, exactly when its strings and its body fit their counts. */
  lemma StatAsInManual(s: Stat)
    ensures EncodeStat(s).Ok? <==> StatFits(s)
    ensures EncodeStat(s).Ok? ==> EncodeStat(s).value == StatRecord(s)
  {
    hide StatBody, PutAll, Laid, AllShort;
    FieldsAreLaid(STAT_KINDS, StatValues(s));
    StatLaid(s);
    StatStringsShort(s);
  }

  // ----- Tails -----

  lemma {:induction false} NamesLaid(names: seq<seq<byte>>)
    ensures AllFit(Repeat(Text, |names|), NameValues(names))
    ensures Laid(Repeat(Text, |names|), NameValues(names)) == Strings(names)
  {
    if names != [] {
      NamesLaid(names[1..]);
      LaidCons(Text, Bytes(names[0]), Repeat(Text, |names| - 1), NameValues(names[1..]));
      assert Repeat(Text, |names|) == [Text] + Repeat(Text, |names| - 1);
      assert NameValues(names) == [Bytes(names[0])] + NameValues(names[1..]);
    }
  }

  lemma {:induction false} QidsLaid(qids: seq<Qid>)
    ensures AllFit(Repeat(QidKind, |qids|), QidValues(qids))
    ensures Laid(Repeat(QidKind, |qids|), QidValues(qids)) == QidRun(qids)
  {
    if qids != [] {
      QidsLaid(qids[1..]);
      LaidCons(QidKind, QidValue(qids[0]), Repeat(QidKind, |qids| - 1), QidValues(qids[1..]));
      assert Repeat(QidKind, |qids|) == [QidKind] + Repeat(QidKind, |qids| - 1);
      assert QidValues(qids) == [QidValue(qids[0])] + QidValues(qids[1..]);
    }
  }

  predicate AllNamesShort(names: seq<seq<byte>>) {
    forall i :: 0 <= i < |names| ==> |names[i]| <= U16_MAX
  }

  predicate ReferralFits(r: Referral) {
    && Complaint(r) == None
    && |r.mountPath| <= U16_MAX && |r.endpoint| <= U16_MAX && |r.uname| <= U16_MAX
    && |r.aname| <= U16_MAX && |r.exportedRoot| <= U16_MAX && |r.authorityBoundary| <= U16_MAX
  }

  lemma ReferralLaid(r: Referral)
    ensures Laid(REFERRAL_KINDS, ReferralValues(r)) == ReferralBytes(r)
  {
    hide Laid, PutLE, Str16;
    Widths();
    var v := ReferralValues(r);
    Laid4(Text, v[0], Text, v[1], Text, v[2], Text, v[3]);
    Laid4(Text, v[4], Text, v[5], U64, v[6], U64, v[7]);
    var k1, k2 := [Text, Text, Text, Text], [Text, Text, U64, U64];
    var v1, v2 := [v[0], v[1], v[2], v[3]], [v[4], v[5], v[6], v[7]];
    LaidConcat(k1, v1, k2, v2);
    assert REFERRAL_KINDS == k1 + k2 && v == v1 + v2;
    var head := Str16(r.mountPath) + Str16(r.endpoint) + Str16(r.uname) + Str16(r.aname);
    Append4(head, Str16(r.exportedRoot), Str16(r.authorityBoundary), N8(r.generation), N8(r.validForMs));
  }

  lemma ReferralStringsShort(r: Referral)
    ensures Complaint(r) == None ==> (AllShort(ReferralValues(r)) <==> ReferralFits(r))
  {
    hide Complaint;
    var v := ReferralValues(r);
    assert ShortEnough(v[6]) && ShortEnough(v[7]);
    assert AllShort(v) ==> ShortEnough(v[0]) && ShortEnough(v[1]) && ShortEnough(v[2]) && ShortEnough(v[3])
                           && ShortEnough(v[4]) && ShortEnough(v[5]);
  }

  lemma {:induction false} ReferralsLaid(referrals: seq<Referral>)
    ensures PutReferrals(referrals).Ok? <==> forall i :: 0 <= i < |referrals| ==> ReferralFits(referrals[i])
    ensures PutReferrals(referrals).Ok? ==> PutReferrals(referrals).value == ReferralRun(referrals)
  {
    hide Complaint, PutAll, Laid, ReferralBytes, AllShort;
    if referrals != [] {
      var r, rest := referrals[0], referrals[1..];
      ReferralsLaid(rest);
      FieldsAreLaid(REFERRAL_KINDS, ReferralValues(r));
      ReferralLaid(r);
      ReferralStringsShort(r);
      assert forall i :: 1 <= i < |referrals| ==> referrals[i] == rest[i - 1];
      assert forall i :: 0 <= i < |rest| ==> rest[i] == referrals[i + 1];
    }
  }

  function TailBytes(tail: Tail): seq<byte> {
    match tail
    case Nothing => []
    case Names(names) => N2(|names|) + Strings(names)
    case Qids(qids) => N2(|qids|) + QidRun(qids)
    case Data(data) => N4(|data|) + data
    case Record(stat) => N2(|StatRecord(stat)|) + StatRecord(stat)
    case Referrals(referrals) => N2(|referrals|) + ReferralRun(referrals)
  }

  /** The counts of the tail can be written. */
  predicate TailCounts(tail: Tail) {
    match tail
    case Nothing => true
    case Names(names) => |names| <= MAXWELEM && AllNamesShort(names)
    case Qids(qids) => |qids| <= MAXWELEM
    case Data(data) => |data| <= U32_MAX
    case Record(stat) => StatFits(stat) && |StatRecord(stat)| <= U16_MAX
    case Referrals(referrals) =>
      |referrals| <= U16_MAX && forall i :: 0 <= i < |referrals| ==> ReferralFits(referrals[i])
  }

  lemma NamesShort(names: seq<seq<byte>>)
    ensures AllShort(NameValues(names)) <==> AllNamesShort(names)
  {
    var v := NameValues(names);
    if AllShort(v) {
      forall i | 0 <= i < |names|
        ensures |names[i]| <= U16_MAX
      {
        assert ShortEnough(v[i]);
      }
    }
  }

  lemma TailIsLaid(kind: TailKind, tail: Tail)
    requires TailFits(kind, tail)
    ensures PutTail(kind, tail).Ok? <==> TailCounts(tail)
    ensures PutTail(kind, tail).Ok? ==> PutTail(kind, tail).value == TailBytes(tail)
  {
    hide PutAll, Laid, StatFits, StatRecord, EncodeStat, PutReferrals, ReferralRun, ReferralFits, PutLE, AllShort;
    Widths();
    match kind {
      case NothingTail =>
      case NamesTail =>
        NamesLaid(tail.names);
        NamesShort(tail.names);
        FieldsAreLaid(Repeat(Text, |tail.names|), NameValues(tail.names));
      case QidsTail =>
        QidsLaid(tail.qids);
        QidsShort(tail.qids);
        FieldsAreLaid(Repeat(QidKind, |tail.qids|), QidValues(tail.qids));
      case DataTail(_) =>
      case RecordTail => StatAsInManual(tail.stat);
      case ReferralsTail => ReferralsLaid(tail.referrals);
    }
  }

  lemma QidsShort(qids: seq<Qid>)
    ensures AllShort(QidValues(qids))
  {
  }

  // ----- Frames -----

  function FrameBytes(mtype: u8, tag: u16, body: seq<byte>): seq<byte> {
    N4(HEADER + |body|) + [mtype] + N2(tag) + body
  }

  /** A frame is laid out as its format says, exactly when all its counts can be written. */
  lemma FrameIsLaid(f: Format, p: Parts)
    requires PartsFit(f, p)
    ensures var body := Laid(f.kinds, p.values) + TailBytes(p.tail);
            && (Seal(f, p).Ok? <==> AllShort(p.values) && TailCounts(p.tail) && HEADER + |body| <= U32_MAX)
            && (Seal(f, p).Ok? ==> Seal(f, p).value == FrameBytes(p.mtype, p.tag, body))
  {
    hide PutAll, PutTail, Laid, TailBytes, TailCounts, AllShort, PutLE, TailFits;
    FieldsAreLaid(f.kinds, p.values);
    TailIsLaid(f.tail, p.tail);
  }

  // ----- Messages -----

  function RequestType(m: TMessage): u8 {
    match m
    case TVersion(_, _, _) => 100
    case TAuth(_, _, _, _) => 102
    case TAttach(_, _, _, _, _) => 104
    case TFlush(_, _) => 108
    case TWalk(_, _, _, _) => 110
    case TOpen(_, _, _) => 112
    case TCreate(_, _, _, _, _) => 114
    case TRead(_, _, _, _) => 116
    case TWrite(_, _, _, _) => 118
    case TClunk(_, _) => 120
    case TRemove(_, _) => 122
    case TStat(_, _) => 124
    case TWstat(_, _, _) => 126
    case TRenameAt(_, _, _, _, _) => 74
    case TReferrals(_, _) => 200
  }

  function ReplyType(m: RMessage): u8 {
    match m
    case RVersion(_, _, _) => 101
    case RAuth(_, _) => 103
    case RAttach(_, _) => 105
    case RError(_, _) => 107
    case RFlush(_) => 109
    case RWalk(_, _) => 111
    case ROpen(_, _, _) => 113
    case RCreate(_, _, _) => 115
    case RRead(_, _) => 117
    case RWrite(_, _) => 119
    case RClunk(_) => 121
    case RRemove(_) => 123
    case RStat(_, _) => 125
    case RWstat(_) => 127
    case RRenameAt(_) => 75
    case RReferrals(_, _) => 201
  }

  predicate RequestLaid(m: TMessage) {
    var p := TParts(m);
    && p.mtype == RequestType(m) && p.tag == m.tag
    && TFormat(p.mtype).Some? && PartsFit(TFormat(p.mtype).value, p)
    && Laid(TFormat(p.mtype).value.kinds, p.values) + TailBytes(p.tail) == RequestBody(m)
  }

  predicate HasText(m: TMessage) {
    m.TVersion? || m.TAuth? || m.TAttach? || m.TCreate? || m.TRenameAt?
  }

  predicate HasTail(m: TMessage) {
    m.TWalk? || m.TWrite? || m.TWstat?
  }

  lemma NumbersRequestIsLaid(m: TMessage)
    requires !HasText(m) && !HasTail(m)
    ensures RequestLaid(m)
  {
    hide Laid, PutLE, AllFit;
    TPartsFit(m);
    Widths();
    match m {
      case TFlush(_, a) => Laid1(U16, Num(a));
      case TOpen(_, a, b) => Laid2(U32, Num(a), U8, Num(b));
      case TRead(_, a, b, c) => Laid3(U32, Num(a), U64, Num(b), U32, Num(c));
      case TClunk(_, a) => Laid1(U32, Num(a));
      case TRemove(_, a) => Laid1(U32, Num(a));
      case TStat(_, a) => Laid1(U32, Num(a));
      case TReferrals(_, a) => Laid1(U32, Num(a));
    }
  }

  lemma TextRequestIsLaid(m: TMessage)
    requires HasText(m)
    ensures RequestLaid(m)
  {
    hide Laid, PutLE, Str16, AllFit;
    TPartsFit(m);
    Widths();
    match m {
      case TVersion(_, a, b) => Laid2(U32, Num(a), Text, Bytes(b));
      case TAuth(_, a, b, c) => Laid3(U32, Num(a), Text, Bytes(b), Text, Bytes(c));
      case TAttach(_, a, b, c, d) => Laid4(U32, Num(a), U32, Num(b), Text, Bytes(c), Text, Bytes(d));
      case TCreate(_, a, b, c, d) => Laid4(U32, Num(a), Text, Bytes(b), U32, Num(c), U8, Num(d));
      case TRenameAt(_, a, b, c, d) => Laid4(U32, Num(a), Text, Bytes(b), U32, Num(c), Text, Bytes(d));
    }
  }

  lemma TailedRequestIsLaid(m: TMessage)
    requires HasTail(m)
    ensures RequestLaid(m)
  {
    hide Laid, PutLE, Strings, StatRecord, AllFit;
    TPartsFit(m);
    Widths();
    match m {
      case TWalk(_, a, b, _) => Laid2(U32, Num(a), U32, Num(b));
      case TWrite(_, a, b, _) => Laid2(U32, Num(a), U64, Num(b));
      case TWstat(_, a, _) => Laid1(U32, Num(a));
    }
  }

  lemma RequestIsLaid(m: TMessage)
    ensures RequestLaid(m)
  {
    if HasTail(m) {
      TailedRequestIsLaid(m);
    } else if HasText(m) {
      TextRequestIsLaid(m);
    } else {
      NumbersRequestIsLaid(m);
    }
  }

  lemma ReplyIsLaid(m: RMessage)
    ensures var p := RParts(m);
            && p.mtype == ReplyType(m) && p.tag == m.tag
            && RFormat(p.mtype).Some? && PartsFit(RFormat(p.mtype).value, p)
            && Laid(RFormat(p.mtype).value.kinds, p.values) + TailBytes(p.tail) == ReplyBody(m)
  {
    hide Laid, PutLE, Str16, QidBytes, QidRun, StatRecord, ReferralRun, TailFits;
    RPartsRoundTrip(m);
    Widths();
    LaidNothing();
    match m {
      case RVersion(_, a, b) => Laid2(U32, Num(a), Text, Bytes(b));
      case RAuth(_, a) => Laid1(QidKind, QidValue(a));
      case RAttach(_, a) => Laid1(QidKind, QidValue(a));
      case RError(_, a) => Laid1(Text, Bytes(a));
      case ROpen(_, a, b) => Laid2(QidKind, QidValue(a), U32, Num(b));
      case RCreate(_, a, b) => Laid2(QidKind, QidValue(a), U32, Num(b));
      case RWrite(_, a) => Laid1(U32, Num(a));
      case _ =>
    }
  }

  lemma LaidNothing()
    ensures Laid([], []) == []
  {
  }

  /** A request encodes to the bytes of the manual, exactly when its strings, counts and size can be
      written. */
  lemma RequestAsInManual(m: TMessage)
    ensures EncodeT(m).Ok? <==>
              AllShort(TParts(m).values) && TailCounts(TParts(m).tail) && HEADER + |RequestBody(m)| <= U32_MAX
    ensures EncodeT(m).Ok? ==> EncodeT(m).value == FrameBytes(RequestType(m), m.tag, RequestBody(m))
  {
    hide Seal, Laid, TailBytes, RequestBody, RequestType, TParts, TFormat, AllShort, TailCounts, FrameBytes;
    RequestIsLaid(m);
    FrameIsLaid(TFormat(TParts(m).mtype).value, TParts(m));
  }

  /** A reply encodes to the bytes of the manual, exactly when its strings, counts and size can be
      written and its referrals are valid. */
  lemma ReplyAsInManual(m: RMessage)
    ensures EncodeR(m).Ok? <==>
              AllShort(RParts(m).values) && TailCounts(RParts(m).tail) && HEADER + |ReplyBody(m)| <= U32_MAX
    ensures EncodeR(m).Ok? ==> EncodeR(m).value == FrameBytes(ReplyType(m), m.tag, ReplyBody(m))
  {
    hide Seal, Laid, TailBytes, ReplyBody, ReplyType, RParts, RFormat, AllShort, TailCounts, FrameBytes;
    ReplyIsLaid(m);
    FrameIsLaid(RFormat(RParts(m).mtype).value, RParts(m));
  }
}
