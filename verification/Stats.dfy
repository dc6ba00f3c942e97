/** Stat records and directory reads: crates/core/src/stat.rs. */
module Stats {
  import opened Prelude
  import opened Wire
  import opened Chunks

  datatype Stat = Stat(
    kind: u16,
    dev: u32,
    qid: Qid,
    mode: u32,
    atime: u32,
    mtime: u32,
    length: u64,
    name: seq<byte>,
    uid: seq<byte>,
    gid: seq<byte>,
    muid: seq<byte>)

  const STAT_KINDS: seq<Kind> := [U16, U32, QidKind, U32, U32, U32, U64, Text, Text, Text, Text]

  const STAT_TOO_LARGE := "stat too large"
  const TRUNCATED_ENTRY := "truncated directory stat"

  function StatValues(s: Stat): (values: seq<Value>)
    ensures AllFit(STAT_KINDS, values)
  {
    Widths();
    [Num(s.kind), Num(s.dev), QidValue(s.qid), Num(s.mode), Num(s.atime), Num(s.mtime), Num(s.length),
     Bytes(s.name), Bytes(s.uid), Bytes(s.gid), Bytes(s.muid)]
  }

  function StatOf(v: seq<Value>): (s: Stat)
    requires AllFit(STAT_KINDS, v)
    ensures StatValues(s) == v
  {
    Widths();
    assert Fits(STAT_KINDS[0], v[0]) && Fits(STAT_KINDS[1], v[1]) && Fits(STAT_KINDS[2], v[2]);
    assert Fits(STAT_KINDS[3], v[3]) && Fits(STAT_KINDS[4], v[4]) && Fits(STAT_KINDS[5], v[5]);
    assert Fits(STAT_KINDS[6], v[6]) && Fits(STAT_KINDS[7], v[7]) && Fits(STAT_KINDS[8], v[8]);
    assert Fits(STAT_KINDS[9], v[9]) && Fits(STAT_KINDS[10], v[10]);
    Stat(v[0].n, v[1].n, v[2].qid, v[3].n, v[4].n, v[5].n, v[6].n, v[7].bytes, v[8].bytes, v[9].bytes, v[10].bytes)
  }

  /** A two-byte size and the fields. */
  function EncodeStat(s: Stat): Result<seq<byte>> {
    match PutAll(STAT_KINDS, StatValues(s))
    case Err(e) => Err(e)
    case Ok(body) => if |body| > U16_MAX then Err(STAT_TOO_LARGE) else Ok(PutLE(|body|, 2) + body)
  }

  function DecodeStat(data: seq<byte>): Result<Stat> {
    match SplitAt(data, 2)
    case Err(e) => Err(e)
    case Ok((size, rest)) =>
      if GetLE(size) != |rest| then Err("stat size mismatch")
      else
        match GetAll(STAT_KINDS, rest)
        case Err(e) => Err(e)
        case Ok((values, after)) =>
          if after != [] then Err("trailing stat bytes")
          else
            FieldsReadBack(STAT_KINDS, rest);
            Ok(StatOf(values))
  }

  lemma StatRoundTrip(s: Stat)
    requires EncodeStat(s).Ok?
    ensures DecodeStat(EncodeStat(s).value) == Ok(s)
  {
    var body := PutAll(STAT_KINDS, StatValues(s)).value;
    Widths();
    GetAfterPut(|body|, 2);
    SplitAppended(PutLE(|body|, 2), body);
    FieldsRoundTrip(STAT_KINDS, StatValues(s), []);
    assert body + [] == body;
    assert StatValues(StatOf(StatValues(s))) == StatValues(s);
    SameValuesSameStat(s, StatOf(StatValues(s)));
  }

  lemma SameValuesSameStat(s: Stat, t: Stat)
    requires StatValues(s) == StatValues(t)
    ensures s == t
  {
    var v, w := StatValues(s), StatValues(t);
    assert v[0] == w[0] && v[1] == w[1] && v[2] == w[2] && v[3] == w[3] && v[4] == w[4] && v[5] == w[5];
    assert v[6] == w[6] && v[7] == w[7] && v[8] == w[8] && v[9] == w[9] && v[10] == w[10];
  }

  lemma StatReadBack(data: seq<byte>)
    requires DecodeStat(data).Ok?
    ensures EncodeStat(DecodeStat(data).value) == Ok(data)
  {
    var size, rest := data[..2], data[2..];
    PutAfterGet(size);
    Widths();
    FieldsReadBack(STAT_KINDS, rest);
    var values := GetAll(STAT_KINDS, rest).value.0;
    assert PutAll(STAT_KINDS, values).value + [] == PutAll(STAT_KINDS, values).value;
    assert data == size + rest;
  }

  // ----- Directory listings as bytes -----

  predicate Encodable(stats: seq<Stat>) {
    forall i :: 0 <= i < |stats| ==> EncodeStat(stats[i]).Ok?
  }

  /** The encoded records of a listing; laid end to end they are what a directory read returns. */
  function Records(stats: seq<Stat>): (records: seq<seq<byte>>)
    requires Encodable(stats)
    ensures |records| == |stats|
  {
    seq(|stats|, i requires 0 <= i < |stats| => EncodeStat(stats[i]).value)
  }

  /** `decode_dir_entries`. */
  function DecodeEntries(data: seq<byte>): Result<seq<Stat>> {
    if data == [] then Ok([])
    else if |data| < 2 then Err(TRUNCATED_ENTRY)
    else
      var end := GetLE(data[..2]) + 2;
      if end > |data| then Err(TRUNCATED_ENTRY)
      else
        match DecodeStat(data[..end])
        case Err(e) => Err(e)
        case Ok(s) =>
          match DecodeEntries(data[end..])
          case Err(e) => Err(e)
          case Ok(more) => Ok([s] + more)
  }

  /** A record announces its own length. */
  lemma RecordSize(s: Stat)
    requires EncodeStat(s).Ok?
    ensures |EncodeStat(s).value| >= 2 && GetLE(EncodeStat(s).value[..2]) + 2 == |EncodeStat(s).value|
  {
    var body := PutAll(STAT_KINDS, StatValues(s)).value;
    Widths();
    GetAfterPut(|body|, 2);
    assert (PutLE(|body|, 2) + body)[..2] == PutLE(|body|, 2);
  }

  lemma FirstEntry(s: Stat, rest: seq<byte>)
    requires EncodeStat(s).Ok?
    ensures DecodeEntries(EncodeStat(s).value + rest) == Found([s], DecodeEntries(rest))
  {
    var head := EncodeStat(s).value;
    RecordSize(s);
    StatRoundTrip(s);
    assert (head + rest)[..2] == head[..2];
    assert (head + rest)[..|head|] == head && (head + rest)[|head|..] == rest;
  }

  /** Every listing that decodes is the records of what it decodes to. */
  lemma {:induction false} EntriesReadBack(data: seq<byte>)
    requires DecodeEntries(data).Ok?
    ensures Encodable(DecodeEntries(data).value) && Flatten(Records(DecodeEntries(data).value)) == data
    decreases |data|
  {
    hide DecodeStat, EncodeStat;
    if data != [] {
      var end := GetLE(data[..2]) + 2;
      var entry, rest := DecodeStat(data[..end]), DecodeEntries(data[end..]);
      var s, more := entry.value, rest.value;
      StatReadBack(data[..end]);
      EntriesReadBack(data[end..]);
      ConsRecords(s, more);
      assert data == data[..end] + data[end..];
    }
  }

  lemma ConsRecords(s: Stat, more: seq<Stat>)
    requires EncodeStat(s).Ok? && Encodable(more)
    ensures Encodable([s] + more)
    ensures Flatten(Records([s] + more)) == EncodeStat(s).value + Flatten(Records(more))
  {
    forall i | 0 <= i < |[s] + more|
      ensures EncodeStat(([s] + more)[i]).Ok?
    {
      assert i > 0 ==> EncodeStat(more[i - 1]).Ok?;
    }
    assert Records([s] + more) == [EncodeStat(s).value] + Records(more);
    assert ([EncodeStat(s).value] + Records(more))[1..] == Records(more);
  }

  lemma ConsRoundTrip(s: Stat, more: seq<Stat>)
    requires EncodeStat(s).Ok? && Encodable(more) && DecodeEntries(Flatten(Records(more))) == Ok(more)
    ensures Encodable([s] + more) && DecodeEntries(Flatten(Records([s] + more))) == Ok([s] + more)
  {
    ConsRecords(s, more);
    FirstEntry(s, Flatten(Records(more)));
  }

  /** Decoding the records of a listing gives the listing. */
  lemma {:induction false} EntriesRoundTrip(stats: seq<Stat>)
    requires Encodable(stats)
    ensures DecodeEntries(Flatten(Records(stats))) == Ok(stats)
  {
    if stats != [] {
      var s, more := stats[0], stats[1..];
      assert stats == [s] + more;
      EntriesRoundTrip(more);
      ConsRoundTrip(s, more);
    }
  }

  /** What a listing starts with decides what is left to decode. */
  lemma {:induction false} EntriesStep(data: seq<byte>)
    requires data != []
    ensures |data| < 2 || GetLE(data[..2]) + 2 > |data| ==> DecodeEntries(data) == Err(TRUNCATED_ENTRY)
    ensures |data| >= 2 && GetLE(data[..2]) + 2 <= |data| ==>
              var end := GetLE(data[..2]) + 2;
              DecodeEntries(data) == Entered(DecodeStat(data[..end]), DecodeEntries(data[end..]))
  {
  }

  ghost function Entered(entry: Result<Stat>, r: Result<seq<Stat>>): Result<seq<Stat>> {
    if entry.Err? then Err(entry.error) else Found([entry.value], r)
  }

  /** One turn of the decoding loop. */
  lemma {:induction false} NextEntry(data: seq<byte>, offset: nat, end: nat)
    requires offset + 2 <= end <= |data| && end == offset + GetLE(data[offset..offset + 2]) + 2
    ensures DecodeEntries(data[offset..]) == Entered(DecodeStat(data[offset..end]), DecodeEntries(data[end..]))
  {
    var rest := data[offset..];
    assert rest[..2] == data[offset..offset + 2];
    EntriesStep(rest);
    assert rest[..end - offset] == data[offset..end] && rest[end - offset..] == data[end..];
  }

  method DecodeDirEntries(data: seq<byte>) returns (r: Result<seq<Stat>>)
    ensures r == DecodeEntries(data)
  {
    var entries: seq<Stat> := [];
    var offset: nat := 0;
    assert data[0..] == data;
    FoundNone(DecodeEntries(data));
    while offset < |data|
      invariant 0 <= offset <= |data|
      invariant DecodeEntries(data) == Found(entries, DecodeEntries(data[offset..]))
      decreases |data| - offset
    {
      assert |data| - offset >= 2 ==> data[offset..][..2] == data[offset..offset + 2];
      EntriesStep(data[offset..]);
      if |data| - offset < 2 {
        return Err(TRUNCATED_ENTRY);
      }
      var end := offset + GetLE(data[offset..offset + 2]) + 2;
      if end > |data| {
        return Err(TRUNCATED_ENTRY);
      }
      var entry := DecodeStat(data[offset..end]);
      NextEntry(data, offset, end);
      if entry.Err? {
        return Err(entry.error);
      }
      FoundMore(entries, entry.value, DecodeEntries(data[end..]));
      entries := entries + [entry.value];
      offset := end;
    }
    assert entries + [] == entries;
    return Ok(entries);
  }

  ghost function Found(entries: seq<Stat>, r: Result<seq<Stat>>): Result<seq<Stat>> {
    match r
    case Err(e) => Err(e)
    case Ok(more) => Ok(entries + more)
  }

  lemma FoundNone(r: Result<seq<Stat>>)
    ensures Found([], r) == r
  {
    if r.Ok? {
      assert [] + r.value == r.value;
    }
  }

  lemma FoundMore(entries: seq<Stat>, s: Stat, r: Result<seq<Stat>>)
    ensures Found(entries + [s], r) == Found(entries, Found([s], r))
  {
    if r.Ok? {
      assert entries + [s] + r.value == entries + ([s] + r.value);
    }
  }
}
