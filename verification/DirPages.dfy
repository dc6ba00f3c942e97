/** Paged directory reads: `dirread_chunk` and the client loop that reads a directory to its end. */
module DirPages {
  import opened Prelude
  import opened Chunks
  import opened Stats

  /** How many whole records end exactly at `offset`; none if it falls inside a record or beyond. */
  function Boundary(records: seq<seq<byte>>, offset: nat): Option<nat> {
    if offset == 0 then Some(0)
    else if records == [] || offset < |records[0]| then None
    else
      match Boundary(records[1..], offset - |records[0]|)
      case None => None
      case Some(k) => Some(k + 1)
  }

  /** The end of the longest run of records from `k` that fits into `room` bytes. */
  function FillTo(records: seq<seq<byte>>, k: nat, room: nat): (end: nat)
    requires k <= |records|
    ensures k <= end <= |records|
    decreases |records| - k
  {
    if k == |records| || |records[k]| > room then k else FillTo(records, k + 1, room - |records[k]|)
  }

  /** What a read at `offset` returns: as many whole records as fit, starting at a record boundary. */
  function Chunk(records: seq<seq<byte>>, offset: nat, count: nat): seq<byte> {
    match Boundary(records, offset)
    case None => []
    case Some(k) => if k <= |records| then Flatten(records[k..FillTo(records, k, count)]) else []
  }

  predicate Nonempty(records: seq<seq<byte>>) {
    forall i :: 0 <= i < |records| ==> |records[i]| > 0
  }

  lemma {:induction false} BoundaryIsExact(records: seq<seq<byte>>, offset: nat, k: nat)
    requires Nonempty(records) && k <= |records|
    ensures Boundary(records, offset) == Some(k) <==> |Flatten(records[..k])| == offset
    decreases |records|
  {
    if k > 0 {
      assert records[..k][1..] == records[1..][..k - 1];
      if offset >= |records[0]| {
        BoundaryIsExact(records[1..], offset - |records[0]|, k - 1);
      }
    }
  }

  lemma {:induction false} BoundaryInRange(records: seq<seq<byte>>, offset: nat)
    ensures Boundary(records, offset).Some? ==> Boundary(records, offset).value <= |records|
    decreases |records|
  {
    if offset != 0 && records != [] && offset >= |records[0]| {
      BoundaryInRange(records[1..], offset - |records[0]|);
    }
  }

  /** An offset inside a record, or past the end, reads nothing. */
  lemma OffBoundaryReadsNothing(records: seq<seq<byte>>, offset: nat, count: nat)
    requires Nonempty(records)
    requires forall k :: 0 <= k <= |records| ==> |Flatten(records[..k])| != offset
    ensures Chunk(records, offset, count) == []
  {
    BoundaryInRange(records, offset);
    if Boundary(records, offset).Some? {
      BoundaryIsExact(records, offset, Boundary(records, offset).value);
    }
  }

  /** The run taken fits, and the next record, if any, does not. */
  lemma {:induction false} FillToIsGreedy(records: seq<seq<byte>>, k: nat, room: nat)
    requires k <= |records|
    ensures var end := FillTo(records, k, room);
            var taken := |Flatten(records[k..end])|;
            && taken <= room
            && (end < |records| ==> taken + |records[end]| > room)
            && (forall j :: k <= j < end ==> |records[j]| <= room)
    decreases |records| - k
  {
    if k < |records| && |records[k]| <= room {
      FillToIsGreedy(records, k + 1, room - |records[k]|);
      var end := FillTo(records, k, room);
      assert records[k..end][1..] == records[k + 1..end];
    }
  }

  lemma RecordsAreNonempty(stats: seq<Stat>)
    requires Encodable(stats)
    ensures Nonempty(Records(stats))
  {
    forall i | 0 <= i < |stats|
      ensures |Records(stats)[i]| > 0
    {
      RecordSize(stats[i]);
    }
  }

  /** The chunk taken so far ends where the chunk would if it started here with the room left. */
  lemma FillToStep(records: seq<seq<byte>>, k: nat, i: nat, count: nat)
    requires k <= i < |records|
    requires |Flatten(records[k..i])| <= count
             && FillTo(records, k, count) == FillTo(records, i, count - |Flatten(records[k..i])|)
    ensures Flatten(records[k..i + 1]) == Flatten(records[k..i]) + records[i]
    ensures |Flatten(records[k..i + 1])| <= count ==>
              FillTo(records, k, count) == FillTo(records, i + 1, count - |Flatten(records[k..i + 1])|)
    ensures |Flatten(records[k..i + 1])| > count ==> FillTo(records, k, count) == i
  {
    assert records[k..i + 1] == records[k..i] + [records[i]];
    FlattenAppend(records[k..i], records[i]);
  }

  /** The first entry that cannot be encoded, or the end of the listing. */
  function FirstBad(stats: seq<Stat>): (i: nat)
    ensures i <= |stats| && Encodable(stats[..i])
    ensures i < |stats| ==> EncodeStat(stats[i]).Err?
  {
    if stats == [] || EncodeStat(stats[0]).Err? then 0
    else
      assert stats[..1 + FirstBad(stats[1..])] == [stats[0]] + stats[1..][..FirstBad(stats[1..])];
      1 + FirstBad(stats[1..])
  }

  /** A read looks past all the records: it skips them or has room for all of them from its start on. */
  predicate PassesAll(records: seq<seq<byte>>, offset: nat, count: nat) {
    match Boundary(records, offset)
    case None => offset >= |Flatten(records)|
    case Some(k) => k <= |records| && FillTo(records, k, count) == |records|
  }

  /** Before record `i`: still skipping (`k` is none), or taking from record `k.value` on. */
  ghost predicate Progress(records: seq<seq<byte>>, offset: nat, count: nat, i: nat, position: nat,
                           out: seq<byte>, k: Option<nat>) {
    && Nonempty(records) && i <= |records| && position == |Flatten(records[..i])|
    && match k
       case None => out == [] && position <= offset
       case Some(k) =>
         && k <= i && |Flatten(records[..k])| == offset < position && out == Flatten(records[k..i]) && |out| <= count
         && FillTo(records, k, count) == FillTo(records, i, count - |out|)
  }

  lemma Skip(records: seq<seq<byte>>, offset: nat, count: nat, i: nat, position: nat, out: seq<byte>, k: Option<nat>)
    requires Progress(records, offset, count, i, position, out, k) && i < |records| && position + |records[i]| <= offset
    ensures Progress(records, offset, count, i + 1, position + |records[i]|, out, k)
  {
    FlattenSnoc(records, i);
  }

  lemma StopInside(records: seq<seq<byte>>, offset: nat, count: nat, i: nat, position: nat,
                   out: seq<byte>, k: Option<nat>)
    requires Progress(records, offset, count, i, position, out, k) && i < |records|
    requires position < offset < position + |records[i]|
    ensures !PassesAll(records, offset, count) && out == Chunk(records, offset, count)
  {
    FlattenSnoc(records, i);
    InsideRecord(records, i, offset);
  }

  /** The record at or after the offset is taken when it fits, and otherwise ends the page. */
  lemma TakeOrStop(records: seq<seq<byte>>, offset: nat, count: nat, i: nat, position: nat,
                   out: seq<byte>, k: Option<nat>)
    requires Progress(records, offset, count, i, position, out, k) && i < |records| && position >= offset
    ensures if |out| + |records[i]| > count then !PassesAll(records, offset, count)
              && out == Chunk(records, offset, count)
            else Progress(records, offset, count, i + 1, position + |records[i]|, out + records[i],
                          if k == None then Some(i) else k)
  {
    FlattenSnoc(records, i);
    var start := if k == None then i else k.value;
    assert records[i..i] == [];
    FillToStep(records, start, i, count);
    BoundaryIsExact(records, offset, start);
  }

  lemma ReachEnd(records: seq<seq<byte>>, offset: nat, count: nat, position: nat, out: seq<byte>, k: Option<nat>)
    requires Progress(records, offset, count, |records|, position, out, k)
    ensures PassesAll(records, offset, count) && out == Chunk(records, offset, count)
  {
    assert records[..|records|] == records;
    if k == None {
      AtEnd(records, offset, count);
    } else {
      BoundaryIsExact(records, offset, k.value);
    }
  }

  /** What a read gives; it fails exactly when it gets as far as an entry that cannot be encoded. */
  function Page(stats: seq<Stat>, offset: nat, count: nat): Result<seq<byte>> {
    var bad := FirstBad(stats);
    var records := Records(stats[..bad]);
    if bad < |stats| && PassesAll(records, offset, count) then Err(EncodeStat(stats[bad]).error)
    else Ok(Chunk(records, offset, count))
  }

  /** `dirread_chunk`. */
  method DirreadChunk(stats: seq<Stat>, offset: nat, count: nat) returns (r: Result<seq<byte>>)
    ensures r == Page(stats, offset, count)
  {
    ghost var bad := FirstBad(stats);
    ghost var records := Records(stats[..bad]);
    RecordsAreNonempty(stats[..bad]);
    var out: seq<byte> := [];
    var position: nat := 0;
    ghost var k: Option<nat> := None;
    for i := 0 to |stats|
      invariant i <= bad && Progress(records, offset, count, i, position, out, k)
    {
      var attempt := EncodeStat(stats[i]);
      if attempt.Err? {
        ReachEnd(records, offset, count, position, out, k);
        return Err(attempt.error);
      }
      var encoded := attempt.value;
      assert stats[..bad][i] == stats[i];
      assert encoded == records[i];
      var next := position + |encoded|;
      if next <= offset {
        Skip(records, offset, count, i, position, out, k);
        position := next;
        continue;
      }
      if position < offset {
        StopInside(records, offset, count, i, position, out, k);
        return Ok(out);
      }
      TakeOrStop(records, offset, count, i, position, out, k);
      if |out| + |encoded| > count {
        return Ok(out);
      }
      out := out + encoded;
      position := next;
      k := if k == None then Some(i) else k;
    }
    ReachEnd(records, offset, count, position, out, k);
    return Ok(out);
  }

  lemma {:induction false} FlattenGrows(records: seq<seq<byte>>, a: nat, b: nat)
    requires a <= b <= |records|
    ensures |Flatten(records[..a])| <= |Flatten(records[..b])|
    decreases b - a
  {
    if a < b {
      FlattenSnoc(records, a);
      FlattenGrows(records, a + 1, b);
    }
  }

  lemma InsideRecord(records: seq<seq<byte>>, i: nat, offset: nat)
    requires Nonempty(records) && i < |records|
    requires |Flatten(records[..i])| < offset < |Flatten(records[..i + 1])|
    ensures Boundary(records, offset) == None && offset < |Flatten(records)|
  {
    FlattenGrows(records, i + 1, |records|);
    assert records[..|records|] == records;
    BoundaryInRange(records, offset);
    if Boundary(records, offset).Some? {
      var k := Boundary(records, offset).value;
      BoundaryIsExact(records, offset, k);
      if k <= i {
        FlattenGrows(records, k, i);
      } else {
        FlattenGrows(records, i + 1, k);
      }
    }
  }

  lemma AtEnd(records: seq<seq<byte>>, offset: nat, count: nat)
    requires Nonempty(records) && |Flatten(records)| <= offset
    ensures Chunk(records, offset, count) == [] && PassesAll(records, offset, count)
  {
    BoundaryInRange(records, offset);
    if Boundary(records, offset).Some? {
      var k := Boundary(records, offset).value;
      BoundaryIsExact(records, offset, k);
      assert records[..|records|] == records;
      if k < |records| {
        FlattenSnoc(records, k);
        FlattenGrows(records, k + 1, |records|);
      }
    }
  }

  // ----- Reading to the end -----

  /** One more page continues exactly where the pages so far ended. */
  lemma NextPage(records: seq<seq<byte>>, k: nat, count: nat)
    requires Nonempty(records) && k <= |records|
    ensures var end := FillTo(records, k, count);
            var page := Chunk(records, |Flatten(records[..k])|, count);
            && Flatten(records[..end]) == Flatten(records[..k]) + page
            && (page == [] <==> end == k)
  {
    var end := FillTo(records, k, count);
    BoundaryIsExact(records, |Flatten(records[..k])|, k);
    assert records[..end] == records[..k] + records[k..end];
    FlattenConcat(records[..k], records[k..end]);
    if end > k {
      assert records[k..end][0] == records[k];
    }
  }

  /** The pages that were read are whole records from the start, up to one too large for its page. */
  ghost predicate ReadUpTo(records: seq<seq<byte>>, counts: nat -> nat, pages: nat, k: nat, out: seq<byte>) {
    && k <= |records| && out == Flatten(records[..k])
    && (k == |records| || |records[k]| > counts(pages))
    && (forall j :: 0 <= j < k ==> exists i :: 0 <= i < pages && |records[j]| <= counts(i))
  }

  /** The entries that a read can get to. */
  function Readable(stats: seq<Stat>): seq<seq<byte>> {
    Records(stats[..FirstBad(stats)])
  }

  /** A page at the record boundary `k`, of all that can be read. */
  lemma PageAt(stats: seq<Stat>, k: nat, count: nat)
    requires k <= |Readable(stats)|
    ensures var records := Readable(stats);
            var page := Page(stats, |Flatten(records[..k])|, count);
            if FirstBad(stats) < |stats| && FillTo(records, k, count) == |records|
            then page == Err(EncodeStat(stats[FirstBad(stats)]).error)
            else page == Ok(Chunk(records, |Flatten(records[..k])|, count))
  {
    hide EncodeStat;
    RecordsAreNonempty(stats[..FirstBad(stats)]);
    BoundaryIsExact(Readable(stats), |Flatten(Readable(stats)[..k])|, k);
  }

  /** `read_all` over a directory: reads at the advancing offset until a page is empty or fails. The
      i-th read asks for `counts(i)` bytes. It fails exactly when it gets as far as an entry that cannot
      be encoded. */
  method ReadAll(stats: seq<Stat>, counts: nat -> nat) returns (r: Result<seq<byte>>, pages: nat)
    ensures r.Ok? ==> exists k: nat :: ReadUpTo(Readable(stats), counts, pages, k, r.value)
                                       && (k == |Readable(stats)| ==> FirstBad(stats) == |stats|)
    ensures r.Err? ==> FirstBad(stats) < |stats| && r.error == EncodeStat(stats[FirstBad(stats)]).error
  {
    hide EncodeStat, Page, FirstBad;
    ghost var records := Readable(stats);
    RecordsAreNonempty(stats[..FirstBad(stats)]);
    var out: seq<byte> := [];
    pages := 0;
    ghost var k: nat := 0;
    var offset := 0;
    while true
      invariant k <= |records| && out == Flatten(records[..k]) && offset == |out|
      invariant forall j :: 0 <= j < k ==> exists i :: 0 <= i < pages && |records[j]| <= counts(i)
      decreases |records| - k
    {
      PageAt(stats, k, counts(pages));
      var page := DirreadChunk(stats, offset, counts(pages));
      if page.Err? {
        return page, pages;
      }
      var data := page.value;
      NextPage(records, k, counts(pages));
      FillToIsGreedy(records, k, counts(pages));
      if data == [] {
        assert ReadUpTo(records, counts, pages, k, out);
        return Ok(out), pages;
      }
      out := out + data;
      offset := offset + |data|;
      k := FillTo(records, k, counts(pages));
      pages := pages + 1;
    }
  }

  /** With every count at least the largest record, a paged read followed by decoding gives each entry
      once and in order, or fails at the first that cannot be encoded. */
  method ReadDirStats(stats: seq<Stat>, counts: nat -> nat) returns (entries: Result<seq<Stat>>)
    requires forall i, j :: 0 <= i < |Readable(stats)| ==> |Readable(stats)[i]| <= counts(j)
    ensures var bad := FirstBad(stats);
            entries == if bad == |stats| then Ok(stats) else Err(EncodeStat(stats[bad]).error)
  {
    hide EncodeStat;
    var data, pages := ReadAll(stats, counts);
    if data.Err? {
      return Err(data.error);
    }
    ghost var records := Readable(stats);
    ghost var k: nat :| ReadUpTo(records, counts, pages, k, data.value)
                        && (k == |records| ==> FirstBad(stats) == |stats|);
    assert records[..|records|] == records;
    assert stats[..|stats|] == stats;
    EntriesRoundTrip(stats);
    entries := DecodeDirEntries(data.value);
  }

  /** With one fixed count the paged read is complete exactly when every record fits into it. */
  lemma FixedCountIsCompleteIff(records: seq<seq<byte>>, count: nat, pages: nat, k: nat, out: seq<byte>)
    requires Nonempty(records) && ReadUpTo(records, _ => count, pages, k, out)
    ensures out == Flatten(records) <==> forall i :: 0 <= i < |records| ==> |records[i]| <= count
  {
    assert records[..|records|] == records;
    if k < |records| {
      FlattenSnoc(records, k);
      FlattenGrows(records, k + 1, |records|);
      assert |records[k]| > 0;
    }
  }
}
