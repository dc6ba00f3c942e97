/** The retained log of crates/front/src/model.rs: a window of whole entries over an
    append-only byte history, addressed by absolute offsets. */
module LogBody {
  import opened Prelude
  import opened Chunks

  datatype Log = Log(entries: seq<seq<byte>>, start: nat, retained: nat) {
    function End(): nat {
      start + retained
    }
  }

  function EmptyAt(start: nat): Log {
    Log([], start, 0)
  }

  /** Evicts oldest entries while the log is over capacity and has more than one entry. */
  function Evict(log: Log, capacity: nat): Log
    decreases |log.entries|
  {
    if log.retained > capacity && |log.entries| > 1 && |log.entries[0]| <= log.retained then
      Evict(Log(log.entries[1..], log.start + |log.entries[0]|, log.retained - |log.entries[0]|), capacity)
    else
      log
  }

  function Appended(log: Log, bytes: seq<byte>, capacity: nat): Log {
    Evict(Log(log.entries + [bytes], log.start, log.retained + |bytes|), capacity)
  }

  function AppendAll(log: Log, incoming: seq<seq<byte>>, capacity: nat): Log
    decreases |incoming|
  {
    if incoming == [] then log else AppendAll(Appended(log, incoming[0], capacity), incoming[1..], capacity)
  }

  /** `log` is a window over `history`, whose first byte has absolute offset `origin`. */
  ghost predicate Window(log: Log, origin: nat, history: seq<byte>) {
    && origin <= log.start
    && log.retained == |Flatten(log.entries)|
    && log.End() == origin + |history|
    && Flatten(log.entries) == history[log.start - origin..]
  }

  /** Eviction keeps the window, drops only whole oldest entries, and drops no more than needed. */
  lemma {:induction false} EvictKeepsWindow(log: Log, capacity: nat, origin: nat, history: seq<byte>)
    requires Window(log, origin, history)
    ensures var out := Evict(log, capacity);
            && Window(out, origin, history)
            && |out.entries| <= |log.entries|
            && out.entries == log.entries[|log.entries| - |out.entries|..]
            && (out.retained <= capacity || |out.entries| <= 1)
            && (|out.entries| < |log.entries| ==>
                  out.entries != [] &&
                  out.retained + |log.entries[|log.entries| - |out.entries| - 1]| > capacity)
    decreases |log.entries|
  {
    if log.retained > capacity && |log.entries| > 1 {
      var next := Log(log.entries[1..], log.start + |log.entries[0]|, log.retained - |log.entries[0]|);
      assert Flatten(next.entries) == history[next.start - origin..] by {
        assert Flatten(log.entries) == log.entries[0] + Flatten(next.entries);
        assert Flatten(log.entries)[|log.entries[0]|..] == Flatten(next.entries);
      }
      EvictKeepsWindow(next, capacity, origin, history);
      var out := Evict(next, capacity);
      if |out.entries| == |next.entries| {
        assert next.entries[0..] == next.entries;
        assert log.entries[1..] == out.entries;
      }
    }
  }

  /** One append extends the history by exactly its bytes; what stays retained is bounded. */
  lemma AppendKeepsWindow(log: Log, bytes: seq<byte>, capacity: nat, origin: nat, history: seq<byte>)
    requires Window(log, origin, history)
    ensures var out := Appended(log, bytes, capacity);
            && Window(out, origin, history + bytes)
            && out.End() == log.End() + |bytes|
            && out.start >= log.start
            && out.entries != [] && out.entries[|out.entries| - 1] == bytes
            && out.retained <= Max(capacity, |bytes|)
  {
    var pushed := Log(log.entries + [bytes], log.start, log.retained + |bytes|);
    FlattenAppend(log.entries, bytes);
    assert Flatten(pushed.entries) == (history + bytes)[log.start - origin..];
    EvictKeepsWindow(pushed, capacity, origin, history + bytes);
    var out := Evict(pushed, capacity);
    assert out.entries[|out.entries| - 1] == bytes;
    if |out.entries| == 1 {
      assert out.entries == [bytes];
      assert Flatten(out.entries) == bytes by {
        FlattenAppend([], bytes);
        assert [] + [bytes] == [bytes];
      }
    }
  }

  /** Appending several entries at once, as a publish over a log does, extends the history by all of them in order. */
  lemma {:induction false} AppendAllKeepsWindow(log: Log, incoming: seq<seq<byte>>, capacity: nat, origin: nat,
                                                history: seq<byte>)
    requires Window(log, origin, history)
    ensures Window(AppendAll(log, incoming, capacity), origin, history + Flatten(incoming))
    ensures incoming != [] ==>
              AppendAll(log, incoming, capacity).retained <= Max(capacity, |incoming[|incoming| - 1]|)
    decreases |incoming|
  {
    if incoming == [] {
      assert history + Flatten(incoming) == history;
    } else {
      var first, rest := incoming[0], incoming[1..];
      AppendKeepsWindow(log, first, capacity, origin, history);
      AppendAllKeepsWindow(Appended(log, first, capacity), rest, capacity, origin, history + first);
      assert history + Flatten(incoming) == history + first + Flatten(rest);
    }
  }

  datatype Entry = Entry(bytes: seq<byte>, capacity: nat)

  function Replay(log: Log, appends: seq<Entry>): Log {
    if appends == [] then log
    else
      var prior := Replay(log, appends[..|appends| - 1]);
      Appended(prior, appends[|appends| - 1].bytes, appends[|appends| - 1].capacity)
  }

  function AllBytes(appends: seq<Entry>): seq<byte> {
    if appends == [] then []
    else AllBytes(appends[..|appends| - 1]) + appends[|appends| - 1].bytes
  }

  /** A log registered at any offset refines the unbounded log over every run of appends. */
  lemma {:induction false} ReplayRefinesHistory(origin: nat, appends: seq<Entry>)
    ensures var log := Replay(EmptyAt(origin), appends);
            && Window(log, origin, AllBytes(appends))
            && log.End() == origin + |AllBytes(appends)|
            && (appends != [] ==>
                  var last := appends[|appends| - 1];
                  log.retained <= Max(last.capacity, |last.bytes|))
  {
    if appends == [] {
      assert AllBytes(appends) == [];
    } else {
      var front, last := appends[..|appends| - 1], appends[|appends| - 1];
      ReplayRefinesHistory(origin, front);
      AppendKeepsWindow(Replay(EmptyAt(origin), front), last.bytes, last.capacity, origin, AllBytes(front));
    }
  }

  /** At most `count` bytes of `flat` after the first `skip`. */
  function Excerpt(flat: seq<byte>, skip: nat, count: nat): seq<byte> {
    var from := Min(skip, |flat|);
    flat[from..Min(from + count, |flat|)]
  }

  lemma ExcerptCons(head: seq<byte>, tail: seq<byte>, skip: nat, count: nat)
    ensures skip >= |head| ==> Excerpt(head + tail, skip, count) == Excerpt(tail, skip - |head|, count)
    ensures skip < |head| ==>
              var take := Min(|head| - skip, count);
              Excerpt(head + tail, skip, count) == head[skip..skip + take] + Excerpt(tail, 0, count - take)
  {
  }

  /** The bytes of the window from absolute `offset`, at most `count` of them. */
  function Slice(log: Log, offset: nat, count: nat): seq<byte> {
    Excerpt(Flatten(log.entries), Max(offset - log.start, 0), count)
  }

  /** Within the window, a slice is exactly that slice of the full history. */
  lemma SliceIsHistory(log: Log, origin: nat, history: seq<byte>, offset: nat, count: nat)
    requires Window(log, origin, history)
    requires log.start <= offset <= log.End()
    ensures var from := offset - origin;
            Slice(log, offset, count) == history[from..Min(from + count, |history|)]
  {
    var flat, skip := Flatten(log.entries), log.start - origin;
    var from := offset - log.start;
    var to := Min(from + count, |flat|);
    assert flat == history[skip..];
    assert history[skip..][from..to] == history[skip + from..skip + to];
  }

  class LogFile {
    var entries: seq<seq<byte>>
    var start: nat
    var retained: nat

    ghost function View(): Log
      reads this
    {
      Log(entries, start, retained)
    }

    ghost predicate Valid()
      reads this
    {
      retained == |Flatten(entries)|
    }

    constructor (start: nat)
      ensures Valid() && View() == EmptyAt(start)
    {
      this.entries, this.start, this.retained := [], start, 0;
    }

    method Append(bytes: seq<byte>, capacity: nat)
      requires Valid()
      modifies this
      ensures Valid() && View() == Appended(old(View()), bytes, capacity)
    {
      FlattenAppend(entries, bytes);
      retained := retained + |bytes|;
      entries := entries + [bytes];
      while retained > capacity && |entries| > 1
        invariant Valid()
        invariant Evict(View(), capacity) == Appended(old(View()), bytes, capacity)
        decreases |entries|
      {
        var oldest := entries[0];
        assert Flatten(entries) == oldest + Flatten(entries[1..]);
        entries := entries[1..];
        start := start + |oldest|;
        retained := retained - |oldest|;
      }
    }

    method Read(offset: nat, count: nat) returns (out: seq<byte>)
      requires Valid()
      ensures out == Slice(View(), offset, count)
    {
      out := Copy(entries, Max(offset - start, 0), count);
    }
  }

  /** What the copy loop still has to append when `skip` bytes are left to pass over. */
  ghost function Pending(entries: seq<seq<byte>>, skip: nat, count: nat): seq<byte> {
    if entries == [] then []
    else if skip >= |entries[0]| then Pending(entries[1..], skip - |entries[0]|, count)
    else
      var take := Min(|entries[0]| - skip, count);
      entries[0][skip..skip + take] + Pending(entries[1..], 0, count - take)
  }

  lemma {:induction false} PendingIsExcerpt(entries: seq<seq<byte>>, skip: nat, count: nat)
    ensures Pending(entries, skip, count) == Excerpt(Flatten(entries), skip, count)
  {
    if entries != [] {
      var head, tail := entries[0], entries[1..];
      ExcerptCons(head, Flatten(tail), skip, count);
      PendingIsExcerpt(tail, if skip >= |head| then skip - |head| else 0,
                       if skip >= |head| then count else count - Min(|head| - skip, count));
    }
  }

  lemma PendingAt(entries: seq<seq<byte>>, i: nat, skip: nat, count: nat)
    requires i < |entries|
    ensures var entry, rest := entries[i], entries[i + 1..];
            Pending(entries[i..], skip, count) ==
              if skip >= |entry| then Pending(rest, skip - |entry|, count)
              else
                var take := Min(|entry| - skip, count);
                entry[skip..skip + take] + Pending(rest, 0, count - take)
  {
    assert entries[i..][1..] == entries[i + 1..];
  }

  lemma PendingNone(entries: seq<seq<byte>>, skip: nat, count: nat)
    ensures Pending(entries, 0, 0) == []
    ensures Pending(entries[|entries|..], skip, count) == []
  {
    PendingIsExcerpt(entries, 0, 0);
  }

  lemma Regroup(out: seq<byte>, piece: seq<byte>, rest: seq<byte>)
    ensures out + (piece + rest) == out + piece + rest
  {
  }

  /** Copies out of the entries after `offset` bytes, entry by entry, until `count` bytes are out. */
  method Copy(entries: seq<seq<byte>>, offset: nat, count: nat) returns (out: seq<byte>)
    ensures out == Excerpt(Flatten(entries), offset, count)
  {
    PendingIsExcerpt(entries, offset, count);
    hide Excerpt, Flatten, Pending;
    var skip: nat := offset;
    out := [];
    ghost var goal := Pending(entries, offset, count);
    assert entries[0..] == entries;
    for i := 0 to |entries|
      invariant |out| <= count
      invariant goal == out + Pending(entries[i..], skip, count - |out|)
    {
      var entry := entries[i];
      PendingAt(entries, i, skip, count - |out|);
      if skip >= |entry| {
        skip := skip - |entry|;
        continue;
      }
      var take := Min(|entry| - skip, count - |out|);
      Regroup(out, entry[skip..skip + take], Pending(entries[i + 1..], 0, count - |out| - take));
      out := out + entry[skip..skip + take];
      skip := 0;
      if |out| == count {
        PendingNone(entries[i + 1..], 0, 0);
        return;
      }
    }
    PendingNone(entries, skip, count - |out|);
  }
}
