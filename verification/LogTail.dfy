/** Following a log while it grows: `read_log` of crates/front/src/front.rs over `LogBody`. */
module LogTail {
  import opened Prelude
  import opened LogBody

  datatype LogRead = Bytes(bytes: seq<byte>) | WindowPassed(earliest: nat)

  /** What a log has to say to a reader at `offset`: nothing yet, bytes, or that the bytes are gone. */
  function Answer(log: Log, offset: nat, count: nat): Option<LogRead> {
    if offset < log.start then Some(WindowPassed(log.start))
    else if offset < log.End() then Some(Bytes(Slice(log, offset, count)))
    else None
  }

  /** `read_log`: `logs` are the states of the log that the waiting reader gets to see. The first that
      has an answer gives it; when the wait is over the reader gets nothing. */
  method ReadLog(logs: seq<Log>, offset: nat, count: nat) returns (r: LogRead, seen: nat)
    ensures seen <= |logs| && forall j :: 0 <= j < seen ==> Answer(logs[j], offset, count) == None
    ensures if seen < |logs| then Answer(logs[seen], offset, count) == Some(r) else r == Bytes([])
  {
    seen := 0;
    while seen < |logs|
      invariant seen <= |logs| && forall j :: 0 <= j < seen ==> Answer(logs[j], offset, count) == None
    {
      var log := logs[seen];
      if offset < log.start {
        return WindowPassed(log.start), seen;
      }
      if offset < log.End() {
        return Bytes(Slice(log, offset, count)), seen;
      }
      seen := seen + 1;
    }
    return Bytes([]), seen;
  }

  /** A reader that asks again from where its last answer ended, among appends. */
  datatype Follower = Follower(log: Log, history: seq<byte>, offset: nat, gathered: seq<byte>, lost: bool)

  datatype Step = Append(bytes: seq<byte>, capacity: nat) | Read(count: nat)

  function Next(f: Follower, step: Step): Follower {
    match step
    case Append(bytes, capacity) => f.(log := Appended(f.log, bytes, capacity), history := f.history + bytes)
    case Read(count) =>
      if f.lost then f
      else
        match Answer(f.log, f.offset, count)
        case None => f
        case Some(WindowPassed(_)) => f.(lost := true)
        case Some(Bytes(bytes)) => Advanced(f, bytes)
  }

  /** The reader after an answer of `bytes`. */
  function Advanced(f: Follower, bytes: seq<byte>): Follower {
    f.(offset := f.offset + |bytes|, gathered := f.gathered + bytes)
  }

  function Run(f: Follower, steps: seq<Step>): Follower {
    if steps == [] then f else Next(Run(f, steps[..|steps| - 1]), steps[|steps| - 1])
  }

  /** What was gathered is one piece of the history, from where the reader began to where it is. */
  ghost predicate Contiguous(f: Follower, origin: nat, from: nat) {
    && Window(f.log, origin, f.history)
    && from <= f.offset
    && (f.gathered == [] ==> f.offset == from)
    && (f.gathered != [] ==>
          origin <= from && f.offset <= f.log.End() && f.gathered == f.history[from - origin..f.offset - origin])
  }

  lemma AppendIsContiguous(f: Follower, bytes: seq<byte>, capacity: nat, origin: nat, from: nat)
    requires Contiguous(f, origin, from)
    ensures Contiguous(Next(f, Append(bytes, capacity)), origin, from)
  {
    hide Appended;
    AppendKeepsWindow(f.log, bytes, capacity, origin, f.history);
    if f.gathered != [] {
      assert (f.history + bytes)[from - origin..f.offset - origin] == f.history[from - origin..f.offset - origin];
    }
  }

  lemma FirstReadIsContiguous(f: Follower, origin: nat, from: nat, b: nat)
    requires Contiguous(f, origin, from) && f.gathered == []
    requires f.log.start <= f.offset && f.offset - origin <= b <= |f.history|
    ensures Contiguous(Advanced(f, f.history[f.offset - origin..b]), origin, from)
  {
  }

  lemma NextReadIsContiguous(f: Follower, origin: nat, from: nat, b: nat)
    requires Contiguous(f, origin, from) && f.gathered != []
    requires f.log.start <= f.offset && f.offset - origin <= b <= |f.history|
    ensures Contiguous(Advanced(f, f.history[f.offset - origin..b]), origin, from)
  {
    Glued(f.history, from - origin, f.offset - origin, b);
  }

  /** An answer inside the window is a piece of the history. */
  lemma AnswerIsHistory(log: Log, origin: nat, history: seq<byte>, offset: nat, count: nat) returns (b: nat)
    requires Window(log, origin, history) && log.start <= offset < log.End()
    ensures origin <= offset && offset - origin <= b <= |history|
    ensures Answer(log, offset, count) == Some(Bytes(history[offset - origin..b]))
  {
    hide Slice;
    SliceIsHistory(log, origin, history, offset, count);
    b := Min(offset - origin + count, |history|);
  }

  lemma OutsideIsNoBytes(log: Log, offset: nat, count: nat)
    requires !(log.start <= offset < log.End())
    ensures Answer(log, offset, count) in {None, Some(WindowPassed(log.start))}
  {
  }

  lemma ReadIsContiguous(f: Follower, count: nat, origin: nat, from: nat)
    requires Contiguous(f, origin, from)
    ensures Contiguous(Next(f, Read(count)), origin, from)
  {
    hide Answer, Window;
    if f.log.start <= f.offset < f.log.End() {
      var b := AnswerIsHistory(f.log, origin, f.history, f.offset, count);
      if f.lost {
      } else if f.gathered == [] {
        FirstReadIsContiguous(f, origin, from, b);
      } else {
        NextReadIsContiguous(f, origin, from, b);
      }
    } else {
      OutsideIsNoBytes(f.log, f.offset, count);
    }
  }

  lemma Glued(history: seq<byte>, x: nat, a: nat, b: nat)
    requires x <= a <= b <= |history|
    ensures history[x..a] + history[a..b] == history[x..b]
  {
  }

  lemma NextIsContiguous(f: Follower, step: Step, origin: nat, from: nat)
    requires Contiguous(f, origin, from)
    ensures Contiguous(Next(f, step), origin, from)
  {
    match step {
      case Append(bytes, capacity) => AppendIsContiguous(f, bytes, capacity, origin, from);
      case Read(count) => ReadIsContiguous(f, count, origin, from);
    }
  }

  /** Whatever is appended and evicted meanwhile, a reader gathers one unbroken piece of all that was
      ever appended: it is told of lost bytes, and never skips or repeats any. */
  lemma {:induction false} FollowerSeesHistory(origin: nat, from: nat, steps: seq<Step>)
    ensures Contiguous(Run(Follower(EmptyAt(origin), [], from, [], false), steps), origin, from)
  {
    if steps != [] {
      var front := steps[..|steps| - 1];
      FollowerSeesHistory(origin, from, front);
      NextIsContiguous(Run(Follower(EmptyAt(origin), [], from, [], false), front), steps[|steps| - 1], origin, from);
    }
  }

  /** A reader inside the window that asks for something gets something, and loses only what was evicted. */
  lemma ReadMakesProgress(f: Follower, count: nat, origin: nat, from: nat)
    requires Contiguous(f, origin, from) && !f.lost && count > 0
    ensures var f' := Next(f, Read(count));
            && (f'.lost <==> f.offset < f.log.start)
            && (f.log.start <= f.offset < f.log.End() ==> f'.offset == Min(f.offset + count, f.log.End()) > f.offset)
  {
    if f.log.start <= f.offset < f.log.End() {
      SliceIsHistory(f.log, origin, f.history, f.offset, count);
    }
  }
}
