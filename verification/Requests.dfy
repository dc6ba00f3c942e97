/** Requests in flight and the keys that name them: crates/core/src/flush.rs. */
module Requests {
  import opened Prelude
  import opened Wire

  type Tag = u16

  const NOTAG: Tag := 0xFFFF
  const EBADTAG := "invalid tag"
  const EDUPTAG := "duplicate tag"

  datatype Key = Key(tag: Tag, generation: nat)

  datatype Table = Table(next: nat, live: map<Tag, Key>)

  datatype FlushOutcome = Cancelled(key: Key) | Unknown

  function Begin(t: Table, tag: Tag): Result<(Table, Key)> {
    if tag == NOTAG then Err(EBADTAG)
    else if tag in t.live then Err(EDUPTAG)
    else
      var key := Key(tag, t.next);
      Ok((Table(Succ(t.next), t.live[tag := key]), key))
  }

  function Finish(t: Table, key: Key): (Table, bool) {
    if key.tag in t.live && t.live[key.tag] == key then (t.(live := t.live - {key.tag}), true) else (t, false)
  }

  function Flush(t: Table, oldtag: Tag): Result<(Table, FlushOutcome)> {
    if oldtag == NOTAG then Err(EBADTAG)
    else if oldtag in t.live then Ok((t.(live := t.live - {oldtag}), Cancelled(t.live[oldtag])))
    else Ok((t, Unknown))
  }

  function Reset(t: Table): Table {
    Table(Succ(t.next), map[])
  }

  // ----- Runs -----

  datatype Step = BeginTag(tag: Tag) | FinishKey(key: Key) | FlushTag(tag: Tag) | ResetAll

  /** The table, the keys handed out so far, and the keys that were finished or cancelled. */
  datatype World = World(table: Table, issued: seq<Key>, ended: seq<Key>)

  function Next(w: World, step: Step): World {
    match step
    case BeginTag(tag) =>
      (match Begin(w.table, tag)
       case Err(_) => w
       case Ok((t, key)) => World(t, w.issued + [key], w.ended))
    case FinishKey(key) =>
      var (t, done) := Finish(w.table, key);
      World(t, w.issued, if done then w.ended + [key] else w.ended)
    case FlushTag(tag) =>
      (match Flush(w.table, tag)
       case Ok((t, Cancelled(key))) => World(t, w.issued, w.ended + [key])
       case _ => w)
    case ResetAll => w.(table := Reset(w.table))
  }

  predicate Live(t: Table, key: Key) {
    key.tag in t.live && t.live[key.tag] == key
  }

  predicate Rising(keys: seq<Key>) {
    forall i, j :: 0 <= i < j < |keys| ==> keys[i].generation < keys[j].generation
  }

  predicate Distinct(keys: seq<Key>) {
    forall i, j :: 0 <= i < j < |keys| ==> keys[i] != keys[j]
  }

  /** Keys are numbered in order and filed under their own tag; a key is live, ended or reset away, and
      never two of these. */
  ghost predicate Good(w: World) {
    && Rising(w.issued)
    && (forall i :: 0 <= i < |w.issued| ==> w.issued[i].generation < w.table.next && w.issued[i].tag != NOTAG)
    && (forall tag :: tag in w.table.live ==> w.table.live[tag].tag == tag && w.table.live[tag] in w.issued)
    && Distinct(w.ended)
    && (forall key :: key in w.ended ==> key in w.issued && !Live(w.table, key))
  }

  lemma NextIsGood(w: World, step: Step)
    requires Good(w) && w.table.next < U64_MAX
    ensures Good(Next(w, step)) && Next(w, step).table.next <= w.table.next + 1
  {
    match step {
      case BeginTag(tag) => BeginIsGood(w, tag);
      case FinishKey(key) => if Live(w.table, key) { EndIsGood(w, key); }
      case FlushTag(tag) => if tag in w.table.live { EndIsGood(w, w.table.live[tag]); }
      case ResetAll =>
    }
  }

  lemma BeginIsGood(w: World, tag: Tag)
    requires Good(w) && w.table.next < U64_MAX
    ensures Good(Next(w, BeginTag(tag)))
  {
    if tag != NOTAG && tag !in w.table.live {
      var key := Key(tag, w.table.next);
      var w' := Next(w, BeginTag(tag));
      assert forall k :: k in w.issued ==> k.generation < w.table.next;
      assert w'.issued == w.issued + [key];
      forall k | k in w'.ended
        ensures k in w'.issued && !Live(w'.table, k)
      {
        assert k in w.issued;
      }
    }
  }

  lemma EndIsGood(w: World, key: Key)
    requires Good(w) && Live(w.table, key)
    ensures Good(World(w.table.(live := w.table.live - {key.tag}), w.issued, w.ended + [key]))
  {
    assert key !in w.ended;
  }

  ghost predicate Run(worlds: seq<World>, steps: seq<Step>) {
    && |worlds| == |steps| + 1
    && worlds[0] == World(Table(0, map[]), [], [])
    && forall i :: 0 <= i < |steps| ==> worlds[i + 1] == Next(worlds[i], steps[i])
  }

  lemma {:induction false} RunIsGood(worlds: seq<World>, steps: seq<Step>, i: nat)
    requires Run(worlds, steps) && i < |worlds| && |steps| <= U64_MAX
    ensures Good(worlds[i]) && worlds[i].table.next <= i
  {
    if i > 0 {
      RunIsGood(worlds, steps, i - 1);
      NextIsGood(worlds[i - 1], steps[i - 1]);
    }
  }

  /** No key is handed out twice, whatever is finished, flushed, reused or reset in between, and no key
      is finished or cancelled twice. */
  lemma KeysAreUnique(worlds: seq<World>, steps: seq<Step>, i: nat)
    requires Run(worlds, steps) && i < |worlds| && |steps| <= U64_MAX
    ensures Distinct(worlds[i].issued) && Distinct(worlds[i].ended)
    ensures forall key :: key in worlds[i].ended ==> key in worlds[i].issued
  {
    RunIsGood(worlds, steps, i);
  }

  /** Once a key is no longer live it stays so: it never finishes the request that reuses its tag. */
  lemma {:induction false} StaleKeyStaysStale(worlds: seq<World>, steps: seq<Step>, i: nat, j: nat, key: Key)
    requires Run(worlds, steps) && i <= j < |worlds| && |steps| <= U64_MAX
    requires key in worlds[i].issued && !Live(worlds[i].table, key)
    ensures key in worlds[j].issued && !Live(worlds[j].table, key)
            && Finish(worlds[j].table, key) == (worlds[j].table, false)
    decreases j - i
  {
    if i < j {
      RunIsGood(worlds, steps, i);
      assert worlds[i + 1] == Next(worlds[i], steps[i]);
      StaleKeyStaysStale(worlds, steps, i + 1, j, key);
    }
  }

  /** How many keys had been handed out when the table was last reset. */
  ghost function Base(worlds: seq<World>, steps: seq<Step>, i: nat): nat
    requires Run(worlds, steps) && i < |worlds|
  {
    if i == 0 then 0
    else if steps[i - 1].ResetAll? then |worlds[i].issued|
    else Base(worlds, steps, i - 1)
  }

  function Resets(steps: seq<Step>, i: nat): nat
    requires i <= |steps|
  {
    if i == 0 then 0 else Resets(steps, i - 1) + if steps[i - 1].ResetAll? then 1 else 0
  }

  /** The generation counts the keys handed out and the resets. */
  lemma {:induction false} GenerationCounts(worlds: seq<World>, steps: seq<Step>, i: nat)
    requires Run(worlds, steps) && i < |worlds| && |steps| <= U64_MAX
    ensures worlds[i].table.next == |worlds[i].issued| + Resets(steps, i)
    decreases i
  {
    if i > 0 {
      GenerationCounts(worlds, steps, i - 1);
      RunIsGood(worlds, steps, i - 1);
      assert worlds[i] == Next(worlds[i - 1], steps[i - 1]);
    }
  }

  lemma StepMovesKeys(w: World, step: Step, key: Key)
    requires Good(w) && w.table.next < U64_MAX
    ensures var v := Next(w, step);
            && (key in w.issued && Live(v.table, key) ==>
                  Live(w.table, key) && !step.ResetAll? && (key in v.ended ==> key in w.ended))
            && (Live(w.table, key) && !Live(v.table, key) && !step.ResetAll? ==> key in v.ended)
            && (key in w.ended ==> key in v.ended)
            && (key in v.ended && key !in w.ended ==> Live(w.table, key) && !Live(v.table, key))
            && w.issued <= v.issued && |v.issued| <= |w.issued| + 1
            && (|v.issued| > |w.issued| ==> Live(v.table, v.issued[|w.issued|]) && v.ended == w.ended && step.BeginTag?)
  {
  }

  /** In every run a key is in flight if and only if it was handed out since the last reset and has neither been
      finished nor cancelled. */
  lemma {:induction false} InFlightIs(worlds: seq<World>, steps: seq<Step>, i: nat, k: nat)
    requires Run(worlds, steps) && i < |worlds| && |steps| <= U64_MAX && k < |worlds[i].issued|
    ensures var key := worlds[i].issued[k];
            Live(worlds[i].table, key) <==> k >= Base(worlds, steps, i) && key !in worlds[i].ended
    ensures Base(worlds, steps, i) <= |worlds[i].issued|
    decreases i
  {
    hide Next, Good;
    if i > 0 {
      var w, step, v := worlds[i - 1], steps[i - 1], worlds[i];
      RunIsGood(worlds, steps, i - 1);
      RunIsGood(worlds, steps, i);
      var key := v.issued[k];
      StepMovesKeys(w, step, key);
      if k < |w.issued| {
        InFlightIs(worlds, steps, i - 1, k);
      } else {
        NewKeyIsNew(w, v, key);
        BaseIsBelow(worlds, steps, i - 1);
      }
      ResetEndsAll(w);
    }
  }

  lemma ResetEndsAll(w: World)
    ensures Next(w, ResetAll).table.live == map[] && Next(w, ResetAll).issued == w.issued
  {
  }

  lemma NewKeyIsNew(w: World, v: World, key: Key)
    requires Good(w) && Good(v) && Live(v.table, key)
    ensures key !in v.ended
  {
  }

  lemma {:induction false} BaseIsBelow(worlds: seq<World>, steps: seq<Step>, i: nat)
    requires Run(worlds, steps) && i < |worlds| && |steps| <= U64_MAX
    ensures Base(worlds, steps, i) <= |worlds[i].issued|
    decreases i
  {
    if i > 0 {
      BaseIsBelow(worlds, steps, i - 1);
      RunIsGood(worlds, steps, i - 1);
      StepMovesKeys(worlds[i - 1], steps[i - 1], Key(0, 0));
    }
  }

  /** So a tag can be begun if and only if it is a tag and every key handed out for it since the last reset has
      ended; */
  lemma BeginsIff(worlds: seq<World>, steps: seq<Step>, i: nat, tag: Tag)
    requires Run(worlds, steps) && i < |worlds| && |steps| <= U64_MAX
    ensures var w := worlds[i];
            Begin(w.table, tag).Ok? <==>
            tag != NOTAG && forall k :: Base(worlds, steps, i) <= k < |w.issued| && w.issued[k].tag == tag ==>
                              w.issued[k] in w.ended
  {
    var w := worlds[i];
    RunIsGood(worlds, steps, i);
    forall k | 0 <= k < |w.issued|
      ensures Live(w.table, w.issued[k]) <==> k >= Base(worlds, steps, i) && w.issued[k] !in w.ended
    {
      InFlightIs(worlds, steps, i, k);
    }
    if tag in w.table.live {
      var k :| 0 <= k < |w.issued| && w.issued[k] == w.table.live[tag];
      assert Live(w.table, w.issued[k]);
    }
  }

  /** and a key finishes, or a flush of its tag cancels it, if and only if it is in flight. */
  lemma EndsIff(worlds: seq<World>, steps: seq<Step>, i: nat, k: nat)
    requires Run(worlds, steps) && i < |worlds| && |steps| <= U64_MAX && k < |worlds[i].issued|
    ensures var w := worlds[i];
            var key, flying := w.issued[k], k >= Base(worlds, steps, i) && w.issued[k] !in w.ended;
            && (Finish(w.table, key).1 <==> flying)
            && (Flush(w.table, key.tag).Ok? && Flush(w.table, key.tag).value.1 == Cancelled(key) <==> flying)
  {
    RunIsGood(worlds, steps, i);
    InFlightIs(worlds, steps, i, k);
  }

  /** At the top of the counter a tag that is finished and begun again gets the same key: keys are
      distinct exactly as long as the counter moves. */
  lemma KeysRepeatAtTheTop(t: Table, tag: Tag)
    requires tag != NOTAG && tag !in t.live && t.next <= U64_MAX
    ensures var (t1, first) := Begin(t, tag).value;
            var t2 := Finish(t1, first).0;
            Begin(t2, tag).Ok? && (Begin(t2, tag).value.1 == first <==> t.next == U64_MAX)
  {
  }

  // ----- The table itself -----

  class RequestTable {
    var nextGeneration: nat
    var live: map<Tag, Key>

    function Contents(): Table
      reads this
    {
      Table(nextGeneration, live)
    }

    constructor ()
      ensures Contents() == Table(0, map[])
    {
      nextGeneration, live := 0, map[];
    }

    method BeginRequest(tag: Tag) returns (r: Result<Key>)
      modifies this
      ensures match Begin(old(Contents()), tag)
              case Ok((t, key)) => r == Ok(key) && Contents() == t
              case Err(e) => r == Err(e) && Contents() == old(Contents())
    {
      if tag == NOTAG {
        return Err(EBADTAG);
      }
      if tag in live {
        return Err(EDUPTAG);
      }
      var key := Key(tag, nextGeneration);
      nextGeneration := Succ(nextGeneration);
      live := live[tag := key];
      return Ok(key);
    }

    method FinishRequest(key: Key) returns (done: bool)
      modifies this
      ensures (Contents(), done) == Finish(old(Contents()), key)
    {
      done := key.tag in live && live[key.tag] == key;
      if done {
        live := live - {key.tag};
      }
    }

    method FlushRequest(oldtag: Tag) returns (r: Result<FlushOutcome>)
      modifies this
      ensures match Flush(old(Contents()), oldtag)
              case Ok((t, outcome)) => r == Ok(outcome) && Contents() == t
              case Err(e) => r == Err(e) && Contents() == old(Contents())
    {
      if oldtag == NOTAG {
        return Err(EBADTAG);
      }
      if oldtag !in live {
        return Ok(Unknown);
      }
      r := Ok(Cancelled(live[oldtag]));
      live := live - {oldtag};
    }

    method ResetTable()
      modifies this
      ensures Contents() == Reset(old(Contents()))
    {
      live := map[];
      nextGeneration := Succ(nextGeneration);
    }
  }
}
