/** The little-endian fields of 9P2000 messages: crates/core/src/stat.rs, the `push_*` helpers and
    `Cursor`. */
module Wire {
  import opened Prelude

  type u8 = x: int | 0 <= x <= 0xFF
  type u16 = x: int | 0 <= x <= 0xFFFF
  type u32 = x: int | 0 <= x <= 0xFFFF_FFFF
  type u64 = x: int | 0 <= x <= 0xFFFF_FFFF_FFFF_FFFF

  const TRUNCATED := "truncated frame"
  const STRING_TOO_LARGE := "string too large"

  datatype Qid = Qid(qtype: u8, version: u32, path: u64)

  // ----- Numbers -----

  function Pow256(n: nat): nat {
    if n == 0 then 1 else 256 * Pow256(n - 1)
  }

  function PutLE(value: nat, width: nat): (b: seq<byte>)
    ensures |b| == width
  {
    if width == 0 then [] else [value % 256] + PutLE(value / 256, width - 1)
  }

  function GetLE(b: seq<byte>): nat {
    if b == [] then 0 else b[0] + 256 * GetLE(b[1..])
  }

  lemma {:induction false} GetAfterPut(value: nat, width: nat)
    requires value < Pow256(width)
    ensures GetLE(PutLE(value, width)) == value
  {
    if width > 0 {
      GetAfterPut(value / 256, width - 1);
      assert PutLE(value, width)[1..] == PutLE(value / 256, width - 1);
    }
  }

  lemma {:induction false} PutAfterGet(b: seq<byte>)
    ensures GetLE(b) < Pow256(|b|)
    ensures PutLE(GetLE(b), |b|) == b
  {
    if b != [] {
      PutAfterGet(b[1..]);
      var n := GetLE(b);
      assert n % 256 == b[0] && n / 256 == GetLE(b[1..]);
      assert b == [b[0]] + b[1..];
    }
  }

  lemma Widths()
    ensures Pow256(1) == 0x100 && Pow256(2) == 0x1_0000
    ensures Pow256(4) == 0x1_0000_0000 && Pow256(8) == 0x1_0000_0000_0000_0000
  {
    assert Pow256(3) == 0x100_0000;
    assert Pow256(6) == 0x1_0000_0000_0000 by {
      assert Pow256(5) == 256 * Pow256(4);
    }
  }

  // ----- Fields -----

  datatype Kind = U8 | U16 | U32 | U64 | QidKind | Text

  datatype Value = Num(n: nat) | QidValue(qid: Qid) | Bytes(bytes: seq<byte>)

  function Width(kind: Kind): nat {
    match kind
    case U8 => 1
    case U16 => 2
    case U32 => 4
    case U64 => 8
    case QidKind => 13
    case Text => 2
  }

  /** The value is one a field of this kind can carry in memory. */
  predicate Fits(kind: Kind, value: Value) {
    match kind
    case QidKind => value.QidValue?
    case Text => value.Bytes?
    case _ => value.Num? && value.n < Pow256(Width(kind))
  }

  /** A string carries a two-byte count and may therefore be too large; nothing else can fail. */
  function Put(kind: Kind, value: Value): Result<seq<byte>>
    requires Fits(kind, value)
  {
    match kind
    case QidKind =>
      Ok(PutLE(value.qid.qtype, 1) + PutLE(value.qid.version, 4) + PutLE(value.qid.path, 8))
    case Text =>
      if |value.bytes| > U16_MAX then Err(STRING_TOO_LARGE) else Ok(PutLE(|value.bytes|, 2) + value.bytes)
    case _ => Ok(PutLE(value.n, Width(kind)))
  }

  /** Splits off the first `n` bytes: `Cursor::take`. */
  function SplitAt(data: seq<byte>, n: nat): Result<(seq<byte>, seq<byte>)> {
    if n <= |data| then Ok((data[..n], data[n..])) else Err(TRUNCATED)
  }

  function GetQid(b: seq<byte>): Qid
    requires |b| == 13
  {
    PutAfterGet(b[..1]);
    PutAfterGet(b[1..5]);
    PutAfterGet(b[5..]);
    Widths();
    Qid(GetLE(b[..1]), GetLE(b[1..5]), GetLE(b[5..]))
  }

  function Get(kind: Kind, data: seq<byte>): Result<(Value, seq<byte>)> {
    match SplitAt(data, Width(kind))
    case Err(e) => Err(e)
    case Ok((head, rest)) =>
      match kind
      case QidKind => Ok((QidValue(GetQid(head)), rest))
      case Text =>
        (match SplitAt(rest, GetLE(head))
         case Err(e) => Err(e)
         case Ok((text, after)) => Ok((Bytes(text), after)))
      case _ => Ok((Num(GetLE(head)), rest))
  }

  lemma QidRoundTrip(qid: Qid)
    ensures GetQid(PutLE(qid.qtype, 1) + PutLE(qid.version, 4) + PutLE(qid.path, 8)) == qid
  {
    Widths();
    var b := PutLE(qid.qtype, 1) + PutLE(qid.version, 4) + PutLE(qid.path, 8);
    assert b[..1] == PutLE(qid.qtype, 1) && b[1..5] == PutLE(qid.version, 4) && b[5..] == PutLE(qid.path, 8);
    GetAfterPut(qid.qtype, 1);
    GetAfterPut(qid.version, 4);
    GetAfterPut(qid.path, 8);
  }

  lemma QidReadBack(b: seq<byte>)
    requires |b| == 13
    ensures var qid := GetQid(b); PutLE(qid.qtype, 1) + PutLE(qid.version, 4) + PutLE(qid.path, 8) == b
  {
    PutAfterGet(b[..1]);
    PutAfterGet(b[1..5]);
    PutAfterGet(b[5..]);
    assert b == b[..1] + b[1..5] + b[5..];
  }

  lemma SplitAppended(b: seq<byte>, rest: seq<byte>)
    ensures SplitAt(b + rest, |b|) == Ok((b, rest))
  {
    assert (b + rest)[..|b|] == b && (b + rest)[|b|..] == rest;
  }

  /** Reading what was written, in front of anything, gives the value back and leaves the rest. */
  lemma FieldRoundTrip(kind: Kind, value: Value, rest: seq<byte>)
    requires Fits(kind, value) && Put(kind, value).Ok?
    ensures Get(kind, Put(kind, value).value + rest) == Ok((value, rest))
  {
    var b := Put(kind, value).value;
    Widths();
    match kind {
      case QidKind =>
        SplitAppended(b, rest);
        QidRoundTrip(value.qid);
      case Text =>
        var size := PutLE(|value.bytes|, 2);
        GetAfterPut(|value.bytes|, 2);
        assert b + rest == size + (value.bytes + rest);
        SplitAppended(size, value.bytes + rest);
        SplitAppended(value.bytes, rest);
      case _ =>
        SplitAppended(b, rest);
        GetAfterPut(value.n, Width(kind));
    }
  }

  /** Whatever was read is what writing the value produces. */
  lemma FieldReadBack(kind: Kind, data: seq<byte>)
    requires Get(kind, data).Ok?
    ensures var (value, rest) := Get(kind, data).value;
            Fits(kind, value) && Put(kind, value).Ok? && data == Put(kind, value).value + rest
  {
    var head, after := data[..Width(kind)], data[Width(kind)..];
    Widths();
    PutAfterGet(head);
    match kind {
      case QidKind => QidReadBack(head);
      case Text =>
        var text := after[..GetLE(head)];
        assert data == head + text + after[GetLE(head)..];
      case _ =>
    }
  }

  // ----- Sequences of fields -----

  predicate AllFit(kinds: seq<Kind>, values: seq<Value>) {
    |kinds| == |values| && forall i :: 0 <= i < |kinds| ==> Fits(kinds[i], values[i])
  }

  function PutAll(kinds: seq<Kind>, values: seq<Value>): Result<seq<byte>>
    requires AllFit(kinds, values)
  {
    if kinds == [] then Ok([])
    else
      match Put(kinds[0], values[0])
      case Err(e) => Err(e)
      case Ok(b) =>
        match PutAll(kinds[1..], values[1..])
        case Err(e) => Err(e)
        case Ok(rest) => Ok(b + rest)
  }

  function GetAll(kinds: seq<Kind>, data: seq<byte>): Result<(seq<Value>, seq<byte>)> {
    if kinds == [] then Ok(([], data))
    else
      match Get(kinds[0], data)
      case Err(e) => Err(e)
      case Ok((value, rest)) =>
        match GetAll(kinds[1..], rest)
        case Err(e) => Err(e)
        case Ok((values, after)) => Ok(([value] + values, after))
  }

  lemma {:induction false} FieldsRoundTrip(kinds: seq<Kind>, values: seq<Value>, rest: seq<byte>)
    requires AllFit(kinds, values) && PutAll(kinds, values).Ok?
    ensures GetAll(kinds, PutAll(kinds, values).value + rest) == Ok((values, rest))
  {
    var b := PutAll(kinds, values).value;
    if kinds == [] {
      assert b + rest == rest && values == [];
    } else {
      var head := Put(kinds[0], values[0]).value;
      var tail := PutAll(kinds[1..], values[1..]).value;
      assert b + rest == head + (tail + rest);
      FieldRoundTrip(kinds[0], values[0], tail + rest);
      FieldsRoundTrip(kinds[1..], values[1..], rest);
      assert values == [values[0]] + values[1..];
    }
  }

  lemma {:induction false} FieldsReadBack(kinds: seq<Kind>, data: seq<byte>)
    requires GetAll(kinds, data).Ok?
    ensures var (values, rest) := GetAll(kinds, data).value;
            AllFit(kinds, values) && PutAll(kinds, values).Ok? && data == PutAll(kinds, values).value + rest
  {
    if kinds != [] {
      FieldReadBack(kinds[0], data);
      var (value, rest) := Get(kinds[0], data).value;
      FieldsReadBack(kinds[1..], rest);
      var (values, after) := GetAll(kinds[1..], rest).value;
      assert ([value] + values)[1..] == values;
      assert data == Put(kinds[0], value).value + (PutAll(kinds[1..], values).value + after);
    }
  }

  // ----- The moving cursor -----

  class Cursor {
    const data: seq<byte>
    var position: nat

    ghost predicate Valid()
      reads this
    {
      position <= |data|
    }

    /** What has not been read yet. */
    ghost function Rest(): seq<byte>
      requires Valid()
      reads this
    {
      data[position..]
    }

    constructor (data: seq<byte>)
      ensures Valid() && this.data == data && Rest() == data
    {
      this.data, this.position := data, 0;
    }

    method Remaining() returns (n: nat)
      requires Valid()
      ensures n == |Rest()|
    {
      n := |data| - position;
    }

    method Take(n: nat) returns (r: Result<seq<byte>>)
      requires Valid()
      modifies this
      ensures Valid()
      ensures match SplitAt(old(Rest()), n)
              case Ok((head, rest)) => r == Ok(head) && Rest() == rest
              case Err(e) => r == Err(e) && position == old(position)
    {
      if position + n > |data| {
        return Err(TRUNCATED);
      }
      assert data[position..][..n] == data[position..position + n];
      assert data[position..][n..] == data[position + n..];
      r := Ok(data[position..position + n]);
      position := position + n;
    }

    /** Reads one field. On failure the cursor may have passed the length of a string. */
    method Field(kind: Kind) returns (r: Result<Value>)
      requires Valid()
      modifies this
      ensures Valid()
      ensures match Get(kind, old(Rest()))
              case Ok((value, rest)) => r == Ok(value) && Rest() == rest
              case Err(e) => r == Err(e)
    {
      var head := Take(Width(kind));
      if head.Err? {
        return Err(head.error);
      }
      match kind {
        case QidKind => r := Ok(QidValue(GetQid(head.value)));
        case Text =>
          var text := Take(GetLE(head.value));
          r := if text.Err? then Err(text.error) else Ok(Bytes(text.value));
        case _ => r := Ok(Num(GetLE(head.value)));
      }
    }

    method Fields(kinds: seq<Kind>) returns (r: Result<seq<Value>>)
      requires Valid()
      modifies this
      ensures Valid()
      ensures match GetAll(kinds, old(Rest()))
              case Ok((values, rest)) => r == Ok(values) && Rest() == rest
              case Err(e) => r == Err(e)
    {
      var values: seq<Value> := [];
      ghost var goal := GetAll(kinds, Rest());
      assert kinds[0..] == kinds;
      PrependNone(goal);
      for i := 0 to |kinds|
        invariant Valid()
        invariant Prepend(values, GetAll(kinds[i..], Rest())) == goal
      {
        assert kinds[i..][0] == kinds[i] && kinds[i..][1..] == kinds[i + 1..];
        ghost var before := Rest();
        var value := Field(kinds[i]);
        if value.Err? {
          return Err(value.error);
        }
        PrependMore(values, value.value, GetAll(kinds[i + 1..], Rest()));
        values := values + [value.value];
      }
      assert values + [] == values;
      return Ok(values);
    }
  }

  /** The values read so far in front of what is still to be read. */
  ghost function Prepend(values: seq<Value>, r: Result<(seq<Value>, seq<byte>)>): Result<(seq<Value>, seq<byte>)> {
    match r
    case Err(e) => Err(e)
    case Ok((more, rest)) => Ok((values + more, rest))
  }

  lemma PrependNone(r: Result<(seq<Value>, seq<byte>)>)
    ensures Prepend([], r) == r
  {
    if r.Ok? {
      assert [] + r.value.0 == r.value.0;
    }
  }

  lemma PrependMore(values: seq<Value>, value: Value, r: Result<(seq<Value>, seq<byte>)>)
    ensures Prepend(values + [value], r) == Prepend(values, Prepend([value], r))
  {
    if r.Ok? {
      assert values + [value] + r.value.0 == values + ([value] + r.value.0);
    }
  }
}
