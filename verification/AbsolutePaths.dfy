/** The texts of absolute paths: crates/session/src/cache.rs. */
module AbsolutePaths {
  import opened Prelude
  import opened Messages

  function Nonblank(pieces: seq<seq<byte>>): seq<seq<byte>> {
    if pieces == [] then []
    else if pieces[0] == [] then Nonblank(pieces[1..])
    else [pieces[0]] + Nonblank(pieces[1..])
  }

  function ParseAbsolutePath(path: seq<byte>): Option<seq<seq<byte>>> {
    if path != [] && path[0] == SLASH then Some(Nonblank(SplitSlash(path))) else None
  }

  // ----- What a text names -----

  predicate Absolute(text: seq<byte>) {
    [SLASH] <= text
  }

  predicate Slashes(text: seq<byte>) {
    forall i :: 0 <= i < |text| ==> text[i] == SLASH
  }

  predicate Segment(piece: seq<byte>) {
    piece != [] && SLASH !in piece
  }

  /** The text is some slashes, then the piece. */
  predicate Leads(text: seq<byte>, slashes: nat, piece: seq<byte>) {
    && 0 < slashes <= |text| && Slashes(text[..slashes])
    && piece <= text[slashes..]
  }

  /** The text is the segments of the path in order, each behind one or more slashes, and maybe more slashes at
      the end. */
  ghost predicate Spells(text: seq<byte>, p: seq<seq<byte>>)
    decreases |p|
  {
    if p == [] then Slashes(text)
    else
      && Segment(p[0])
      && exists k: nat :: Leads(text, k, p[0]) && Spells(text[k + |p[0]|..], p[1..])
  }

  // ----- Splitting -----

  lemma {:induction false} SplitSegment(text: seq<byte>, i: nat)
    requires i < |text| && SLASH !in text[..i] && text[i] == SLASH
    ensures SplitSlash(text) == [text[..i]] + SplitSlash(text[i + 1..])
    decreases i
  {
    if i > 0 {
      assert text[0] in text[..i];
      assert text[1..][..i - 1] == text[..i][1..];
      SplitSegment(text[1..], i - 1);
      assert text[1..][i..] == text[i + 1..];
      assert [text[0]] + text[1..][..i - 1] == text[..i];
    }
  }

  lemma {:induction false} SplitLast(text: seq<byte>)
    requires SLASH !in text
    ensures SplitSlash(text) == [text]
    decreases |text|
  {
    if text != [] {
      assert text[0] in text;
      SplitLast(text[1..]);
      assert [text[0]] + text[1..] == text;
    }
  }

  /** Splitting and dropping the blanks skips slashes, */
  lemma {:induction false} ParseSkips(text: seq<byte>, k: nat)
    requires k <= |text| && Slashes(text[..k])
    ensures Nonblank(SplitSlash(text)) == Nonblank(SplitSlash(text[k..]))
    decreases k
  {
    if k > 0 {
      assert text[..k][0] == SLASH;
      assert text[1..][..k - 1] == text[..k][1..];
      ParseSkips(text[1..], k - 1);
      assert text[1..][k - 1..] == text[k..];
      var rest := SplitSlash(text[1..]);
      assert ([[]] + rest)[1..] == rest;
    } else {
      assert text[0..] == text;
    }
  }

  lemma NothingParses()
    ensures Nonblank(SplitSlash([])) == []
  {
    var blank: seq<seq<byte>> := [[]];
    assert SplitSlash([]) == blank && blank[1..] == [];
  }

  lemma SlashesParse(text: seq<byte>)
    requires Slashes(text)
    ensures Nonblank(SplitSlash(text)) == []
  {
    assert text[..|text|] == text;
    ParseSkips(text, |text|);
    assert text[|text|..] == [];
    NothingParses();
  }

  lemma BlankOrNot(piece: seq<byte>, pieces: seq<seq<byte>>)
    requires piece != []
    ensures Nonblank([piece] + pieces) == [piece] + Nonblank(pieces) && Nonblank([[]] + pieces) == Nonblank(pieces)
  {
    assert ([piece] + pieces)[1..] == pieces && ([[]] + pieces)[1..] == pieces;
  }

  /** and takes a segment whole. */
  lemma ParseSegment(piece: seq<byte>, rest: seq<byte>)
    requires Segment(piece) && (rest == [] || rest[0] == SLASH)
    ensures Nonblank(SplitSlash(piece + rest)) == [piece] + Nonblank(SplitSlash(rest))
  {
    var text := piece + rest;
    if rest == [] {
      assert text == piece;
      SplitLast(piece);
      assert [piece][1..] == [];
      NothingParses();
    } else {
      assert text[..|piece|] == piece && text[|piece|] == SLASH && text[|piece| + 1..] == rest[1..];
      SplitSegment(text, |piece|);
      BlankOrNot(piece, SplitSlash(rest[1..]));
    }
  }

  // ----- Parsing is reading what is spelled -----

  lemma SpelledBegins(text: seq<byte>, p: seq<seq<byte>>)
    requires Spells(text, p)
    ensures text == [] || text[0] == SLASH
  {
    if p != [] {
      var k: nat :| Leads(text, k, p[0]) && Spells(text[k + |p[0]|..], p[1..]);
      assert text[..k][0] == SLASH;
    }
  }

  /** The text of a path, however many slashes it has, is read as that path. */
  lemma {:induction false} SpelledIsParsed(text: seq<byte>, p: seq<seq<byte>>)
    requires Spells(text, p)
    ensures Nonblank(SplitSlash(text)) == p
    decreases |p|
  {
    hide Nonblank, SplitSlash;
    if p == [] {
      SlashesParse(text);
    } else {
      var k: nat :| Leads(text, k, p[0]) && Spells(text[k + |p[0]|..], p[1..]);
      var rest := text[k + |p[0]|..];
      ParseSkips(text, k);
      assert text[k..] == p[0] + rest;
      SpelledBegins(rest, p[1..]);
      ParseSegment(p[0], rest);
      SpelledIsParsed(rest, p[1..]);
      assert [p[0]] + p[1..] == p;
    }
  }

  /** The slashes, the segment and what is left of a text that begins with a slash. */
  function SlashesBefore(text: seq<byte>): (k: nat)
    ensures k <= |text| && Slashes(text[..k]) && (k < |text| ==> text[k] != SLASH)
  {
    if text == [] || text[0] != SLASH then 0
    else
      var k := SlashesBefore(text[1..]);
      assert text[..1 + k] == [text[0]] + text[1..][..k];
      1 + k
  }

  function SegmentBefore(text: seq<byte>): (k: nat)
    ensures k <= |text| && SLASH !in text[..k] && (k < |text| ==> text[k] == SLASH)
  {
    if text == [] || text[0] == SLASH then 0
    else
      var k := SegmentBefore(text[1..]);
      assert text[..1 + k] == [text[0]] + text[1..][..k];
      1 + k
  }

  lemma FirstSpells(text: seq<byte>, k: nat, piece: seq<byte>, p: seq<seq<byte>>)
    requires Segment(piece) && Leads(text, k, piece) && Spells(text[k + |piece|..], p)
    ensures Spells(text, [piece] + p)
  {
    var all := [piece] + p;
    assert all[0] == piece && all[1..] == p;
    assert Leads(text, k, all[0]) && Spells(text[k + |all[0]|..], all[1..]);
  }

  /** What a text is read as is what it spells. */
  lemma {:induction false} ParsedIsSpelled(text: seq<byte>)
    requires text == [] || text[0] == SLASH
    ensures Spells(text, Nonblank(SplitSlash(text)))
    decreases |text|
  {
    hide Nonblank, SplitSlash, SlashesBefore, SegmentBefore;
    var k := SlashesBefore(text);
    if k == |text| {
      assert text[..k] == text;
      SlashesParse(text);
    } else {
      var n := SegmentBefore(text[k..]);
      var piece, rest := text[k..][..n], text[k + n..];
      assert rest == text[k..][n..] && text[k..] == piece + rest;
      assert n > 0 && Segment(piece) && Leads(text, k, piece);
      ParseSkips(text, k);
      ParseSegment(piece, rest);
      ParsedIsSpelled(rest);
      FirstSpells(text, k, piece, Nonblank(SplitSlash(rest)));
    }
  }

  /** A text is read as a path if and only if it is absolute and spells that path; no other text is read. */
  lemma ParseIsSpelling(text: seq<byte>, p: seq<seq<byte>>)
    ensures ParseAbsolutePath(text) == Some(p) <==> Absolute(text) && Spells(text, p)
    ensures ParseAbsolutePath(text) == None <==> !Absolute(text)
  {
    hide Nonblank, SplitSlash;
    assert Absolute(text) <==> text != [] && text[0] == SLASH;
    if Absolute(text) {
      ParsedIsSpelled(text);
      if Spells(text, p) {
        SpelledIsParsed(text, p);
      }
    }
  }

  /** The plain text of a path: each segment behind one slash. */
  function Slashed(p: seq<seq<byte>>): seq<byte> {
    if p == [] then [] else [SLASH] + p[0] + Slashed(p[1..])
  }

  lemma SlashedLeads(piece: seq<byte>, rest: seq<byte>)
    ensures var text := [SLASH] + piece + rest;
            Leads(text, 1, piece) && text[1 + |piece|..] == rest
  {
    var text := [SLASH] + piece + rest;
    assert text[..1] == [SLASH];
    assert text[1..] == piece + rest;
  }

  lemma {:induction false} SlashedSpells(p: seq<seq<byte>>)
    requires forall i :: 0 <= i < |p| ==> Segment(p[i])
    ensures Spells(Slashed(p), p)
    decreases |p|
  {
    hide Leads;
    if p != [] {
      var rest := Slashed(p[1..]);
      SlashedSpells(p[1..]);
      SlashedLeads(p[0], rest);
      assert Leads(Slashed(p), 1, p[0]) && Spells(Slashed(p)[1 + |p[0]|..], p[1..]);
    }
  }

  /** So every path of segments has a text that is read as it. */
  lemma SlashedParses(p: seq<seq<byte>>)
    requires forall i :: 0 <= i < |p| ==> Segment(p[i])
    ensures ParseAbsolutePath(if p == [] then [SLASH] else Slashed(p)) == Some(p)
  {
    SlashedSpells(p);
    assert p == [] ==> Spells([SLASH], p);
    ParseIsSpelling(if p == [] then [SLASH] else Slashed(p), p);
  }
}
