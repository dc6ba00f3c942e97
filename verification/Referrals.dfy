/** Namespace referrals: crates/core/src/referral.rs. */
module Referrals {
  import opened Prelude
  import opened Messages
  import opened AbsolutePaths

  const OUTSIDE := "namespace path is outside referral mount"

  /** One printing byte or more. */
  predicate Printing(value: seq<byte>) {
    value != [] && forall i :: 0 <= i < |value| ==> 32 <= value[i] != 127
  }

  /** A path that means what it says: no blank, `.` or `..` segment and no control byte. */
  ghost predicate Plain(p: seq<seq<byte>>) {
    forall i :: 0 <= i < |p| ==> Segment(p[i]) && p[i] !in {[DOT], [DOT, DOT]} && Printing(p[i])
  }

  /** Its text, where the root is a slash. */
  function PathBytes(p: seq<seq<byte>>): seq<byte> {
    if p == [] then [SLASH] else Slashed(p)
  }

  // ----- Splitting and joining -----

  lemma {:induction false} SplitJoins(bytes: seq<byte>)
    ensures var pieces := SplitSlash(bytes); pieces[0] + Slashed(pieces[1..]) == bytes
    decreases |bytes|
  {
    if bytes != [] {
      var rest := SplitSlash(bytes[1..]);
      SplitJoins(bytes[1..]);
      if bytes[0] == SLASH {
        assert ([[]] + rest)[1..] == rest;
        assert [SLASH] + bytes[1..] == bytes;
      } else {
        assert ([[bytes[0]] + rest[0]] + rest[1..])[1..] == rest[1..];
        assert [bytes[0]] + bytes[1..] == bytes;
      }
    } else {
      var blank: seq<seq<byte>> := [[]];
      assert blank[1..] == [];
    }
  }

  lemma {:induction false} SplitIsSlashFree(bytes: seq<byte>)
    ensures forall i :: 0 <= i < |SplitSlash(bytes)| ==> SLASH !in SplitSlash(bytes)[i]
    decreases |bytes|
  {
    if bytes != [] {
      SplitIsSlashFree(bytes[1..]);
    }
  }

  lemma SplitFirst(text: seq<byte>, first: byte, rest: seq<byte>)
    requires text == [first] + rest
    ensures var pieces := SplitSlash(rest);
            SplitSlash(text) == if first == SLASH then [[]] + pieces else [[first] + pieces[0]] + pieces[1..]
  {
    assert text[0] == first && text[1..] == rest;
  }

  lemma ShiftPlus(head: seq<byte>, pieces: seq<seq<byte>>, more: seq<seq<byte>>)
    requires pieces != []
    ensures [head] + (pieces + more) == [head] + pieces + more
    ensures [head] + (pieces + more)[1..] == [head] + pieces[1..] + more
    ensures (pieces + more)[0] == pieces[0]
  {
    assert (pieces + more)[1..] == pieces[1..] + more;
  }

  /** Splitting in front of a slash splits both parts. */
  lemma {:induction false} SplitPlus(a: seq<byte>, suffix: seq<byte>)
    requires suffix == [] || suffix[0] == SLASH
    ensures SplitSlash(a + suffix) == SplitSlash(a) + SplitSlash(suffix)[1..]
    decreases |a|
  {
    if a == [] {
      assert a + suffix == suffix;
      var blank: seq<seq<byte>> := [[]];
      assert SplitSlash([]) == blank && SplitSlash(suffix) == blank + SplitSlash(suffix)[1..];
    } else {
      hide SplitSlash;
      var first, rest := a[0], a[1..];
      SplitPlus(rest, suffix);
      SplitFirst(a, first, rest);
      SplitFirst(a + suffix, first, rest + suffix);
      var pieces, more := SplitSlash(rest), SplitSlash(suffix)[1..];
      ShiftPlus(if first == SLASH then [] else [first] + pieces[0], pieces, more);
    }
  }

  lemma {:induction false} SplitText(p: seq<seq<byte>>)
    requires forall i :: 0 <= i < |p| ==> SLASH !in p[i]
    ensures SplitSlash(Slashed(p)) == [[]] + p
    decreases |p|
  {
    if p == [] {
      var blank: seq<seq<byte>> := [[]];
      assert SplitSlash([]) == blank && blank + p == blank;
    } else {
      var rest := Slashed(p[1..]);
      SplitText(p[1..]);
      TextBegins(p[1..]);
      SplitLast(p[0]);
      SplitPlus(p[0], rest);
      assert SplitSlash(rest)[1..] == p[1..];
      assert Slashed(p)[1..] == p[0] + rest;
      assert [p[0]] + p[1..] == p;
    }
  }

  lemma TextBegins(p: seq<seq<byte>>)
    ensures Slashed(p) == [] || Slashed(p)[0] == SLASH
  {
  }

  lemma {:induction false} TextPlus(p: seq<seq<byte>>, q: seq<seq<byte>>)
    ensures Slashed(p + q) == Slashed(p) + Slashed(q)
    decreases |p|
  {
    if p == [] {
      assert p + q == q;
    } else {
      TextPlus(p[1..], q);
      assert (p + q)[1..] == p[1..] + q;
    }
  }

  lemma {:induction false} TextControl(p: seq<seq<byte>>)
    ensures HasControl(Slashed(p)) <==> exists i :: 0 <= i < |p| && HasControl(p[i])
    decreases |p|
  {
    if p != [] {
      var rest := Slashed(p[1..]);
      TextControl(p[1..]);
      ControlPlus([SLASH] + p[0], rest);
      ControlPlus([SLASH], p[0]);
      assert forall i :: 0 <= i < |p[1..]| ==> p[1..][i] == p[i + 1];
      if i :| 0 <= i < |p| && HasControl(p[i]) {
        assert i > 0 ==> HasControl(p[1..][i - 1]);
      }
    }
  }

  lemma ControlPlus(a: seq<byte>, b: seq<byte>)
    ensures HasControl(a + b) <==> HasControl(a) || HasControl(b)
  {
    var all := a + b;
    if HasControl(a) {
      var i :| 0 <= i < |a| && Control(a[i]);
      assert Control(all[i]);
    }
    if HasControl(b) {
      var i :| 0 <= i < |b| && Control(b[i]);
      assert Control(all[|a| + i]);
    }
  }

  lemma {:induction false} TextEnds(p: seq<seq<byte>>)
    requires p != [] && Segment(p[|p| - 1])
    ensures |Slashed(p)| >= 2 && Slashed(p)[|Slashed(p)| - 1] == p[|p| - 1][|p[|p| - 1]| - 1] != SLASH
    decreases |p|
  {
    var last := p[|p| - 1];
    assert last[|last| - 1] in last;
    if |p| > 1 {
      TextEnds(p[1..]);
    }
  }

  // ----- Validity -----

  /** A text is canonical if and only if it is the text of a plain path. */
  lemma CanonicalIff(path: seq<byte>, allowRoot: bool)
    ensures CanonicalPath(path, allowRoot) <==>
            exists p :: Plain(p) && path == PathBytes(p) && (p == [] ==> allowRoot)
  {
    if CanonicalPath(path, allowRoot) {
      CanonicalIsPlain(path, allowRoot);
    }
    if p :| Plain(p) && path == PathBytes(p) && (p == [] ==> allowRoot) {
      PlainIsCanonical(p, allowRoot);
    }
  }

  lemma CanonicalIsPlain(path: seq<byte>, allowRoot: bool)
    requires CanonicalPath(path, allowRoot)
    ensures exists p :: Plain(p) && path == PathBytes(p) && (p == [] ==> allowRoot)
  {
    if path == [SLASH] {
      var p: seq<seq<byte>> := [];
      assert Plain(p) && path == PathBytes(p);
    } else {
      var pieces := SplitSlash(path);
      var p := pieces[1..];
      SplitJoins(path);
      SplitIsSlashFree(path);
      assert pieces[0] == [];
      assert path == Slashed(p);
      TextControl(p);
      assert Plain(p);
    }
  }

  lemma PlainIsCanonical(p: seq<seq<byte>>, allowRoot: bool)
    requires Plain(p) && (p == [] ==> allowRoot)
    ensures CanonicalPath(PathBytes(p), allowRoot)
  {
    if p != [] {
      TextEnds(p);
      SplitText(p);
      TextControl(p);
      TextBegins(p);
    }
  }

  /** A referral is valid if and only if its mount is the text of a plain path below the root, its exported root is the
      text of a plain path, its other texts are not empty and print, and its numbers are positive. */
  lemma ValidIff(r: Referral)
    ensures Complaint(r) == None <==>
            && (exists m :: Plain(m) && m != [] && r.mountPath == PathBytes(m))
            && (exists e :: Plain(e) && r.exportedRoot == PathBytes(e))
            && Printing(r.endpoint) && Printing(r.uname) && Printing(r.aname) && Printing(r.authorityBoundary)
            && r.generation > 0 && r.validForMs > 0
  {
    hide CanonicalPath;
    CanonicalIff(r.mountPath, false);
    CanonicalIff(r.exportedRoot, true);
    AllPass(r);
  }

  lemma AllPass(r: Referral)
    ensures Complaint(r) == None <==>
            && CanonicalPath(r.mountPath, false) && CanonicalPath(r.exportedRoot, true)
            && Printing(r.endpoint) && Printing(r.uname) && Printing(r.aname) && Printing(r.authorityBoundary)
            && r.generation > 0 && r.validForMs > 0
  {
    hide CanonicalPath, CheckText, Printing;
    var checks := [
      CheckPath("mount_path", r.mountPath, false),
      CheckPath("exported_root", r.exportedRoot, true),
      CheckText("endpoint", r.endpoint),
      CheckText("uname", r.uname),
      CheckText("aname", r.aname),
      CheckText("authority_boundary", r.authorityBoundary),
      if r.generation == 0 then Some("namespace referral generation must be positive") else None,
      if r.validForMs == 0 then Some("namespace referral valid_for_ms must be positive") else None];
    FirstSomeIff(checks);
    TextPasses("endpoint", r.endpoint);
    TextPasses("uname", r.uname);
    TextPasses("aname", r.aname);
    TextPasses("authority_boundary", r.authorityBoundary);
    assert checks[0] == None && checks[1] == None && checks[2] == None && checks[3] == None && checks[4] == None
           && checks[5] == None && checks[6] == None && checks[7] == None
           <==> forall i :: 0 <= i < |checks| ==> checks[i] == None;
  }

  lemma TextPasses(field: string, value: seq<byte>)
    ensures CheckText(field, value) == None <==> Printing(value)
  {
  }

  lemma {:induction false} FirstSomeIff(checks: seq<Option<string>>)
    ensures FirstSome(checks) == None <==> forall i :: 0 <= i < |checks| ==> checks[i] == None
    decreases |checks|
  {
    if checks != [] {
      FirstSomeIff(checks[1..]);
      assert forall i :: 0 < i < |checks| ==> checks[i] == checks[1..][i - 1];
    }
  }

  // ----- Routing -----

  function MountedSuffix(path: seq<byte>, mount: seq<byte>): Option<seq<byte>> {
    if path == mount then Some([])
    else if mount <= path && path[|mount|] == SLASH then Some(path[|mount|..])
    else None
  }

  function JoinNamespace(root: seq<byte>, suffix: seq<byte>): seq<byte> {
    if root == [SLASH] then if suffix == [] then [SLASH] else suffix else root + suffix
  }

  /** `routed_path`, on texts. */
  function RoutedPath(r: Referral, path: seq<byte>): Result<seq<byte>> {
    match CheckPath("namespace_path", path, true)
    case Some(e) => Err(e)
    case None =>
      match MountedSuffix(path, r.mountPath)
      case None => Err(OUTSIDE)
      case Some(suffix) => Ok(JoinNamespace(r.exportedRoot, suffix))
  }

  /** A mount is a prefix of a text at a slash if and only if it is a prefix of the path. */
  lemma PrefixAtSlash(m: seq<seq<byte>>, p: seq<seq<byte>>)
    requires Plain(m) && Plain(p) && m != []
    ensures MountedSuffix(PathBytes(p), PathBytes(m)) == if m <= p then Some(Slashed(p[|m|..])) else None
  {
    TextEnds(m);
    var text, mount := PathBytes(p), Slashed(m);
    if m <= p {
      var rest := p[|m|..];
      assert p == m + rest;
      TextPlus(m, rest);
      TextBegins(rest);
      assert text[|mount|..] == Slashed(rest);
      assert Slashed(rest) != [] ==> text[|mount|] == Slashed(rest)[0];
      assert Slashed(rest) == [] ==> text == mount;
    } else if mount <= text && (text == mount || text[|mount|] == SLASH) {
      PrefixFromText(m, p, text[|mount|..]);
    }
  }

  lemma PrefixFromText(m: seq<seq<byte>>, p: seq<seq<byte>>, suffix: seq<byte>)
    requires Plain(m) && Plain(p) && m != [] && (suffix == [] || suffix[0] == SLASH)
    requires PathBytes(p) == Slashed(m) + suffix
    ensures m <= p
  {
    hide SplitSlash, Slashed;
    TextEnds(m);
    SplitPlus(Slashed(m), suffix);
    SplitText(m);
    SplitText(p);
    SamePieces([], p, m, SplitSlash(suffix)[1..]);
  }

  lemma SamePieces(head: seq<byte>, p: seq<seq<byte>>, m: seq<seq<byte>>, more: seq<seq<byte>>)
    requires [head] + p == [head] + m + more
    ensures p == m + more
  {
    assert p == ([head] + p)[1..] && m + more == ([head] + m + more)[1..];
  }

  /** Routing a path through a valid referral replaces the mount in front of it by the exported root, segment by
      segment, if and only if the path is at or below the mount. */
  lemma RoutesIff(r: Referral, m: seq<seq<byte>>, e: seq<seq<byte>>, p: seq<seq<byte>>)
    requires Plain(m) && Plain(e) && Plain(p) && m != []
    requires r.mountPath == PathBytes(m) && r.exportedRoot == PathBytes(e)
    ensures RoutedPath(r, PathBytes(p)) == if m <= p then Ok(PathBytes(e + p[|m|..])) else Err(OUTSIDE)
  {
    hide CanonicalPath;
    PlainIsCanonical(p, true);
    PrefixAtSlash(m, p);
    if m <= p {
      var rest := p[|m|..];
      TextPlus(e, rest);
      NothingToText(rest);
      if e == [] {
        assert e + rest == rest;
      } else {
        TextEnds(e);
      }
    }
  }

  lemma NothingToText(p: seq<seq<byte>>)
    ensures Slashed(p) == [] <==> p == []
  {
  }

  /** Any other text is refused. */
  lemma OtherTextsAreRefused(r: Referral, path: seq<byte>)
    requires !exists p :: Plain(p) && path == PathBytes(p)
    ensures RoutedPath(r, path).Err? && RoutedPath(r, path).error != OUTSIDE
  {
    CanonicalIff(path, true);
    assert CheckPath("namespace_path", path, true).value[0..20] == "namespace referral n";
  }

  /** So a routed path is a plain path again, and referrals from one mount to another and back undo each other. */
  lemma RoutesBack(r: Referral, back: Referral, m: seq<seq<byte>>, e: seq<seq<byte>>, p: seq<seq<byte>>)
    requires Plain(m) && Plain(e) && Plain(p) && m != [] && e != [] && m <= p
    requires r.mountPath == back.exportedRoot == PathBytes(m) && r.exportedRoot == back.mountPath == PathBytes(e)
    ensures RoutedPath(r, PathBytes(p)).Ok?
    ensures RoutedPath(back, RoutedPath(r, PathBytes(p)).value) == Ok(PathBytes(p))
  {
    var rest := p[|m|..];
    RoutesIff(r, m, e, p);
    RoutesIff(back, e, m, e + rest);
    assert (e + rest)[|e|..] == rest && m + rest == p;
  }
}
