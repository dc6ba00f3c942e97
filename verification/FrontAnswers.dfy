/** How looking up, removing, retaining and registering turn out: crates/front/src/model.rs and
    crates/front/src/front.rs. */
module FrontAnswers {
  import opened Prelude
  import opened Paths
  import opened FrontStore
  import opened FrontCollect
  import opened FrontOps
  import opened FrontPaths
  import opened FrontPublish
  import opened FrontPublishPaths
  import opened FrontRetire
  import opened FrontRetain
  import opened FrontRegister
  import opened FrontRoom
  import opened FrontContents
  import opened FrontOutcomes
  import opened FrontPushEffects

  // ----- Looking up -----

  lemma LongerIsBlockedToo(nodes: map<Id, Node>, start: Id, names: seq<Name>, last: Name)
    ensures Blocked(nodes, start, names + [last]) <==>
            Blocked(nodes, start, names) || LeafAt(nodes, start, names + [last])
  {
    var all := names + [last];
    assert all[..|all|] == all;
    forall k | 0 <= k <= |names|
      ensures all[..k] == names[..k]
    {
    }
    if Blocked(nodes, start, names) {
      var k :| 0 <= k <= |names| && LeafAt(nodes, start, names[..k]);
      assert LeafAt(nodes, start, all[..k]);
    }
  }

  /** Nothing on the way to an entry is a leaf. */
  lemma {:induction false} WayToEntryIsFree(nodes: map<Id, Node>, start: Id, names: seq<Name>, last: Name)
    requires Resolve(nodes, start, names + [last]).Ok?
    ensures !Blocked(nodes, start, names)
    decreases |names|
  {
    ResolveSnoc(nodes, start, names, last);
    if names == [] {
      assert forall k :: 0 <= k <= |names| ==> names[..k] == [];
    } else {
      var front, end := names[..|names| - 1], names[|names| - 1];
      assert names == front + [end];
      WayToEntryIsFree(nodes, start, front, end);
      LongerIsBlockedToo(nodes, start, front, end);
    }
  }

  /** A path that leads nowhere fails because something on the way is no directory, or because an entry is missing. */
  lemma {:induction false} ResolveOutcome(s: Store, names: seq<Name>)
    requires Inv(s) && names != [] && Resolve(s.nodes, ROOT_ID, names).Err?
    ensures Resolve(s.nodes, ROOT_ID, names).error ==
            if Blocked(s.nodes, ROOT_ID, names[..|names| - 1]) then ENOTDIR else ENOENT
    decreases |names|
  {
    hide Issued, Indexed, Tabled, Acyclic, Settled, Blocked;
    var front := names[..|names| - 1];
    var dir := Resolve(s.nodes, ROOT_ID, front);
    if front == [] {
      RootIsFree(s, front);
    } else {
      var before, end := front[..|front| - 1], front[|front| - 1];
      assert front == before + [end];
      LongerIsBlockedToo(s.nodes, ROOT_ID, before, end);
      if dir.Err? {
        ResolveOutcome(s, front);
      } else {
        LookupFindsNodes(s, front);
        WayToEntryIsFree(s.nodes, ROOT_ID, before, end);
      }
    }
  }

  lemma RootIsFree(s: Store, names: seq<Name>)
    requires Inv(s) && names == []
    ensures !Blocked(s.nodes, ROOT_ID, names) && IsDirAt(s.nodes, ROOT_ID)
  {
    assert forall k :: 0 <= k <= |names| ==> names[..k] == [];
  }

  /** An optional path is nothing when an entry is missing, and an error when a leaf is in the way. */
  lemma OptionalOutcome(s: Store, place: string)
    requires Inv(s)
    ensures var found := Resolve(s.nodes, ROOT_ID, Segments(place));
            LookupOptionalPath(s, place) == if found.Ok? then Ok(Some(found.value))
                                            else if Blocked(s.nodes, ROOT_ID, Way(place)) then Err(ENOTDIR)
                                            else Ok(None)
  {
    hide Inv, Blocked, Segments;
    if LookupPath(s, place).Err? {
      ResolveOutcome(s, Segments(place));
    }
  }

  // ----- Removing -----

  /** A removal is refused only for the root and behind a leaf; removing what is not there is no error. */
  lemma RemoveOutcome(s: Store, place: string)
    requires Inv(s)
    ensures RemoveSubtree(s, place).1 ==
            if Segments(place) == [] then Err(EPERM)
            else if Blocked(s.nodes, ROOT_ID, Way(place)) then Err(ENOTDIR)
            else Ok(())
  {
    hide Inv, Blocked, Segments, Collect, Detach;
    OptionalOutcome(s, place);
    var names := Segments(place);
    if names != [] && LookupPath(s, place).Ok? {
      WayAndLast(place);
      WayToEntryIsFree(s.nodes, ROOT_ID, Way(place), names[|names| - 1]);
      EntryIsNotRoot(s, Way(place), names[|names| - 1]);
    }
  }

  lemma EntryIsNotRoot(s: Store, names: seq<Name>, last: Name)
    requires Inv(s)
    ensures Resolve(s.nodes, ROOT_ID, names + [last]) != Ok(ROOT_ID)
  {
    ResolveSnoc(s.nodes, ROOT_ID, names, last);
    var dir := Resolve(s.nodes, ROOT_ID, names);
    if dir.Ok? && Child(s.nodes, dir.value, last).Ok? {
      assert EntryOk(s, dir.value, last);
    }
  }

  /** What is left is as it was, but for entries of directories; the settings stay, and the tables of intakes and
      rename relays lose only nodes that are gone. */
  ghost predicate Leaves(s: Store, t: Store) {
    && t.nodes.Keys <= s.nodes.Keys && (forall n :: n in t.nodes ==> Alike(s.nodes[n], t.nodes[n]))
    && t.intakes == (map n | n in s.intakes && n in t.nodes :: s.intakes[n])
    && t.renameRoots == (map n | n in s.renameRoots && n in t.nodes :: s.renameRoots[n])
    && t.principalsRequired == s.principalsRequired && t.logCapacity == s.logCapacity && t.nextId == s.nextId
  }

  lemma UnlistedIsAlike(x: Node, drop: set<Id>)
    ensures Alike(x, Unlisted(x, drop))
  {
  }

  lemma TakenLeaves(s: Store, drop: set<Id>)
    requires Inv(s)
    ensures Leaves(s, Collect(Detach(s, drop))) && Collect(Detach(s, drop)).principals == s.principals
  {
    hide Linked, Issued, Indexed, Acyclic, Settled, Trees, Alike, Unlisted;
    forall n | n in s.nodes
      ensures Alike(s.nodes[n], Unlisted(s.nodes[n], drop))
    {
      UnlistedIsAlike(s.nodes[n], drop);
    }
  }

  lemma SelfLeaves(s: Store)
    requires Inv(s)
    ensures Leaves(s, s)
  {
  }

  lemma RemoveLeaves(s: Store, place: string)
    requires Inv(s)
    ensures var t := RemoveSubtree(s, place).0;
            Leaves(s, t) && t.principals == s.principals
  {
    hide Inv, Leaves, Collect, Detach;
    SelfLeaves(s);
    if LookupPath(s, place).Ok? {
      TakenLeaves(s, {LookupPath(s, place).value});
    }
  }

  // ----- Retaining -----

  /** A supplied path that is not below the root, or that leads nowhere. */
  ghost predicate Complains(s: Store, root: seq<Name>, path: string) {
    !(root <= Segments(path)) || Resolve(s.nodes, ROOT_ID, Segments(path)).Err?
  }

  lemma {:induction false} CheckOutcome(s: Store, root: seq<Name>, paths: seq<string>)
    ensures CheckPaths(s, root, paths).Ok? <==> forall i :: 0 <= i < |paths| ==> !Complains(s, root, paths[i])
    decreases |paths|
  {
    hide Segments, Resolve;
    if paths != [] {
      CheckOutcome(s, root, paths[1..]);
      assert Complains(s, root, paths[0]) || CheckPaths(s, root, paths) == CheckPaths(s, root, paths[1..]);
      assert forall i :: 0 < i < |paths| ==> paths[i] == paths[1..][i - 1];
    }
  }

  /** Something below the root is neither wanted nor on the way to something wanted. */
  ghost predicate Unwanted(s: Store, root: seq<Name>, paths: seq<string>, path: seq<Name>) {
    root <= path && Resolve(s.nodes, ROOT_ID, path).Ok? && !Wanted(root, paths, path)
  }

  lemma StaleIsUnwanted(s: Store, root: seq<Name>, paths: seq<string>, n: Id)
    requires Inv(s) && n in Stale(s, Retained(s, root, paths))
    ensures exists path: seq<Name> :: Unwanted(s, root, paths, path)
  {
    hide Issued, Indexed, Tabled, Acyclic, Settled;
    var parent, name := s.nodes[n].parent, s.nodes[n].name;
    var at: seq<Name> :| Wanted(root, paths, at) && Resolve(s.nodes, ROOT_ID, at) == Ok(parent);
    assert Hangs(s, n);
    ResolveSnoc(s.nodes, ROOT_ID, at, name);
    RetainedIsWanted(s, root, paths, at + [name]);
    assert Unwanted(s, root, paths, at + [name]);
  }

  lemma UnwantedIsStale(s: Store, root: seq<Name>, paths: seq<string>, path: seq<Name>)
    requires Inv(s) && Unwanted(s, root, paths, path)
    ensures Stale(s, Retained(s, root, paths)) != {}
  {
    AvoidsStale(s, root, paths, path);
    NothingStale(s, path);
  }

  /** Retaining fails exactly when the root is no directory, or a supplied path is not below it or leads nowhere; it
      reports a change exactly when something below the root is not wanted. */
  lemma RetainOutcome(s: Store, rootPath: string, paths: seq<string>)
    requires Inv(s)
    ensures var root, (t, r) := Segments(rootPath), RetainPaths(s, rootPath, paths);
            var found := Resolve(s.nodes, ROOT_ID, root);
            && (r.Err? <==> found.Err? || LeafAt(s.nodes, ROOT_ID, root)
                            || exists i :: 0 <= i < |paths| && Complains(s, root, paths[i]))
            && (r.Ok? ==> (r.value <==> exists path: seq<Name> :: Unwanted(s, root, paths, path)))
            && (r != Ok(true) ==> t == s)
  {
    hide Issued, Indexed, Tabled, Acyclic, Settled, Segments, Collect, Detach, ForgetLostPrincipals, Resolve,
         CheckPaths, Stale, Retained, Unwanted, Complains;
    var root := Segments(rootPath);
    CheckOutcome(s, root, paths);
    if LookupPath(s, rootPath).Ok? {
      LookupFindsNodes(s, root);
    }
    if n :| n in Stale(s, Retained(s, root, paths)) {
      StaleIsUnwanted(s, root, paths, n);
    }
    if path: seq<Name> :| Unwanted(s, root, paths, path) {
      UnwantedIsStale(s, root, paths, path);
    }
  }

  /** The error is that of the root, or of the first path complained about. */
  lemma {:induction false} FirstComplaint(s: Store, root: seq<Name>, paths: seq<string>, i: nat)
    requires i < |paths| && Complains(s, root, paths[i]) && forall j :: 0 <= j < i ==> !Complains(s, root, paths[j])
    ensures CheckPaths(s, root, paths) ==
            if root <= Segments(paths[i]) then Err(Resolve(s.nodes, ROOT_ID, Segments(paths[i])).error) else Err(EPERM)
    decreases i
  {
    hide Segments, Resolve;
    if i > 0 {
      assert !Complains(s, root, paths[0]);
      assert forall j :: 0 < j < |paths| ==> paths[j] == paths[1..][j - 1];
      FirstComplaint(s, root, paths[1..], i - 1);
    }
  }

  lemma RetainErrors(s: Store, rootPath: string, paths: seq<string>, i: nat)
    requires Inv(s) && i <= |paths|
    requires forall j :: 0 <= j < i ==> !Complains(s, Segments(rootPath), paths[j])
    requires i < |paths| ==> Complains(s, Segments(rootPath), paths[i])
    ensures var root, r := Segments(rootPath), RetainPaths(s, rootPath, paths).1;
            var found := Resolve(s.nodes, ROOT_ID, root);
            if found.Err? then r == Err(found.error)
            else if LeafAt(s.nodes, ROOT_ID, root) then r == Err(ENOTDIR)
            else if i == |paths| then r.Ok?
            else if root <= Segments(paths[i]) then r == Err(Resolve(s.nodes, ROOT_ID, Segments(paths[i])).error)
            else r == Err(EPERM)
  {
    hide Issued, Indexed, Tabled, Acyclic, Settled, Segments, Collect, Detach, ForgetLostPrincipals, Resolve,
         CheckPaths, Stale, Retained;
    var root := Segments(rootPath);
    if LookupPath(s, rootPath).Ok? {
      LookupFindsNodes(s, root);
    }
    CheckOutcome(s, root, paths);
    if i < |paths| {
      FirstComplaint(s, root, paths, i);
    }
  }

  /** What goes with a retain: nothing else changes, and exactly the principals whose roots are gone are forgotten. */
  lemma RetainLeaves(s: Store, rootPath: string, paths: seq<string>)
    requires Inv(s) && RetainPaths(s, rootPath, paths).1 == Ok(true)
    ensures var t := RetainPaths(s, rootPath, paths).0;
            && Leaves(s, t)
            && (forall u :: u in t.principals <==> u in s.principals && s.principals[u].root in t.nodes)
            && (forall u :: u in t.principals ==> t.principals[u] == s.principals[u])
  {
    hide Inv, Segments, Collect, Detach, CheckPaths, Alike;
    TakenLeaves(s, Stale(s, Retained(s, Segments(rootPath), paths)));
  }

  // ----- Registering -----

  lemma SlashInFront(text: string)
    ensures Segments("/" + text) == Segments(text)
  {
    assert ("/" + text)[1..] == text;
    assert TrimStart("/" + text) == TrimStart(text);
  }

  /** The entry of an intake is `new` in the directory of its prefix. */
  lemma IntakeEntry(prefix: string)
    requires Trim(prefix) != ""
    ensures Segments(Trim(prefix) + NEW_ENTRY) == Segments(prefix) + ["new"] && Segments(prefix) != []
  {
    var names := Segments(prefix);
    SegmentsArePrintable(prefix);
    JoinLast(names, "new");
    assert Trim(prefix) + NEW_ENTRY == Join(names) + "/" + "new";
    PrintedNamesReadBack(names + ["new"]);
    SlashInFront(Join(names + ["new"]));
  }

  /** An intake is registered if and only if its prefix names a directory or one that can be made, it has no entry `new`
      yet, and qid paths are free. */
  lemma RegisterIntakeOutcome(s: Store, prefix: string)
    requires Inv(s)
    ensures var dirs, r := Segments(prefix), RegisterIntake(s, prefix).1;
            var names := dirs + ["new"];
            if dirs == [] then r == Err(EPERM)
            else if Blocked(s.nodes, ROOT_ID, dirs) then r == Err(ENOTDIR)
            else if !Room(s.qidIndex, s.nextId, Missing(s.nodes, ROOT_ID, names)) then r == Err(QID_EXHAUSTED)
            else if NodeAt(s, names).Some? then r == Err(EPERM)
            else r == Ok(())
  {
    hide Inv, Blocked, Room, Missing, Place, NodeAt, Trim;
    if Trim(prefix) != "" {
      IntakeEntry(prefix);
      var place := Trim(prefix) + NEW_ENTRY;
      PlaceOutcome(s, place, IntakeNew(0));
      assert Way(place) == Segments(prefix);
    }
  }

  lemma TrimTwice(text: string)
    ensures Segments(Trim(text)) == Segments(text)
  {
    SegmentsArePrintable(text);
    var names := Segments(text);
    if names == [] {
      SplitIsNever(Trim(text));
    } else {
      PrintedNamesReadBack(names);
      SlashInFront(Trim(text));
    }
  }

  lemma SplitIsNever(text: string)
    requires text == ""
    ensures Segments(text) == []
  {
  }

  /** The directory of a rename relay. */
  lemma RenameRoot(s: Store, path: string)
    ensures (if Trim(path) == "" then (s, Ok(ROOT_ID)) else EnsurePathDir(s, Trim(path)))
            == EnsureDirs(s, ROOT_ID, Segments(path))
  {
    hide Trim;
    TrimTwice(path);
  }

  /** A rename relay is registered if and only if it has a prefix and its path is a directory or can be made one; it is
      then in the table for that directory, and nothing that was there changes. */
  lemma RegisterRenameOutcome(s: Store, path: string, prefix: string)
    requires Inv(s)
    ensures var names, (t, r) := Segments(path), RegisterRename(s, path, prefix);
            var missing := Missing(s.nodes, ROOT_ID, names);
            if Trim(prefix) == "" then r == Err(EPERM)
            else if Blocked(s.nodes, ROOT_ID, names) then r == Err(ENOTDIR)
            else if !Room(s.qidIndex, s.nextId, missing) then r == Err(QID_EXHAUSTED)
            else
              && r == Ok(()) && Extends(s, t)
              && var dir := Resolve(t.nodes, ROOT_ID, names);
                 dir.Ok? && t.renameRoots == s.renameRoots[dir.value := Trim(prefix)]
  {
    hide Issued, Indexed, Tabled, Acyclic, Settled, Blocked, Room, Missing, EnsureDirs, EnsurePathDir, Segments, Trim,
         Resolve, Draws, Still;
    var names := Segments(path);
    RenameRoot(s, path);
    EnsureDirsIff(s, ROOT_ID, names, 0);
    EnsureDirsAttach(s, names);
    EnsureDirsExtend(s, ROOT_ID, names);
    EnsureDirsSameTables(s, ROOT_ID, names);
    var (t, r) := EnsureDirs(s, ROOT_ID, names);
    if r.Ok? {
      RenamedExtends(s, t, t.(renameRoots := t.renameRoots[r.value := Trim(prefix)]));
    }
  }

  lemma RenamedExtends(s: Store, t: Store, u: Store)
    requires Extends(s, t) && u == t.(renameRoots := u.renameRoots)
    ensures Extends(s, u)
  {
    forall n: Id
      ensures StillAt(s, u, n)
    {
      assert StillAt(s, t, n);
    }
  }
}
