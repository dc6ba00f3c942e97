/** Roots are given to users before they attach: crates/front/src/front.rs and crates/front/src/tree.rs. */
module FrontPrincipals {
  import opened Prelude
  import opened Paths
  import opened FrontStore
  import opened FrontPaths
  import opened FrontRetire
  import opened FrontRetain
  import opened FrontGrants
  import opened FrontWorld
  import opened FrontAccess
  import opened FrontRoom
  import opened FrontAnswers
  import opened FrontSettings
  import opened FrontAdmission

  // ----- One grant -----

  /** Two texts of one path, however many slashes they have. */
  lemma SameRootIff(a: string, b: string)
    ensures RootText(a) == RootText(b) <==> Segments(a) == Segments(b)
  {
    SegmentsArePrintable(a);
    SegmentsArePrintable(b);
    TrimEdges(a);
    TrimEdges(b);
  }

  /** A grant succeeds if and only if it names a user, a principal, a name and a directory, and the user has no entry or
      one of the same principal and path. */
  lemma GrantOutcome(s: Store, uname: string, principalId: string, aname: string, rootPath: string)
    requires Inv(s)
    ensures var (t, r) := Grant(s, uname, principalId, aname, rootPath);
            var found := Resolve(s.nodes, ROOT_ID, Segments(rootPath));
            if uname == "" || principalId == "" || aname == "" then r == Err(EPERM)
            else if found.Err? then r == Err(found.error)
            else if LeafAt(s.nodes, ROOT_ID, Segments(rootPath)) then r == Err(ENOTDIR)
            else if uname !in s.principals then r == Ok(())
            else r == if s.principals[uname].rootPath != RootText(rootPath) then Err(ROOT_MISMATCH)
                      else if s.principals[uname].principalId != principalId then Err(ID_MISMATCH)
                      else Ok(())
  {
    hide Issued, Indexed, Tabled, Acyclic, Settled, Resolve, Segments, Trim;
    if LookupPath(s, rootPath).Ok? {
      LookupFindsNodes(s, Segments(rootPath));
    }
  }

  /** A grant opens one more name to the user, at the directory as it is found now; the other users keep their entries.
      One that fails leaves all entries. */
  lemma GrantSets(s: Store, uname: string, principalId: string, aname: string, rootPath: string)
    ensures var (t, r) := Grant(s, uname, principalId, aname, rootPath);
            if r.Err? then t.principals == s.principals
            else
              && uname in t.principals && t.principals - {uname} == s.principals - {uname}
              && Resolve(s.nodes, ROOT_ID, Segments(rootPath)) == Ok(t.principals[uname].root)
              && t.principals[uname].rootPath == RootText(rootPath) && t.principals[uname].principalId == principalId
              && t.principals[uname].anames ==
                 (if uname in s.principals then s.principals[uname].anames else {}) + {aname}
  {
    hide Resolve, Segments, Trim;
    var (t, r) := Grant(s, uname, principalId, aname, rootPath);
    if r.Ok? {
      assert t.principals == s.principals[uname := t.principals[uname]];
      assert t.principals - {uname} == s.principals - {uname};
    }
  }

  /** Retaining principals forgets exactly the other ones. */
  lemma KeepsNamed(s: Store, unames: set<string>, uname: string)
    ensures var t := KeepPrincipals(s, unames);
            && (uname in t.principals <==> uname in s.principals && uname in unames)
            && (uname in t.principals ==> t.principals[uname] == s.principals[uname])
            && t.principalsRequired == s.principalsRequired
  {
  }

  // ----- Runs -----

  /** The act gives the user this name at this path. */
  ghost predicate Gives(a: Access, act: Act, uname: string, principalId: string, aname: string, text: string) {
    && act.Other? && act.step.GrantRoot? && act.step.uname == uname && act.step.principalId == principalId
    && act.step.aname == aname && RootText(act.step.rootPath) == text
    && Grant(a.world.store, uname, principalId, aname, act.step.rootPath).1.Ok?
  }

  /** The act gives the user this node as its root. */
  ghost predicate Roots(a: Access, act: Act, uname: string, root: Id, text: string) {
    && act.Other? && act.step.GrantRoot? && act.step.uname == uname && RootText(act.step.rootPath) == text
    && Resolve(a.world.store.nodes, ROOT_ID, Segments(act.step.rootPath)) == Ok(root)
  }

  ghost predicate Given(acts: seq<Act>, uname: string, principalId: string, aname: string, text: string) {
    exists i :: 0 <= i < |acts| && Gives(Acted(Begin(), acts[..i]), acts[i], uname, principalId, aname, text)
  }

  ghost predicate Rooted(acts: seq<Act>, uname: string, root: Id, text: string) {
    exists i :: 0 <= i < |acts| && Roots(Acted(Begin(), acts[..i]), acts[i], uname, root, text)
  }

  /** Every name of the entry was given to the user, and its root was found under the path given. */
  ghost predicate EntryGiven(acts: seq<Act>, uname: string, entry: PrincipalRoot) {
    && (forall aname :: aname in entry.anames ==> Given(acts, uname, entry.principalId, aname, entry.rootPath))
    && Rooted(acts, uname, entry.root, entry.rootPath)
  }

  lemma GivenLater(acts: seq<Act>, act: Act, uname: string, principalId: string, aname: string, text: string)
    requires Given(acts, uname, principalId, aname, text)
    ensures Given(acts + [act], uname, principalId, aname, text)
  {
    hide Gives, Acted;
    var all := acts + [act];
    var i :| 0 <= i < |acts| && Gives(Acted(Begin(), acts[..i]), acts[i], uname, principalId, aname, text);
    assert all[..i] == acts[..i] && all[i] == acts[i];
  }

  lemma RootedLater(acts: seq<Act>, act: Act, uname: string, root: Id, text: string)
    requires Rooted(acts, uname, root, text)
    ensures Rooted(acts + [act], uname, root, text)
  {
    hide Roots, Acted;
    var all := acts + [act];
    var i :| 0 <= i < |acts| && Roots(Acted(Begin(), acts[..i]), acts[i], uname, root, text);
    assert all[..i] == acts[..i] && all[i] == acts[i];
  }

  lemma EntryGivenLater(acts: seq<Act>, act: Act, uname: string, entry: PrincipalRoot)
    requires EntryGiven(acts, uname, entry)
    ensures EntryGiven(acts + [act], uname, entry)
  {
    hide Given, Rooted;
    forall aname | aname in entry.anames
      ensures Given(acts + [act], uname, entry.principalId, aname, entry.rootPath)
    {
      GivenLater(acts, act, uname, entry.principalId, aname, entry.rootPath);
    }
    RootedLater(acts, act, uname, entry.root, entry.rootPath);
  }

  /** The operation of a grant in a run. */
  lemma GrantAct(a: Access, act: Act)
    requires act.Other? && act.step.GrantRoot?
    ensures var g := act.step;
            After(a, act).world.store == Grant(a.world.store, g.uname, g.principalId, g.aname, g.rootPath).0
  {
    hide Grant;
  }

  lemma EntryAfterGrant(acts: seq<Act>, act: Act, uname: string)
    requires act.Other? && act.step.GrantRoot? && act.step.uname == uname
    requires var s, g := Acted(Begin(), acts).world.store, act.step;
             && Grant(s, uname, g.principalId, g.aname, g.rootPath).1.Ok?
             && (uname in s.principals ==> EntryGiven(acts, uname, s.principals[uname]))
    ensures uname in After(Acted(Begin(), acts), act).world.store.principals
    ensures EntryGiven(acts + [act], uname, After(Acted(Begin(), acts), act).world.store.principals[uname])
  {
    hide Acted, Grant, Given, Rooted, After, Resolve;
    var a, g, all := Acted(Begin(), acts), act.step, acts + [act];
    var s := a.world.store;
    GrantAct(a, act);
    GrantSets(s, uname, g.principalId, g.aname, g.rootPath);
    var entry := After(a, act).world.store.principals[uname];
    assert all[..|acts|] == acts && all[|acts|] == act;
    GivenNow(acts, act, uname, g.principalId, g.aname, g.rootPath);
    RootedNow(acts, act, uname, entry.root, g.rootPath);
    if uname in s.principals {
      SameEntry(s, uname, g.principalId, g.aname, g.rootPath);
      forall aname | aname in s.principals[uname].anames
        ensures Given(all, uname, entry.principalId, aname, entry.rootPath)
      {
        GivenLater(acts, act, uname, entry.principalId, aname, entry.rootPath);
      }
    }
  }

  lemma SameEntry(s: Store, uname: string, principalId: string, aname: string, rootPath: string)
    requires uname in s.principals && Grant(s, uname, principalId, aname, rootPath).1.Ok?
    ensures s.principals[uname].principalId == principalId && s.principals[uname].rootPath == RootText(rootPath)
  {
    hide LookupPath, Trim;
  }

  lemma GivenNow(acts: seq<Act>, act: Act, uname: string, principalId: string, aname: string, rootPath: string)
    requires act == Other(GrantRoot(uname, principalId, aname, rootPath))
    requires Grant(Acted(Begin(), acts).world.store, uname, principalId, aname, rootPath).1.Ok?
    ensures Given(acts + [act], uname, principalId, aname, RootText(rootPath))
  {
    hide Acted, Grant, Trim;
    var all := acts + [act];
    assert all[..|acts|] == acts && all[|acts|] == act;
    assert Gives(Acted(Begin(), all[..|acts|]), all[|acts|], uname, principalId, aname, RootText(rootPath));
  }

  lemma RootedNow(acts: seq<Act>, act: Act, uname: string, root: Id, rootPath: string)
    requires act.Other? && act.step.GrantRoot? && act.step.uname == uname && act.step.rootPath == rootPath
    requires Resolve(Acted(Begin(), acts).world.store.nodes, ROOT_ID, Segments(rootPath)) == Ok(root)
    ensures Rooted(acts + [act], uname, root, RootText(rootPath))
  {
    hide Acted, Resolve, Segments, Trim;
    var all := acts + [act];
    assert all[..|acts|] == acts && all[|acts|] == act;
    assert Roots(Acted(Begin(), all[..|acts|]), all[|acts|], uname, root, RootText(rootPath));
  }

  /** Any other act keeps an entry as it is or forgets it. */
  lemma EntryKept(a: Access, act: Act, uname: string)
    requires GoodWorld(a.world) && uname in After(a, act).world.store.principals
    requires !(act.Other? && act.step.GrantRoot? && act.step.uname == uname
               && Grant(a.world.store, uname, act.step.principalId, act.step.aname, act.step.rootPath).1.Ok?)
    ensures uname in a.world.store.principals
            && After(a, act).world.store.principals[uname] == a.world.store.principals[uname]
  {
    hide Grant, Next, GoodWorld, StepOf;
    if act.Other? && act.step.GrantRoot? {
      var g, s := act.step, a.world.store;
      GrantAct(a, act);
      GrantSets(s, g.uname, g.principalId, g.aname, g.rootPath);
      var t := Grant(s, g.uname, g.principalId, g.aname, g.rootPath).0;
      if t.principals != s.principals {
        assert uname in t.principals - {g.uname};
        assert uname in s.principals - {g.uname};
      }
    } else {
      StepIsNoGrant(a, act);
      if StepOf(a, act).Some? {
        StepKeepsEntry(a.world, StepOf(a, act).value, uname);
      }
    }
  }

  lemma StepIsNoGrant(a: Access, act: Act)
    requires !(act.Other? && act.step.GrantRoot?)
    ensures StepOf(a, act).Some? ==> !StepOf(a, act).value.GrantRoot?
  {
  }

  lemma StepKeepsEntry(w: World, step: Step, uname: string)
    requires GoodWorld(w) && !step.GrantRoot? && uname in Next(w, step).store.principals
    ensures uname in w.store.principals && Next(w, step).store.principals[uname] == w.store.principals[uname]
  {
    hide CountsAgree, RetainPaths, Inv, BindFid, UnbindFid, UnbindAll;
    NextSettings(w, step);
    if step.Retain? {
      var (t, r) := RetainPaths(w.store, step.rootPath, step.paths);
      RetainOutcome(w.store, step.rootPath, step.paths);
      if r == Ok(true) {
        RetainLeaves(w.store, step.rootPath, step.paths);
      }
    }
  }

  /** In every run each entry a user has was given: every name of it by a grant to that user, and its root by a grant
      that found it under the path of the entry. */
  lemma {:induction false} EntriesAreGiven(acts: seq<Act>, uname: string)
    requires uname in Acted(Begin(), acts).world.store.principals
    ensures EntryGiven(acts, uname, Acted(Begin(), acts).world.store.principals[uname])
    decreases |acts|
  {
    hide After, EntryGiven, Grant, GoodWorld;
    if acts == [] {
      NobodyGivenAtFirst();
    } else {
      var before, act := acts[..|acts| - 1], acts[|acts| - 1];
      var a := Acted(Begin(), before);
      assert acts == before + [act];
      RunKeepsGoodWorld(before);
      if uname in a.world.store.principals {
        EntriesAreGiven(before, uname);
      }
      if act.Other? && act.step.GrantRoot? && act.step.uname == uname
         && Grant(a.world.store, uname, act.step.principalId, act.step.aname, act.step.rootPath).1.Ok? {
        EntryAfterGrant(before, act, uname);
      } else {
        EntryKept(a, act, uname);
        EntryGivenLater(before, act, uname, a.world.store.principals[uname]);
      }
    }
  }

  lemma NobodyGivenAtFirst()
    ensures Begin().world.store.principals == map[]
  {
  }

  /** The user was given this root under this name, or under all names. */
  ghost predicate Entitled(acts: seq<Act>, uname: string, aname: string, root: Id) {
    exists text, principalId ::
      Rooted(acts, uname, root, text)
      && (Given(acts, uname, principalId, aname, text) || Given(acts, uname, principalId, "*", text))
  }

  lemma AdmittedIsEntitled(acts: seq<Act>, uname: string, aname: string, root: Id)
    requires Admits(Acted(Begin(), acts).world.store, uname, aname, root)
    requires Acted(Begin(), acts).world.store.principalsRequired
    ensures Entitled(acts, uname, aname, root)
  {
    hide Acted, Given, Rooted;
    var s := Acted(Begin(), acts).world.store;
    var entry :| (uname, entry) in s.principals.Items && entry.root == root
                 && (aname in entry.anames || "*" in entry.anames);
    EntryIsItem(s, uname, entry);
    EntriesAreGiven(acts, uname);
    assert Rooted(acts, uname, root, entry.rootPath);
    assert Given(acts, uname, entry.principalId, aname, entry.rootPath)
           || Given(acts, uname, entry.principalId, "*", entry.rootPath);
  }

  /** In every run each fid goes back to an attach of its session, before which its user was given its attach root under
      its name or under all names; only while no root was given to anybody may that be the root of the namespace. */
  lemma FidIsEntitled(acts: seq<Act>, sid: SessionId, fid: Fid)
    requires Bound(Acted(Begin(), acts).world, sid, fid)
    ensures var b := Acted(Begin(), acts).world.sessions[sid][fid];
            exists i :: 0 <= i < |acts| && acts[i].Attach? && acts[i].sid == sid
                        && acts[i].uname == b.uname && acts[i].aname == b.aname
                        && (if Acted(Begin(), acts[..i]).world.store.principalsRequired
                            then Entitled(acts[..i], b.uname, b.aname, b.root)
                            else b.root == ROOT_ID)
  {
    hide Acted, Entitled;
    var b := Acted(Begin(), acts).world.sessions[sid][fid];
    FidGoesBackToAttach(acts, sid, fid);
    var i :| 0 <= i < |acts| && acts[i].Attach? && acts[i].sid == sid
             && acts[i].uname == b.uname && acts[i].aname == b.aname
             && Admits(Acted(Begin(), acts[..i]).world.store, b.uname, b.aname, b.root);
    if Acted(Begin(), acts[..i]).world.store.principalsRequired {
      AdmittedIsEntitled(acts[..i], b.uname, b.aname, b.root);
    }
  }
}
