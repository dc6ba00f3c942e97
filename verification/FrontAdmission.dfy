/** Who may attach where: crates/front/src/model.rs and crates/front/src/tree.rs. */
module FrontAdmission {
  import opened Prelude
  import opened FrontStore
  import opened FrontPaths
  import opened FrontWorld
  import opened FrontAccess

  /** The root is where this user may attach under this name: the root of the namespace while no principals are
      set, and the root of the user's own entry, if it is open to the name, once they are. */
  ghost predicate Admits(s: Store, uname: string, aname: string, root: Id) {
    && root in s.nodes
    && (if s.principalsRequired
        then exists entry :: (uname, entry) in s.principals.Items && entry.root == root
                             && (aname in entry.anames || "*" in entry.anames)
        else root == ROOT_ID)
  }

  /** What a handle says about its user, apart from the node it is on. */
  datatype Who = Who(root: Id, uname: string, aname: string, principalId: string)

  function WhoOf(binding: Binding): Who {
    Who(binding.root, binding.uname, binding.aname, binding.principalId)
  }

  /** An attach of this user in this state makes handles of `who`. */
  ghost predicate Introduces(s: Store, uname: string, aname: string, who: Who) {
    && Admits(s, uname, aname, who.root) && who.uname == uname && who.aname == aname
    && (forall entry :: (uname, entry) in s.principals.Items ==> who.principalId == entry.principalId)
    && (uname !in s.principals ==> who.principalId == uname)
  }

  lemma EntryIsItem(s: Store, uname: string, entry: PrincipalRoot)
    ensures (uname, entry) in s.principals.Items <==> uname in s.principals && s.principals[uname] == entry
  {
  }

  lemma RootIsAdmitted(s: Store, uname: string, aname: string, root: Id)
    ensures Admits(s, uname, aname, root) <==> AttachRoot(s, uname, aname) == Ok(root) && root in s.nodes
  {
    if uname in s.principals {
      EntryIsItem(s, uname, s.principals[uname]);
    }
    if entry :| (uname, entry) in s.principals.Items && entry.root == root
                && (aname in entry.anames || "*" in entry.anames) {
      EntryIsItem(s, uname, entry);
    }
  }

  lemma AttachIntroduces(s: Store, uname: string, aname: string, root: Id)
    requires Admits(s, uname, aname, root)
    ensures Introduces(s, uname, aname, Who(root, uname, aname, PrincipalOf(s, uname)))
  {
    forall entry | (uname, entry) in s.principals.Items
      ensures entry.principalId == PrincipalOf(s, uname)
    {
      EntryIsItem(s, uname, entry);
    }
  }

  /** An attach succeeds if and only if the user is admitted somewhere. It then puts the fid on that root, in the
      user's name, and leaves the other fids; otherwise it changes nothing. */
  lemma AttachIff(s: Store, fids: Fids, fid: Fid, uname: string, aname: string)
    requires Inv(s) && (fid in fids ==> fids[fid].node in s.refs)
    ensures var (t, after, r) := AttachFid(s, fids, fid, uname, aname);
            && (r.Ok? <==> exists root :: Admits(s, uname, aname, root))
            && (r.Ok? ==>
                  && Admits(s, uname, aname, r.value) && fid in after && after - {fid} == fids - {fid}
                  && after[fid].node == r.value && after[fid].root == r.value
                  && Introduces(s, uname, aname, WhoOf(after[fid])))
            && (r.Err? ==> t == s && after == fids)
  {
    hide Inv, BindFid;
    forall root {
      RootIsAdmitted(s, uname, aname, root);
    }
    var root := AttachRoot(s, uname, aname);
    if root.Ok? && root.value in s.nodes {
      var binding := Binding(root.value, root.value, uname, aname, PrincipalOf(s, uname));
      BindCounts(s, fids, fid, binding);
      AttachIntroduces(s, uname, aname, root.value);
      assert fids[fid := binding] - {fid} == fids - {fid};
    }
  }

  /** How an attach fails. */
  lemma AttachErrors(s: Store, fids: Fids, fid: Fid, uname: string, aname: string)
    requires Inv(s) && (fid in fids ==> fids[fid].node in s.refs)
    ensures var r := AttachFid(s, fids, fid, uname, aname).2;
            r.Err? ==>
              r.error == if s.principalsRequired && uname !in s.principals then "principal root unavailable"
                         else if s.principalsRequired
                                 && s.principals[uname].anames * {"*", aname} == {} then "principal aname unavailable"
                         else ENOENT
  {
    hide Inv, BindFid;
    var root := AttachRoot(s, uname, aname);
    if uname in s.principals {
      var anames := s.principals[uname].anames;
      assert "*" in anames ==> "*" in anames * {"*", aname};
      assert aname in anames ==> aname in anames * {"*", aname};
    }
    if root.Ok? && root.value in s.nodes {
      BindCounts(s, fids, fid, Binding(root.value, root.value, uname, aname, PrincipalOf(s, uname)));
    }
  }

  // ----- Runs -----

  /** A fid, a walk or a create in progress of the session is in this name. */
  ghost predicate Carries(a: Access, sid: SessionId, who: Who) {
    || (exists fid :: Bound(a.world, sid, fid) && WhoOf(a.world.sessions[sid][fid]) == who)
    || (sid in a.walks && WhoOf(a.walks[sid].binding) == who)
    || (sid in a.creates && WhoOf(a.creates[sid].binding) == who)
  }

  ghost predicate AttachesAs(a: Access, act: Act, sid: SessionId, who: Who) {
    act.Attach? && act.sid == sid && Introduces(a.world.store, act.uname, act.aname, who)
  }

  lemma BoundCarries(a: Access, sid: SessionId, fid: Fid)
    requires Bound(a.world, sid, fid)
    ensures Carries(a, sid, WhoOf(a.world.sessions[sid][fid]))
  {
  }

  lemma StepCarries(a: Access, act: Act, sid: SessionId)
    requires StepOf(a, act).Some? && StepOf(a, act).value.Bind? && StepOf(a, act).value.sid == sid
    ensures var who := WhoOf(StepOf(a, act).value.binding);
            Carries(a, sid, who) || AttachesAs(a, act, sid, who)
  {
    hide WalkOf, Admits;
    if act.Attach? {
      var root := AttachRoot(a.world.store, act.uname, act.aname).value;
      RootIsAdmitted(a.world.store, act.uname, act.aname, root);
      AttachIntroduces(a.world.store, act.uname, act.aname, root);
    }
  }

  /** Only an attach brings a new name into a session: walks and creates pass the old one on. */
  lemma CarriedAfter(a: Access, act: Act, sid: SessionId, who: Who)
    requires Carries(After(a, act), sid, who)
    ensures Carries(a, sid, who) || AttachesAs(a, act, sid, who)
  {
    hide Next, StepOf, MakeFor, Introduces;
    var b := After(a, act);
    if fid :| Bound(b.world, sid, fid) && WhoOf(b.world.sessions[sid][fid]) == who {
      if StepOf(a, act).Some? {
        var step := StepOf(a, act).value;
        BindingsAfter(a.world, step, sid, fid);
        if step.Bind? && step.sid == sid {
          StepCarries(a, act, sid);
        }
      }
    } else if sid in b.walks && WhoOf(b.walks[sid].binding) == who {
      if act.BeginWalk? && act.sid == sid && Bound(a.world, sid, act.fid) {
        BoundCarries(a, sid, act.fid);
      }
    } else if act.BeginCreate? && act.sid == sid && Bound(a.world, sid, act.fid) {
      BoundCarries(a, sid, act.fid);
    }
  }

  /** In every run each fid of a session, each walk and each create goes back to an attach of that session, under
      the user and the name it shows, to a root that was open to them at that moment. */
  lemma {:induction false} RunAdmits(acts: seq<Act>, sid: SessionId, who: Who)
    requires Carries(Acted(Begin(), acts), sid, who)
    ensures exists i :: 0 <= i < |acts| && AttachesAs(Acted(Begin(), acts[..i]), acts[i], sid, who)
    decreases |acts|
  {
    hide After, AttachesAs;
    if acts == [] {
      NobodyAtFirst(sid, who);
    } else {
      var before := acts[..|acts| - 1];
      CarriedAfter(Acted(Begin(), before), acts[|acts| - 1], sid, who);
      if Carries(Acted(Begin(), before), sid, who) {
        RunAdmits(before, sid, who);
        var i :| 0 <= i < |before| && AttachesAs(Acted(Begin(), before[..i]), before[i], sid, who);
        assert before[..i] == acts[..i] && before[i] == acts[i];
      } else {
        assert AttachesAs(Acted(Begin(), acts[..|acts| - 1]), acts[|acts| - 1], sid, who);
      }
    }
  }

  lemma NobodyAtFirst(sid: SessionId, who: Who)
    ensures !Carries(Begin(), sid, who)
  {
  }

  /** For one fid. */
  lemma FidGoesBackToAttach(acts: seq<Act>, sid: SessionId, fid: Fid)
    requires Bound(Acted(Begin(), acts).world, sid, fid)
    ensures var binding := Acted(Begin(), acts).world.sessions[sid][fid];
            exists i :: 0 <= i < |acts| && acts[i].Attach? && acts[i].sid == sid
                        && acts[i].uname == binding.uname && acts[i].aname == binding.aname
                        && Admits(Acted(Begin(), acts[..i]).world.store, binding.uname, binding.aname, binding.root)
  {
    hide Acted, Admits;
    var a := Acted(Begin(), acts);
    var who := WhoOf(a.world.sessions[sid][fid]);
    BoundCarries(a, sid, fid);
    RunAdmits(acts, sid, who);
    var i :| 0 <= i < |acts| && AttachesAs(Acted(Begin(), acts[..i]), acts[i], sid, who);
    assert Admits(Acted(Begin(), acts[..i]).world.store, who.uname, who.aname, who.root);
  }

  // ----- Creates -----

  /** A create is put to an owner if and only if the fid is on a directory that relays creates and that can be printed
      both below the attach root and below the root of the namespace. */
  lemma CreateAskedIff(s: Store, fid: Fid, binding: Binding, name: string)
    ensures CreateRequest(s, fid, binding, name).Some? <==>
              && binding.node in s.nodes && s.nodes[binding.node].body.Dir? && s.nodes[binding.node].createRelay.Some?
              && PathRelativeTo(s, binding.node, binding.root).Ok? && PathRelativeTo(s, binding.node, ROOT_ID).Ok?
  {
    hide PathRelativeTo;
  }

  /** The act puts this create to the owner of the directory the fid is on. */
  ghost predicate AsksFor(a: Access, act: Act, sid: SessionId, creating: Creating) {
    && act.BeginCreate? && act.sid == sid && act.fid == creating.fid && act.name == creating.name
    && Bound(a.world, sid, creating.fid) && a.world.sessions[sid][creating.fid] == creating.binding
    && creating.binding.node in a.world.store.nodes
    && var parent := a.world.store.nodes[creating.binding.node];
       parent.body.Dir? && parent.createRelay == Some(creating.prefix) && parent.generation == creating.generation
  }

  /** Two states of one create. */
  predicate SameCreate(c: Creating, d: Creating) {
    c.(made := d.made) == d
  }

  lemma CreateAfter(a: Access, act: Act, sid: SessionId)
    requires sid in After(a, act).creates
    ensures var creating := After(a, act).creates[sid];
            || (sid in a.creates && SameCreate(a.creates[sid], creating))
            || AsksFor(a, act, sid, creating)
  {
    hide Next, StepOf, MakeFor, PathRelativeTo;
  }

  /** Over any run a pending create is the one the client asked for: its name, and the owner and generation of the
      directory the fid was on at that moment. */
  lemma {:induction false} RunCreates(acts: seq<Act>, sid: SessionId)
    requires sid in Acted(Begin(), acts).creates
    ensures var creating := Acted(Begin(), acts).creates[sid];
            exists i :: 0 <= i < |acts| && AsksFor(Acted(Begin(), acts[..i]), acts[i], sid, creating)
    decreases |acts|
  {
    hide After, AsksFor;
    if acts == [] {
      NoCreateAtFirst(sid);
    } else {
      var before, act := acts[..|acts| - 1], acts[|acts| - 1];
      var a := Acted(Begin(), before);
      var creating := After(a, act).creates[sid];
      CreateAfter(a, act, sid);
      if sid in a.creates && SameCreate(a.creates[sid], creating) {
        RunCreates(before, sid);
        var i :| 0 <= i < |before| && AsksFor(Acted(Begin(), before[..i]), before[i], sid, a.creates[sid]);
        assert before[..i] == acts[..i] && before[i] == acts[i];
        AsksForSame(Acted(Begin(), acts[..i]), acts[i], sid, a.creates[sid], creating);
      } else {
        assert AsksFor(Acted(Begin(), acts[..|acts| - 1]), acts[|acts| - 1], sid, creating);
      }
    }
  }

  lemma AsksForSame(a: Access, act: Act, sid: SessionId, c: Creating, d: Creating)
    requires AsksFor(a, act, sid, c) && SameCreate(c, d)
    ensures AsksFor(a, act, sid, d)
  {
  }

  lemma NoCreateAtFirst(sid: SessionId)
    ensures sid !in Begin().creates
  {
  }
}
