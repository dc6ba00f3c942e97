/** The settings of the front over whole runs: crates/front/src/front.rs. */
module FrontSettings {
  import opened Prelude
  import opened Paths
  import opened FrontStore
  import opened FrontCollect
  import opened FrontPublish
  import opened FrontRetire
  import opened FrontRetain
  import opened FrontGrants
  import opened FrontRegister
  import opened FrontFids
  import opened FrontWorld
  import opened FrontOutcomes
  import opened FrontPushEffects
  import opened FrontAnswers

  ghost predicate SameSettings(s: Store, t: Store) {
    t.principalsRequired == s.principalsRequired && t.logCapacity == s.logCapacity
  }

  lemma PublishKeepsSettings(s: Store, step: Step)
    requires Inv(s)
    requires step.MakeDirs? || step.Publish? || step.Push? || step.Repush? || step.Retouch? || step.Adopt?
             || step.Create?
    ensures SameSettings(s, StoreAfter(s, step)) && StoreAfter(s, step).principals == s.principals
  {
    hide Inv, Place, PlacePushed, InsertPushedChild, InsertCreated, EnsureDirs, ApplyPushed;
    match step
    case MakeDirs(path) => EnsureDirsSameTables(s, ROOT_ID, Segments(path));
    case Publish(path, body) => PlaceSameTables(s, path, body);
    case Push(path, kind, metadata) => PlacePushedTables(s, path, kind, metadata);
    case Repush(id, metadata) =>
      if id in s.nodes {
        ApplyPushedTables(s, id, DirectoryKind, metadata);
      }
    case Retouch(_, _) =>
    case Adopt(parent, name, metadata, readPrefix, removal) =>
      AdoptMakes(s, parent, name, metadata, readPrefix, removal);
    case Create(parent, name, qid, generation, prefix) => CreateSameTables(s, parent, name, qid, generation, prefix);
  }

  lemma IntakeKeepsSettings(s: Store, prefix: string)
    ensures SameSettings(s, RegisterIntake(s, prefix).0) && RegisterIntake(s, prefix).0.principals == s.principals
  {
    hide Place, Trim;
    PlaceSameTables(s, Trim(prefix) + NEW_ENTRY, IntakeNew(0));
  }

  lemma OtherKeepsSettings(s: Store, step: Step)
    requires Inv(s) && (step.Remove? || step.Retain? || step.AddIntake? || step.AddRenameRelay?)
    ensures SameSettings(s, StoreAfter(s, step))
    ensures !step.Retain? ==> StoreAfter(s, step).principals == s.principals
  {
    hide Inv, EnsureDirs, RemoveSubtree, RetainPaths, Segments, Trim, RegisterIntake;
    match step
    case Remove(path) => RemoveLeaves(s, path);
    case Retain(rootPath, paths) =>
      RetainOutcome(s, rootPath, paths);
      if RetainPaths(s, rootPath, paths).1 == Ok(true) {
        RetainLeaves(s, rootPath, paths);
      }
    case AddIntake(prefix) => IntakeKeepsSettings(s, prefix);
    case AddRenameRelay(path, prefix) =>
      RenameRoot(s, path);
      EnsureDirsSameTables(s, ROOT_ID, Segments(path));
  }

  /** Neither the settings nor the principals differ. */
  ghost predicate SameSet(s: Store, t: Store) {
    SameSettings(s, t) && t.principals == s.principals
  }

  lemma ReleaseSameSet(s: Store, id: Id)
    ensures SameSet(s, ReleaseFid(s, id).0)
  {
    hide Trees;
  }

  lemma RetainSameSet(s: Store, id: Id)
    ensures SameSet(s, RetainFid(s, id).0)
  {
  }

  lemma SessionKeepsSettings(s: Store, fids: Fids, fid: Fid, binding: Binding)
    ensures SameSet(s, BindFid(s, fids, fid, binding).0) && SameSet(s, UnbindFid(s, fids, fid).0)
  {
    hide ReleaseFid, RetainFid;
    RetainSameSet(s, binding.node);
    if fid in fids {
      ReleaseSameSet(RetainFid(s, binding.node).0, fids[fid].node);
      ReleaseSameSet(s, fids[fid].node);
    }
  }

  lemma {:induction false} DropKeepsSettings(s: Store, fids: Fids, order: seq<Fid>)
    ensures var t := UnbindAll(s, fids, order).0; SameSettings(s, t) && t.principals == s.principals
    decreases |order|
  {
    hide UnbindFid;
    if order != [] {
      var (t, rest, _) := UnbindFid(s, fids, order[0]);
      SessionKeepsSettings(s, fids, order[0], Binding(0, 0, "", "", ""));
      DropKeepsSettings(t, rest, order[1..]);
    }
  }

  /** The grant names a user, a principal, a name and a directory. */
  ghost predicate NamesRoot(s: Store, step: Step) {
    && step.GrantRoot? && step.uname != "" && step.principalId != "" && step.aname != ""
    && var root := Resolve(s.nodes, ROOT_ID, Segments(step.rootPath));
       root.Ok? && root.value in s.nodes && s.nodes[root.value].body.Dir?
  }

  lemma GrantSettings(s: Store, step: Step)
    requires step.GrantRoot?
    ensures var t := StoreAfter(s, step);
            t.logCapacity == s.logCapacity && t.principalsRequired == (NamesRoot(s, step) || s.principalsRequired)
  {
    hide Resolve, Segments, Trim;
  }

  /** The settings and the principals change with the operations that set them, and with no other but a retain. */
  lemma NextSettings(w: World, step: Step)
    requires GoodWorld(w)
    ensures var t := Next(w, step).store;
            && t.principalsRequired == (NamesRoot(w.store, step) || w.store.principalsRequired)
            && t.logCapacity == (if step.SetLogCapacity? then Max(step.capacity, 1) else w.store.logCapacity)
            && (step.GrantRoot? || step.RetainPrincipals? || step.Retain? || t.principals == w.store.principals)
  {
    hide BindFid, UnbindFid, UnbindAll, Inv, CountsAgree, Grant;
    match step
    case Open(_) =>
    case Bind(sid, fid, binding) =>
      if sid in w.sessions {
        SessionKeepsSettings(w.store, w.sessions[sid], fid, binding);
      }
    case Clunk(sid, fid) =>
      if sid in w.sessions {
        SessionKeepsSettings(w.store, w.sessions[sid], fid, Binding(0, 0, "", "", ""));
      }
    case Drop(sid, order) =>
      if sid in w.sessions {
        DropKeepsSettings(w.store, w.sessions[sid], order);
      }
    case GrantRoot(_, _, _, _) => GrantSettings(w.store, step);
    case RetainPrincipals(_) =>
    case SetLogCapacity(_) =>
    case Remove(_) => OtherKeepsSettings(w.store, step);
    case Retain(_, _) => OtherKeepsSettings(w.store, step);
    case AddIntake(_) => OtherKeepsSettings(w.store, step);
    case AddRenameRelay(_, _) => OtherKeepsSettings(w.store, step);
    case _ => PublishKeepsSettings(w.store, step);
  }

  /** The capacity that was set last; a megabyte until then. */
  function CapacitySet(steps: seq<Step>): nat {
    if steps == [] then 0x10_0000
    else
      match steps[|steps| - 1]
      case SetLogCapacity(capacity) => Max(capacity, 1)
      case _ => CapacitySet(steps[..|steps| - 1])
  }

  /** A root was given to somebody. */
  ghost predicate GivenSome(steps: seq<Step>) {
    exists i :: 0 <= i < |steps| && NamesRoot(Run(Start(), steps[..i]).store, steps[i])
  }

  lemma GivenSomeStep(before: seq<Step>, step: Step)
    ensures GivenSome(before + [step]) <==> GivenSome(before) || NamesRoot(Run(Start(), before).store, step)
  {
    hide Run, NamesRoot;
    var steps := before + [step];
    assert steps[..|before|] == before && steps[|before|] == step;
    if i :| 0 <= i < |before| && NamesRoot(Run(Start(), before[..i]).store, before[i]) {
      assert steps[..i] == before[..i] && steps[i] == before[i];
    }
    if i :| 0 <= i < |steps| && NamesRoot(Run(Start(), steps[..i]).store, steps[i]) {
      if i < |before| {
        assert steps[..i] == before[..i] && steps[i] == before[i];
      }
    }
  }

  /** Over every run the capacity of logs is the one set last, and never zero; principals are required exactly from the
      first grant that names a directory. */
  lemma {:induction false} RunSettings(steps: seq<Step>)
    ensures var s := Run(Start(), steps).store;
            && s.logCapacity == CapacitySet(steps) && s.logCapacity > 0
            && (s.principalsRequired <==> GivenSome(steps))
    decreases |steps|
  {
    hide Next, GoodWorld, NamesRoot, GivenSome;
    if steps == [] {
      NothingSetYet();
    } else {
      var before, step := steps[..|steps| - 1], steps[|steps| - 1];
      RunSettings(before);
      RunKeepsWorld(before);
      NextSettings(Run(Start(), before), step);
      GivenSomeStep(before, step);
      assert before + [step] == steps;
    }
  }

  lemma NothingSetYet()
    ensures var s := Start().store;
            s.logCapacity == CapacitySet([]) && !s.principalsRequired && !GivenSome([])
  {
  }
}
