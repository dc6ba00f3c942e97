/** Which operations move a node: none but a push that brings a detached node back. */
module FrontParents {
  import opened Prelude
  import opened Paths
  import opened FrontStore
  import opened FrontCollect
  import opened FrontOps
  import opened FrontPublish
  import opened FrontPaths
  import opened FrontRetire
  import opened FrontRetain
  import opened FrontRegister
  import opened FrontFids
  import opened FrontGrants
  import opened FrontWorld
  import opened FrontLines

  lemma AsideInherits(s: Store, t: Store)
    requires t.nodes == s.nodes && t.nextId == s.nextId
    ensures Inherits(s, t)
  {
  }

  lemma CollectInherits(s: Store)
    ensures Inherits(s, Collect(s))
  {
    RemoveInherits(s, Trees(s.nodes, Dead(s)));
  }

  lemma RetireInherits(s: Store, drop: set<Id>)
    ensures Inherits(s, Collect(Detach(s, drop)))
  {
    hide Collect, Detach;
    DetachInherits(s, drop);
    CollectInherits(Detach(s, drop));
    InheritsCompose(s, Detach(s, drop), Collect(Detach(s, drop)));
  }

  lemma TouchInherits(s: Store, id: Id, next: Node)
    requires id in s.nodes && KeepsPlace(s.nodes[id], next)
    ensures Inherits(s, Touch(s, id, next))
  {
    TouchKeepsEdges(s, id, next);
    SameEdgesInherits(s, Touch(s, id, next));
  }

  lemma EnsureDirInherits(s: Store, parent: Id, name: Name)
    ensures Inherits(s, EnsureDir(s, parent, name).0)
  {
    InheritsSelf(s);
    if EnsureDir(s, parent, name).0 != s {
      InsertInherits(s, PlainNode(name, parent, NextQid(s.qidIndex, s.nextId).value, EMPTY_DIR));
    }
  }

  lemma {:induction false} EnsureDirsInherit(s: Store, start: Id, names: seq<Name>)
    ensures Inherits(s, EnsureDirs(s, start, names).0)
    decreases |names|
  {
    if names == [] {
      InheritsSelf(s);
    } else {
      EnsureDirInherits(s, start, names[0]);
      var (t, r) := EnsureDir(s, start, names[0]);
      if r.Ok? {
        EnsureDirsInherit(t, r.value, names[1..]);
        InheritsCompose(s, t, EnsureDirs(t, r.value, names[1..]).0);
      }
    }
  }

  lemma PlaceInInherits(s: Store, parent: Id, name: Name, body: Leaf)
    ensures Inherits(s, PlaceIn(s, parent, name, body).0)
  {
    hide Inherits;
    var t := PlaceIn(s, parent, name, body).0;
    InheritsSelf(s);
    if t != s {
      match Child(s.nodes, parent, name) {
        case Ok(id) => TouchInherits(s, id, Republished(s.nodes[id], body, s.logCapacity).value);
        case Err(_) => InsertInherits(s, PlainNode(name, parent, NextQid(s.qidIndex, s.nextId).value, body));
      }
    }
  }

  lemma PlaceInherits(s: Store, path: string, body: Leaf)
    ensures Inherits(s, Place(s, path, body).0)
  {
    hide Inherits, PlaceIn;
    InheritsSelf(s);
    if SplitPath(path).Ok? {
      var names := SplitPath(path).value;
      EnsureDirsInherit(s, ROOT_ID, names[..|names| - 1]);
      var (t, r) := EnsureDirs(s, ROOT_ID, names[..|names| - 1]);
      if r.Ok? {
        PlaceInInherits(t, r.value, names[|names| - 1], body);
        InheritsCompose(s, t, PlaceIn(t, r.value, names[|names| - 1], body).0);
      }
    }
  }

  lemma ApplyPushedInherits(s: Store, id: Id, kind: Kind, metadata: Metadata)
    ensures Inherits(s, ApplyPushed(s, id, kind, metadata).0)
  {
    hide Inherits, SameEdges;
    InheritsSelf(s);
    var (t, r) := ReplaceQid(s, id, metadata.qidPath);
    if id in s.nodes {
      WithQidKeepsEdges(s, id, metadata.qidPath);
      SameEdgesInherits(s, WithQid(s, id, metadata.qidPath));
      MetadataInherits(t, id, kind, metadata);
      InheritsCompose(s, t, Touch(t, id, WithMetadata(t.nodes[id], kind, metadata)));
    }
  }

  lemma MetadataInherits(s: Store, id: Id, kind: Kind, metadata: Metadata)
    requires id in s.nodes
    ensures Inherits(s, Touch(s, id, WithMetadata(s.nodes[id], kind, metadata)))
  {
  }

  lemma AdoptInherits(s: Store, parent: Id, name: Name, metadata: Metadata, readPrefix: string, removal: Removal)
    ensures Inherits(s, InsertPushedChild(s, parent, name, metadata, readPrefix, removal).0)
  {
    hide Inherits;
    var t := InsertPushedChild(s, parent, name, metadata, readPrefix, removal).0;
    InheritsSelf(s);
    if t != s {
      var relay := ChildRemoveRelay(s, parent, name, removal).value;
      match Child(s.nodes, parent, name) {
        case Ok(id) => TouchInherits(s, id, s.nodes[id].(removeRelay := relay));
        case Err(_) =>
          var node := PushedNode(name, parent, metadata, Dir(map[], Some(readPrefix), None));
          InsertInherits(s, node.(removeRelay := relay));
      }
    }
  }

  lemma CreateInInherits(s: Store, parent: Id, name: Name, qid: CreatedQid, generation: nat, prefix: string)
    ensures Inherits(s, CreateIn(s, parent, name, qid, generation, prefix).0)
  {
    hide Inherits;
    var t := CreateIn(s, parent, name, qid, generation, prefix).0;
    InheritsSelf(s);
    if t != s {
      match Child(s.nodes, parent, name) {
        case Ok(id) => TouchInherits(s, id, Recreated(s.nodes[id], qid, generation, prefix));
        case Err(_) => InsertInherits(s, CreatedNode(name, parent, qid, generation, prefix));
      }
    }
  }

  lemma CreateInherits(s: Store, parent: Id, name: string, qid: CreatedQid, generation: nat, prefix: string)
    ensures Inherits(s, InsertCreated(s, parent, name, qid, generation, prefix).0)
  {
    hide Inherits, CreateIn;
    InheritsSelf(s);
    if SplitPath(name).Ok? {
      var names := SplitPath(name).value;
      EnsureDirsInherit(s, parent, names[..|names| - 1]);
      var (t, r) := EnsureDirs(s, parent, names[..|names| - 1]);
      if r.Ok? {
        CreateInInherits(t, r.value, names[|names| - 1], qid, generation, prefix);
        InheritsCompose(s, t, CreateIn(t, r.value, names[|names| - 1], qid, generation, prefix).0);
      }
    }
  }

  lemma RegisterIntakeInherits(s: Store, prefix: string)
    requires Inv(s)
    ensures Inherits(s, RegisterIntake(s, prefix).0)
  {
    hide Inherits, Place, Inv;
    var (t, r) := Place(s, Trim(prefix) + NEW_ENTRY, IntakeNew(0));
    InheritsSelf(s);
    PlaceInherits(s, Trim(prefix) + NEW_ENTRY, IntakeNew(0));
    PlaceMakesLeaf(s, Trim(prefix) + NEW_ENTRY, IntakeNew(0));
    if Trim(prefix) != "" && r.Ok? {
      var u := Touch(t, r.value, t.nodes[r.value].(body := IntakeNew(r.value)));
      TouchInherits(t, r.value, t.nodes[r.value].(body := IntakeNew(r.value)));
      AsideInherits(u, RegisterIntake(s, prefix).0);
      InheritsCompose(s, t, u);
      InheritsCompose(s, u, RegisterIntake(s, prefix).0);
    }
  }

  lemma EnsurePathDirInherits(s: Store, path: string)
    ensures Inherits(s, EnsurePathDir(s, path).0)
  {
    hide Inherits, EnsureDirs, SplitPath;
    InheritsSelf(s);
    if SplitPath(path).Ok? {
      EnsureDirsInherit(s, ROOT_ID, SplitPath(path).value);
    }
  }

  lemma RegisterRenameInherits(s: Store, path: string, prefix: string)
    ensures Inherits(s, RegisterRename(s, path, prefix).0)
  {
    hide Inherits, Trim, EnsurePathDir;
    var t, u := EnsurePathDir(s, Trim(path)).0, RegisterRename(s, path, prefix).0;
    EnsurePathDirInherits(s, Trim(path));
    if u.nodes == s.nodes && u.nextId == s.nextId {
      AsideInherits(s, u);
    } else {
      AsideInherits(t, u);
      InheritsCompose(s, t, u);
    }
  }

  /** No operation on the namespace but a push moves a node. */
  lemma StoreAfterInherits(s: Store, step: Step)
    requires Inv(s) && !step.Push?
    ensures Inherits(s, StoreAfter(s, step))
  {
    hide Inherits, Inv, Collect, Detach, EnsurePathDir, Place, InsertPushedChild, InsertCreated, RegisterIntake,
      RegisterRename, Grant;
    InheritsSelf(s);
    match step {
      case MakeDirs(path) => EnsurePathDirInherits(s, path);
      case Publish(path, body) => PlaceInherits(s, path, body);
      case Repush(id, metadata) => ApplyPushedInherits(s, id, DirectoryKind, metadata);
      case Retouch(id, next) =>
        if id in s.nodes && KeepsPlace(s.nodes[id], next) {
          TouchInherits(s, id, next);
        }
      case Adopt(parent, name, metadata, readPrefix, removal) =>
        AdoptInherits(s, parent, name, metadata, readPrefix, removal);
      case Create(parent, name, qid, generation, prefix) => CreateInherits(s, parent, name, qid, generation, prefix);
      case Remove(path) => RemoveSubtreeInherits(s, path);
      case Retain(rootPath, paths) => RetainInherits(s, rootPath, paths);
      case GrantRoot(uname, principalId, aname, rootPath) =>
        GrantIsAside(s, uname, principalId, aname, rootPath);
        AsideInherits(s, StoreAfter(s, step));
      case RetainPrincipals(_) => AsideInherits(s, StoreAfter(s, step));
      case AddIntake(prefix) => RegisterIntakeInherits(s, prefix);
      case AddRenameRelay(path, prefix) => RegisterRenameInherits(s, path, prefix);
      case SetLogCapacity(capacity) => AsideInherits(s, StoreAfter(s, step));
      case _ =>
    }
  }

  lemma RemoveSubtreeInherits(s: Store, path: string)
    ensures Inherits(s, RemoveSubtree(s, path).0)
  {
    hide Inherits, Collect, Detach;
    InheritsSelf(s);
    var (t, r) := RemoveSubtree(s, path);
    if t != s {
      RetireInherits(s, {LookupPath(s, path).value});
    }
  }

  lemma RetainInherits(s: Store, rootPath: string, paths: seq<string>)
    ensures Inherits(s, RetainPaths(s, rootPath, paths).0)
  {
    hide Inherits, Collect, Detach;
    InheritsSelf(s);
    var (t, r) := RetainPaths(s, rootPath, paths);
    if t != s {
      var stale := Stale(s, Retained(s, Segments(rootPath), paths));
      var u := Collect(Detach(s, stale));
      RetireInherits(s, stale);
      AsideInherits(u, t);
      InheritsCompose(s, u, t);
    }
  }

  // ----- Sessions -----

  lemma ReleaseInherits(s: Store, id: Id)
    ensures Inherits(s, ReleaseFid(s, id).0)
  {
    hide Inherits, Collect;
    InheritsSelf(s);
    if id in s.refs {
      AsideInherits(s, Dec(s, id));
      CollectInherits(Dec(s, id));
      InheritsCompose(s, Dec(s, id), Collect(Dec(s, id)));
    }
  }

  lemma BindInherits(s: Store, fids: Fids, fid: Fid, binding: Binding)
    ensures Inherits(s, BindFid(s, fids, fid, binding).0)
  {
    hide Inherits, ReleaseFid;
    InheritsSelf(s);
    if binding.node in s.nodes {
      var t := Inc(s, binding.node);
      AsideInherits(s, t);
      if fid in fids {
        ReleaseInherits(t, fids[fid].node);
        InheritsCompose(s, t, ReleaseFid(t, fids[fid].node).0);
      }
    }
  }

  lemma UnbindInherits(s: Store, fids: Fids, fid: Fid)
    ensures Inherits(s, UnbindFid(s, fids, fid).0)
  {
    hide Inherits, ReleaseFid;
    InheritsSelf(s);
    if fid in fids {
      ReleaseInherits(s, fids[fid].node);
    }
  }

  lemma {:induction false} UnbindAllInherits(s: Store, fids: Fids, order: seq<Fid>)
    ensures Inherits(s, UnbindAll(s, fids, order).0)
    decreases |order|
  {
    hide Inherits, UnbindFid;
    if order == [] {
      InheritsSelf(s);
    } else {
      var (t, rest, _) := UnbindFid(s, fids, order[0]);
      UnbindInherits(s, fids, order[0]);
      UnbindAllInherits(t, rest, order[1..]);
      InheritsCompose(s, t, UnbindAll(t, rest, order[1..]).0);
    }
  }

  /** Over a whole step of the world, too. */
  lemma NextInherits(w: World, step: Step)
    requires Inv(w.store) && !step.Push?
    ensures Inherits(w.store, Next(w, step).store)
  {
    hide Inherits, Inv, StoreAfter, BindFid, UnbindFid, UnbindAll;
    InheritsSelf(w.store);
    match step {
      case Open(_) =>
      case Bind(sid, fid, binding) =>
        if sid in w.sessions {
          BindInherits(w.store, w.sessions[sid], fid, binding);
        }
      case Clunk(sid, fid) =>
        if sid in w.sessions {
          UnbindInherits(w.store, w.sessions[sid], fid);
        }
      case Drop(sid, order) =>
        if sid in w.sessions {
          UnbindAllInherits(w.store, w.sessions[sid], order);
        }
      case _ => StoreAfterInherits(w.store, step);
    }
  }
}
