/** What publishing stores: the contents of the node placed, and that no other node changes. */
module FrontContents {
  import opened Prelude
  import opened Paths
  import LogBody
  import opened FrontStore
  import opened FrontOps
  import opened FrontPublish
  import opened FrontPublishPaths

  /** The node is as it was, but for entries added to a directory. */
  predicate Still(x: Node, y: Node) {
    if x.body.Dir? then
      && y.body.Dir? && y == x.(body := x.body.(children := y.body.children))
      && forall name :: name in x.body.children ==>
           name in y.body.children && y.body.children[name] == x.body.children[name]
    else y == x
  }

  ghost predicate StillAt(s: Store, t: Store, n: Id) {
    n in s.nodes ==> n in t.nodes && Still(s.nodes[n], t.nodes[n])
  }

  /** Old nodes stay as they are, and ids and qids in use stay in use. */
  ghost predicate Extends(s: Store, t: Store) {
    && (forall n {:trigger StillAt(s, t, n)} :: StillAt(s, t, n))
    && s.qidIndex.Keys <= t.qidIndex.Keys && s.nextId <= t.nextId && s.logCapacity == t.logCapacity
  }

  lemma ExtendsSelf(s: Store)
    ensures Extends(s, s)
  {
  }

  lemma ExtendsCompose(s: Store, t: Store, u: Store)
    requires Extends(s, t) && Extends(t, u)
    ensures Extends(s, u)
  {
    forall n: Id
      ensures StillAt(s, u, n)
    {
      assert StillAt(s, t, n) && StillAt(t, u, n);
    }
  }

  lemma InsertExtends(s: Store, node: Node)
    requires Issued(s) && Insertable(s, node)
    ensures Extends(s, Insert(s, node))
    ensures s.nextId !in s.nodes && Insert(s, node).nodes[s.nextId] == node
  {
    NextIdIsNew(s);
    forall n: Id
      ensures StillAt(s, Insert(s, node), n)
    {
    }
  }

  lemma EnsureDirExtends(s: Store, parent: Id, name: Name)
    requires Inv(s)
    ensures Extends(s, EnsureDir(s, parent, name).0)
  {
    ChildOfDirectory(s, parent, name);
    ExtendsSelf(s);
    if EnsureDir(s, parent, name).0 != s {
      InsertExtends(s, PlainNode(name, parent, NextQid(s.qidIndex, s.nextId).value, EMPTY_DIR));
    }
  }

  lemma {:induction false} EnsureDirsExtend(s: Store, start: Id, names: seq<Name>)
    requires Inv(s)
    ensures Extends(s, EnsureDirs(s, start, names).0)
    decreases |names|
  {
    if names == [] {
      ExtendsSelf(s);
    } else {
      EnsureDirExtends(s, start, names[0]);
      EnsureDirKeepsInv(s, start, names[0]);
      var (t, r) := EnsureDir(s, start, names[0]);
      if r.Ok? {
        EnsureDirsExtend(t, r.value, names[1..]);
        ExtendsCompose(s, t, EnsureDirs(t, r.value, names[1..]).0);
      }
    }
  }

  /** Directories that are there are left alone. */
  lemma {:induction false} EnsureDirsFindsDirs(s: Store, at: seq<Name>, start: Id, names: seq<Name>)
    requires Inv(s) && Resolve(s.nodes, ROOT_ID, at) == Ok(start)
    requires Resolve(s.nodes, ROOT_ID, at + names).Ok?
    requires var id := Resolve(s.nodes, ROOT_ID, at + names).value; id in s.nodes && s.nodes[id].body.Dir?
    ensures EnsureDirs(s, start, names) == (s, Resolve(s.nodes, ROOT_ID, at + names))
    decreases |names|
  {
    if names == [] {
      assert at + names == at;
    } else {
      assert at + names == at + [names[0]] + names[1..];
      ResolveConcat(s.nodes, ROOT_ID, at + [names[0]], names[1..]);
      ResolveSnoc(s.nodes, ROOT_ID, at, names[0]);
      ChildOfDirectory(s, start, names[0]);
      var id := Child(s.nodes, start, names[0]).value;
      if names[1..] != [] {
        FirstStepIsDir(s, id, names[1..]);
      }
      EnsureDirsFindsDirs(s, at + [names[0]], id, names[1..]);
    }
  }

  lemma {:induction false} FirstStepIsDir(s: Store, id: Id, names: seq<Name>)
    requires Resolve(s.nodes, id, names).Ok? && names != []
    ensures id in s.nodes && s.nodes[id].body.Dir?
    decreases |names|
  {
    if |names| > 1 {
      FirstStepIsDir(s, id, names[..|names| - 1]);
    }
  }

  /** A node of the store's own: no owner's metadata, no relays, not changed yet. */
  predicate IsPlain(node: Node) {
    && node.version == 0 && node.generation == 0 && node.pushed == None
    && node.createRelay == None && node.writeRelay == None && node.removeRelay == None && node.wstatRelay == None
  }

  /** The node holds what was placed: a file its new bytes, a log the entries added to those it kept. */
  predicate Holds(before: Option<Node>, after: Node, body: Leaf, capacity: nat) {
    match before
    case None => after.body == body && IsPlain(after)
    case Some(node) =>
      && after == node.(version := (node.version + 1) % 0x1_0000_0000, body := after.body)
      && (if body.File? then node.body.File? && after.body == body
          else body.Log? && node.body.Log?
               && after.body == Log(LogBody.AppendAll(node.body.log, body.log.entries, capacity)))
  }

  ghost function NodeAt(s: Store, path: seq<Name>): Option<Node> {
    var r := Resolve(s.nodes, ROOT_ID, path);
    if r.Ok? && r.value in s.nodes then Some(s.nodes[r.value]) else None
  }

  ghost predicate OthersStill(s: Store, t: Store, id: Id) {
    forall n {:trigger StillAt(s, t, n)} :: n != id ==> StillAt(s, t, n)
  }

  lemma RepublishStores(s: Store, id: Id, body: Leaf)
    requires id in s.nodes && Republished(s.nodes[id], body, s.logCapacity).Ok?
    ensures var node := Republished(s.nodes[id], body, s.logCapacity).value;
            OthersStill(s, Touch(s, id, node), id) && Holds(Some(s.nodes[id]), node, body, s.logCapacity)
  {
    var t := Touch(s, id, Republished(s.nodes[id], body, s.logCapacity).value);
    forall n: Id | n != id
      ensures StillAt(s, t, n)
    {
    }
  }

  lemma PlaceInStores(s: Store, at: seq<Name>, parent: Id, name: Name, body: Leaf)
    requires Inv(s) && Resolve(s.nodes, ROOT_ID, at) == Ok(parent)
    ensures var (t, r) := PlaceIn(s, parent, name, body);
            if r.Err? then t == s
            else
              && r.value in t.nodes && OthersStill(s, t, r.value)
              && Holds(NodeAt(s, at + [name]), t.nodes[r.value], body, s.logCapacity)
              && (NodeAt(s, at + [name]) == None ==> r.value == s.nextId && t.nodes[r.value].qidPath !in s.qidIndex)
  {
    hide Linked, Issued, Indexed, Tabled, Acyclic, Settled;
    ChildOfDirectory(s, parent, name);
    ResolveSnoc(s.nodes, ROOT_ID, at, name);
    var (t, r) := PlaceIn(s, parent, name, body);
    if r.Ok? {
      if Child(s.nodes, parent, name).Ok? {
        RepublishStores(s, r.value, body);
      } else {
        InsertExtends(s, PlainNode(name, parent, NextQid(s.qidIndex, s.nextId).value, body));
      }
    }
  }

  /** A successful placement stores what was published in the node at the path, new or there before, and
      leaves every other node as it was but for directory entries added. */
  lemma PlaceStores(s: Store, place: string, body: Leaf)
    requires Inv(s)
    ensures var (t, r) := Place(s, place, body);
            r.Ok? ==>
              && r.value in t.nodes && OthersStill(s, t, r.value)
              && Holds(NodeAt(s, Segments(place)), t.nodes[r.value], body, s.logCapacity)
              && (NodeAt(s, Segments(place)) == None ==> r.value !in s.nodes && t.nodes[r.value].qidPath !in s.qidIndex)
  {
    var (u, r) := Place(s, place, body);
    if r.Ok? {
      var names := Segments(place);
      var dirs, last := names[..|names| - 1], names[|names| - 1];
      assert names == dirs + [last];
      var (t, dir) := EnsureDirs(s, ROOT_ID, dirs);
      EnsureDirsExtend(s, ROOT_ID, dirs);
      EnsureDirsAttach(s, dirs);
      PlaceInStores(t, dirs, dir.value, last, body);
      SameNodeAt(s, dirs, last);
      ExtendsOthers(s, t, u, r.value);
      assert r.value in s.nodes ==> Given(s, r.value);
    }
  }

  lemma ExtendsOthers(s: Store, t: Store, u: Store, id: Id)
    requires Extends(s, t) && OthersStill(t, u, id)
    ensures OthersStill(s, u, id)
  {
    forall n: Id | n != id
      ensures StillAt(s, u, n)
    {
      assert StillAt(s, t, n) && StillAt(t, u, n);
    }
  }

  /** Making the directories on the way neither makes nor changes the node at the end of it. */
  lemma SameNodeAt(s: Store, dirs: seq<Name>, last: Name)
    requires Inv(s) && EnsureDirs(s, ROOT_ID, dirs).1.Ok?
    ensures NodeAt(EnsureDirs(s, ROOT_ID, dirs).0, dirs + [last]) == NodeAt(s, dirs + [last])
  {
    var path := dirs + [last];
    var t := EnsureDirs(s, ROOT_ID, dirs).0;
    EnsureDirsAt(s, [], ROOT_ID, dirs, path);
    assert [] + dirs == dirs;
    ResolveSnoc(s.nodes, ROOT_ID, dirs, last);
    if Resolve(s.nodes, ROOT_ID, path).Ok? {
      EnsureDirsFindsDirs(s, [], ROOT_ID, dirs);
    } else {
      assert !(path <= dirs);
      assert !Gained(s, t, path);
    }
  }

  // ----- Pushed entries -----

  /** The node carries the owner's qid and metadata, and the bytes of a pushed file. */
  predicate Carries(node: Node, kind: Kind, metadata: Metadata) {
    && node.qidPath == metadata.qidPath && node.version == metadata.qidVersion
    && node.generation == metadata.generation && node.pushed == Some(metadata.pushed)
    && (match kind case FileKind(bytes) => node.body == File(bytes) case DirectoryKind => node.body.Dir?)
  }

  lemma ApplyPushedCarries(s: Store, id: Id, kind: Kind, metadata: Metadata)
    requires id in s.nodes && Matches(kind, s.nodes[id].body)
    ensures var (t, r) := ApplyPushed(s, id, kind, metadata);
            r.Ok? ==> r.value in t.nodes && Carries(t.nodes[r.value], kind, metadata)
  {
    ApplyPushedSetsEntry(s, id, kind, metadata);
  }

  lemma PushInCarries(s: Store, place: string, parent: Id, name: Name, kind: Kind, metadata: Metadata)
    requires Inv(s) && Attached(s, parent)
    ensures var (t, r) := PushIn(s, place, parent, name, kind, metadata);
            r.Ok? ==> r.value in t.nodes && Carries(t.nodes[r.value], kind, metadata)
  {
    ChildOfDirectory(s, parent, name);
    var (t, r) := PushIn(s, place, parent, name, kind, metadata);
    if r.Ok? {
      if Child(s.nodes, parent, name).Ok? {
        ApplyPushedCarries(s, Child(s.nodes, parent, name).value, kind, metadata);
      } else {
        ReattachKeepsInv(s, place, parent, name, metadata.qidPath, kind);
        var (u, back) := Reattach(s, place, parent, name, metadata.qidPath, kind);
        if back.value.Some? {
          ApplyPushedCarries(u, back.value.value, kind, metadata);
        } else {
          InsertExtends(s, PushedNode(name, parent, metadata, NewBody(kind)));
        }
      }
    }
  }

  /** A successful push leaves the owner's qid, metadata and bytes at the path, whether the node is new,
      was there, or comes back from a removal. */
  lemma PlacePushedCarries(s: Store, place: string, kind: Kind, metadata: Metadata)
    requires Inv(s)
    ensures var (t, r) := PlacePushed(s, place, kind, metadata);
            r.Ok? ==> r.value in t.nodes && Carries(t.nodes[r.value], kind, metadata)
  {
    if SplitPath(place).Ok? {
      var names := SplitPath(place).value;
      EnsureDirsAttach(s, names[..|names| - 1]);
      var (t, r) := EnsureDirs(s, ROOT_ID, names[..|names| - 1]);
      if r.Ok? {
        PushInCarries(t, place, r.value, names[|names| - 1], kind, metadata);
      }
    }
  }

  // ----- Entries made on a client's behalf -----

  /** The node has the identity the owner reported, and a file's writes go to the owner. */
  predicate MadeAs(node: Node, qid: CreatedQid, generation: nat, prefix: string) {
    && node.qidPath == qid.path && node.version == qid.version && node.generation == generation
    && (if qid.directory then node.body.Dir? else node.writeRelay == Some(prefix) && node.body == WriteRelay(prefix))
  }

  lemma RecreateMakes(s: Store, id: Id, qid: CreatedQid, generation: nat, prefix: string)
    requires id in s.nodes && s.nodes[id].qidPath == qid.path && qid.directory == s.nodes[id].body.Dir?
    ensures var t := Touch(s, id, Recreated(s.nodes[id], qid, generation, prefix));
            MadeAs(t.nodes[id], qid, generation, prefix) && OthersStill(s, t, id)
  {
  }

  lemma CreateInMakes(s: Store, parent: Id, name: Name, qid: CreatedQid, generation: nat, prefix: string)
    requires Inv(s)
    ensures var (t, r) := CreateIn(s, parent, name, qid, generation, prefix);
            if r.Err? then t == s
            else r.value in t.nodes && MadeAs(t.nodes[r.value], qid, generation, prefix) && OthersStill(s, t, r.value)
  {
    hide Linked, Indexed, Tabled, Acyclic, Settled, EntryOk, OthersStill, Still;
    ChildOfDirectory(s, parent, name);
    var (t, r) := CreateIn(s, parent, name, qid, generation, prefix);
    if r.Ok? {
      if Child(s.nodes, parent, name).Ok? {
        RecreateMakes(s, r.value, qid, generation, prefix);
      } else {
        InsertMakes(s, CreatedNode(name, parent, qid, generation, prefix));
      }
    }
  }

  lemma InsertMakes(s: Store, node: Node)
    requires Issued(s) && Insertable(s, node)
    ensures OthersStill(s, Insert(s, node), s.nextId) && s.nextId in Insert(s, node).nodes
    ensures Insert(s, node).nodes[s.nextId] == node
  {
    InsertExtends(s, node);
  }

  lemma CreateInAt(s: Store, at: seq<Name>, parent: Id, name: Name, qid: CreatedQid, generation: nat, prefix: string,
                   path: seq<Name>)
    requires Inv(s) && Resolve(s.nodes, ROOT_ID, at) == Ok(parent)
    ensures var (t, r) := CreateIn(s, parent, name, qid, generation, prefix);
            && Kept(s, t, path)
            && (Gained(s, t, path) ==> path == at + [name])
            && (r.Ok? ==> Resolve(t.nodes, ROOT_ID, at + [name]) == Ok(r.value))
  {
    ChildOfDirectory(s, parent, name);
    ResolveSnoc(s.nodes, ROOT_ID, at, name);
    var (t, r) := CreateIn(s, parent, name, qid, generation, prefix);
    if r.Ok? {
      if Child(s.nodes, parent, name).Ok? {
        TouchKeepsEdges(s, r.value, Recreated(s.nodes[r.value], qid, generation, prefix));
        SameEdgesSamePath(s.nodes, t.nodes, ROOT_ID, path);
        SameEdgesSamePath(s.nodes, t.nodes, ROOT_ID, at + [name]);
      } else {
        InsertAt(s, CreatedNode(name, parent, qid, generation, prefix), at, path);
      }
    }
  }

  /** A successful creation under a walkable directory is walkable by its name, has the identity the
      owner reported, and disturbs neither other paths nor other nodes. */
  lemma InsertCreatedMakes(s: Store, at: seq<Name>, parent: Id, name: string, qid: CreatedQid, generation: nat,
                           prefix: string, path: seq<Name>)
    requires Inv(s) && Resolve(s.nodes, ROOT_ID, at) == Ok(parent)
    ensures var (t, r) := InsertCreated(s, parent, name, qid, generation, prefix);
            && Kept(s, t, path)
            && (Gained(s, t, path) ==> path <= at + Segments(name))
            && (r.Ok? ==>
                  && Resolve(t.nodes, ROOT_ID, at + Segments(name)) == Ok(r.value)
                  && r.value in t.nodes && MadeAs(t.nodes[r.value], qid, generation, prefix)
                  && OthersStill(s, t, r.value))
  {
    hide Linked, Issued, Indexed, Tabled, Acyclic, Settled;
    var names := Segments(name);
    if names != [] {
      var dirs, last := names[..|names| - 1], names[|names| - 1];
      assert at + names == at + dirs + [last];
      EnsureDirsKeepInv(s, parent, dirs);
      EnsureDirsExtend(s, parent, dirs);
      EnsureDirsAt(s, at, parent, dirs, path);
      var (t, dir) := EnsureDirs(s, parent, dirs);
      if dir.Ok? {
        CreateInAt(t, at + dirs, dir.value, last, qid, generation, prefix, path);
        CreateInMakes(t, dir.value, last, qid, generation, prefix);
        var (u, r) := InsertCreated(s, parent, name, qid, generation, prefix);
        if r.Ok? {
          ExtendsOthers(s, t, u, r.value);
        }
      }
    }
  }
}
