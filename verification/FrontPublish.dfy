/** Publishing: the placement operations of crates/front/src/model.rs as functions of the store.
    A failed operation still returns the store it leaves behind. */
module FrontPublish {
  import opened Prelude
  import opened Paths
  import LogBody
  import opened FrontStore
  import opened FrontCollect
  import opened FrontOps
  import opened FrontReattach
  import opened FrontPaths

  const QID_IN_USE := "qid path already in use"
  const QID_EXHAUSTED := "qid path space exhausted"
  const DIRECTORY_LENGTH := "pushed directory length must be zero"

  type Leaf = body: Body | !body.Dir? witness File([])

  /** `next_available_qid_path`. */
  function NextQid(index: map<nat, Id>, start: nat): (r: Result<nat>)
    ensures r.Ok? ==> r.value !in index
    decreases U64_MAX - start
  {
    if start !in index then Ok(start)
    else if start >= U64_MAX then Err(QID_EXHAUSTED)
    else NextQid(index, start + 1)
  }

  /** It is the least free qid path from `start` on; failure means there is none. */
  lemma {:induction false} NextQidIsLeastFree(index: map<nat, Id>, start: nat)
    ensures var r := NextQid(index, start);
            && (r.Ok? ==> start <= r.value && forall q :: start <= q < r.value ==> q in index)
            && (r.Err? ==> forall q :: start <= q <= U64_MAX ==> q in index)
    decreases U64_MAX - start
  {
    if start in index && start < U64_MAX {
      NextQidIsLeastFree(index, start + 1);
    }
  }

  // ----- Directories on the way -----

  function EnsureDir(s: Store, parent: Id, name: Name): (Store, Result<Id>) {
    match Child(s.nodes, parent, name)
    case Ok(existing) =>
      (s, if existing !in s.nodes then Err(ENOENT)
          else if s.nodes[existing].body.Dir? then Ok(existing)
          else Err(ENOTDIR))
    case Err(e) =>
      if parent !in s.nodes || !s.nodes[parent].body.Dir? then (s, Err(e))
      else
        match NextQid(s.qidIndex, s.nextId)
        case Err(full) => (s, Err(full))
        case Ok(qid) => (Insert(s, PlainNode(name, parent, qid, EMPTY_DIR)), Ok(s.nextId))
  }

  function EnsureDirs(s: Store, start: Id, names: seq<Name>): (Store, Result<Id>)
    decreases |names|
  {
    if names == [] then (s, Ok(start))
    else
      match EnsureDir(s, start, names[0])
      case (t, Ok(dir)) => EnsureDirs(t, dir, names[1..])
      case (t, Err(e)) => (t, Err(e))
  }

  function EnsurePathDir(s: Store, path: string): (Store, Result<Id>) {
    match SplitPath(path)
    case Err(e) => (s, Err(e))
    case Ok(names) => EnsureDirs(s, ROOT_ID, names)
  }

  // ----- Leaves -----

  function Bumped(version: nat): nat {
    (version + 1) % (U32_MAX + 1)
  }

  /** What republishing does to an existing leaf. */
  function Republished(node: Node, body: Leaf, capacity: nat): Result<Node> {
    if node.body.File? && body.File? then Ok(node.(version := Bumped(node.version), body := body))
    else if node.body.Log? && body.Log? then
      Ok(node.(version := Bumped(node.version),
               body := Log(LogBody.AppendAll(node.body.log, body.log.entries, capacity))))
    else Err(EPERM)
  }

  /** `place` once the parent directory is there. */
  function PlaceIn(s: Store, parent: Id, name: Name, body: Leaf): (Store, Result<Id>) {
    match Child(s.nodes, parent, name)
    case Ok(id) =>
      if id !in s.nodes then (s, Err(ENOENT))
      else
        (match Republished(s.nodes[id], body, s.logCapacity)
         case Err(e) => (s, Err(e))
         case Ok(node) => (Touch(s, id, node), Ok(id)))
    case Err(e) =>
      if parent !in s.nodes || !s.nodes[parent].body.Dir? then (s, Err(e))
      else
        match NextQid(s.qidIndex, s.nextId)
        case Err(full) => (s, Err(full))
        case Ok(qid) => (Insert(s, PlainNode(name, parent, qid, body)), Ok(s.nextId))
  }

  function Place(s: Store, path: string, body: Leaf): (Store, Result<Id>) {
    match SplitPath(path)
    case Err(e) => (s, Err(e))
    case Ok(names) =>
      match EnsureDirs(s, ROOT_ID, names[..|names| - 1])
      case (t, Err(e)) => (t, Err(e))
      case (t, Ok(parent)) => PlaceIn(t, parent, names[|names| - 1], body)
  }

  // ----- Entries pushed by their owner -----

  datatype Kind = FileKind(bytes: seq<byte>) | DirectoryKind

  function Matches(kind: Kind, body: Body): bool {
    match kind
    case FileKind(_) => body.File? || body.WriteRelay?
    case DirectoryKind => body.Dir?
  }

  function NewBody(kind: Kind): Body {
    match kind
    case FileKind(bytes) => File(bytes)
    case DirectoryKind => EMPTY_DIR
  }

  function WithMetadata(node: Node, kind: Kind, metadata: Metadata): Node {
    var next := node.(version := metadata.qidVersion, generation := metadata.generation,
                      pushed := Some(metadata.pushed));
    if kind.FileKind? then next.(body := File(kind.bytes)) else next
  }

  /** `apply_pushed_metadata`, followed by the new contents when a file is pushed. */
  function ApplyPushed(s: Store, id: Id, kind: Kind, metadata: Metadata): (Store, Result<Id>) {
    match ReplaceQid(s, id, metadata.qidPath)
    case (t, Err(e)) => (t, Err(e))
    case (t, Ok(_)) =>
      (if id !in t.nodes then t else Touch(t, id, WithMetadata(t.nodes[id], kind, metadata)), Ok(id))
  }

  /** `reattach_detached_pushed_node`: only an unattached node of the right kind that still prints
      the very path being published comes back. */
  ghost function Reattach(s: Store, path: string, parent: Id, name: Name, qidPath: nat, kind: Kind)
    : (Store, Result<Option<Id>>)
    requires parent in s.nodes && s.nodes[parent].body.Dir?
  {
    if qidPath !in s.qidIndex then (s, Ok(None))
    else
      var id := s.qidIndex[qidPath];
      if id !in s.nodes || Attached(s, id) then (s, Err(QID_IN_USE))
      else
        match PathRelativeTo(s, id, ROOT_ID)
        case Err(e) => (s, Err(e))
        case Ok(text) =>
          if text != "/" + Trim(path) || !Matches(kind, s.nodes[id].body) then (s, Err(QID_IN_USE))
          else (Collect(Move(s, id, parent, name)), Ok(Some(id)))
  }

  /** Publishing with metadata once the parent directory is there. */
  ghost function PushIn(s: Store, path: string, parent: Id, name: Name, kind: Kind, metadata: Metadata)
    : (Store, Result<Id>)
  {
    match Child(s.nodes, parent, name)
    case Ok(id) =>
      if id !in s.nodes then (s, Err(ENOENT))
      else if !Matches(kind, s.nodes[id].body) then (s, Err(EPERM))
      else ApplyPushed(s, id, kind, metadata)
    case Err(e) =>
      if parent !in s.nodes || !s.nodes[parent].body.Dir? then (s, Err(e))
      else
        match Reattach(s, path, parent, name, metadata.qidPath, kind)
        case (t, Err(e)) => (t, Err(e))
        case (t, Ok(Some(id))) => ApplyPushed(t, id, kind, metadata)
        case (t, Ok(None)) => (Insert(t, PushedNode(name, parent, metadata, NewBody(kind))), Ok(t.nextId))
  }

  /** `place_pushed_file` and `place_pushed_directory`. */
  ghost function PlacePushed(s: Store, path: string, kind: Kind, metadata: Metadata): (Store, Result<Id>) {
    if kind.DirectoryKind? && metadata.pushed.length != 0 then (s, Err(DIRECTORY_LENGTH))
    else
      match SplitPath(path)
      case Err(e) => (s, Err(e))
      case Ok(names) =>
        match EnsureDirs(s, ROOT_ID, names[..|names| - 1])
        case (t, Err(e)) => (t, Err(e))
        case (t, Ok(parent)) => PushIn(t, path, parent, names[|names| - 1], kind, metadata)
  }

  // ----- Entries made on a client's behalf -----

  function CreatedChildPath(parentPath: string, name: Name): string {
    if parentPath == "/" then "/" + name else TrimEnd(parentPath) + "/" + name
  }

  /** The relay prefix under which removal of a resolved child is announced. */
  function ChildRemoveRelay(s: Store, parent: Id, name: Name, removal: Removal): Result<Option<string>> {
    match removal
    case Forbidden => Ok(None)
    case RelayToOwner =>
      match PathRelativeTo(s, parent, ROOT_ID)
      case Err(e) => Err(e)
      case Ok(text) => Ok(Some(Trim(CreatedChildPath(text, name))))
  }

  /** `insert_pushed_child_directory`. */
  function InsertPushedChild(
    s: Store, parent: Id, name: Name, metadata: Metadata, readPrefix: string, removal: Removal)
    : (Store, Result<Id>)
  {
    if metadata.pushed.length != 0 then (s, Err(DIRECTORY_LENGTH))
    else
      match ChildRemoveRelay(s, parent, name, removal)
      case Err(e) => (s, Err(e))
      case Ok(relay) =>
        match Child(s.nodes, parent, name)
        case Ok(existing) =>
          if existing !in s.nodes then (s, Err(ENOENT))
          else if !s.nodes[existing].body.Dir? then (s, Err(ENOTDIR))
          else if relay.None? then (s, Ok(existing))
          else (Touch(s, existing, s.nodes[existing].(removeRelay := relay)), Ok(existing))
        case Err(e) =>
          if parent !in s.nodes || !s.nodes[parent].body.Dir? then (s, Err(e))
          else if metadata.qidPath in s.qidIndex then (s, Err(QID_IN_USE))
          else
            var node := PushedNode(name, parent, metadata, Dir(map[], Some(readPrefix), None));
            (Insert(s, node.(removeRelay := relay)), Ok(s.nextId))
  }

  datatype CreatedQid = CreatedQid(directory: bool, version: nat, path: nat)

  /** A node that exists already and that the owner confirms. */
  function Recreated(node: Node, qid: CreatedQid, generation: nat, prefix: string): Node {
    var next := node.(version := qid.version, generation := generation);
    if qid.directory then next else next.(writeRelay := Some(prefix), body := WriteRelay(prefix))
  }

  function CreatedNode(name: Name, parent: Id, qid: CreatedQid, generation: nat, prefix: string): Node {
    Node(name, parent, qid.path, qid.version, generation, None, None,
         if qid.directory then None else Some(prefix), None, None,
         if qid.directory then EMPTY_DIR else WriteRelay(prefix))
  }

  function CreateIn(s: Store, parent: Id, name: Name, qid: CreatedQid, generation: nat, prefix: string)
    : (Store, Result<Id>)
  {
    match Child(s.nodes, parent, name)
    case Ok(id) =>
      if id !in s.nodes then (s, Err(ENOENT))
      else
        var node := s.nodes[id];
        if node.qidPath != qid.path || qid.path !in s.qidIndex || s.qidIndex[qid.path] != id then
          (s, Err("create relay existing node identity mismatch"))
        else if qid.directory != node.body.Dir? then
          (s, Err("create relay existing node kind mismatch"))
        else
          (Touch(s, id, Recreated(node, qid, generation, prefix)), Ok(id))
    case Err(e) =>
      if parent !in s.nodes || !s.nodes[parent].body.Dir? then (s, Err(e))
      else if qid.path in s.qidIndex then (s, Err(QID_IN_USE))
      else (Insert(s, CreatedNode(name, parent, qid, generation, prefix)), Ok(s.nextId))
  }

  /** `insert_created_relay_node`. */
  function InsertCreated(s: Store, parent: Id, name: string, qid: CreatedQid, generation: nat, prefix: string)
    : (Store, Result<Id>)
  {
    match SplitPath(name)
    case Err(e) => (s, Err(e))
    case Ok(names) =>
      match EnsureDirs(s, parent, names[..|names| - 1])
      case (t, Err(e)) => (t, Err(e))
      case (t, Ok(dir)) => CreateIn(t, dir, names[|names| - 1], qid, generation, prefix)
  }

  // ----- The invariant survives, also when the operation fails half-way -----

  lemma ChildOfDirectory(s: Store, parent: Id, name: Name)
    requires Inv(s)
    ensures Child(s.nodes, parent, name).Ok? ==> Child(s.nodes, parent, name).value in s.nodes
    ensures parent in s.nodes && s.nodes[parent].body.Dir? && Child(s.nodes, parent, name).Err? ==>
              name !in s.nodes[parent].body.children
  {
    if Child(s.nodes, parent, name).Ok? {
      assert name in Kids(s.nodes, parent);
      assert EntryOk(s, parent, name);
    }
  }

  lemma AddDirKeepsInv(s: Store, parent: Id, name: Name, qid: nat)
    requires Inv(s) && parent in s.nodes && s.nodes[parent].body.Dir? && qid !in s.qidIndex
    requires name !in s.nodes[parent].body.children
    ensures var t := Insert(s, PlainNode(name, parent, qid, EMPTY_DIR));
            Inv(t) && s.nextId in t.nodes && t.nodes[s.nextId].body.Dir?
  {
    NextIdIsNew(s);
    InsertKeepsInv(s, PlainNode(name, parent, qid, EMPTY_DIR));
  }

  lemma EnsureDirKeepsInv(s: Store, parent: Id, name: Name)
    requires Inv(s)
    ensures var (t, r) := EnsureDir(s, parent, name);
            && Inv(t) && t.refs == s.refs && t.detached == s.detached
            && (r.Ok? ==> r.value in t.nodes && t.nodes[r.value].body.Dir?)
  {
    ChildOfDirectory(s, parent, name);
    var t := EnsureDir(s, parent, name).0;
    if t != s {
      AddDirKeepsInv(s, parent, name, NextQid(s.qidIndex, s.nextId).value);
    }
  }

  lemma {:induction false} EnsureDirsKeepInv(s: Store, start: Id, names: seq<Name>)
    requires Inv(s)
    ensures var (t, r) := EnsureDirs(s, start, names);
            && Inv(t) && t.refs == s.refs && t.detached == s.detached
            && (r.Ok? && names != [] ==> r.value in t.nodes && t.nodes[r.value].body.Dir?)
    decreases |names|
  {
    if names != [] {
      EnsureDirKeepsInv(s, start, names[0]);
      var (t, r) := EnsureDir(s, start, names[0]);
      if r.Ok? {
        EnsureDirsKeepInv(t, r.value, names[1..]);
      }
    }
  }

  lemma PlaceInKeepsInv(s: Store, parent: Id, name: Name, body: Leaf)
    requires Inv(s)
    ensures Inv(PlaceIn(s, parent, name, body).0) && PlaceIn(s, parent, name, body).0.refs == s.refs
  {
    hide Inv, Insert, Touch;
    var t := PlaceIn(s, parent, name, body).0;
    ChildOfDirectory(s, parent, name);
    if t != s {
      match Child(s.nodes, parent, name) {
        case Ok(id) =>
          var next := Republished(s.nodes[id], body, s.logCapacity).value;
          assert t == Touch(s, id, next);
          TouchKeepsInv(s, id, next);
        case Err(_) =>
          var node := PlainNode(name, parent, NextQid(s.qidIndex, s.nextId).value, body);
          assert t == Insert(s, node);
          InsertKeepsInv(s, node);
      }
    }
  }

  lemma PlaceKeepsInv(s: Store, path: string, body: Leaf)
    requires Inv(s)
    ensures var (t, r) := Place(s, path, body); Inv(t) && t.refs == s.refs
  {
    if SplitPath(path).Ok? {
      var names := SplitPath(path).value;
      EnsureDirsKeepInv(s, ROOT_ID, names[..|names| - 1]);
      var (t, r) := EnsureDirs(s, ROOT_ID, names[..|names| - 1]);
      if r.Ok? {
        PlaceInKeepsInv(t, r.value, names[|names| - 1], body);
      }
    }
  }

  lemma MetadataKeepsInv(s: Store, id: Id, kind: Kind, metadata: Metadata)
    requires Inv(s) && id in s.nodes && (kind.FileKind? ==> !s.nodes[id].body.Dir?)
    ensures var t := Touch(s, id, WithMetadata(s.nodes[id], kind, metadata));
            Inv(t) && SameEdges(s.nodes, t.nodes)
  {
    TouchKeepsInv(s, id, WithMetadata(s.nodes[id], kind, metadata));
  }

  lemma ApplyPushedKeepsInv(s: Store, id: Id, kind: Kind, metadata: Metadata)
    requires Inv(s) && id in s.nodes && (kind.FileKind? ==> !s.nodes[id].body.Dir?)
    ensures var t := ApplyPushed(s, id, kind, metadata).0;
            Inv(t) && t.refs == s.refs && t.detached == s.detached && SameEdges(s.nodes, t.nodes)
  {
    hide Linked, Issued, Indexed, Tabled, Acyclic, Settled;
    ReplaceQidKeepsInv(s, id, metadata.qidPath);
    var t := ReplaceQid(s, id, metadata.qidPath).0;
    assert SamePlaceAt(s.nodes, t.nodes, id);
    MetadataKeepsInv(t, id, kind, metadata);
    SameEdgesCompose(s.nodes, t.nodes, Touch(t, id, WithMetadata(t.nodes[id], kind, metadata)).nodes);
  }

  /** The entry ends up with the owner's qid, metadata and bytes, or nothing changes. */
  lemma ApplyPushedSetsEntry(s: Store, id: Id, kind: Kind, metadata: Metadata)
    requires id in s.nodes
    ensures var (t, r) := ApplyPushed(s, id, kind, metadata);
            if r.Err? then t == s
            else
              && r.value == id && id in t.nodes
              && t.nodes[id].qidPath == metadata.qidPath
              && t.nodes[id].version == metadata.qidVersion
              && t.nodes[id].generation == metadata.generation
              && t.nodes[id].pushed == Some(metadata.pushed)
              && (kind.FileKind? ==> t.nodes[id].body == File(kind.bytes))
  {
  }

  /** Reattachment keeps the invariant and the node's id. */
  lemma ReattachKeepsInv(s: Store, path: string, parent: Id, name: Name, qidPath: nat, kind: Kind)
    requires Inv(s) && Attached(s, parent) && s.nodes[parent].body.Dir? && name !in s.nodes[parent].body.children
    ensures var (t, r) := Reattach(s, path, parent, name, qidPath, kind);
            && Inv(t) && t.refs == s.refs
            && (!(r.Ok? && r.value.Some?) ==> t == s)
            && (r == Ok(None) ==> qidPath !in s.qidIndex)
            && (r.Ok? && r.value.Some? ==>
                  var id := r.value.value;
                  && Movable(s, id, parent, name)
                  && t == Collect(Move(s, id, parent, name))
                  && id in t.nodes && Matches(kind, t.nodes[id].body))
  {
    if qidPath in s.qidIndex {
      var id := s.qidIndex[qidPath];
      var (t, r) := Reattach(s, path, parent, name, qidPath, kind);
      if r.Ok? {
        MoveKeepsShape(s, id, parent, name);
        var moved := Move(s, id, parent, name);
        CollectIsSound(moved);
        MovedIsAttached(s, id, parent, name);
        CollectKeepsTree(moved, ROOT_ID);
        SubtreeHasSelf(s.nodes, ROOT_ID);
      }
    }
  }

  lemma MovedIsAttached(s: Store, id: Id, parent: Id, name: Name)
    requires Shape(s) && Movable(s, id, parent, name)
    ensures Attached(Move(s, id, parent, name), id)
  {
    var at: seq<Name> :| Resolve(s.nodes, ROOT_ID, at) == Ok(parent);
    MoveResolves(s, id, parent, name, at, []);
    assert Reaches(Move(s, id, parent, name).nodes, ROOT_ID, id);
  }

  lemma PushInKeepsInv(s: Store, path: string, parent: Id, name: Name, kind: Kind, metadata: Metadata)
    requires Inv(s) && Attached(s, parent)
    ensures var (t, r) := PushIn(s, path, parent, name, kind, metadata); Inv(t) && t.refs == s.refs
  {
    hide Linked, Issued, Indexed, Tabled, Acyclic, Settled;
    ChildOfDirectory(s, parent, name);
    match Child(s.nodes, parent, name) {
      case Ok(id) =>
        if Matches(kind, s.nodes[id].body) {
          ApplyPushedKeepsInv(s, id, kind, metadata);
        }
      case Err(_) =>
        if s.nodes[parent].body.Dir? {
          ReattachKeepsInv(s, path, parent, name, metadata.qidPath, kind);
          match Reattach(s, path, parent, name, metadata.qidPath, kind) {
            case (t, Ok(Some(id))) => ApplyPushedKeepsInv(t, id, kind, metadata);
            case (t, Ok(None)) => InsertKeepsInv(s, PushedNode(name, parent, metadata, NewBody(kind)));
            case (t, Err(_)) =>
          }
        }
    }
  }

  lemma InsertPushedChildKeepsInv(
    s: Store, parent: Id, name: Name, metadata: Metadata, readPrefix: string, removal: Removal)
    requires Inv(s)
    ensures var (t, r) := InsertPushedChild(s, parent, name, metadata, readPrefix, removal);
            Inv(t) && t.refs == s.refs
  {
    hide Inv, Insert, Touch;
    ChildOfDirectory(s, parent, name);
    var relay := ChildRemoveRelay(s, parent, name, removal);
    if metadata.pushed.length == 0 && relay.Ok? {
      match Child(s.nodes, parent, name) {
        case Ok(existing) =>
          TouchKeepsInv(s, existing, s.nodes[existing].(removeRelay := relay.value));
        case Err(_) =>
          if parent in s.nodes && s.nodes[parent].body.Dir? && metadata.qidPath !in s.qidIndex {
            var node := PushedNode(name, parent, metadata, Dir(map[], Some(readPrefix), None));
            InsertKeepsInv(s, node.(removeRelay := relay.value));
          }
      }
    }
  }

  lemma CreateInKeepsInv(s: Store, parent: Id, name: Name, qid: CreatedQid, generation: nat, prefix: string)
    requires Inv(s)
    ensures var t := CreateIn(s, parent, name, qid, generation, prefix).0; Inv(t) && t.refs == s.refs
  {
    hide Inv, Insert, Touch;
    var (t, r) := CreateIn(s, parent, name, qid, generation, prefix);
    ChildOfDirectory(s, parent, name);
    if r.Ok? {
      if Child(s.nodes, parent, name).Ok? {
        RecreateKeepsInv(s, r.value, qid, generation, prefix);
      } else {
        InsertKeepsInv(s, CreatedNode(name, parent, qid, generation, prefix));
      }
    }
  }

  lemma RecreateKeepsInv(s: Store, id: Id, qid: CreatedQid, generation: nat, prefix: string)
    requires Inv(s) && id in s.nodes && qid.directory == s.nodes[id].body.Dir?
    ensures var t := Touch(s, id, Recreated(s.nodes[id], qid, generation, prefix)); Inv(t) && t.refs == s.refs
  {
    TouchKeepsInv(s, id, Recreated(s.nodes[id], qid, generation, prefix));
  }

  lemma InsertCreatedKeepsInv(
    s: Store, parent: Id, name: string, qid: CreatedQid, generation: nat, prefix: string)
    requires Inv(s)
    ensures var (t, r) := InsertCreated(s, parent, name, qid, generation, prefix); Inv(t) && t.refs == s.refs
  {
    if SplitPath(name).Ok? {
      var names := SplitPath(name).value;
      EnsureDirsKeepInv(s, parent, names[..|names| - 1]);
      var (t, r) := EnsureDirs(s, parent, names[..|names| - 1]);
      if r.Ok? {
        CreateInKeepsInv(t, r.value, names[|names| - 1], qid, generation, prefix);
      }
    }
  }
}
