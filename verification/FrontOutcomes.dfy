/** When publishing succeeds, and how it fails otherwise: crates/front/src/model.rs. */
module FrontOutcomes {
  import opened Prelude
  import opened Paths
  import opened FrontStore
  import opened FrontCollect
  import opened FrontOps
  import opened FrontReattach
  import opened FrontPaths
  import opened FrontPublish
  import opened FrontPublishPaths
  import opened FrontContents
  import opened FrontUproot
  import opened FrontRoom

  // ----- After the directories -----

  lemma NextQidIff(index: map<nat, Id>, start: nat)
    ensures NextQid(index, start).Ok? <==> Room(index, start, 1)
    ensures NextQid(index, start).Err? ==> NextQid(index, start).error == QID_EXHAUSTED
  {
    NextQidInRange(index, start);
    if NextQid(index, start).Ok? {
      RoomAfter(index, start, 1, 0);
    } else {
      NoQidNoRoom(index, start, 1);
    }
  }

  /** The entry at the end of the way is the one that was there before. */
  lemma LastChild(s: Store, start: Id, dirs: seq<Name>, last: Name, t: Store, dir: Id)
    requires Made(s, start, dirs, t, dir)
    ensures var at := Resolve(s.nodes, start, dirs + [last]);
            && (Child(t.nodes, dir, last).Ok? <==> at.Ok?)
            && (at.Ok? ==> t == s && Child(t.nodes, dir, last) == at)
  {
    ResolveSnoc(s.nodes, start, dirs, last);
    assert dirs[..|dirs|] == dirs;
  }

  lemma MissingLast(nodes: map<Id, Node>, start: Id, dirs: seq<Name>, last: Name)
    ensures Missing(nodes, start, dirs + [last]) ==
            if Resolve(nodes, start, dirs + [last]).Ok? then 0 else Missing(nodes, start, dirs) + 1
    ensures Resolve(nodes, start, dirs + [last]).Ok? ==> Missing(nodes, start, dirs) == 0
  {
    assert (dirs + [last])[..|dirs|] == dirs;
    ResolveSnoc(nodes, start, dirs, last);
  }

  /** Directories on the way to the last name. */
  function Way(place: string): seq<Name> {
    if Segments(place) == [] then [] else Segments(place)[..|Segments(place)| - 1]
  }

  lemma WayAndLast(place: string)
    requires Segments(place) != []
    ensures var names := Segments(place);
            names == Way(place) + [names[|names| - 1]] && SplitPath(place) == Ok(names)
  {
  }

  // ----- Making directories -----

  /** A directory path is made if and only if it names something, nothing on it is something else, and there are free
      qid paths. */
  lemma MakeDirsOutcome(s: Store, place: string)
    requires Inv(s)
    ensures var names, r := Segments(place), EnsurePathDir(s, place).1;
            if names == [] then r == Err(EPERM)
            else if Blocked(s.nodes, ROOT_ID, names) then r == Err(ENOTDIR)
            else if !Room(s.qidIndex, s.nextId, Missing(s.nodes, ROOT_ID, names)) then r == Err(QID_EXHAUSTED)
            else r.Ok?
  {
    hide Blocked, Room, Missing, EnsureDirs, Segments;
    EnsureDirsIff(s, ROOT_ID, Segments(place), 0);
  }

  // ----- Publishing a leaf -----

  predicate SameKind(node: Node, body: Leaf) {
    (node.body.File? && body.File?) || (node.body.Log? && body.Log?)
  }

  lemma PlaceInOutcome(s: Store, start: Id, dirs: seq<Name>, last: Name, t: Store, dir: Id, body: Leaf)
    requires Inv(s) && Inv(t) && Made(s, start, dirs, t, dir)
    requires Room(t.qidIndex, t.nextId, 1) <==> Room(s.qidIndex, s.nextId, Missing(s.nodes, start, dirs) + 1)
    ensures var names, r := dirs + [last], PlaceIn(t, dir, last, body).1;
            var at := Resolve(s.nodes, start, names);
            if !Room(s.qidIndex, s.nextId, Missing(s.nodes, start, names)) then r == Err(QID_EXHAUSTED)
            else if at.Ok? && !(at.value in s.nodes && SameKind(s.nodes[at.value], body)) then r == Err(EPERM)
            else r == if at.Ok? then at else Ok(t.nextId)
  {
    hide Inv, Resolve, Missing, Room;
    LastChild(s, start, dirs, last, t, dir);
    MissingLast(s.nodes, start, dirs, last);
    ChildOfDirectory(t, dir, last);
    NextQidIff(t.qidIndex, t.nextId);
    RoomForNone(s);
  }

  lemma RoomForNone(s: Store)
    ensures Room(s.qidIndex, s.nextId, 0)
  {
  }

  /** A leaf is published if and only if the path names something, no directory on the way is something else, qid paths
      are free for every node to be made, and what is there already, if anything, is of the same kind: a file for
      a file, a log for a log. */
  lemma PlaceOutcome(s: Store, place: string, body: Leaf)
    requires Inv(s)
    ensures var names, r := Segments(place), Place(s, place, body).1;
            var there := NodeAt(s, names);
            if names == [] then r == Err(EPERM)
            else if Blocked(s.nodes, ROOT_ID, Way(place)) then r == Err(ENOTDIR)
            else if !Room(s.qidIndex, s.nextId, Missing(s.nodes, ROOT_ID, names)) then r == Err(QID_EXHAUSTED)
            else if there.Some? && !SameKind(there.value, body) then r == Err(EPERM)
            else
              && r.Ok?
              && (if there.Some? then Resolve(s.nodes, ROOT_ID, names) == r
                  else r.value == s.nextId + Missing(s.nodes, ROOT_ID, names) - 1)
  {
    hide Blocked, Room, EnsureDirs, Segments, Resolve, PlaceIn, Missing;
    if Segments(place) != [] {
      WayAndLast(place);
      var dirs, last := Way(place), Segments(place)[|Segments(place)| - 1];
      EnsureDirsIff(s, ROOT_ID, dirs, 1);
      EnsureDirsKeepInv(s, ROOT_ID, dirs);
      MissingLast(s.nodes, ROOT_ID, dirs, last);
      var (t, r) := EnsureDirs(s, ROOT_ID, dirs);
      var missing := Missing(s.nodes, ROOT_ID, dirs);
      RoomForNone(s);
      if r.Ok? {
        PlaceInOutcome(s, ROOT_ID, dirs, last, t, r.value, body);
        ChildOfDirectory(t, r.value, last);
        LastChild(s, ROOT_ID, dirs, last, t, r.value);
      } else if Room(s.qidIndex, s.nextId, missing + 1) {
        RoomForLess(s.qidIndex, s.nextId, missing);
      }
    }
  }

  // ----- Publishing with the owner's qid -----

  /** A directory is pushed onto a directory, and a file onto a file or an entry whose writes go to its owner. */
  predicate Takes(body: Body, kind: Kind) {
    if kind.DirectoryKind? then body.Dir? else body.File? || body.WriteRelay?
  }

  /** Why a push of a new entry is refused over its qid path, if it is: the qid path is about to go to a directory on
      the way, or it is that of another node. Only a node that cannot be reached, prints the very path pushed and is of
      the right kind comes back with it. */
  ghost function Refusal(s: Store, place: string, kind: Kind, qidPath: nat, missing: nat): Option<string> {
    if qidPath !in s.qidIndex then
      if Drawn(s.qidIndex, s.nextId, missing, qidPath) then Some(QID_IN_USE) else None
    else
      var owner := s.qidIndex[qidPath];
      if owner !in s.nodes || Attached(s, owner) then Some(QID_IN_USE)
      else
        match PathRelativeTo(s, owner, ROOT_ID)
        case Err(e) => Some(e)
        case Ok(text) =>
          if text == "/" + Trim(place) && Takes(s.nodes[owner].body, kind) then None else Some(QID_IN_USE)
  }

  lemma DrawnIsMade(s: Store, dirs: seq<Name>, qidPath: nat)
    requires Inv(s) && EnsureDirs(s, ROOT_ID, dirs).1.Ok? && qidPath !in s.qidIndex
    requires Draws(s, EnsureDirs(s, ROOT_ID, dirs).0, Missing(s.nodes, ROOT_ID, dirs))
    ensures var t := EnsureDirs(s, ROOT_ID, dirs).0;
            if Drawn(s.qidIndex, s.nextId, Missing(s.nodes, ROOT_ID, dirs), qidPath)
            then qidPath in t.qidIndex && Attached(t, t.qidIndex[qidPath])
            else qidPath !in t.qidIndex
  {
    hide Linked, Issued, Tabled, Acyclic, Settled, EnsureDirs, Drawn, Missing, Attached;
    var t := EnsureDirs(s, ROOT_ID, dirs).0;
    if qidPath in t.qidIndex {
      var id := t.qidIndex[qidPath];
      EnsureDirsKeepInv(s, ROOT_ID, dirs);
      QidAfterDirs(s, dirs, qidPath, id);
      IndexInverts(t);
      MadeDirIsAttached(s, [], ROOT_ID, dirs, id);
    }
  }

  lemma OwnerAfterDirs(s: Store, dirs: seq<Name>, kind: Kind, qidPath: nat)
    requires Inv(s) && qidPath in s.qidIndex
    ensures var t, owner := EnsureDirs(s, ROOT_ID, dirs).0, s.qidIndex[qidPath];
            && qidPath in t.qidIndex && t.qidIndex[qidPath] == owner && owner in s.nodes && owner in t.nodes
            && (Attached(t, owner) <==> Attached(s, owner))
            && PathRelativeTo(t, owner, ROOT_ID) == PathRelativeTo(s, owner, ROOT_ID)
            && (Matches(kind, t.nodes[owner].body) <==> Matches(kind, s.nodes[owner].body))
  {
    hide Linked, Issued, Tabled, Acyclic, Settled, EnsureDirs, Attached, PathRelativeTo, Matches;
    var owner := s.qidIndex[qidPath];
    IndexInverts(s);
    QidAfterDirs(s, dirs, qidPath, owner);
    OldStaysAttachedIff(s, dirs, owner);
    OldPrintsSame(s, dirs, owner);
    OldBodyMatches(s, dirs, kind, owner);
  }

  /** A node that comes back has its qid path. */
  lemma ComesBackOk(s: Store, place: string, parent: Id, name: Name, kind: Kind, metadata: Metadata, id: Id)
    requires Inv(s) && Attached(s, parent) && IsDirAt(s.nodes, parent) && Child(s.nodes, parent, name).Err?
    requires Reattach(s, place, parent, name, metadata.qidPath, kind).1 == Ok(Some(id))
    ensures PushIn(s, place, parent, name, kind, metadata).1 == Ok(id)
  {
    hide Linked, Issued, Tabled, Acyclic, Settled, Attached, PathRelativeTo, Matches, Reattach, Trees;
    ChildOfDirectory(s, parent, name);
    ReattachKeepsInv(s, place, parent, name, metadata.qidPath, kind);
    var t := Reattach(s, place, parent, name, metadata.qidPath, kind).0;
    ReattachedIsOwner(s, place, parent, name, metadata.qidPath, kind, id);
    assert Inverse(s, metadata.qidPath, id) && Inverse(t, metadata.qidPath, id);
    assert t.nodes[id].qidPath == s.nodes[id].qidPath;
  }

  lemma ReattachedIsOwner(s: Store, place: string, parent: Id, name: Name, qidPath: nat, kind: Kind, id: Id)
    requires IsDirAt(s.nodes, parent) && Reattach(s, place, parent, name, qidPath, kind).1 == Ok(Some(id))
    ensures qidPath in s.qidIndex && s.qidIndex[qidPath] == id
  {
  }

  lemma PushInOutcome(s: Store, place: string, dirs: seq<Name>, last: Name, kind: Kind, metadata: Metadata)
    requires Inv(s) && EnsureDirs(s, ROOT_ID, dirs).1.Ok? && Resolve(s.nodes, ROOT_ID, dirs + [last]).Err?
    requires var (t, dir) := EnsureDirs(s, ROOT_ID, dirs);
             var missing := Missing(s.nodes, ROOT_ID, dirs);
             Draws(s, t, missing) && Made(s, ROOT_ID, dirs, t, dir.value)
    ensures var (t, dir) := EnsureDirs(s, ROOT_ID, dirs);
            var missing := Missing(s.nodes, ROOT_ID, dirs);
            PushIn(t, place, dir.value, last, kind, metadata).1 ==
            match Refusal(s, place, kind, metadata.qidPath, missing)
            case Some(e) => Err(e)
            case None => Ok(if metadata.qidPath in s.qidIndex then s.qidIndex[metadata.qidPath] else s.nextId + missing)
  {
    hide Linked, Issued, Indexed, Tabled, Acyclic, Settled, EnsureDirs, Resolve, Attached, PathRelativeTo,
         Drawn, Missing, Draws, Collect, Move, ApplyPushed;
    var (t, dir) := EnsureDirs(s, ROOT_ID, dirs);
    EnsureDirsKeepInv(s, ROOT_ID, dirs);
    EnsureDirsAttach(s, dirs);
    LastChild(s, ROOT_ID, dirs, last, t, dir.value);
    if metadata.qidPath in s.qidIndex {
      OwnerAfterDirs(s, dirs, kind, metadata.qidPath);
    } else {
      DrawnIsMade(s, dirs, metadata.qidPath);
    }
    var back := Reattach(t, place, dir.value, last, metadata.qidPath, kind).1;
    if back.Ok? && back.value.Some? {
      ComesBackOk(t, place, dir.value, last, kind, metadata, back.value.value);
    }
  }

  /** An entry is pushed if and only if a directory has no length, the path names something, no directory on the way is
      something else, qid paths are free for the directories to be made, what is there is of the right kind and may
      have the qid path, and what is not there may come with it. */
  lemma PushOutcome(s: Store, place: string, kind: Kind, metadata: Metadata)
    requires Inv(s)
    ensures var names, r := Segments(place), PlacePushed(s, place, kind, metadata).1;
            var missing := Missing(s.nodes, ROOT_ID, Way(place));
            if kind.DirectoryKind? && metadata.pushed.length != 0 then r == Err(DIRECTORY_LENGTH)
            else if names == [] then r == Err(EPERM)
            else if Blocked(s.nodes, ROOT_ID, Way(place)) then r == Err(ENOTDIR)
            else if !Room(s.qidIndex, s.nextId, missing) then r == Err(QID_EXHAUSTED)
            else
              match Resolve(s.nodes, ROOT_ID, names)
              case Ok(id) =>
                && id in s.nodes
                && r == if !Takes(s.nodes[id].body, kind) then Err(EPERM)
                        else if metadata.qidPath !in s.qidIndex || s.qidIndex[metadata.qidPath] == id then Ok(id)
                        else Err(QID_IN_USE)
              case Err(_) =>
                r == match Refusal(s, place, kind, metadata.qidPath, missing)
                     case Some(e) => Err(e)
                     case None =>
                       Ok(if metadata.qidPath in s.qidIndex then s.qidIndex[metadata.qidPath] else s.nextId + missing)
  {
    hide Blocked, Room, EnsureDirs, Segments, Resolve, Missing, Refusal, Reattach, Draws;
    if Segments(place) != [] {
      WayAndLast(place);
      var dirs, last := Way(place), Segments(place)[|Segments(place)| - 1];
      EnsureDirsIff(s, ROOT_ID, dirs, 0);
      var (t, r) := EnsureDirs(s, ROOT_ID, dirs);
      if r.Ok? {
        LastChild(s, ROOT_ID, dirs, last, t, r.value);
        EnsureDirsKeepInv(s, ROOT_ID, dirs);
        ChildOfDirectory(t, r.value, last);
        if Resolve(s.nodes, ROOT_ID, dirs + [last]).Err? {
          PushInOutcome(s, place, dirs, last, kind, metadata);
        }
      }
    }
  }

  // ----- Entries made on a client's behalf -----

  const OTHER_NODE := "create relay existing node identity mismatch"
  const OTHER_KIND := "create relay existing node kind mismatch"

  lemma CreateInOutcome(s: Store, start: Id, dirs: seq<Name>, last: Name, t: Store, dir: Id, qid: CreatedQid,
                        generation: nat, prefix: string)
    requires Inv(s) && Inv(t) && Made(s, start, dirs, t, dir) && Draws(s, t, Missing(s.nodes, start, dirs))
    ensures var r, missing := CreateIn(t, dir, last, qid, generation, prefix).1, Missing(s.nodes, start, dirs);
            match Resolve(s.nodes, start, dirs + [last])
            case Ok(id) =>
              && id in s.nodes
              && r == if s.nodes[id].qidPath != qid.path then Err(OTHER_NODE)
                      else if qid.directory != s.nodes[id].body.Dir? then Err(OTHER_KIND)
                      else Ok(id)
            case Err(_) =>
              r == if qid.path in s.qidIndex || Drawn(s.qidIndex, s.nextId, missing, qid.path) then Err(QID_IN_USE)
                   else Ok(s.nextId + missing)
  {
    hide Linked, Issued, Tabled, Acyclic, Settled, Resolve, Missing, Drawn;
    LastChild(s, start, dirs, last, t, dir);
    ChildOfDirectory(t, dir, last);
    IndexInverts(s);
  }

  /** A created entry is accepted if and only if its parent exists, the name names something, nothing on the way is
      something else, qid paths are free for the directories to be made, and the entry is either the very one the owner
      reports or not there, with a qid path that is not in use. */
  lemma CreateOutcome(s: Store, parent: Id, name: string, qid: CreatedQid, generation: nat, prefix: string)
    requires Inv(s)
    ensures var names, r := Segments(name), InsertCreated(s, parent, name, qid, generation, prefix).1;
            var missing := Missing(s.nodes, parent, Way(name));
            if names == [] then r == Err(EPERM)
            else if parent !in s.nodes then r == Err(ENOENT)
            else if Blocked(s.nodes, parent, Way(name)) then r == Err(ENOTDIR)
            else if !Room(s.qidIndex, s.nextId, missing) then r == Err(QID_EXHAUSTED)
            else
              match Resolve(s.nodes, parent, names)
              case Ok(id) =>
                && id in s.nodes
                && r == if s.nodes[id].qidPath != qid.path then Err(OTHER_NODE)
                        else if qid.directory != s.nodes[id].body.Dir? then Err(OTHER_KIND)
                        else Ok(id)
              case Err(_) =>
                r == if qid.path in s.qidIndex || Drawn(s.qidIndex, s.nextId, missing, qid.path) then Err(QID_IN_USE)
                     else Ok(s.nextId + missing)
  {
    hide Blocked, Room, EnsureDirs, Segments, Resolve, Missing, Drawn, Draws, CreateIn;
    if Segments(name) != [] {
      WayAndLast(name);
      var dirs, last := Way(name), Segments(name)[|Segments(name)| - 1];
      if IsDirAt(s.nodes, parent) {
        EnsureDirsIff(s, parent, dirs, 0);
        EnsureDirsKeepInv(s, parent, dirs);
        var (t, r) := EnsureDirs(s, parent, dirs);
        if r.Ok? {
          CreateInOutcome(s, parent, dirs, last, t, r.value, qid, generation, prefix);
        }
      } else {
        NoDirNoEntry(s, parent, dirs, last, qid, generation, prefix);
        if parent in s.nodes {
          LeafBlocks(s.nodes, parent, dirs);
        }
      }
    }
  }

  lemma NoDirNoEntry(s: Store, parent: Id, dirs: seq<Name>, last: Name, qid: CreatedQid, generation: nat,
                     prefix: string)
    requires !IsDirAt(s.nodes, parent)
    ensures var e := if parent in s.nodes then ENOTDIR else ENOENT;
            if dirs == [] then
              EnsureDirs(s, parent, dirs) == (s, Ok(parent))
              && CreateIn(s, parent, last, qid, generation, prefix) == (s, Err(e))
            else EnsureDirs(s, parent, dirs) == (s, Err(e))
  {
  }

  /** A child directory is adopted if and only if it has no length, its parent is a directory whose path can be printed
      when the owner wants to hear of removals, and the entry is a directory or is not there and its qid path is not in
      use. */
  lemma AdoptOutcome(s: Store, parent: Id, name: Name, metadata: Metadata, readPrefix: string, removal: Removal)
    requires Inv(s)
    ensures var r := InsertPushedChild(s, parent, name, metadata, readPrefix, removal).1;
            var entries := Kids(s.nodes, parent);
            if metadata.pushed.length != 0 then r == Err(DIRECTORY_LENGTH)
            else if removal.RelayToOwner? && PathRelativeTo(s, parent, ROOT_ID).Err?
            then r == Err(PathRelativeTo(s, parent, ROOT_ID).error)
            else if !IsDirAt(s.nodes, parent) then r == Err(if parent in s.nodes then ENOTDIR else ENOENT)
            else if name in entries then
              r == if IsDirAt(s.nodes, entries[name]) then Ok(entries[name]) else Err(ENOTDIR)
            else r == if metadata.qidPath in s.qidIndex then Err(QID_IN_USE) else Ok(s.nextId)
  {
    hide Inv, PathRelativeTo, Trim, CreatedChildPath, Insert;
    ChildOfDirectory(s, parent, name);
  }

  // ----- Tables -----

  /** Making directories touches neither the tables nor the settings. */
  ghost predicate SameTables(s: Store, t: Store) {
    && t.intakes == s.intakes && t.renameRoots == s.renameRoots && t.principals == s.principals
    && t.principalsRequired == s.principalsRequired && t.logCapacity == s.logCapacity
  }

  lemma {:induction false} EnsureDirsSameTables(s: Store, start: Id, names: seq<Name>)
    ensures SameTables(s, EnsureDirs(s, start, names).0)
    decreases |names|
  {
    if names != [] {
      var (t, r) := EnsureDir(s, start, names[0]);
      if r.Ok? {
        EnsureDirsSameTables(t, r.value, names[1..]);
      }
    }
  }

  lemma InsertSameTables(s: Store, node: Node)
    requires IsDirAt(s.nodes, node.parent)
    ensures SameTables(s, Insert(s, node))
  {
  }

  lemma TouchSameTables(s: Store, id: Id, node: Node)
    ensures SameTables(s, Touch(s, id, node))
  {
  }

  lemma SameTablesTwice(s: Store, t: Store, u: Store)
    requires SameTables(s, t) && SameTables(t, u)
    ensures SameTables(s, u)
  {
  }

  lemma PlaceInSameTables(s: Store, parent: Id, name: Name, body: Leaf)
    ensures SameTables(s, PlaceIn(s, parent, name, body).0)
  {
    hide NextQid, Insert, Touch, SameTables, Republished;
    SelfSameTables(s);
    if IsDirAt(s.nodes, parent) && NextQid(s.qidIndex, s.nextId).Ok? {
      InsertSameTables(s, PlainNode(name, parent, NextQid(s.qidIndex, s.nextId).value, body));
    }
    var child := Child(s.nodes, parent, name);
    if child.Ok? && child.value in s.nodes && Republished(s.nodes[child.value], body, s.logCapacity).Ok? {
      TouchSameTables(s, child.value, Republished(s.nodes[child.value], body, s.logCapacity).value);
    }
  }

  lemma SelfSameTables(s: Store)
    ensures SameTables(s, s)
  {
  }

  lemma CreateInSameTables(s: Store, parent: Id, name: Name, qid: CreatedQid, generation: nat, prefix: string)
    ensures SameTables(s, CreateIn(s, parent, name, qid, generation, prefix).0)
  {
    hide Insert, Touch, SameTables, Recreated;
    SelfSameTables(s);
    if IsDirAt(s.nodes, parent) {
      InsertSameTables(s, CreatedNode(name, parent, qid, generation, prefix));
    }
    var child := Child(s.nodes, parent, name);
    if child.Ok? && child.value in s.nodes {
      TouchSameTables(s, child.value, Recreated(s.nodes[child.value], qid, generation, prefix));
    }
  }

  /** Nor do publishing a leaf and making an entry for a client. */
  lemma PlaceSameTables(s: Store, place: string, body: Leaf)
    ensures SameTables(s, Place(s, place, body).0)
  {
    hide EnsureDirs, Segments, PlaceIn, SameTables;
    SelfSameTables(s);
    if Segments(place) != [] {
      EnsureDirsSameTables(s, ROOT_ID, Way(place));
      var (t, r) := EnsureDirs(s, ROOT_ID, Way(place));
      if r.Ok? {
        PlaceInSameTables(t, r.value, Segments(place)[|Segments(place)| - 1], body);
        SameTablesTwice(s, t, Place(s, place, body).0);
      }
    }
  }

  lemma CreateSameTables(s: Store, parent: Id, name: string, qid: CreatedQid, generation: nat, prefix: string)
    ensures SameTables(s, InsertCreated(s, parent, name, qid, generation, prefix).0)
  {
    hide EnsureDirs, Segments, CreateIn, SameTables;
    SelfSameTables(s);
    if Segments(name) != [] {
      EnsureDirsSameTables(s, parent, Way(name));
      var (t, r) := EnsureDirs(s, parent, Way(name));
      if r.Ok? {
        CreateInSameTables(t, r.value, Segments(name)[|Segments(name)| - 1], qid, generation, prefix);
        SameTablesTwice(s, t, InsertCreated(s, parent, name, qid, generation, prefix).0);
      }
    }
  }
}
