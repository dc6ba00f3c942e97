/** What a push leaves alone, and what adopting a child makes: crates/front/src/model.rs. */
module FrontPushEffects {
  import opened Prelude
  import opened Paths
  import opened FrontStore
  import opened FrontCollect
  import opened FrontOps
  import opened FrontReattach
  import opened FrontRetire
  import opened FrontPaths
  import opened FrontPublish
  import opened FrontPublishPaths
  import opened FrontContents
  import opened FrontRoom
  import opened FrontOutcomes

  /** The node is as it was, but for the entries of a directory. */
  predicate Alike(x: Node, y: Node) {
    if x.body.Dir? then y.body.Dir? && y == x.(body := x.body.(children := y.body.children)) else y == x
  }

  ghost predicate OthersAlike(s: Store, t: Store, id: Id) {
    forall n :: n in s.nodes && n in t.nodes && n != id ==> Alike(s.nodes[n], t.nodes[n])
  }

  /** The relays of a node, which only its owner's registrations set. */
  predicate SameRelays(x: Node, y: Node) {
    && x.createRelay == y.createRelay && x.writeRelay == y.writeRelay
    && x.removeRelay == y.removeRelay && x.wstatRelay == y.wstatRelay
  }

  /** Pushing onto a node that is there keeps its relays and a directory's entries, */
  predicate PushedOver(x: Node, y: Node, kind: Kind) {
    SameRelays(x, y) && (kind.DirectoryKind? ==> Still(x, x.(body := y.body)))
  }

  /** and a node that is made has none. */
  predicate PushedNew(y: Node, kind: Kind) {
    SameRelays(y, y.(createRelay := None, writeRelay := None, removeRelay := None, wstatRelay := None))
    && (kind.DirectoryKind? ==> y.body == EMPTY_DIR)
  }

  lemma SelfIsStill(x: Node)
    ensures Still(x, x)
  {
  }

  lemma MetadataOver(x: Node, qidPath: nat, kind: Kind, metadata: Metadata)
    ensures PushedOver(x, WithMetadata(x.(qidPath := qidPath), kind, metadata), kind)
  {
  }

  lemma ReplaceQidNodes(s: Store, id: Id, qidPath: nat)
    requires id in s.nodes
    ensures var (t, r) := ReplaceQid(s, id, qidPath);
            r.Ok? ==> t.nodes == s.nodes[id := s.nodes[id].(qidPath := qidPath)]
  {
    var x := s.nodes[id];
    if x.qidPath == qidPath {
      assert x.(qidPath := qidPath) == x;
    }
  }

  lemma ApplyPushedNodes(s: Store, id: Id, kind: Kind, metadata: Metadata)
    requires id in s.nodes
    ensures var (t, r) := ApplyPushed(s, id, kind, metadata);
            r.Ok? ==>
              t.nodes == s.nodes[id := WithMetadata(s.nodes[id].(qidPath := metadata.qidPath), kind, metadata)]
  {
    hide WithMetadata, ReplaceQid;
    ReplaceQidNodes(s, id, metadata.qidPath);
  }

  lemma ApplyPushedOver(s: Store, id: Id, kind: Kind, metadata: Metadata)
    requires id in s.nodes
    ensures var (t, r) := ApplyPushed(s, id, kind, metadata);
            r.Ok? ==> id in t.nodes && PushedOver(s.nodes[id], t.nodes[id], kind) && OthersStill(s, t, id)
  {
    hide Still, PushedOver, WithMetadata, ApplyPushed;
    MetadataOver(s.nodes[id], metadata.qidPath, kind, metadata);
    ApplyPushedNodes(s, id, kind, metadata);
    forall n | n in s.nodes
      ensures Still(s.nodes[n], s.nodes[n])
    {
      SelfIsStill(s.nodes[n]);
    }
  }

  lemma NotOwnChild(s: Store, id: Id)
    requires Inv(s)
    ensures forall name :: name in Kids(s.nodes, id) ==> Kids(s.nodes, id)[name] != id
  {
    var rank: map<Id, nat> :| Ranked(s, rank);
    forall name | name in Kids(s.nodes, id)
      ensures Kids(s.nodes, id)[name] != id
    {
      assert EntryOk(s, id, name);
      assert id != ROOT_ID ==> RankFalls(s, rank, id);
    }
  }

  lemma UnlistedAlike(x: Node, id: Id)
    ensures Alike(x, Unlisted(x, {id})) && SameRelays(x, Unlisted(x, {id}))
    ensures (x.body.Dir? ==> forall name :: name in x.body.children ==> x.body.children[name] != id) ==>
              Unlisted(x, {id}).body == x.body
  {
  }

  lemma MoveAt(s: Store, id: Id, parent: Id, name: Name, n: Id)
    requires Movable(s, id, parent, name) && n in s.nodes
    ensures n in Move(s, id, parent, name).nodes
    ensures var y := Move(s, id, parent, name).nodes[n];
            && SameRelays(s.nodes[n], y) && (n != id ==> Alike(s.nodes[n], y))
            && (n == id ==> y.body == Unlisted(s.nodes[n], {id}).body)
  {
    hide Unlisted, Reaches;
    UnlistedAlike(s.nodes[n], id);
    UnlistedAlike(s.nodes[parent], id);
  }

  /** A node that comes back is as it was, and so are all the others that stay. */
  lemma MovedOver(s: Store, id: Id, parent: Id, name: Name)
    requires Inv(s) && Movable(s, id, parent, name) && id in Collect(Move(s, id, parent, name)).nodes
    ensures var t := Collect(Move(s, id, parent, name));
            SameRelays(s.nodes[id], t.nodes[id]) && t.nodes[id].body == s.nodes[id].body && OthersAlike(s, t, id)
  {
    hide Inv, Unlisted, Trees, Reaches, Alike, SameRelays, Move;
    NotOwnChild(s, id);
    assert s.nodes[id].body.Dir? ==> Kids(s.nodes, id) == s.nodes[id].body.children;
    UnlistedAlike(s.nodes[id], id);
    forall n | n in s.nodes
      ensures n in Move(s, id, parent, name).nodes
      ensures var y := Move(s, id, parent, name).nodes[n];
              && SameRelays(s.nodes[n], y) && (n != id ==> Alike(s.nodes[n], y))
              && (n == id ==> y.body == Unlisted(s.nodes[n], {id}).body)
    {
      MoveAt(s, id, parent, name, n);
    }
  }

  ghost predicate PushLeaves(s: Store, t: Store, id: Id, kind: Kind) {
    && id in t.nodes && OthersAlike(s, t, id)
    && (if id in s.nodes then PushedOver(s.nodes[id], t.nodes[id], kind) else PushedNew(t.nodes[id], kind))
  }

  lemma StillIsAlike(s: Store, t: Store, id: Id)
    requires OthersStill(s, t, id)
    ensures OthersAlike(s, t, id)
  {
    forall n | n in s.nodes && n in t.nodes && n != id
      ensures Alike(s.nodes[n], t.nodes[n])
    {
      assert StillAt(s, t, n);
    }
  }

  lemma AlikeCompose(s: Store, t: Store, u: Store, id: Id)
    requires OthersAlike(s, t, id) && OthersAlike(t, u, id)
    requires forall n :: n in s.nodes && n in u.nodes ==> n in t.nodes
    ensures OthersAlike(s, u, id)
  {
    forall n | n in s.nodes && n in u.nodes && n != id
      ensures Alike(s.nodes[n], u.nodes[n])
    {
      assert Alike(s.nodes[n], t.nodes[n]) && Alike(t.nodes[n], u.nodes[n]);
    }
  }

  lemma PushInLeaves(s: Store, place: string, parent: Id, name: Name, kind: Kind, metadata: Metadata)
    requires Inv(s) && Attached(s, parent)
    ensures var (t, r) := PushIn(s, place, parent, name, kind, metadata);
            r.Ok? ==> PushLeaves(s, t, r.value, kind)
  {
    hide Linked, Indexed, Tabled, Acyclic, Settled, Reaches, Alike, Still, OthersAlike, OthersStill, PushedOver, Insert,
         ApplyPushed, Move, Reattach, PathRelativeTo, Collect;
    ChildOfDirectory(s, parent, name);
    var (t, r) := PushIn(s, place, parent, name, kind, metadata);
    if r.Ok? {
      if Child(s.nodes, parent, name).Ok? {
        var id := Child(s.nodes, parent, name).value;
        ApplyPushedOver(s, id, kind, metadata);
        ApplyPushedSetsEntry(s, id, kind, metadata);
        StillIsAlike(s, t, id);
      } else {
        ReattachKeepsInv(s, place, parent, name, metadata.qidPath, kind);
        var (u, back) := Reattach(s, place, parent, name, metadata.qidPath, kind);
        if back.value.Some? {
          BackLeaves(s, u, parent, name, back.value.value, kind, metadata);
        } else {
          NewLeaves(s, PushedNode(name, parent, metadata, NewBody(kind)), kind);
        }
      }
    }
  }

  lemma BackLeaves(s: Store, u: Store, parent: Id, name: Name, id: Id, kind: Kind, metadata: Metadata)
    requires Inv(s) && Movable(s, id, parent, name) && u == Collect(Move(s, id, parent, name)) && id in u.nodes
    requires ApplyPushed(u, id, kind, metadata).1.Ok?
    ensures PushLeaves(s, ApplyPushed(u, id, kind, metadata).0, id, kind)
    ensures ApplyPushed(u, id, kind, metadata).1 == Ok(id)
  {
    hide Inv, Reaches, Alike, Still, OthersAlike, OthersStill, Move, Collect, ReplaceQid;
    var t := ApplyPushed(u, id, kind, metadata).0;
    MovedOver(s, id, parent, name);
    ApplyPushedOver(u, id, kind, metadata);
    StillIsAlike(u, t, id);
    ApplyPushedNodes(u, id, kind, metadata);
    AlikeCompose(s, u, t, id);
    SameBodyOver(s.nodes[id], u.nodes[id], t.nodes[id], kind);
  }

  lemma SameBodyOver(x: Node, y: Node, z: Node, kind: Kind)
    requires SameRelays(x, y) && y.body == x.body && PushedOver(y, z, kind)
    ensures PushedOver(x, z, kind)
  {
  }

  lemma NewLeaves(s: Store, node: Node, kind: Kind)
    requires Inv(s) && PushedNew(node, kind) && Insertable(s, node)
    ensures PushLeaves(s, Insert(s, node), s.nextId, kind)
  {
    InsertMakes(s, node);
    NextIdIsNew(s);
    StillIsAlike(s, Insert(s, node), s.nextId);
  }

  /** The node pushed was there before the directories on the way were made, or was made after them. */
  lemma PushedIsOldOrLast(s: Store, place: string, kind: Kind, metadata: Metadata)
    requires Inv(s) && PlacePushed(s, place, kind, metadata).1.Ok?
    ensures var t, id := EnsureDirs(s, ROOT_ID, Way(place)).0, PlacePushed(s, place, kind, metadata).1.value;
            id in t.nodes ==> id in s.nodes
  {
    hide Tabled, Acyclic, Settled, EnsureDirs, Blocked, Room, Resolve, Missing, Matches, Draws, PlacePushed, Segments,
          Attached, PathRelativeTo, Drawn;
    PushOutcome(s, place, kind, metadata);
    EnsureDirsIff(s, ROOT_ID, Way(place), 0);
    EnsureDirsKeepInv(s, ROOT_ID, Way(place));
    NextIdIsNew(EnsureDirs(s, ROOT_ID, Way(place)).0);
    IndexInverts(s);
  }

  lemma LeavesCompose(s: Store, t: Store, u: Store, id: Id, kind: Kind)
    requires Issued(s) && Extends(s, t) && PushLeaves(t, u, id, kind) && (id in t.nodes ==> id in s.nodes)
    ensures PushLeaves(s, u, id, kind)
  {
    hide Still;
    assert StillAt(s, t, id);
    if id in s.nodes {
      OverCompose(s.nodes[id], t.nodes[id], u.nodes[id], kind);
    }
    forall n | n in s.nodes && n in u.nodes && n != id
      ensures Alike(s.nodes[n], u.nodes[n])
    {
      assert StillAt(s, t, n) && Alike(t.nodes[n], u.nodes[n]);
      AlikeAfterStill(s.nodes[n], t.nodes[n], u.nodes[n]);
    }
  }

  lemma OverCompose(x: Node, y: Node, z: Node, kind: Kind)
    requires Still(x, y) && PushedOver(y, z, kind)
    ensures PushedOver(x, z, kind)
  {
  }

  lemma AlikeAfterStill(x: Node, y: Node, z: Node)
    requires Still(x, y) && Alike(y, z)
    ensures Alike(x, z)
  {
  }

  /** A successful push keeps the relays of a node that was there and the entries of a directory, gives a new node none,
      and leaves every other node as it is but for the entries of directories. */
  lemma PlacePushedLeaves(s: Store, place: string, kind: Kind, metadata: Metadata)
    requires Inv(s)
    ensures var (t, r) := PlacePushed(s, place, kind, metadata);
            r.Ok? ==> PushLeaves(s, t, r.value, kind)
  {
    hide Linked, Indexed, Tabled, Acyclic, Settled, Reaches, Alike, Still, OthersAlike, OthersStill, PushedOver, PushIn,
         EnsureDirs, PushedNew, PushLeaves;
    if PlacePushed(s, place, kind, metadata).1.Ok? {
      WayAndLast(place);
      var dirs, last := Way(place), Segments(place)[|Segments(place)| - 1];
      EnsureDirsAttach(s, dirs);
      EnsureDirsExtend(s, ROOT_ID, dirs);
      var (t, dir) := EnsureDirs(s, ROOT_ID, dirs);
      PushInLeaves(t, place, dir.value, last, kind, metadata);
      PushedIsOldOrLast(s, place, kind, metadata);
      LeavesCompose(s, t, PlacePushed(s, place, kind, metadata).0, PlacePushed(s, place, kind, metadata).1.value, kind);
    }
  }

  /** The settings stay, and the tables of intakes and rename relays lose only nodes that are gone. */
  ghost predicate TablesFollow(s: Store, t: Store) {
    && t.intakes == (map n | n in s.intakes && n in t.nodes :: s.intakes[n])
    && t.renameRoots == (map n | n in s.renameRoots && n in t.nodes :: s.renameRoots[n])
    && t.principals == s.principals && t.principalsRequired == s.principalsRequired && t.logCapacity == s.logCapacity
  }

  lemma SameTablesFollow(s: Store, t: Store)
    requires Inv(s) && SameTables(s, t) && s.nodes.Keys <= t.nodes.Keys
    ensures TablesFollow(s, t)
  {
    assert s.intakes == (map n | n in s.intakes && n in t.nodes :: s.intakes[n]);
    assert s.renameRoots == (map n | n in s.renameRoots && n in t.nodes :: s.renameRoots[n]);
  }

  lemma FollowCompose(s: Store, t: Store, u: Store)
    requires SameTables(s, t) && TablesFollow(t, u)
    ensures TablesFollow(s, u)
  {
  }

  lemma ApplyPushedTables(s: Store, id: Id, kind: Kind, metadata: Metadata)
    requires id in s.nodes
    ensures var t := ApplyPushed(s, id, kind, metadata).0;
            SameTables(s, t) && t.nodes.Keys == s.nodes.Keys
  {
    hide WithMetadata, ReplaceQid;
    ReplaceQidTables(s, id, metadata.qidPath);
  }

  lemma ReplaceQidTables(s: Store, id: Id, qidPath: nat)
    requires id in s.nodes
    ensures var t := ReplaceQid(s, id, qidPath).0;
            SameTables(s, t) && t.nodes.Keys == s.nodes.Keys
  {
  }

  lemma CollectedFollow(s: Store, id: Id, parent: Id, name: Name)
    requires Inv(s) && Movable(s, id, parent, name)
    ensures TablesFollow(s, Collect(Move(s, id, parent, name)))
  {
    hide Linked, Issued, Indexed, Acyclic, Settled, Trees, Unlisted, Reaches;
    var t := Collect(Move(s, id, parent, name));
    assert t.intakes == (map n | n in s.intakes && n in t.nodes :: s.intakes[n]);
    assert t.renameRoots == (map n | n in s.renameRoots && n in t.nodes :: s.renameRoots[n]);
  }

  lemma PushInTables(s: Store, place: string, parent: Id, name: Name, kind: Kind, metadata: Metadata)
    requires Inv(s) && Attached(s, parent)
    ensures TablesFollow(s, PushIn(s, place, parent, name, kind, metadata).0)
  {
    hide Linked, Indexed, Tabled, Acyclic, Settled, Reaches, ApplyPushed, Move, Reattach, PathRelativeTo, Collect,
         TablesFollow, Insert;
    var t := PushIn(s, place, parent, name, kind, metadata).0;
    ChildOfDirectory(s, parent, name);
    SameTablesFollow(s, s);
    if Child(s.nodes, parent, name).Ok? {
      ApplyPushedTables(s, Child(s.nodes, parent, name).value, kind, metadata);
      SameTablesFollow(s, ApplyPushed(s, Child(s.nodes, parent, name).value, kind, metadata).0);
    } else if s.nodes[parent].body.Dir? {
      ReattachKeepsInv(s, place, parent, name, metadata.qidPath, kind);
      var (u, back) := Reattach(s, place, parent, name, metadata.qidPath, kind);
      if back.Ok? && back.value.Some? {
        CollectedFollow(s, back.value.value, parent, name);
        ApplyPushedTables(u, back.value.value, kind, metadata);
        FollowSame(s, u, t);
      } else if back.Ok? {
        InsertFollows(s, PushedNode(name, parent, metadata, NewBody(kind)));
      }
    }
  }

  lemma FollowSame(s: Store, t: Store, u: Store)
    requires TablesFollow(s, t) && SameTables(t, u) && u.nodes.Keys == t.nodes.Keys
    ensures TablesFollow(s, u)
  {
  }

  lemma InsertFollows(s: Store, node: Node)
    requires Inv(s) && Insertable(s, node)
    ensures TablesFollow(s, Insert(s, node))
  {
    SameTablesFollow(s, Insert(s, node));
  }

  lemma PlacePushedTables(s: Store, place: string, kind: Kind, metadata: Metadata)
    requires Inv(s)
    ensures TablesFollow(s, PlacePushed(s, place, kind, metadata).0)
  {
    hide Linked, Indexed, Tabled, Acyclic, Settled, PushIn, EnsureDirs, TablesFollow, Segments, Reaches, Still;
    SameTablesFollow(s, s);
    if Segments(place) != [] {
      WayAndLast(place);
      var dirs, last := Way(place), Segments(place)[|Segments(place)| - 1];
      EnsureDirsAttach(s, dirs);
      EnsureDirsExtend(s, ROOT_ID, dirs);
      EnsureDirsSameTables(s, ROOT_ID, dirs);
      var (t, dir) := EnsureDirs(s, ROOT_ID, dirs);
      forall n | n in s.nodes
        ensures n in t.nodes
      {
        assert StillAt(s, t, n);
      }
      SameTablesFollow(s, t);
      if dir.Ok? {
        PushInTables(t, place, dir.value, last, kind, metadata);
        FollowCompose(s, t, PushIn(t, place, dir.value, last, kind, metadata).0);
      }
    }
  }

  // ----- Adopting a child directory -----

  /** The path of a child, as removals of it are announced. */
  lemma ChildRelayIsPath(s: Store, at: seq<Name>, parent: Id, name: Name)
    requires Inv(s) && Resolve(s.nodes, ROOT_ID, at) == Ok(parent) && Printable(at) && Printable(at + [name])
    ensures ChildRemoveRelay(s, parent, name, RelayToOwner) == Ok(Some(Join(at + [name])))
  {
    hide Linked, Issued, Indexed, Tabled, Acyclic, Settled, Segments;
    PrintsPath(s, at, parent);
    ChildText(at, name);
  }

  lemma PrintsPath(s: Store, at: seq<Name>, id: Id)
    requires Inv(s) && Resolve(s.nodes, ROOT_ID, at) == Ok(id)
    ensures PathRelativeTo(s, id, ROOT_ID) == Ok(PathText(at))
  {
    assert Reaches(s.nodes, ROOT_ID, id);
    LookupFindsNodes(s, at);
    var names := LookupInvertsPath(s, id);
    TopPathUnique(s, ROOT_ID, names, ROOT_ID, at);
  }

  lemma ChildText(at: seq<Name>, name: Name)
    requires Printable(at) && Printable(at + [name])
    ensures Trim(CreatedChildPath(PathText(at), name)) == Join(at + [name])
  {
    var text := CreatedChildPath(PathText(at), name);
    if at == [] {
      assert at + [name] == [name];
      assert text == PathText([name]);
    } else {
      JoinLast(at, name);
      SplitAfterJoin(at);
      SplitEnds(Join(at));
      assert PathText(at)[|PathText(at)| - 1] != '/';
      assert text == PathText(at + [name]);
    }
    PrintedNamesReadBack(at + [name]);
    SegmentsArePrintable(text);
  }

  /** What adopting a child directory makes: an entry that was there only gets the owner's removal relay, if the owner
      wants one; a new one is an empty directory read through the owner's prefix, with the owner's qid and metadata.
      Nothing else changes. */
  lemma AdoptMakes(s: Store, parent: Id, name: Name, metadata: Metadata, readPrefix: string, removal: Removal)
    requires Inv(s)
    ensures var (t, r) := InsertPushedChild(s, parent, name, metadata, readPrefix, removal);
            if r.Err? then t == s
            else
              var id, relay := r.value, ChildRemoveRelay(s, parent, name, removal);
              && id in t.nodes && OthersStill(s, t, id) && SameTables(s, t)
              && relay.Ok? && (relay.value.Some? <==> removal.RelayToOwner?)
              && (if name in Kids(s.nodes, parent)
                  then
                    && id == Kids(s.nodes, parent)[name] && id in s.nodes
                    && t.nodes[id] == s.nodes[id].(removeRelay := t.nodes[id].removeRelay)
                    && t.nodes[id].removeRelay == if relay.value.Some? then relay.value else s.nodes[id].removeRelay
                  else
                    && id == s.nextId && Carries(t.nodes[id], DirectoryKind, metadata)
                    && t.nodes[id].name == name && t.nodes[id].parent == parent
                    && t.nodes[id].body == Dir(map[], Some(readPrefix), None) && t.nodes[id].removeRelay == relay.value
                    && t.nodes[id].createRelay == t.nodes[id].writeRelay == t.nodes[id].wstatRelay == None)
  {
    hide Linked, Indexed, Tabled, Acyclic, Settled, PathRelativeTo, Trim, CreatedChildPath, OthersStill, EntryOk,
         Insert;
    ChildOfDirectory(s, parent, name);
    var (t, r) := InsertPushedChild(s, parent, name, metadata, readPrefix, removal);
    if r.Ok? {
      var relay := ChildRemoveRelay(s, parent, name, removal).value;
      if name in Kids(s.nodes, parent) {
        TouchLeaves(s, r.value, t);
      } else {
        var node := PushedNode(name, parent, metadata, Dir(map[], Some(readPrefix), None)).(removeRelay := relay);
        InsertMakes(s, node);
        InsertSameTables(s, node);
      }
    }
  }

  lemma TouchLeaves(s: Store, id: Id, t: Store)
    requires id in t.nodes && t.nodes == s.nodes[id := t.nodes[id]]
    ensures OthersStill(s, t, id)
  {
    forall n | n in s.nodes
      ensures Still(s.nodes[n], s.nodes[n])
    {
      SelfIsStill(s.nodes[n]);
    }
  }

  // ----- Directories on the way, and entries made for a client -----

  ghost predicate NewDirsArePlain(s: Store, t: Store) {
    forall n :: n in t.nodes && n !in s.nodes ==> t.nodes[n].body.Dir? && IsPlain(t.nodes[n])
  }

  lemma EnsureDirMakesPlain(s: Store, parent: Id, name: Name)
    requires Inv(s)
    ensures NewDirsArePlain(s, EnsureDir(s, parent, name).0)
  {
    hide Linked, Indexed, Tabled, Acyclic, Settled, EntryOk, NextQid;
    ChildOfDirectory(s, parent, name);
    NextIdIsNew(s);
  }

  /** The directories made on the way to a path are empty of everything but their entries. */
  lemma {:induction false} EnsureDirsMakePlain(s: Store, start: Id, names: seq<Name>)
    requires Inv(s)
    ensures NewDirsArePlain(s, EnsureDirs(s, start, names).0)
    decreases |names|
  {
    hide Inv, EnsureDir, Still, IsPlain;
    if names != [] {
      var (t, r) := EnsureDir(s, start, names[0]);
      EnsureDirKeepsInv(s, start, names[0]);
      EnsureDirMakesPlain(s, start, names[0]);
      if r.Ok? {
        var u := EnsureDirs(t, r.value, names[1..]).0;
        EnsureDirsMakePlain(t, r.value, names[1..]);
        EnsureDirsExtend(t, r.value, names[1..]);
        forall n | n in u.nodes && n !in s.nodes
          ensures u.nodes[n].body.Dir? && IsPlain(u.nodes[n])
        {
          if n in t.nodes {
            assert StillAt(t, u, n);
            StillIsPlain(t.nodes[n], u.nodes[n]);
          }
        }
      }
    }
  }

  lemma StillIsPlain(x: Node, y: Node)
    requires Still(x, y) && x.body.Dir? && IsPlain(x)
    ensures y.body.Dir? && IsPlain(y)
  {
  }

  /** What making an entry for a client leaves: the other relays and the metadata of one that was there, and the entries
      of a directory; a new one has none. */
  ghost predicate CreateLeaves(s: Store, t: Store, id: Id, qid: CreatedQid) {
    && id in t.nodes
    && var y := t.nodes[id];
       if id in s.nodes then
         var x := s.nodes[id];
         && y.createRelay == x.createRelay && y.removeRelay == x.removeRelay && y.wstatRelay == x.wstatRelay
         && y.pushed == x.pushed && (qid.directory ==> y.writeRelay == x.writeRelay && y.body == x.body)
       else
         && y.createRelay == None && y.removeRelay == None && y.wstatRelay == None && y.pushed == None
         && (qid.directory ==> y.writeRelay == None && y.body == EMPTY_DIR)
  }

  lemma CreateInLeaves(s: Store, parent: Id, name: Name, qid: CreatedQid, generation: nat, prefix: string)
    requires Inv(s)
    ensures var (t, r) := CreateIn(s, parent, name, qid, generation, prefix);
            r.Ok? ==> CreateLeaves(s, t, r.value, qid)
  {
    hide Linked, Indexed, Tabled, Acyclic, Settled, EntryOk, Insert, Still, Recreated, CreatedNode;
    ChildOfDirectory(s, parent, name);
    NextIdIsNew(s);
    var (t, r) := CreateIn(s, parent, name, qid, generation, prefix);
    if r.Ok? {
      if Child(s.nodes, parent, name).Ok? {
        RecreatedLeaves(s.nodes[r.value], qid, generation, prefix);
      } else {
        CreatedIsNew(name, parent, qid, generation, prefix);
        InsertMakes(s, CreatedNode(name, parent, qid, generation, prefix));
      }
    }
  }

  lemma RecreatedLeaves(x: Node, qid: CreatedQid, generation: nat, prefix: string)
    ensures var y := Recreated(x, qid, generation, prefix);
            && y.createRelay == x.createRelay && y.removeRelay == x.removeRelay && y.wstatRelay == x.wstatRelay
            && y.pushed == x.pushed && (qid.directory ==> y.writeRelay == x.writeRelay && y.body == x.body)
  {
  }

  lemma CreatedIsNew(name: Name, parent: Id, qid: CreatedQid, generation: nat, prefix: string)
    ensures var y := CreatedNode(name, parent, qid, generation, prefix);
            && y.name == name && y.parent == parent && y.qidPath == qid.path
            && y.createRelay == None && y.removeRelay == None && y.wstatRelay == None && y.pushed == None
            && (qid.directory ==> y.writeRelay == None && y.body == EMPTY_DIR)
            && (y.body.Dir? ==> y.body.children == map[])
  {
  }

  lemma InsertCreatedLeaves(s: Store, parent: Id, name: string, qid: CreatedQid, generation: nat, prefix: string)
    requires Inv(s)
    ensures var (t, r) := InsertCreated(s, parent, name, qid, generation, prefix);
            r.Ok? ==> CreateLeaves(s, t, r.value, qid)
  {
    hide Linked, Indexed, Tabled, Acyclic, Settled, EnsureDirs, CreateIn, Segments, Blocked, Room, Missing, Draws,
         Resolve, Drawn, Still, CreateLeaves;
    var (u, r) := InsertCreated(s, parent, name, qid, generation, prefix);
    if r.Ok? {
      WayAndLast(name);
      var dirs, last := Way(name), Segments(name)[|Segments(name)| - 1];
      var (t, dir) := EnsureDirs(s, parent, dirs);
      CreateOutcome(s, parent, name, qid, generation, prefix);
      EnsureDirsKeepInv(s, parent, dirs);
      CreateInLeaves(t, dir.value, last, qid, generation, prefix);
      if !s.nodes[parent].body.Dir? {
        LeafBlocks(s.nodes, parent, dirs);
      }
      EnsureDirsIff(s, parent, dirs, 0);
      LastChild(s, parent, dirs, last, t, dir.value);
      if Resolve(s.nodes, parent, Segments(name)).Err? {
        NextIdIsNew(t);
        EnsureDirsExtend(s, parent, dirs);
        assert StillAt(s, t, r.value);
        NewLeavesToo(s, t, u, r.value, qid);
      }
    }
  }

  lemma NewLeavesToo(s: Store, t: Store, u: Store, id: Id, qid: CreatedQid)
    requires CreateLeaves(t, u, id, qid) && id !in t.nodes && id !in s.nodes
    ensures CreateLeaves(s, u, id, qid)
  {
  }
}
