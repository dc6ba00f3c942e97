/** What publishing does to the paths clients can walk. */
module FrontPublishPaths {
  import opened Prelude
  import opened Paths
  import opened FrontStore
  import opened FrontCollect
  import opened FrontOps
  import opened FrontReattach
  import opened FrontPaths
  import opened FrontPublish

  /** `path` led to a node, and still leads to that node. */
  ghost predicate Kept(s: Store, t: Store, path: seq<Name>) {
    Resolve(s.nodes, ROOT_ID, path).Ok? ==> Resolve(t.nodes, ROOT_ID, path) == Resolve(s.nodes, ROOT_ID, path)
  }

  /** `path` leads somewhere now and led nowhere before. */
  ghost predicate Gained(s: Store, t: Store, path: seq<Name>) {
    Resolve(t.nodes, ROOT_ID, path).Ok? && !Resolve(s.nodes, ROOT_ID, path).Ok?
  }

  lemma InsertAt(s: Store, node: Node, at: seq<Name>, path: seq<Name>)
    requires Linked(s) && Issued(s) && Insertable(s, node) && Resolve(s.nodes, ROOT_ID, at) == Ok(node.parent)
    ensures var t := Insert(s, node);
            && Kept(s, t, path)
            && (Gained(s, t, path) ==> path == at + [node.name])
            && Resolve(t.nodes, ROOT_ID, at + [node.name]) == Ok(s.nextId)
  {
    var t := Insert(s, node);
    InsertPaths(s, node, ROOT_ID, path);
    if Gained(s, t, path) {
      TopPathUnique(s, ROOT_ID, path[..|path| - 1], ROOT_ID, at);
      assert path == path[..|path| - 1] + [path[|path| - 1]];
    }
    InsertPaths(s, node, ROOT_ID, at);
    ResolveSnoc(t.nodes, ROOT_ID, at, node.name);
  }

  lemma EnsureDirAt(s: Store, at: seq<Name>, start: Id, name: Name, path: seq<Name>)
    requires Inv(s) && Resolve(s.nodes, ROOT_ID, at) == Ok(start)
    ensures var (t, r) := EnsureDir(s, start, name);
            && Kept(s, t, path)
            && (Gained(s, t, path) ==> path == at + [name])
            && (r.Ok? ==> Resolve(t.nodes, ROOT_ID, at + [name]) == Ok(r.value))
  {
    ChildOfDirectory(s, start, name);
    ResolveSnoc(s.nodes, ROOT_ID, at, name);
    var (t, r) := EnsureDir(s, start, name);
    if t != s {
      InsertAt(s, PlainNode(name, start, NextQid(s.qidIndex, s.nextId).value, EMPTY_DIR), at, path);
    }
  }

  /** Making directories gains only prefixes of the path asked for, also when it fails. */
  lemma {:induction false} EnsureDirsAt(s: Store, at: seq<Name>, start: Id, names: seq<Name>, path: seq<Name>)
    requires Inv(s) && Resolve(s.nodes, ROOT_ID, at) == Ok(start)
    ensures var (t, r) := EnsureDirs(s, start, names);
            && Kept(s, t, path)
            && (Gained(s, t, path) ==> path <= at + names)
            && (r.Ok? ==> Resolve(t.nodes, ROOT_ID, at + names) == Ok(r.value))
    decreases |names|
  {
    if names == [] {
      assert at + names == at;
    } else {
      EnsureDirKeepsInv(s, start, names[0]);
      EnsureDirAt(s, at, start, names[0], path);
      var (t, r) := EnsureDir(s, start, names[0]);
      assert at + [names[0]] + names[1..] == at + names;
      if r.Ok? {
        EnsureDirsAt(t, at + [names[0]], r.value, names[1..], path);
      }
    }
  }

  lemma PlaceInAt(s: Store, at: seq<Name>, parent: Id, name: Name, body: Leaf, path: seq<Name>)
    requires Inv(s) && Resolve(s.nodes, ROOT_ID, at) == Ok(parent)
    ensures var (t, r) := PlaceIn(s, parent, name, body);
            && Kept(s, t, path)
            && (Gained(s, t, path) ==> path == at + [name])
            && (r.Ok? ==> Resolve(t.nodes, ROOT_ID, at + [name]) == Ok(r.value))
  {
    ChildOfDirectory(s, parent, name);
    ResolveSnoc(s.nodes, ROOT_ID, at, name);
    var (t, r) := PlaceIn(s, parent, name, body);
    match Child(s.nodes, parent, name) {
      case Ok(id) =>
        if r.Ok? {
          TouchKeepsEdges(s, id, Republished(s.nodes[id], body, s.logCapacity).value);
          SameEdgesSamePath(s.nodes, t.nodes, ROOT_ID, path);
          SameEdgesSamePath(s.nodes, t.nodes, ROOT_ID, at + [name]);
        }
      case Err(_) =>
        if t != s {
          InsertAt(s, PlainNode(name, parent, NextQid(s.qidIndex, s.nextId).value, body), at, path);
        }
    }
  }

  /** After a successful placement the path leads to the node returned; no path changes its target
      and the only paths gained are prefixes of the one placed. A failed placement keeps the rest. */
  lemma PlaceResolves(s: Store, place: string, body: Leaf, path: seq<Name>)
    requires Inv(s)
    ensures var (t, r) := Place(s, place, body);
            && Kept(s, t, path)
            && (Gained(s, t, path) ==> path <= Segments(place))
            && (r.Ok? ==> LookupPath(t, place) == Ok(r.value))
  {
    var names := Segments(place);
    if names != [] {
      var dirs, last := names[..|names| - 1], names[|names| - 1];
      assert names == dirs + [last] && [] + dirs == dirs;
      EnsureDirsKeepInv(s, ROOT_ID, dirs);
      EnsureDirsAt(s, [], ROOT_ID, dirs, path);
      var (t, r) := EnsureDirs(s, ROOT_ID, dirs);
      if r.Ok? {
        PlaceInAt(t, dirs, r.value, last, body, path);
      }
    }
  }

  lemma EnsureDirsAttach(s: Store, names: seq<Name>)
    requires Inv(s)
    ensures var (t, r) := EnsureDirs(s, ROOT_ID, names);
            && Inv(t) && t.refs == s.refs
            && (r.Ok? ==> Resolve(t.nodes, ROOT_ID, names) == Ok(r.value) && Attached(t, r.value))
  {
    EnsureDirsKeepInv(s, ROOT_ID, names);
    EnsureDirsAt(s, [], ROOT_ID, names, []);
    var (t, r) := EnsureDirs(s, ROOT_ID, names);
    assert [] + names == names;
    if r.Ok? {
      assert Reaches(t.nodes, ROOT_ID, r.value);
      if names == [] {
        SubtreeHasSelf(t.nodes, ROOT_ID);
      }
    }
  }

  lemma PlacePushedKeepsInv(s: Store, place: string, kind: Kind, metadata: Metadata)
    requires Inv(s)
    ensures var (t, r) := PlacePushed(s, place, kind, metadata); Inv(t) && t.refs == s.refs
  {
    if SplitPath(place).Ok? {
      var names := SplitPath(place).value;
      EnsureDirsAttach(s, names[..|names| - 1]);
      var (t, r) := EnsureDirs(s, ROOT_ID, names[..|names| - 1]);
      if r.Ok? {
        PushInKeepsInv(t, place, r.value, names[|names| - 1], kind, metadata);
      }
    }
  }

  lemma ApplyPushedAt(s: Store, id: Id, kind: Kind, metadata: Metadata, path: seq<Name>)
    requires Inv(s) && id in s.nodes && Matches(kind, s.nodes[id].body)
    ensures var (t, r) := ApplyPushed(s, id, kind, metadata);
            Resolve(t.nodes, ROOT_ID, path) == Resolve(s.nodes, ROOT_ID, path)
  {
    ApplyPushedKeepsInv(s, id, kind, metadata);
    SameEdgesSamePath(s.nodes, ApplyPushed(s, id, kind, metadata).0.nodes, ROOT_ID, path);
  }

  /** A reattached tree is walkable again at its path, below it exactly as it was, and no path
      that worked is disturbed. */
  lemma ReattachAt(s: Store, id: Id, parent: Id, name: Name, at: seq<Name>, path: seq<Name>, rest: seq<Name>)
    requires Inv(s) && Movable(s, id, parent, name) && Resolve(s.nodes, ROOT_ID, at) == Ok(parent)
    ensures var t := Collect(Move(s, id, parent, name));
            && Kept(s, t, path)
            && (Gained(s, t, path) ==> at + [name] <= path)
            && Resolve(t.nodes, ROOT_ID, at + [name]) == Ok(id)
            && Resolve(t.nodes, ROOT_ID, at + [name] + rest) == Resolve(s.nodes, id, rest)
  {
    var moved := Move(s, id, parent, name);
    MoveKeepsShape(s, id, parent, name);
    MoveResolves(s, id, parent, name, at, rest);
    if Resolve(s.nodes, ROOT_ID, path).Ok? {
      MoveKeepsPaths(s, id, parent, name, path);
    } else if Resolve(moved.nodes, ROOT_ID, path).Ok? {
      MoveOnlyAdds(s, id, parent, name, at, path);
    }
    CollectKeepsPaths(moved, path);
    CollectKeepsPaths(moved, at + [name]);
    CollectKeepsPaths(moved, at + [name] + rest);
  }

  lemma PushInAt(s: Store, place: string, at: seq<Name>, parent: Id, name: Name, kind: Kind, metadata: Metadata,
                 path: seq<Name>)
    requires Inv(s) && Resolve(s.nodes, ROOT_ID, at) == Ok(parent) && Attached(s, parent)
    ensures var (t, r) := PushIn(s, place, parent, name, kind, metadata);
            && Kept(s, t, path)
            && (Gained(s, t, path) ==> at + [name] <= path)
            && (r.Ok? ==> Resolve(t.nodes, ROOT_ID, at + [name]) == Ok(r.value))
  {
    ChildOfDirectory(s, parent, name);
    ResolveSnoc(s.nodes, ROOT_ID, at, name);
    match Child(s.nodes, parent, name) {
      case Ok(id) =>
        if Matches(kind, s.nodes[id].body) {
          ApplyPushedAt(s, id, kind, metadata, path);
          ApplyPushedAt(s, id, kind, metadata, at + [name]);
          ApplyPushedSetsEntry(s, id, kind, metadata);
        }
      case Err(_) =>
        if s.nodes[parent].body.Dir? {
          ReattachKeepsInv(s, place, parent, name, metadata.qidPath, kind);
          match Reattach(s, place, parent, name, metadata.qidPath, kind) {
            case (t, Ok(Some(id))) =>
              ReattachAt(s, id, parent, name, at, path, []);
              ApplyPushedAt(t, id, kind, metadata, path);
              ApplyPushedAt(t, id, kind, metadata, at + [name]);
              ApplyPushedSetsEntry(t, id, kind, metadata);
            case (t, Ok(None)) =>
              InsertAt(s, PushedNode(name, parent, metadata, NewBody(kind)), at, path);
            case (t, Err(_)) =>
          }
        }
    }
  }

  /** After a successful push the path leads to the node returned. No path changes its target, and
      a path gained is on the way to, or below, the one pushed. */
  lemma PlacePushedResolves(s: Store, place: string, kind: Kind, metadata: Metadata, path: seq<Name>)
    requires Inv(s)
    ensures var (t, r) := PlacePushed(s, place, kind, metadata);
            && Kept(s, t, path)
            && (Gained(s, t, path) ==> path <= Segments(place) || Segments(place) <= path)
            && (r.Ok? ==> LookupPath(t, place) == Ok(r.value))
  {
    var names := Segments(place);
    if names != [] {
      var dirs, last := names[..|names| - 1], names[|names| - 1];
      assert names == dirs + [last] && [] + dirs == dirs;
      EnsureDirsAttach(s, dirs);
      EnsureDirsAt(s, [], ROOT_ID, dirs, path);
      var (t, r) := EnsureDirs(s, ROOT_ID, dirs);
      if r.Ok? {
        PushInAt(t, place, dirs, r.value, last, kind, metadata, path);
      }
    }
  }
}
