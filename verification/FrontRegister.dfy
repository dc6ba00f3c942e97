/** Registering intakes and rename relays: `register_intake` of crates/front/src/front.rs and
    `register_rename_relay` of crates/front/src/front/rename.rs. */
module FrontRegister {
  import opened Prelude
  import opened Paths
  import opened FrontStore
  import opened FrontOps
  import opened FrontPaths
  import opened FrontPublish
  import opened FrontPublishPaths
  import opened FrontContents
  import FrontRelay

  const NEW_ENTRY := "/new"

  /** `register_intake`: the entry `new` below the prefix, and its prefix in the table of intakes. */
  function RegisterIntake(s: Store, prefix: string): (Store, Result<()>) {
    if Trim(prefix) == "" then (s, Err(EPERM))
    else
      match Place(s, Trim(prefix) + NEW_ENTRY, IntakeNew(0))
      case (t, Err(e)) => (t, Err(e))
      case (t, Ok(id)) =>
        var u := if id in t.nodes then Touch(t, id, t.nodes[id].(body := IntakeNew(id))) else t;
        (u.(intakes := u.intakes[id := Trim(prefix)]), Ok(()))
  }

  /** `register_rename_relay`: only a directory can be the root of a rename relay. */
  function RegisterRename(s: Store, path: string, prefix: string): (Store, Result<()>) {
    match FrontRelay.Normalised(prefix)
    case Err(e) => (s, Err(e))
    case Ok(normal) =>
      match if Trim(path) == "" then (s, Ok(ROOT_ID)) else EnsurePathDir(s, Trim(path))
      case (t, Err(e)) => (t, Err(e))
      case (t, Ok(root)) =>
        if root !in t.nodes then (t, Err(ENOENT))
        else if !t.nodes[root].body.Dir? then (t, Err(ENOTDIR))
        else (t.(renameRoots := t.renameRoots[root := normal]), Ok(()))
  }

  /** The tables may name any node that exists. */
  lemma TablesAside(s: Store, t: Store)
    requires Inv(s) && t == s.(intakes := t.intakes, renameRoots := t.renameRoots)
    requires t.intakes.Keys <= s.nodes.Keys && t.renameRoots.Keys <= s.nodes.Keys
    ensures Inv(t)
  {
    forall n | n in t.nodes
      ensures SamePlaceAt(s.nodes, t.nodes, n)
    {
    }
    SameQidsKeepIndex(s, t);
    forall n | n in t.refs
      ensures Counted(t, n)
    {
      assert Counted(s, n);
    }
    SameEdgesKeepInv(s, t);
  }

  lemma PlaceInMakesLeaf(s: Store, parent: Id, name: Name, body: Leaf)
    requires Issued(s) && !body.File? && !body.Log?
    ensures var (t, r) := PlaceIn(s, parent, name, body);
            r.Ok? ==> && r.value == s.nextId && s.nextId in t.nodes && t.nodes[s.nextId].body == body
                      && t.intakes == s.intakes
  {
    NextIdIsNew(s);
  }

  lemma {:induction false} EnsureDirsKeepIntakes(s: Store, start: Id, names: seq<Name>)
    ensures EnsureDirs(s, start, names).0.intakes == s.intakes
    decreases |names|
  {
    if names != [] {
      var (t, r) := EnsureDir(s, start, names[0]);
      if r.Ok? {
        EnsureDirsKeepIntakes(t, r.value, names[1..]);
      }
    }
  }

  /** Publishing anything but a file or a log makes a new entry. */
  lemma PlaceMakesLeaf(s: Store, place: string, body: Leaf)
    requires Inv(s) && !body.File? && !body.Log?
    ensures var (t, r) := Place(s, place, body);
            r.Ok? ==> && r.value !in s.nodes && r.value in t.nodes && t.nodes[r.value].body == body
                      && t.intakes == s.intakes && Segments(place) != []
  {
    hide PlaceIn, EnsureDirs, Linked, Indexed, Tabled, Acyclic, Settled;
    var names := Segments(place);
    if names != [] {
      var dirs := names[..|names| - 1];
      EnsureDirsKeepInv(s, ROOT_ID, dirs);
      EnsureDirsExtend(s, ROOT_ID, dirs);
      EnsureDirsKeepIntakes(s, ROOT_ID, dirs);
      var (t, r) := EnsureDirs(s, ROOT_ID, dirs);
      if r.Ok? {
        PlaceInMakesLeaf(t, r.value, names[|names| - 1], body);
        assert t.nextId in s.nodes ==> Given(s, t.nextId);
      }
    }
  }

  lemma RegisterIntakeKeepsInv(s: Store, prefix: string)
    requires Inv(s)
    ensures var t := RegisterIntake(s, prefix).0; Inv(t) && t.refs == s.refs
  {
    hide Linked, Issued, Indexed, Acyclic, Settled, Place;
    var (t, r) := Place(s, Trim(prefix) + NEW_ENTRY, IntakeNew(0));
    PlaceKeepsInv(s, Trim(prefix) + NEW_ENTRY, IntakeNew(0));
    PlaceMakesLeaf(s, Trim(prefix) + NEW_ENTRY, IntakeNew(0));
    if r.Ok? {
      var id := r.value;
      TouchKeepsInv(t, id, t.nodes[id].(body := IntakeNew(id)));
      var u := Touch(t, id, t.nodes[id].(body := IntakeNew(id)));
      TablesAside(u, u.(intakes := u.intakes[id := Trim(prefix)]));
    }
  }

  /** A registered intake is an entry of its own, made now and known by its own id; registering the
      same prefix again is refused. */
  lemma RegisterIntakeMakesEntry(s: Store, prefix: string)
    requires Inv(s) && RegisterIntake(s, prefix).1.Ok?
    ensures var t := RegisterIntake(s, prefix).0;
            var id := LookupPath(t, Trim(prefix) + NEW_ENTRY);
            && id.Ok? && id.value !in s.nodes && id.value in t.nodes
            && t.nodes[id.value].body == IntakeNew(id.value)
            && t.intakes == s.intakes[id.value := Trim(prefix)]
            && RegisterIntake(t, prefix) == (t, Err(EPERM))
  {
    hide Linked, Issued, Indexed, Acyclic, Settled, Place;
    var place := Trim(prefix) + NEW_ENTRY;
    var (t, r) := Place(s, place, IntakeNew(0));
    var id := r.value;
    PlaceMakesLeaf(s, place, IntakeNew(0));
    PlaceKeepsInv(s, place, IntakeNew(0));
    PlaceResolves(s, place, IntakeNew(0), []);
    TouchKeepsInv(t, id, t.nodes[id].(body := IntakeNew(id)));
    RegisterIntakeKeepsInv(s, prefix);
    var u := RegisterIntake(s, prefix).0;
    SameEdgesSamePath(t.nodes, u.nodes, ROOT_ID, Segments(place));
    PlaceAgainFails(u, place, id, IntakeNew(0));
  }

  /** Publishing over an entry that is neither a file nor a log changes nothing. */
  lemma PlaceAgainFails(s: Store, place: string, id: Id, body: Leaf)
    requires Inv(s) && LookupPath(s, place) == Ok(id) && id in s.nodes && Segments(place) != []
    requires !s.nodes[id].body.File? && !s.nodes[id].body.Log?
    ensures Place(s, place, body) == (s, Err(EPERM))
  {
    var names := Segments(place);
    var dirs, last := names[..|names| - 1], names[|names| - 1];
    assert [] + dirs == dirs;
    EnsureDirsFindsDirs(s, [], ROOT_ID, dirs);
  }

  lemma RegisterRenameKeepsInv(s: Store, path: string, prefix: string)
    requires Inv(s)
    ensures var t := RegisterRename(s, path, prefix).0; Inv(t) && t.refs == s.refs
  {
    hide Linked, Issued, Indexed, Acyclic, Settled;
    if FrontRelay.Normalised(prefix).Ok? {
      var (t, r) := if Trim(path) == "" then (s, Ok(ROOT_ID)) else EnsurePathDir(s, Trim(path));
      if Trim(path) != "" && SplitPath(Trim(path)).Ok? {
        EnsureDirsKeepInv(s, ROOT_ID, SplitPath(Trim(path)).value);
      }
      if r.Ok? && r.value in t.nodes {
        TablesAside(t, t.(renameRoots := t.renameRoots[r.value := Trim(prefix)]));
      }
    }
  }
}
