/** Two runs in which a create ends outside the attach root of its client. In both the client attaches at
    /a and asks for a directory b, which the owner makes before the client gets to bind it. */
module FrontCreateEscape {
  import opened Prelude
  import opened Paths
  import opened FrontStore
  import opened FrontCollect
  import opened FrontOps
  import opened FrontReattach
  import opened FrontPaths
  import opened FrontPublish
  import opened FrontPublishPaths
  import opened FrontRetire
  import opened FrontFids
  import opened FrontGrants
  import opened FrontWorld
  import opened FrontLines
  import opened FrontParents
  import opened FrontUproot
  import opened FrontAccess
  import opened FrontEscape

  const RELAY: Option<string> := Some("a")

  const ASKED := CreatedQid(true, 0, 2)

  const COUNTED: map<Id, nat> := map[1 := 1]

  /** The client attaches at /a and asks for /a/b, and the owner makes it. */
  function Asking(): seq<Act> {
    [Other(MakeDirs("a")),
     Other(Retouch(1, Folder(RELAY, map[]))),
     Other(GrantRoot("u", "u", "*", "a")),
     Other(Open(0)),
     Attach(0, 0, "u", ""),
     BeginCreate(0, 0, "b"),
     MakeCreated(0, ASKED)]
  }

  /** The directory /a alone. */
  function Alone(relay: Option<string>): Store {
    Fresh().(nodes := map[0 := Directory("/", 0, 0, map["a" := 1]), 1 := Folder(relay, map[])],
             qidIndex := map[0 := 0, 1 := 1],
             nextId := 2)
  }

  function Given1(refs: map<Id, nat>): Store {
    Alone(RELAY).(principals := map["u" := OWNED], principalsRequired := true, refs := refs)
  }

  const ASKING := Creating(0, CLIENT, "b", 0, "a", map[])

  /** The client with its create under way. */
  function Waiting(s: Store, creating: Creating): Access {
    Access(World(s, map[0 := map[0 := CLIENT]]), map[], map[0 := creating])
  }

  function MadeFor(s: Store): Access {
    Waiting(s, ASKING.(made := map[2 := 2]))
  }

  lemma OneName()
    ensures Segments("b") == ["b"] && Segments("x") == ["x"]
  {
    assert Join(["b"]) == "b" && Join(["x"]) == "x";
    SplitAfterJoin(["b"]);
    SplitAfterJoin(["x"]);
  }

  lemma MakesFolder()
    ensures After(Begin(), Asking()[0]) == Access(World(Alone(None), map[]), map[], map[])
  {
    Texts();
    var s := Fresh();
    assert NextQid(s.qidIndex, 1) == Ok(1);
    assert Insert(s, PlainNode("a", 0, 1, EMPTY_DIR)) == Alone(None);
    assert EnsureDir(s, ROOT_ID, "a") == (Alone(None), Ok(1));
    assert ["a"][1..] == [];
    assert EnsureDirs(Alone(None), 1, []) == (Alone(None), Ok(1));
    assert EnsurePathDir(s, "a").0 == Alone(None);
  }

  lemma SetsRelay()
    ensures After(Access(World(Alone(None), map[]), map[], map[]), Asking()[1]) ==
            Access(World(Alone(RELAY), map[]), map[], map[])
  {
    assert Touch(Alone(None), 1, Folder(RELAY, map[])) == Alone(RELAY);
  }

  lemma OpensSession()
    ensures var a := Access(World(Alone(RELAY), map[]), map[], map[]);
            After(After(a, Asking()[2]), Asking()[3]) == Access(World(Given1(map[]), map[0 := map[]]), map[], map[])
  {
    hide Grant;
    Grants(Alone(RELAY));
  }

  lemma AttachesClient()
    ensures After(Access(World(Given1(map[]), map[0 := map[]]), map[], map[]), Asking()[4]) ==
            Access(World(Given1(COUNTED), map[0 := map[0 := CLIENT]]), map[], map[])
  {
    assert Inc(Given1(map[]), 1) == Given1(COUNTED);
  }

  lemma AsksOwner()
    ensures After(Access(World(Given1(COUNTED), map[0 := map[0 := CLIENT]]), map[], map[]), Asking()[5]) ==
            Waiting(Given1(COUNTED), ASKING)
  {
    var s := Given1(COUNTED);
    assert NamesUp(s.nodes, 1, 1, s.nodes.Keys).Ok?;
    assert NamesUp(s.nodes, 0, ROOT_ID, s.nodes.Keys - {1}).Ok?;
    assert NamesUp(s.nodes, 1, ROOT_ID, s.nodes.Keys).Ok?;
    assert CreateRequest(s, 0, CLIENT, "b") == Some(ASKING);
  }

  lemma OwnerMakes()
    ensures MakeFor(Given1(COUNTED), ASKING, ASKED) == (Owned(RELAY, COUNTED), Ok(2))
  {
    var s := Given1(COUNTED);
    OneName();
    assert ["b"][..0] == [];
    assert EnsureDirs(s, 1, []) == (s, Ok(1));
    assert CreatedNode("b", 1, ASKED, 0, "a") == Directory("b", 1, 2, map[]);
    assert Insert(s, Directory("b", 1, 2, map[])) == Owned(RELAY, COUNTED);
  }

  lemma OwnerAnswers()
    ensures After(Waiting(Given1(COUNTED), ASKING), Asking()[6]) == MadeFor(Owned(RELAY, COUNTED))
  {
    hide InsertCreated;
    OwnerMakes();
  }

  lemma AskingLength()
    ensures |Asking()| == 7
  {
  }

  lemma RunAsks(acts: seq<Act>)
    requires Asking() <= acts
    ensures Acted(Begin(), acts[..7]) == MadeFor(Owned(RELAY, COUNTED))
  {
    hide After, Begin, Asking, Acted, Owned, Waiting, MadeFor, Given1, Alone;
    AskingLength();
    assert forall i :: 0 <= i < 7 ==> acts[i] == Asking()[i];
    ActedNone(acts);
    ActedSnoc(acts, 0);
    ActedSnoc(acts, 1);
    ActedSnoc(acts, 2);
    ActedSnoc(acts, 3);
    ActedSnoc(acts, 4);
    ActedSnoc(acts, 5);
    ActedSnoc(acts, 6);
    MakesFolder();
    SetsRelay();
    OpensSession();
    AttachesClient();
    AsksOwner();
    OwnerAnswers();
  }

  // ----- The node made is brought back elsewhere -----

  /** The owner removes /a and pushes /a/b back before the client binds it. */
  function PushedActs(): seq<Act> {
    Asking() + [Other(Remove("a")), Other(Push("a/b", DirectoryKind, COMING)), FinishCreate(0, 2)]
  }

  lemma RemovesFolder()
    ensures After(MadeFor(Owned(RELAY, COUNTED)), Other(Remove("a"))) == MadeFor(Uprooted(RELAY, COUNTED))
  {
    hide RemoveSubtree;
    RemovingUproots(RELAY, COUNTED);
  }

  /** What a push brings back is at the path pushed and keeps its qid. */
  lemma BackAtItsPath(s: Store, place: string, kind: Kind, metadata: Metadata, id: Id)
    requires Inv(s) && BringsBack(s, place, kind, metadata, id)
    ensures var t := PlacePushed(s, place, kind, metadata).0;
            && Inv(t) && Attached(t, id) && metadata.qidPath in t.qidIndex && t.qidIndex[metadata.qidPath] == id
  {
    var names := Segments(place);
    var dirs, last := names[..|names| - 1], names[|names| - 1];
    var (t, r) := EnsureDirs(s, ROOT_ID, dirs);
    ComebackIff(s, place, kind, metadata, id);
    PlacePushedKeepsInv(s, place, kind, metadata);
    EnsureDirsAttach(s, dirs);
    BackInItsPlace(t, place, dirs, r.value, last, kind, metadata, id);
  }

  lemma BackInItsPlace(s: Store, place: string, at: seq<Name>, parent: Id, name: Name, kind: Kind, metadata: Metadata,
                       id: Id)
    requires Inv(s) && Resolve(s.nodes, ROOT_ID, at) == Ok(parent) && Attached(s, parent)
    requires ComebackIn(s, place, parent, name, kind, metadata.qidPath) == Some(id)
    ensures var t := PushIn(s, place, parent, name, kind, metadata).0;
            && Inv(t) && Attached(t, id) && metadata.qidPath in t.qidIndex && t.qidIndex[metadata.qidPath] == id
  {
    hide Linked, Issued, Tabled, Acyclic, Settled, Move, Collect;
    ChildOfDirectory(s, parent, name);
    ReattachKeepsInv(s, place, parent, name, metadata.qidPath, kind);
    var t := Reattach(s, place, parent, name, metadata.qidPath, kind).0;
    ReattachAt(s, id, parent, name, at, at, []);
    ApplyPushedKeepsInv(t, id, kind, metadata);
    ApplyPushedAt(t, id, kind, metadata, at + [name]);
    ApplyPushedSetsEntry(t, id, kind, metadata);
    var u := ApplyPushed(t, id, kind, metadata).0;
    assert Reaches(u.nodes, ROOT_ID, id);
    MovedKeepsQid(s, id, parent, name);
    assert Inverse(s, metadata.qidPath, id) && Inverse(u, metadata.qidPath, id);
  }

  lemma MovedKeepsQid(s: Store, id: Id, parent: Id, name: Name)
    requires Movable(s, id, parent, name) && id in Collect(Move(s, id, parent, name)).nodes
    ensures Collect(Move(s, id, parent, name)).nodes[id].qidPath == s.nodes[id].qidPath
  {
  }

  /** Nothing above a node that can be reached is ever cut. */
  lemma ReachedIsNotCut(s: Store, from: Id, to: Id)
    requires Inv(s) && Attached(s, to)
    ensures !Cuts(s, from, to)
  {
    hide Indexed, Tabled, Settled, Issued;
    var path: seq<Name> :| Resolve(s.nodes, ROOT_ID, path) == Ok(to);
    LineOfPath(s, path, to);
    forall d, m | Frees(s, from, to, d) && m in Line(s, to) && m in Subtree(s.nodes, d)
      ensures false
    {
      var k :| 0 <= k <= |path| && Resolve(s.nodes, ROOT_ID, path[..k]) == Ok(m);
      assert m in Subtree(s.nodes, ROOT_ID);
      var down: seq<Name> :| Resolve(s.nodes, d, down) == Ok(m);
      TopPathUnique(s, ROOT_ID, path[..k], d, down);
    }
  }

  lemma NodeIsIssued(s: Store, n: Id)
    requires Inv(s) && n in s.nodes
    ensures n < s.nextId
  {
    assert Given(s, n);
  }

  /** Binding a node that can be reached and is out leaves the fid out. */
  lemma BoundOutLeadsOut(w: World, sid: SessionId, fid: Fid, binding: Binding)
    requires GoodWorld(w) && sid in w.sessions && Attached(w.store, binding.node) && binding.root < w.store.nextId
    requires !Confined(w.store, binding.node, binding.root)
    ensures var v := Next(w, Bind(sid, fid, binding));
            && Bound(v, sid, fid) && v.sessions[sid][fid] == binding
            && !Safe(v.store, PairOf(binding)) && LeadsOut(v.store, binding.node, binding.root)
  {
    hide Inv, Confined, CountsAgree, Next, Cuts, LeadsOut;
    BoundIsSafeIff(w, sid, fid, binding);
    BindsFid(w, sid, fid, binding);
    NextKeepsWorld(w, Bind(sid, fid, binding));
    if Bound(w, sid, fid) {
      ReachedIsNotCut(w.store, w.sessions[sid][fid].node, binding.node);
    }
    NextInherits(w, Bind(sid, fid, binding));
    InheritsGrows(w.store, Next(w, Bind(sid, fid, binding)).store);
    NodeIsIssued(w.store, binding.node);
    OutLeadsOut(Next(w, Bind(sid, fid, binding)), sid, fid);
  }

  lemma WaitingIsSafe(s: Store)
    requires Contained(MadeFor(s))
    ensures Safe(s, Pair(2, 1))
  {
    WaitingIsTracked(s);
  }

  lemma WaitingIsTracked(s: Store)
    ensures Tracks(MadeFor(s), Pair(2, 1))
  {
    var a := MadeFor(s);
    var creating := a.creates[0];
    assert 2 in creating.made && Pair(creating.made[2], creating.binding.root) == Pair(2, 1);
    assert Pair(2, 1) in CreatePairs(creating);
  }

  lemma PushedLength()
    ensures |PushedActs()| == 10 && Asking() <= PushedActs()
    ensures PushedActs()[7] == Other(Remove("a")) && PushedActs()[8] == Other(Push("a/b", DirectoryKind, COMING))
    ensures PushedActs()[9] == FinishCreate(0, 2)
  {
  }

  lemma FirstActsSpare(acts: seq<Act>, k: nat)
    requires k <= |acts| && forall i :: 0 <= i < k ==> !acts[i].FinishCreate? && !(acts[i].Other? && acts[i].step.Push?)
    ensures AllSpare(acts[..k])
  {
    hide Acted;
  }

  lemma AskingIsQuiet()
    ensures forall i :: 0 <= i < |Asking()| ==>
              !Asking()[i].FinishCreate? && !(Asking()[i].Other? && Asking()[i].step.Push?)
  {
  }

  lemma RunUproots()
    ensures var acts := PushedActs();
            && Acted(Begin(), acts[..8]) == MadeFor(Uprooted(RELAY, COUNTED))
            && Contained(Acted(Begin(), acts[..8])) && GoodWorld(Acted(Begin(), acts[..8]).world)
  {
    hide Acted, After, Begin, Contained, GoodWorld, Uprooted, Owned, MadeFor, AllSpare, Asking, PushedActs;
    var acts := PushedActs();
    PushedLength();
    AskingLength();
    RunAsks(acts);
    ActedSnoc(acts, 7);
    RemovesFolder();
    AskingIsQuiet();
    FirstActsSpare(acts, 8);
    RunContains(acts[..8]);
    RunKeepsGoodWorld(acts[..8]);
  }

  /** The push lets the node made out, while nobody is bound to it; then the client binds it. */
  lemma CreatedIsLetOut()
    ensures var acts := PushedActs();
            var after := Acted(Begin(), acts);
            && Contained(Acted(Begin(), acts[..8])) && !Contained(Acted(Begin(), acts[..9]))
            && Bound(after.world, 0, 0) && after.world.sessions[0][0] == CLIENT.(node := 2)
            && LeadsOut(after.world.store, 2, CLIENT.root)
  {
    hide Acted, After, Begin, Contained, Confined, Uprooted, Owned, PushedActs, PlacePushed, BringsBack, LetsOut, Next,
      LeadsOut, Inv, CountsAgree;
    var acts, s := PushedActs(), Uprooted(RELAY, COUNTED);
    PushedLength();
    RunUproots();
    ActedSnoc(acts, 8);
    ActedSnoc(acts, 9);
    assert acts[..10] == acts;
    PushesBack(MadeFor(s), "a/b", COMING);
    WaitingIsSafe(s);
    PushLetsOut(RELAY, COUNTED);
    PushConfinesIff(s, "a/b", DirectoryKind, COMING, 2, 1);
    var t := PlacePushed(s, "a/b", DirectoryKind, COMING).0;
    OutIsNotContained(t);
    BackAtItsPath(s, "a/b", DirectoryKind, COMING, 2);
    PushGrows(s, "a/b", DirectoryKind, COMING);
    RunKeepsGoodWorld(acts[..9]);
    BoundOutLeadsOut(MadeFor(t).world, 0, 0, CLIENT.(node := 2));
    Answers(t);
  }

  lemma OutIsNotContained(s: Store)
    requires !Confined(s, 2, 1)
    ensures !Contained(MadeFor(s))
  {
    WaitingIsTracked(s);
  }

  lemma Answers(s: Store)
    requires 2 in s.qidIndex
    ensures After(MadeFor(s), FinishCreate(0, 2)).world ==
            Next(MadeFor(s).world, Bind(0, 0, CLIENT.(node := s.qidIndex[2])))
  {
    hide Next;
  }

  // ----- The qid belongs to another node -----

  const RENAMED := Metadata(5, 0, 0, Pushed(0, 0, "", "", ""))

  /** The owner gives the directory made another qid, and its old qid to a directory /x. */
  function RenamedActs(): seq<Act> {
    Asking() + [Other(Repush(2, RENAMED)), Other(Push("x", DirectoryKind, COMING)), FinishCreate(0, 2)]
  }

  /** The store once qid 2 is free. */
  function Renamed(): Store {
    var s := Owned(RELAY, COUNTED);
    s.(nodes := s.nodes[2 := Directory("b", 1, 5, map[]).(pushed := Some(RENAMED.pushed))],
       qidIndex := map[0 := 0, 1 := 1, 5 := 2])
  }

  /** The store with /x. */
  function Crowded(): Store {
    Insert(Renamed(), PushedNode("x", 0, COMING, EMPTY_DIR))
  }

  lemma FreesQid()
    ensures var s := Owned(RELAY, COUNTED);
            ReplaceQid(s, 2, 5) == (s.(nodes := s.nodes[2 := Directory("b", 1, 5, map[])],
                                       qidIndex := map[0 := 0, 1 := 1, 5 := 2]), Ok(()))
  {
    assert WithQid(Owned(RELAY, COUNTED), 2, 5).qidIndex == map[0 := 0, 1 := 1, 5 := 2];
  }

  lemma RenamesNode()
    ensures ApplyPushed(Owned(RELAY, COUNTED), 2, DirectoryKind, RENAMED).0 == Renamed()
  {
    hide ReplaceQid;
    FreesQid();
    var t := ReplaceQid(Owned(RELAY, COUNTED), 2, 5).0;
    assert Touch(t, 2, WithMetadata(t.nodes[2], DirectoryKind, RENAMED)).nodes == Renamed().nodes;
  }

  lemma OwnerRenames()
    ensures After(MadeFor(Owned(RELAY, COUNTED)), Other(Repush(2, RENAMED))) == MadeFor(Renamed())
  {
    hide ApplyPushed, Renamed;
    RenamesNode();
  }

  lemma OwnerCrowds()
    ensures PlacePushed(Renamed(), "x", DirectoryKind, COMING).0 == Crowded()
  {
    var s := Renamed();
    OneName();
    assert ["x"][..0] == [];
    assert EnsureDirs(s, ROOT_ID, []) == (s, Ok(ROOT_ID));
    assert Reattach(s, "x", ROOT_ID, "x", 2, DirectoryKind) == (s, Ok(None));
  }

  lemma CrowdedIsOut()
    requires Inv(Crowded())
    ensures var s := Crowded();
            && Attached(s, 3) && 2 in s.qidIndex && s.qidIndex[2] == 3 && 1 < s.nextId && !Confined(s, 3, 1)
  {
    hide Linked, Issued, Indexed, Tabled, Settled;
    var s := Crowded();
    ConfinedStep(s, 3, 1);
    ConfinedStep(s, 0, 1);
    assert ["x"][..0] == [];
    assert Resolve(s.nodes, ROOT_ID, []) == Ok(ROOT_ID);
    assert Resolve(s.nodes, ROOT_ID, ["x"]) == Ok(3);
    assert Reaches(s.nodes, ROOT_ID, 3);
  }

  lemma RenamedLength()
    ensures |RenamedActs()| == 10 && Asking() <= RenamedActs()
    ensures RenamedActs()[7] == Other(Repush(2, RENAMED)) && RenamedActs()[8] == Other(Push("x", DirectoryKind, COMING))
    ensures RenamedActs()[9] == FinishCreate(0, 2)
  {
  }

  /** The push of /x brings nothing back. */
  lemma CrowdingSpares()
    ensures Spares(MadeFor(Renamed()), Other(Push("x", DirectoryKind, COMING)))
  {
    hide Tracks;
  }

  lemma RunCrowds()
    ensures var acts := RenamedActs();
            && AllSpare(acts[..9]) && Acted(Begin(), acts[..9]) == MadeFor(Crowded())
  {
    hide Acted, After, Begin, Spares, Renamed, Crowded, Owned, MadeFor, Asking, RenamedActs, PlacePushed;
    var acts := RenamedActs();
    RenamedLength();
    AskingLength();
    RunAsks(acts);
    ActedSnoc(acts, 7);
    ActedSnoc(acts, 8);
    OwnerRenames();
    PushesBack(MadeFor(Renamed()), "x", COMING);
    OwnerCrowds();
    Relocates(Renamed(), Crowded());
    AskingIsQuiet();
    FirstActsSpare(acts, 8);
    CrowdingSpares();
    forall i | 0 <= i < 9
      ensures Spares(Acted(Begin(), acts[..9][..i]), acts[..9][i])
    {
      assert acts[..9][..i] == acts[..i];
      assert i < 8 ==> acts[..8][..i] == acts[..i];
    }
  }

  lemma Relocates(s: Store, t: Store)
    ensures MadeFor(s).world.store == s && MadeFor(s).(world := MadeFor(s).world.(store := t)) == MadeFor(t)
  {
  }

  /** All acts but the last let nobody out; the last binds the client to /x. */
  lemma CreateBindsAnother()
    ensures var acts := RenamedActs();
            var after := Acted(Begin(), acts);
            && AllSpare(acts[..9]) && Contained(Acted(Begin(), acts[..9])) && !Contained(after)
            && Bound(after.world, 0, 0) && after.world.sessions[0][0] == CLIENT.(node := 3)
            && LeadsOut(after.world.store, 3, CLIENT.root)
  {
    hide Acted, After, Begin, Confined, Crowded, RenamedActs, Next, LeadsOut, Inv, CountsAgree, AllSpare, Safe;
    var acts, s := RenamedActs(), Crowded();
    RenamedLength();
    RunCrowds();
    RunContains(acts[..9]);
    RunKeepsGoodWorld(acts[..9]);
    ActedSnoc(acts, 9);
    assert acts[..10] == acts;
    CrowdedIsOut();
    Answers(s);
    BoundOutLeadsOut(MadeFor(s).world, 0, 0, CLIENT.(node := 3));
    var after := Acted(Begin(), acts);
    assert Tracks(after, PairOf(after.world.sessions[0][0]));
  }
}
