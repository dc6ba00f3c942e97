/** A run in which a push lets a client out of its attach root: the directory /a is made, the client
    attaches at it and walks to /a/b, the owner removes /a and pushes /a/b back. */
module FrontEscape {
  import opened Prelude
  import opened Paths
  import opened FrontStore
  import opened FrontCollect
  import opened FrontOps
  import opened FrontReattach
  import opened FrontPaths
  import opened FrontPublish
  import opened FrontRetire
  import opened FrontFids
  import opened FrontGrants
  import opened FrontWorld
  import opened FrontWalk
  import opened FrontLines
  import opened FrontUproot
  import opened FrontAccess

  const OWNED := PrincipalRoot(1, "a", "u", {"*"})

  const COMING := Metadata(2, 0, 0, Pushed(0, 0, "", "", ""))

  const CLIENT: Binding := Binding(1, 1, "u", "", "u")

  function Directory(name: Name, parent: Id, id: Id, children: map<Name, Id>): Node {
    PlainNode(name, parent, id, Dir(children, None, None))
  }

  /** The directory /a, with or without a relay for creates. */
  function Folder(relay: Option<string>, children: map<Name, Id>): Node {
    Directory("a", 0, 1, children).(createRelay := relay)
  }

  /** The directories /a and /a/b. */
  function Made(relay: Option<string>): Store {
    Fresh().(nodes := map[0 := Directory("/", 0, 0, map["a" := 1]),
                          1 := Folder(relay, map["b" := 2]),
                          2 := Directory("b", 1, 2, map[])],
             qidIndex := map[0 := 0, 1 := 1, 2 := 2],
             nextId := 3)
  }

  /** With the client's attach root at /a, and these references. */
  function Owned(relay: Option<string>, refs: map<Id, nat>): Store {
    Made(relay).(principals := map["u" := OWNED], principalsRequired := true, refs := refs)
  }

  /** After the removal of /a, which somebody holds. */
  function Uprooted(relay: Option<string>, refs: map<Id, nat>): Store {
    Owned(relay, refs).(nodes := map[0 := Directory("/", 0, 0, map[]),
                                     1 := Folder(relay, map["b" := 2]),
                                     2 := Directory("b", 1, 2, map[])],
                        detached := {1})
  }

  lemma Texts()
    ensures Segments("a/b") == ["a", "b"] && Segments("a") == ["a"] && Trim("a/b") == "a/b"
  {
    assert ["a", "b"][1..] == ["b"];
    assert Join(["a", "b"]) == "a/b";
    SplitAfterJoin(["a", "b"]);
    assert Join(["a"]) == "a";
    SplitAfterJoin(["a"]);
  }

  lemma MakingIsMade()
    ensures EnsurePathDir(Fresh(), "a/b").0 == Made(None)
  {
    Texts();
    var s := Fresh();
    var (t, r) := EnsureDir(s, ROOT_ID, "a");
    assert r == Ok(1);
    var (u, q) := EnsureDir(t, 1, "b");
    assert u == Made(None) && q == Ok(2);
    assert ["a", "b"][1..] == ["b"] && ["b"][1..] == [];
    assert EnsureDirs(u, 2, []) == (u, Ok(2));
    assert EnsureDirs(t, 1, ["b"]) == (u, Ok(2));
  }

  /** The removal: the directory is held, so the whole tree stays, detached. */
  lemma RemovingUproots(relay: Option<string>, refs: map<Id, nat>)
    requires 1 in refs
    ensures RemoveSubtree(Owned(relay, refs), "a").0 == Uprooted(relay, refs)
  {
    hide Collect, Detach;
    var s := Owned(relay, refs);
    Texts();
    assert Resolve(s.nodes, ROOT_ID, []) == Ok(ROOT_ID);
    assert ["a"][..0] == [];
    assert LookupPath(s, "a") == Ok(1);
    DetachUproots(relay, refs);
    StaysWhole(relay, refs);
  }

  lemma StaysWhole(relay: Option<string>, refs: map<Id, nat>)
    requires 1 in refs
    ensures Collect(Uprooted(relay, refs)) == Uprooted(relay, refs)
  {
    var t := Uprooted(relay, refs);
    SubtreeHasSelf(t.nodes, 1);
    assert HasRef(t, 1);
    assert Dead(t) == {};
    assert Trees(t.nodes, {}) == {};
    assert RemoveNodes(t, {}) == t;
  }

  lemma DetachUproots(relay: Option<string>, refs: map<Id, nat>)
    ensures Detach(Owned(relay, refs), {1}) == Uprooted(relay, refs)
  {
    hide Detach;
    DetachUprootsNodes(relay, refs);
    DetachIs(Owned(relay, refs), Uprooted(relay, refs).nodes);
  }

  lemma DetachUprootsNodes(relay: Option<string>, refs: map<Id, nat>)
    ensures Detach(Owned(relay, refs), {1}).nodes == Uprooted(relay, refs).nodes
  {
    hide Unlisted;
    UnlistsNode(Directory("/", 0, 0, map["a" := 1]), map[]);
    UnlistsNode(Folder(relay, map["b" := 2]), map["b" := 2]);
    UnlistsNode(Directory("b", 1, 2, map[]), map[]);
  }

  lemma DetachIs(s: Store, nodes: map<Id, Node>)
    requires Detach(s, {1}).nodes == nodes
    ensures Detach(s, {1}) == s.(nodes := nodes, detached := s.detached + {1})
  {
  }

  lemma UnlistsNode(node: Node, children: map<Name, Id>)
    requires node.body.Dir?
    requires children == map k | k in node.body.children && node.body.children[k] != 1 :: node.body.children[k]
    ensures Unlisted(node, {1}) == node.(body := node.body.(children := children))
  {
    assert Unlisted(node, {1}).body.children == children;
  }

  /** The store once the push has made a new /a. */
  function Remade(relay: Option<string>, refs: map<Id, nat>): Store {
    Insert(Uprooted(relay, refs), PlainNode("a", 0, 3, EMPTY_DIR))
  }

  lemma RemakesDirectory(relay: Option<string>, refs: map<Id, nat>)
    ensures EnsureDirs(Uprooted(relay, refs), ROOT_ID, ["a"]).1 == Ok(3)
  {
    var s := Uprooted(relay, refs);
    assert EnsureDir(s, ROOT_ID, "a") == (Remade(relay, refs), Ok(3));
    assert ["a"][1..] == [];
    assert EnsureDirs(Remade(relay, refs), 3, []).1 == Ok(3);
  }

  /** Node 2 is below the detached node 1, and still prints /a/b. */
  lemma StaysDetached(s: Store, relay: Option<string>, refs: map<Id, nat>)
    requires s == Uprooted(relay, refs) && Inv(s)
    ensures !Attached(s, 2) && PathRelativeTo(s, 2, ROOT_ID) == Ok("/a/b")
  {
    hide Issued, Indexed, Tabled, Acyclic, Settled, Attached, PathRelativeTo;
    TopsAreApart(s, 1);
    assert Resolve(s.nodes, 1, []) == Ok(1) && ["b"][..0] == [];
    assert Resolve(s.nodes, 1, ["b"]) == Ok(2);
    BelowDetached(s, 1, ["b"]);
    PrintsItsPath(s, relay);
  }

  lemma LeavesNothing(s: Store, relay: Option<string>, refs: map<Id, nat>)
    requires s == Uprooted(relay, refs)
    ensures Resolve(s.nodes, ROOT_ID, ["a", "b"]).Err? && !OnTheWay(s, ["a"], 1)
  {
    assert ["a"][..0] == [] && ["a"][..1] == ["a"] && ["a", "b"][..1] == ["a"];
    assert Resolve(s.nodes, ROOT_ID, []) == Ok(ROOT_ID);
    assert Resolve(s.nodes, ROOT_ID, ["a"]).Err?;
  }

  /** So pushing /a/b with the qid of node 2 brings it back, out of node 1. */
  lemma PushLetsOut(relay: Option<string>, refs: map<Id, nat>)
    requires Inv(Uprooted(relay, refs))
    ensures BringsBack(Uprooted(relay, refs), "a/b", DirectoryKind, COMING, 2)
    ensures LetsOut(Uprooted(relay, refs), "a/b", DirectoryKind, COMING, 2, 1)
  {
    hide Segments, EnsureDirs, Attached, PathRelativeTo, Resolve, OnTheWay, Trim, Inv;
    var s := Uprooted(relay, refs);
    Texts();
    assert ["a", "b"][..1] == ["a"];
    RemakesDirectory(relay, refs);
    StaysDetached(s, relay, refs);
    LeavesNothing(s, relay, refs);
    assert "/" + "a/b" == "/a/b";
    assert Passes(s, 2, 1, 2) by {
      PassesItself(s, 2, 1);
    }
  }

  lemma PassesItself(s: Store, n: Id, root: Id)
    requires Inv(s) && n != root
    ensures Passes(s, n, root, n)
  {
    PassesStep(s, n, root, n);
  }

  lemma PrintsItsPath(s: Store, relay: Option<string>)
    requires {1, 2} <= s.nodes.Keys
    requires s.nodes[2] == Directory("b", 1, 2, map[]) && s.nodes[1] == Folder(relay, map["b" := 2])
    ensures PathRelativeTo(s, 2, ROOT_ID) == Ok("/a/b")
  {
    var keys := s.nodes.Keys;
    assert NamesUp(s.nodes, 0, ROOT_ID, keys - {2} - {1}) == Ok([]);
    assert [] + ["a"] == ["a"];
    assert NamesUp(s.nodes, 1, ROOT_ID, keys - {2}) == Ok(["a"]);
    assert NamesUp(s.nodes, 2, ROOT_ID, keys) == Ok(["a"] + ["b"]);
    assert ["a"] + ["b"] == ["a", "b"] && ["a", "b"][1..] == ["b"];
    assert Join(["a", "b"]) == "a/b" && "/" + "a/b" == "/a/b";
  }

  // ----- Runs, one act at a time -----

  lemma ActedSnoc(acts: seq<Act>, k: nat)
    requires k < |acts|
    ensures Acted(Begin(), acts[..k + 1]) == After(Acted(Begin(), acts[..k]), acts[k])
  {
    assert acts[..k + 1][..k] == acts[..k];
  }

  lemma ActedNone(acts: seq<Act>)
    ensures Acted(Begin(), acts[..0]) == Begin()
  {
  }

  lemma PushesBack(a: Access, place: string, metadata: Metadata)
    ensures After(a, Other(Push(place, DirectoryKind, metadata))) ==
            a.(world := a.world.(store := PlacePushed(a.world.store, place, DirectoryKind, metadata).0))
  {
    hide PlacePushed;
  }

  // ----- The run -----

  /** The client attaches at /a and walks to /a/b; the owner removes /a and pushes /a/b back. */
  function Acts(): seq<Act> {
    [Other(MakeDirs("a/b")),
     Other(GrantRoot("u", "u", "*", "a")),
     Other(Open(0)),
     Attach(0, 0, "u", ""),
     BeginWalk(0, 0, 1, ["b"]),
     Lock(0),
     Lock(0),
     FinishWalk(0),
     Other(Remove("a")),
     Other(Push("a/b", DirectoryKind, COMING))]
  }

  /** The client attached, with one fid on its attach root. */
  function Entered(walks: map<SessionId, Walking>): Access {
    Access(World(Owned(None, map[1 := 1]), map[0 := map[0 := CLIENT]]), walks, map[])
  }

  function WalkingTo(seen: seq<Store>): Access {
    Entered(map[0 := Walking(1, CLIENT, ["b"], seen)])
  }

  /** The client with a second fid, on /a/b. */
  function Holding(s: Store): Access {
    Access(World(s, map[0 := map[0 := CLIENT, 1 := CLIENT.(node := 2)]]), map[], map[])
  }

  lemma MakesDirectories()
    ensures After(Begin(), Acts()[0]) == Access(World(Made(None), map[]), map[], map[])
  {
    hide EnsurePathDir;
    MakingIsMade();
  }

  lemma Opens()
    ensures var a := Access(World(Made(None), map[]), map[], map[]);
            After(After(a, Acts()[1]), Acts()[2]) == Access(World(Owned(None, map[]), map[0 := map[]]), map[], map[])
  {
    hide Grant;
    Grants(Made(None));
  }

  /** The user is given the root /a. */
  lemma Grants(s: Store)
    requires Resolve(s.nodes, ROOT_ID, ["a"]) == Ok(1) && 1 in s.nodes && s.nodes[1].body.Dir? && "u" !in s.principals
    ensures Grant(s, "u", "u", "*", "a").0 == s.(principals := s.principals["u" := OWNED], principalsRequired := true)
  {
    OneSegment("a");
  }

  lemma OneSegment(name: string)
    requires |name| == 1 && name[0] != '/'
    ensures Segments(name) == [name] && Trim(name) == name
  {
    SplitName(name, "");
    assert TrimStart(name) == name && TrimEnd(name) == name;
  }

  lemma Enters()
    ensures After(Access(World(Owned(None, map[]), map[0 := map[]]), map[], map[]), Acts()[3]) == Entered(map[])
  {
    assert Inc(Owned(None, map[]), 1) == Owned(None, map[1 := 1]);
  }

  lemma Walks()
    ensures var s := Owned(None, map[1 := 1]);
            && After(Entered(map[]), Acts()[4]) == WalkingTo([])
            && After(WalkingTo([]), Acts()[5]) == WalkingTo([s])
            && After(WalkingTo([s]), Acts()[6]) == WalkingTo([s, s])
  {
    hide Owned, After;
    var s := Owned(None, map[1 := 1]);
    WalkBegins();
    WalkLocks([]);
    WalkLocks([s]);
    assert [] + [s] == [s] && [s] + [s] == [s, s];
  }

  lemma WalkBegins()
    ensures After(Entered(map[]), BeginWalk(0, 0, 1, ["b"])) == WalkingTo([])
  {
    hide Owned, Next;
  }

  lemma WalkLocks(seen: seq<Store>)
    ensures After(WalkingTo(seen), Lock(0)) == WalkingTo(seen + [Owned(None, map[1 := 1])])
  {
    hide Owned, Next;
  }

  lemma WalkEnds(s: Store)
    requires s == Owned(None, map[1 := 1])
    ensures WalkOf(Walking(1, CLIENT, ["b"], [s, s])) == Looking([], 2, [2])
  {
    TwoLocks(s, s, 1, Looking(["b"], 1, []));
    assert ["b"][1..] == [] && [] + [2] == [2];
  }

  lemma Finishes(s: Store)
    requires s == Owned(None, map[1 := 1])
    ensures After(WalkingTo([s, s]), Acts()[7]) == Holding(Owned(None, map[1 := 1, 2 := 1]))
  {
    hide WalkOf;
    WalkEnds(s);
    assert Inc(s, 2) == Owned(None, map[1 := 1, 2 := 1]);
  }

  lemma Leaves()
    ensures After(Holding(Owned(None, map[1 := 1, 2 := 1])), Acts()[8]) == Holding(Uprooted(None, map[1 := 1, 2 := 1]))
  {
    hide RemoveSubtree;
    RemovingUproots(None, map[1 := 1, 2 := 1]);
  }

  lemma Length()
    ensures |Acts()| == 10
  {
  }

  lemma RunHolds()
    ensures Acted(Begin(), Acts()[..9]) == Holding(Uprooted(None, map[1 := 1, 2 := 1]))
  {
    hide After, Begin, Acts, Acted, Owned, Holding, WalkingTo, Entered, Uprooted;
    var acts := Acts();
    Length();
    ActedNone(acts);
    ActedSnoc(acts, 0);
    ActedSnoc(acts, 1);
    ActedSnoc(acts, 2);
    ActedSnoc(acts, 3);
    ActedSnoc(acts, 4);
    ActedSnoc(acts, 5);
    ActedSnoc(acts, 6);
    ActedSnoc(acts, 7);
    ActedSnoc(acts, 8);
    MakesDirectories();
    Opens();
    Enters();
    Walks();
    Finishes(Owned(None, map[1 := 1]));
    Leaves();
  }

  lemma HeldIsSafe(s: Store)
    requires Contained(Holding(s))
    ensures Safe(s, Pair(2, 1))
  {
    var a := Holding(s);
    assert Bound(a.world, 0, 1);
    assert Tracks(a, PairOf(a.world.sessions[0][1]));
  }

  /** Up to the push the client is within its attach root; after it, the fid on /a/b is out, and ".."
      leads from it to the root of the namespace. */
  lemma PushLetsClientOut()
    ensures var before, after := Acted(Begin(), Acts()[..9]), Acted(Begin(), Acts());
            && Contained(before) && Bound(after.world, 0, 1)
            && after.world.sessions[0][1] == CLIENT.(node := 2)
            && LeadsOut(after.world.store, 2, CLIENT.root)
  {
    hide Acted, After, Contained, Confined, PlacePushed, Begin, LetsOut, Uprooted, LeadsOut, GoodWorld;
    var acts, s := Acts(), Uprooted(None, map[1 := 1, 2 := 1]);
    assert AllSpare(acts[..9]);
    RunContains(acts[..9]);
    RunKeepsGoodWorld(acts[..9]);
    RunKeepsGoodWorld(acts);
    RunHolds();
    ActedSnoc(acts, 9);
    assert acts[..10] == acts;
    assert Holding(s).world.sessions[0][1] == CLIENT.(node := 2);
    GoodIsInv(Holding(s).world);
    HeldIsSafe(s);
    PushesBack(Holding(s), "a/b", COMING);
    PushLetsOut(None, map[1 := 1, 2 := 1]);
    PushConfinesIff(s, "a/b", DirectoryKind, COMING, 2, 1);
    OutLeadsOut(Acted(Begin(), acts).world, 0, 1);
  }

  lemma GoodIsInv(w: World)
    requires GoodWorld(w)
    ensures Inv(w.store)
  {
  }

  /** A fid that is out is on a node that exists, so ".." can leave from it. */
  lemma OutLeadsOut(w: World, sid: SessionId, fid: Fid)
    requires GoodWorld(w) && Bound(w, sid, fid)
    requires !Confined(w.store, w.sessions[sid][fid].node, w.sessions[sid][fid].root)
    ensures LeadsOut(w.store, w.sessions[sid][fid].node, w.sessions[sid][fid].root)
  {
    hide Confined, CountsAgree, Indexed, Issued, Tabled, Settled;
    BoundNodeIsCounted(w, sid, fid);
    var rank: map<Id, nat> :| Ranked(w.store, rank);
    WalkOut(w.store, rank, w.sessions[sid][fid].node, w.sessions[sid][fid].root, []);
    assert [] + Line(w.store, w.sessions[sid][fid].node)[1..] == Line(w.store, w.sessions[sid][fid].node)[1..];
  }
}
