/** When bringing a detached node back lets a session out of its attach root. */
module FrontUproot {
  import opened Prelude
  import opened Paths
  import opened FrontStore
  import opened FrontCollect
  import opened FrontOps
  import opened FrontReattach
  import opened FrontPublish
  import opened FrontPublishPaths
  import opened FrontRetire
  import opened FrontFids
  import opened FrontPaths
  import opened FrontContents
  import opened FrontWalk
  import opened FrontParents
  import opened FrontLines

  // ----- The move itself -----

  lemma {:induction false} RankOnLine(s: Store, rank: map<Id, nat>, m: Id, id: Id)
    requires Ranked(s, rank) && m in s.nodes && id in s.nodes && id in Line(s, m)
    ensures id == m || rank[id] < rank[m]
    decreases rank[m]
  {
    assert Acyclic(s);
    OnLineStep(s, m, id);
    if id != m {
      var p := s.nodes[m].parent;
      assert RankFalls(s, rank, m);
      OnLineStep(s, p, id);
      if p in s.nodes {
        RankOnLine(s, rank, p, id);
      }
    }
  }

  /** A detached tree with a fid in it, and without the moved node, keeps that fid. */
  lemma MoveKeepsRef(s: Store, id: Id, parent: Id, name: Name, d: Id)
    requires Inv(s) && Movable(s, id, parent, name) && d in s.detached && id !in Subtree(s.nodes, d)
    ensures HasRef(Move(s, id, parent, name), d)
  {
    assert HasRef(s, d);
    var n :| n in s.refs && n in Subtree(s.nodes, d);
    var path: seq<Name> :| Resolve(s.nodes, d, path) == Ok(n);
    MoveKeepsPathsFrom(s, id, parent, name, d, path);
    assert Reaches(Move(s, id, parent, name).nodes, d, n);
  }

  lemma NotDeadSurvives(s: Store, d: Id)
    requires Linked(s) && d in s.nodes && IsTop(s, d) && d !in Dead(s)
    ensures d in Collect(s).nodes
  {
    CollectKeepsTree(s, d);
    SubtreeHasSelf(s.nodes, d);
  }

  lemma ChildSurvives(s: Store, m: Id)
    requires Linked(s) && m in s.nodes && !IsTop(s, m) && s.nodes[m].parent in Collect(s).nodes
    ensures m in Collect(s).nodes
  {
    TreesStep(s, Dead(s), m);
  }

  /** Whatever has the moved node on its line is still there afterwards. */
  lemma {:induction false} BelowMovedSurvives(s: Store, rank: map<Id, nat>, id: Id, parent: Id, name: Name, m: Id)
    requires Inv(s) && Ranked(s, rank) && Movable(s, id, parent, name) && m in s.nodes && id in Line(s, m)
    ensures m in Collect(Move(s, id, parent, name)).nodes
    decreases rank[m]
  {
    var moved := Move(s, id, parent, name);
    MoveKeepsShape(s, id, parent, name);
    OnLineStep(s, m, id);
    if m == id {
      MovedIsAttached(s, id, parent, name);
      CollectKeepsTree(moved, ROOT_ID);
    } else {
      var p := s.nodes[m].parent;
      assert RankFalls(s, rank, m);
      OnLineStep(s, p, id);
      BelowMovedSurvives(s, rank, id, parent, name, p);
      if m in s.detached {
        RankOnLine(s, rank, m, id);
        assert id !in Subtree(s.nodes, m) by {
          if id in Subtree(s.nodes, m) {
            var path: seq<Name> :| Resolve(s.nodes, m, path) == Ok(id);
            RankGrowsDown(s, rank, m, path);
          }
        }
        MoveKeepsRef(s, id, parent, name, m);
        NotDeadSurvives(moved, m);
      } else {
        ChildSurvives(moved, m);
      }
    }
  }

  /** `t` is `s` with `id` under `parent` and possibly fewer nodes. */
  ghost predicate Moved(s: Store, t: Store, id: Id, parent: Id, n: Id) {
    n in t.nodes ==> n in s.nodes && t.nodes[n].parent == if n == id then parent else s.nodes[n].parent
  }

  lemma MovedNodes(s: Store, id: Id, parent: Id, name: Name, n: Id)
    requires Movable(s, id, parent, name)
    ensures Moved(s, Collect(Move(s, id, parent, name)), id, parent, n)
    ensures Collect(Move(s, id, parent, name)).nextId == s.nextId
  {
  }

  /** Reachable nodes keep their lines. */
  lemma LineOfParent(s: Store, id: Id, parent: Id, name: Name, root: Id)
    requires Shape(s) && Movable(s, id, parent, name)
    ensures var t := Collect(Move(s, id, parent, name));
            && (root in Line(t, parent) <==> root in Line(s, parent))
            && Last(Line(t, parent)) == ROOT_ID
  {
    var t := Collect(Move(s, id, parent, name));
    var at: seq<Name> :| Resolve(s.nodes, ROOT_ID, at) == Ok(parent);
    MoveKeepsShape(s, id, parent, name);
    CollectIsSound(Move(s, id, parent, name));
    forall k | 0 <= k <= |at|
      ensures Resolve(t.nodes, ROOT_ID, at[..k]) == Resolve(s.nodes, ROOT_ID, at[..k])
    {
      PrefixResolves(s, at[..k], at);
      MoveKeepsPaths(s, id, parent, name, at[..k]);
      CollectKeepsPaths(Move(s, id, parent, name), at[..k]);
    }
    assert at[..|at|] == at;
    LineOfPath(s, at, parent);
    LineOfPath(t, at, parent);
  }

  lemma {:induction false} MovedLine(s: Store, rank: map<Id, nat>, id: Id, parent: Id, name: Name, n: Id, root: Id)
    requires Inv(s) && Ranked(s, rank) && Movable(s, id, parent, name) && Confined(s, n, root)
    ensures Confined(Collect(Move(s, id, parent, name)), n, root) <==>
              !(Passes(s, n, root, id) && root !in Line(s, parent))
    decreases if n in rank then rank[n] + 1 else 0
  {
    var t := Collect(Move(s, id, parent, name));
    MoveKeepsShape(s, id, parent, name);
    CollectIsSound(Move(s, id, parent, name));
    MovedNodes(s, id, parent, name, n);
    ConfinedStep(s, n, root);
    ConfinedStep(t, n, root);
    PassesStep(s, n, root, id);
    if n == id {
      BelowMovedSurvives(s, rank, id, parent, name, id);
      LineOfParent(s, id, parent, name, root);
    } else if n != root && GoesOn(s, n) {
      assert RankFalls(s, rank, n);
      MovedLine(s, rank, id, parent, name, s.nodes[n].parent, root);
      if n !in t.nodes && id in Line(s, n) {
        BelowMovedSurvives(s, rank, id, parent, name, n);
      }
      if n !in t.nodes && Passes(s, n, root, id) {
        PassedIsOnLine(s, n, root, id);
      }
    }
  }

  // ----- A whole push -----

  ghost predicate SameParent(s: Store, t: Store, n: Id) {
    && (n in s.nodes <==> n in t.nodes)
    && (n in s.nodes ==> t.nodes[n].parent == s.nodes[n].parent)
  }

  lemma {:induction false} SameLine(s: Store, t: Store, rank: map<Id, nat>, n: Id)
    requires Acyclic(s) && Issued(s) && Ranked(t, rank) && n < s.nextId
    requires forall m: Id {:trigger SameParent(s, t, m)} :: m < s.nextId ==> SameParent(s, t, m)
    ensures Line(t, n) == Line(s, n)
    decreases if n in rank then rank[n] + 1 else 0
  {
    assert Acyclic(t);
    assert SameParent(s, t, n);
    if GoesOn(s, n) {
      assert Given(s, n) && RankFalls(t, rank, n);
      LineStep(s, n);
      LineStep(t, n);
      SameLine(s, t, rank, s.nodes[n].parent);
    }
  }

  lemma EnsureDirsKeepLine(s: Store, start: Id, names: seq<Name>, n: Id)
    requires Inv(s) && n < s.nextId
    ensures Line(EnsureDirs(s, start, names).0, n) == Line(s, n)
  {
    var t := EnsureDirs(s, start, names).0;
    EnsureDirsKeepInv(s, start, names);
    EnsureDirsExtend(s, start, names);
    EnsureDirsInherit(s, start, names);
    forall m: Id | m < s.nextId
      ensures SameParent(s, t, m)
    {
      assert StillAt(s, t, m) && ParentKept(s, t, m);
    }
    var rank: map<Id, nat> :| Ranked(t, rank);
    SameLine(s, t, rank, n);
  }

  lemma SameEdgesSameLine(s: Store, t: Store, n: Id)
    requires Shape(s) && Acyclic(t) && SameEdges(s.nodes, t.nodes) && n < s.nextId
    ensures Line(t, n) == Line(s, n)
  {
    forall m: Id
      ensures SameParent(s, t, m)
    {
      assert m in s.nodes ==> SamePlaceAt(s.nodes, t.nodes, m);
    }
    var rank: map<Id, nat> :| Ranked(t, rank);
    SameLine(s, t, rank, n);
  }

  /** The detached node that publishing `name` in `parent` brings back, if it brings one back. */
  ghost function ComebackIn(s: Store, place: string, parent: Id, name: Name, kind: Kind, qidPath: nat): Option<Id> {
    if Child(s.nodes, parent, name).Ok? || parent !in s.nodes || !s.nodes[parent].body.Dir? then None
    else
      match Reattach(s, place, parent, name, qidPath, kind)
      case (_, Ok(back)) => back
      case (_, Err(_)) => None
  }

  ghost function Comeback(s: Store, place: string, kind: Kind, metadata: Metadata): Option<Id> {
    var names := Segments(place);
    if names == [] || (kind.DirectoryKind? && metadata.pushed.length != 0) then None
    else
      match EnsureDirs(s, ROOT_ID, names[..|names| - 1])
      case (_, Err(_)) => None
      case (t, Ok(parent)) => ComebackIn(t, place, parent, names[|names| - 1], kind, metadata.qidPath)
  }

  lemma ReattachConfinesIff(
    s: Store, place: string, parent: Id, name: Name, kind: Kind, metadata: Metadata, id: Id, n: Id, root: Id)
    requires Inv(s) && Attached(s, parent) && n < s.nextId && Confined(s, n, root)
    requires ComebackIn(s, place, parent, name, kind, metadata.qidPath) == Some(id)
    ensures Confined(PushIn(s, place, parent, name, kind, metadata).0, n, root) <==>
              !(Passes(s, n, root, id) && root !in Line(s, parent))
  {
    hide Linked, Issued, Indexed, Tabled, Settled, Confined, Passes, Line, Collect, Move, ApplyPushed;
    ChildOfDirectory(s, parent, name);
    ReattachKeepsInv(s, place, parent, name, metadata.qidPath, kind);
    var t := Reattach(s, place, parent, name, metadata.qidPath, kind).0;
    var rank: map<Id, nat> :| Ranked(s, rank);
    MovedNodes(s, id, parent, name, n);
    MovedLine(s, rank, id, parent, name, n, root);
    ApplyPushedKeepsInv(t, id, kind, metadata);
    ApplyPushedSameLine(t, id, kind, metadata, n, root);
  }

  lemma ApplyPushedSameLine(s: Store, id: Id, kind: Kind, metadata: Metadata, n: Id, root: Id)
    requires Inv(s) && id in s.nodes && Matches(kind, s.nodes[id].body) && n < s.nextId
    ensures Confined(ApplyPushed(s, id, kind, metadata).0, n, root) <==> Confined(s, n, root)
  {
    ApplyPushedKeepsInv(s, id, kind, metadata);
    SameEdgesSameLine(s, ApplyPushed(s, id, kind, metadata).0, n);
  }

  lemma OtherPushInConfines(
    s: Store, place: string, parent: Id, name: Name, kind: Kind, metadata: Metadata, n: Id, root: Id)
    requires Inv(s) && Attached(s, parent) && n < s.nextId && Confined(s, n, root)
    requires ComebackIn(s, place, parent, name, kind, metadata.qidPath) == None
    ensures Confined(PushIn(s, place, parent, name, kind, metadata).0, n, root)
  {
    hide Linked, Indexed, Tabled, Settled, Confined, ApplyPushed, Inherits;
    var t := PushIn(s, place, parent, name, kind, metadata).0;
    PushInKeepsInv(s, place, parent, name, kind, metadata);
    ChildOfDirectory(s, parent, name);
    InheritsSelf(s);
    if Child(s.nodes, parent, name).Ok? {
      ApplyPushedInherits(s, Child(s.nodes, parent, name).value, kind, metadata);
    } else if s.nodes[parent].body.Dir? {
      ReattachKeepsInv(s, place, parent, name, metadata.qidPath, kind);
      InsertInherits(s, PushedNode(name, parent, metadata, NewBody(kind)));
    }
    var rank: map<Id, nat> :| Ranked(t, rank);
    InheritsConfines(s, t, rank, n, root);
  }

  /** Some directory on the way to `place`, other than `place` itself, is `root`. */
  ghost predicate OnTheWay(s: Store, dirs: seq<Name>, root: Id) {
    exists k :: 0 <= k <= |dirs| && Resolve(s.nodes, ROOT_ID, dirs[..k]) == Ok(root)
  }

  lemma EnsureDirGainsNew(s: Store, at: seq<Name>, start: Id, name: Name, path: seq<Name>)
    requires Inv(s) && Resolve(s.nodes, ROOT_ID, at) == Ok(start)
    ensures var t := EnsureDir(s, start, name).0;
            Gained(s, t, path) ==> Resolve(t.nodes, ROOT_ID, path).value >= s.nextId
  {
    var (t, r) := EnsureDir(s, start, name);
    EnsureDirAt(s, at, start, name, path);
    ChildOfDirectory(s, start, name);
    if t != s && path == at + [name] {
      assert r == Ok(s.nextId);
    }
  }

  /** Making directories opens no way to a node that was there before. */
  lemma {:induction false} EnsureDirsGainNew(s: Store, at: seq<Name>, start: Id, names: seq<Name>, path: seq<Name>)
    requires Inv(s) && Resolve(s.nodes, ROOT_ID, at) == Ok(start)
    ensures var t := EnsureDirs(s, start, names).0;
            Gained(s, t, path) ==> Resolve(t.nodes, ROOT_ID, path).value >= s.nextId
    decreases |names|
  {
    if names != [] {
      EnsureDirKeepsInv(s, start, names[0]);
      EnsureDirAt(s, at, start, names[0], path);
      EnsureDirGainsNew(s, at, start, names[0], path);
      EnsureDirInherits(s, start, names[0]);
      var (t, r) := EnsureDir(s, start, names[0]);
      if r.Ok? {
        EnsureDirsGainNew(t, at + [names[0]], r.value, names[1..], path);
        EnsureDirsAt(t, at + [names[0]], r.value, names[1..], path);
      }
    }
  }

  lemma WayOfMadeDirs(s: Store, dirs: seq<Name>, root: Id)
    requires Inv(s) && root < s.nextId && EnsureDirs(s, ROOT_ID, dirs).1.Ok?
    ensures var (t, r) := EnsureDirs(s, ROOT_ID, dirs);
            root in Line(t, r.value) <==> OnTheWay(s, dirs, root)
  {
    var (t, r) := EnsureDirs(s, ROOT_ID, dirs);
    EnsureDirsAttach(s, dirs);
    LineOfPath(t, dirs, r.value);
    forall k | 0 <= k <= |dirs|
      ensures Resolve(t.nodes, ROOT_ID, dirs[..k]) == Ok(root) <==> Resolve(s.nodes, ROOT_ID, dirs[..k]) == Ok(root)
    {
      EnsureDirsAt(s, [], ROOT_ID, dirs, dirs[..k]);
      EnsureDirsGainNew(s, [], ROOT_ID, dirs, dirs[..k]);
    }
  }

  // ----- What comes back, read off the store before the push -----

  /** Directories that are made can be reached. */
  lemma {:induction false} MadeDirIsAttached(s: Store, at: seq<Name>, start: Id, names: seq<Name>, id: Id)
    requires Inv(s) && Resolve(s.nodes, ROOT_ID, at) == Ok(start)
    requires id in EnsureDirs(s, start, names).0.nodes && s.nextId <= id
    ensures Attached(EnsureDirs(s, start, names).0, id)
    decreases |names|
  {
    hide Linked, Indexed, Tabled, Acyclic, Settled;
    assert id in s.nodes ==> Given(s, id);
    if names != [] {
      EnsureDirKeepsInv(s, start, names[0]);
      EnsureDirAt(s, at, start, names[0], at);
      ChildOfDirectory(s, start, names[0]);
      var (t, r) := EnsureDir(s, start, names[0]);
      if r.Ok? {
        var next, path := EnsureDirs(t, r.value, names[1..]).0, at + [names[0]];
        EnsureDirsAt(t, path, r.value, names[1..], path);
        if t.nextId <= id {
          MadeDirIsAttached(t, path, r.value, names[1..], id);
        } else {
          assert id == s.nextId && r.value == id;
          assert Reaches(next.nodes, ROOT_ID, id);
        }
      }
    }
  }

  lemma OldStaysAttachedIff(s: Store, dirs: seq<Name>, id: Id)
    requires Inv(s) && id in s.nodes
    ensures Attached(EnsureDirs(s, ROOT_ID, dirs).0, id) <==> Attached(s, id)
  {
    hide Linked, Indexed, Tabled, Acyclic, Settled, EnsureDirs;
    var t := EnsureDirs(s, ROOT_ID, dirs).0;
    EnsureDirsExtend(s, ROOT_ID, dirs);
    assert StillAt(s, t, id) && Given(s, id);
    forall path: seq<Name>
      ensures Resolve(t.nodes, ROOT_ID, path) == Ok(id) <==> Resolve(s.nodes, ROOT_ID, path) == Ok(id)
    {
      EnsureDirsAt(s, [], ROOT_ID, dirs, path);
      EnsureDirsGainNew(s, [], ROOT_ID, dirs, path);
    }
    assert Reaches(t.nodes, ROOT_ID, id) <==> Reaches(s.nodes, ROOT_ID, id);
  }

  ghost predicate SameLabel(s: Store, t: Store, n: Id) {
    SameParent(s, t, n) && (n in s.nodes ==> t.nodes[n].name == s.nodes[n].name)
  }

  lemma {:induction false} SameNamesUp(s: Store, t: Store, ranks: map<Id, nat>, rankt: map<Id, nat>, n: Id, root: Id)
    requires Ranked(s, ranks) && Issued(s) && Ranked(t, rankt) && n < s.nextId
    requires forall m: Id {:trigger SameLabel(s, t, m)} :: m < s.nextId ==> SameLabel(s, t, m)
    ensures NamesUp(t.nodes, n, root, t.nodes.Keys) == NamesUp(s.nodes, n, root, s.nodes.Keys)
    decreases if n in ranks then ranks[n] + 1 else 0
  {
    assert SameLabel(s, t, n);
    if n != root && GoesOn(s, n) {
      var parent := s.nodes[n].parent;
      assert Given(s, n) && RankFalls(s, ranks, n) && RankFalls(t, rankt, n);
      NamesUpRoom(s, ranks, parent, root, s.nodes.Keys - {n});
      NamesUpRoom(t, rankt, parent, root, t.nodes.Keys - {n});
      SameNamesUp(s, t, ranks, rankt, parent, root);
    }
  }

  lemma OldPrintsSame(s: Store, dirs: seq<Name>, id: Id)
    requires Inv(s) && id in s.nodes
    ensures PathRelativeTo(EnsureDirs(s, ROOT_ID, dirs).0, id, ROOT_ID) == PathRelativeTo(s, id, ROOT_ID)
  {
    hide EnsureDirs;
    var t := EnsureDirs(s, ROOT_ID, dirs).0;
    EnsureDirsKeepInv(s, ROOT_ID, dirs);
    EnsureDirsExtend(s, ROOT_ID, dirs);
    EnsureDirsInherit(s, ROOT_ID, dirs);
    forall m: Id | m < s.nextId
      ensures SameLabel(s, t, m)
    {
      assert StillAt(s, t, m) && ParentKept(s, t, m);
    }
    var ranks: map<Id, nat> :| Ranked(s, ranks);
    var rankt: map<Id, nat> :| Ranked(t, rankt);
    assert Given(s, id);
    SameNamesUp(s, t, ranks, rankt, id, ROOT_ID);
  }

  /** The qid belongs to a node that cannot be reached, that prints the very path pushed and is of the
      right kind; nothing is at that path, and the directories on the way to it can be made. */
  ghost predicate BringsBack(s: Store, place: string, kind: Kind, metadata: Metadata, id: Id) {
    var names := Segments(place);
    && names != [] && !(kind.DirectoryKind? && metadata.pushed.length != 0)
    && metadata.qidPath in s.qidIndex && s.qidIndex[metadata.qidPath] == id && id in s.nodes
    && !Attached(s, id) && PathRelativeTo(s, id, ROOT_ID) == Ok("/" + Trim(place)) && Matches(kind, s.nodes[id].body)
    && Resolve(s.nodes, ROOT_ID, names).Err? && EnsureDirs(s, ROOT_ID, names[..|names| - 1]).1.Ok?
  }

  lemma ComebackInIff(s: Store, place: string, parent: Id, name: Name, kind: Kind, qidPath: nat, id: Id)
    requires Inv(s) && parent in s.nodes && s.nodes[parent].body.Dir?
    ensures ComebackIn(s, place, parent, name, kind, qidPath) == Some(id) <==>
              && Child(s.nodes, parent, name).Err?
              && qidPath in s.qidIndex && s.qidIndex[qidPath] == id && id in s.nodes && !Attached(s, id)
              && PathRelativeTo(s, id, ROOT_ID) == Ok("/" + Trim(place)) && Matches(kind, s.nodes[id].body)
  {
    hide Inv, Attached, Move, Collect, PathRelativeTo, Trim;
  }

  /** The owner of a qid that was in use still owns it, and a qid newly in use is that of a new directory. */
  lemma QidAfterDirs(s: Store, dirs: seq<Name>, qidPath: nat, id: Id)
    requires Inv(s)
    ensures var t := EnsureDirs(s, ROOT_ID, dirs).0;
            qidPath in t.qidIndex && t.qidIndex[qidPath] == id && id < s.nextId <==>
            qidPath in s.qidIndex && s.qidIndex[qidPath] == id
  {
    hide Linked, Tabled, Acyclic, Settled, EnsureDirs;
    var t := EnsureDirs(s, ROOT_ID, dirs).0;
    EnsureDirsKeepInv(s, ROOT_ID, dirs);
    EnsureDirsExtend(s, ROOT_ID, dirs);
    EnsureDirsInherit(s, ROOT_ID, dirs);
    assert Inverse(s, qidPath, id) && Inverse(t, qidPath, id);
    assert StillAt(s, t, id) && ParentKept(s, t, id);
    assert id in s.nodes ==> Given(s, id);
  }

  lemma EntryAfterDirs(s: Store, names: seq<Name>)
    requires Inv(s) && names != [] && EnsureDirs(s, ROOT_ID, names[..|names| - 1]).1.Ok?
    ensures var (t, r) := EnsureDirs(s, ROOT_ID, names[..|names| - 1]);
            && r.value in t.nodes && t.nodes[r.value].body.Dir?
            && (Child(t.nodes, r.value, names[|names| - 1]).Err? <==> Resolve(s.nodes, ROOT_ID, names).Err?)
  {
    hide Issued, Indexed, Tabled, Acyclic, Settled, EnsureDirs;
    var dirs, last := names[..|names| - 1], names[|names| - 1];
    var (t, r) := EnsureDirs(s, ROOT_ID, dirs);
    EnsureDirsKeepInv(s, ROOT_ID, dirs);
    EnsureDirsAttach(s, dirs);
    EnsureDirsAt(s, [], ROOT_ID, dirs, names);
    assert Resolve(t.nodes, ROOT_ID, names) == Child(t.nodes, r.value, last);
    NoDirsIsRoot(s);
  }

  lemma NoDirsIsRoot(s: Store)
    ensures EnsureDirs(s, ROOT_ID, []) == (s, Ok(ROOT_ID))
  {
  }

  /** What a push brings back can be read off the store before it. */
  lemma ComebackIff(s: Store, place: string, kind: Kind, metadata: Metadata, id: Id)
    requires Inv(s)
    ensures Comeback(s, place, kind, metadata) == Some(id) <==> BringsBack(s, place, kind, metadata, id)
  {
    hide Linked, Indexed, Tabled, Acyclic, Settled, EnsureDirs, ComebackIn, Attached, PathRelativeTo, Trim, Matches;
    var names := Segments(place);
    if names != [] && EnsureDirs(s, ROOT_ID, names[..|names| - 1]).1.Ok? {
      var dirs, last := names[..|names| - 1], names[|names| - 1];
      var (t, r) := EnsureDirs(s, ROOT_ID, dirs);
      EnsureDirsKeepInv(s, ROOT_ID, dirs);
      EntryAfterDirs(s, names);
      ComebackInIff(t, place, r.value, last, kind, metadata.qidPath, id);
      QidAfterDirs(s, dirs, metadata.qidPath, id);
      if id in t.nodes && s.nextId <= id {
        MadeDirIsAttached(s, [], ROOT_ID, dirs, id);
      }
      OldBodyMatches(s, dirs, kind, id);
      if id in s.nodes {
        OldStaysAttachedIff(s, dirs, id);
        OldPrintsSame(s, dirs, id);
      }
    }
  }

  lemma OldBodyMatches(s: Store, dirs: seq<Name>, kind: Kind, id: Id)
    requires Inv(s)
    ensures var t := EnsureDirs(s, ROOT_ID, dirs).0;
            && (id in t.nodes && id < s.nextId <==> id in s.nodes)
            && (id in s.nodes ==>
                  id in t.nodes && (Matches(kind, t.nodes[id].body) <==> Matches(kind, s.nodes[id].body)))
  {
    hide Linked, Indexed, Tabled, Acyclic, Settled, EnsureDirs;
    var t := EnsureDirs(s, ROOT_ID, dirs).0;
    EnsureDirsExtend(s, ROOT_ID, dirs);
    EnsureDirsInherit(s, ROOT_ID, dirs);
    assert StillAt(s, t, id) && ParentKept(s, t, id);
    assert id in s.nodes ==> Given(s, id);
  }

  /** A push lets `n` out of `root` exactly when it brings back a node that lies between them, and the
      place it is brought back to is not below `root`. */
  ghost predicate LetsOut(s: Store, place: string, kind: Kind, metadata: Metadata, n: Id, root: Id) {
    && metadata.qidPath in s.qidIndex
    && var names, id := Segments(place), s.qidIndex[metadata.qidPath];
       BringsBack(s, place, kind, metadata, id) && Passes(s, n, root, id) && !OnTheWay(s, names[..|names| - 1], root)
  }

  lemma LetsOutIff(s: Store, place: string, kind: Kind, metadata: Metadata, n: Id, root: Id)
    requires Inv(s)
    ensures var names, back := Segments(place), Comeback(s, place, kind, metadata);
            LetsOut(s, place, kind, metadata, n, root) <==>
              && names != [] && back.Some? && Passes(s, n, root, back.value)
              && !OnTheWay(s, names[..|names| - 1], root)
  {
    hide Inv, Comeback, Passes, OnTheWay, EnsureDirs, Attached, PathRelativeTo, Matches, Trim;
    if Comeback(s, place, kind, metadata).Some? {
      ComebackIff(s, place, kind, metadata, Comeback(s, place, kind, metadata).value);
    }
    if metadata.qidPath in s.qidIndex {
      ComebackIff(s, place, kind, metadata, s.qidIndex[metadata.qidPath]);
    }
  }

  /** Attach-root confinement across a push, exactly. */
  lemma PushConfinesIff(s: Store, place: string, kind: Kind, metadata: Metadata, n: Id, root: Id)
    requires Inv(s) && n < s.nextId && root < s.nextId && Confined(s, n, root)
    ensures Confined(PlacePushed(s, place, kind, metadata).0, n, root) <==> !LetsOut(s, place, kind, metadata, n, root)
  {
    hide Linked, Issued, Indexed, Tabled, Acyclic, Settled, PushIn, ComebackIn, EnsureDirs, OnTheWay, Line, LetsOut;
    var names := Segments(place);
    LetsOutIff(s, place, kind, metadata, n, root);
    if names != [] && !(kind.DirectoryKind? && metadata.pushed.length != 0) {
      var dirs, last := names[..|names| - 1], names[|names| - 1];
      var (t, r) := EnsureDirs(s, ROOT_ID, dirs);
      EnsureDirsAttach(s, dirs);
      EnsureDirsKeepLine(s, ROOT_ID, dirs, n);
      EnsureDirsInherit(s, ROOT_ID, dirs);
      if r.Ok? {
        WayOfMadeDirs(s, dirs, root);
        match ComebackIn(t, place, r.value, last, kind, metadata.qidPath) {
          case Some(id) => ReattachConfinesIff(t, place, r.value, last, kind, metadata, id, n, root);
          case None => OtherPushInConfines(t, place, r.value, last, kind, metadata, n, root);
        }
      }
    }
  }

  // ----- Releasing a fid -----

  /** The store when a fid bound to `from` is bound to `to` instead. */
  ghost function Rebound(s: Store, from: Id, to: Id): Store {
    ReleaseFid(Inc(s, to), from).0
  }

  /** The tree of `d` is kept by one fid on `from` alone, and does not hold `to`. */
  ghost predicate Frees(s: Store, from: Id, to: Id, d: Id) {
    && d in s.detached && from in Subtree(s.nodes, d) && to !in Subtree(s.nodes, d)
    && RefCount(s, from) == 1
    && forall n :: n in s.refs && n in Subtree(s.nodes, d) ==> n == from
  }

  /** Moving a fid from `from` to `to` takes away a node above `to`. */
  ghost predicate Cuts(s: Store, from: Id, to: Id) {
    exists d, m :: Frees(s, from, to, d) && m in Line(s, to) && m in Subtree(s.nodes, d)
  }

  lemma RefsOfRebound(s: Store, from: Id, to: Id, n: Id)
    requires Inv(s) && from in s.refs
    ensures n in Dec(Inc(s, to), from).refs <==> n == to || (n in s.refs && !(n == from && RefCount(s, from) == 1))
  {
    hide Linked, Issued, Indexed, Acyclic, Settled;
    RefsPositive(s);
  }

  /** The trees that moving a fid kills are those it alone kept. */
  lemma DeadAfterRebind(s: Store, from: Id, to: Id, d: Id)
    requires Inv(s) && from in s.refs && to in s.nodes
    ensures d in Dead(Dec(Inc(s, to), from)) <==> Frees(s, from, to, d)
  {
    hide Linked, Issued, Indexed, Tabled, Acyclic;
    var u := Dec(Inc(s, to), from);
    assert u.nodes == s.nodes && u.detached == s.detached;
    forall n: Id {
      RefsOfRebound(s, from, to, n);
    }
    if d in s.detached {
      assert HasRef(s, d);
      var held :| held in s.refs && held in Subtree(s.nodes, d);
      assert HasRef(u, d) <==> exists n :: n in u.refs && n in Subtree(s.nodes, d);
    }
  }

  lemma NodesOfRebound(s: Store, from: Id, to: Id, m: Id)
    requires Inv(s) && from in s.refs && to in s.nodes && m in s.nodes
    ensures m !in Rebound(s, from, to).nodes <==> exists d :: Frees(s, from, to, d) && m in Subtree(s.nodes, d)
  {
    hide Inv, Frees, Dead, Subtree;
    var u := Dec(Inc(s, to), from);
    assert u.nodes == s.nodes && from in Inc(s, to).refs;
    forall d: Id {
      DeadAfterRebind(s, from, to, d);
    }
  }

  /** What the release cuts can be read off the store before it. */
  lemma CutsIff(s: Store, from: Id, to: Id)
    requires Inv(s) && from in s.refs && to in s.nodes && forall m :: m in Line(s, to) ==> m in s.nodes
    ensures Cuts(s, from, to) <==> exists m :: m in Line(s, to) && m !in Rebound(s, from, to).nodes
  {
    hide Inv, Frees, Subtree, Line, Rebound;
    forall m | m in Line(s, to) {
      NodesOfRebound(s, from, to, m);
    }
  }

  /** All of the line of a node that is out is there. */
  lemma {:induction false} OutLineIsThere(s: Store, rank: map<Id, nat>, n: Id, root: Id)
    requires Linked(s) && Ranked(s, rank) && !Confined(s, n, root)
    ensures forall m :: m in Line(s, n) ==> m in s.nodes
    decreases if n in rank then rank[n] + 1 else 0
  {
    assert Acyclic(s);
    ConfinedStep(s, n, root);
    if GoesOn(s, n) {
      assert RankFalls(s, rank, n);
      LineStep(s, n);
      OutLineIsThere(s, rank, s.nodes[n].parent, root);
    }
  }

  // ----- Nodes created for a client -----

  lemma EntryIsConfined(s: Store, t: Store, dir: Id, name: Name, root: Id)
    requires Inv(s) && Inv(t) && Inherits(s, t) && dir < s.nextId && Confined(s, dir, root)
    requires Child(t.nodes, dir, name).Ok?
    ensures var id := Child(t.nodes, dir, name).value; id < t.nextId && Confined(t, id, root)
  {
    hide Confined, Indexed, Tabled, Settled, Inherits;
    var id := Child(t.nodes, dir, name).value;
    var rank: map<Id, nat> :| Ranked(t, rank);
    InheritsConfines(s, t, rank, dir, root);
    assert name in Kids(t.nodes, dir) && EntryOk(t, dir, name) && Given(t, id);
    ConfinedStep(t, id, root);
  }

  lemma {:induction false} EnsuredDirIsConfined(s: Store, start: Id, names: seq<Name>, root: Id)
    requires Inv(s) && start < s.nextId && Confined(s, start, root)
    ensures var (t, r) := EnsureDirs(s, start, names);
            r.Ok? ==> r.value < t.nextId && Confined(t, r.value, root)
    decreases |names|
  {
    hide Confined, Inv, Inherits;
    if names != [] {
      var (t, r) := EnsureDir(s, start, names[0]);
      EnsureDirKeepsInv(s, start, names[0]);
      EnsureDirInherits(s, start, names[0]);
      if r.Ok? {
        assert Child(t.nodes, start, names[0]) == r;
        EntryIsConfined(s, t, start, names[0], root);
        EnsuredDirIsConfined(t, r.value, names[1..], root);
      }
    }
  }

  /** A node created for a client below a directory within its attach root is within it, too. */
  lemma CreatedIsConfined(
    s: Store, parent: Id, name: string, qid: CreatedQid, generation: nat, prefix: string, root: Id)
    requires Inv(s) && parent < s.nextId && Confined(s, parent, root)
    ensures var (t, r) := InsertCreated(s, parent, name, qid, generation, prefix);
            r.Ok? ==> r.value < t.nextId && Confined(t, r.value, root)
  {
    hide Confined, Inv, Inherits, EnsureDirs, CreateIn;
    if SplitPath(name).Ok? {
      var names := SplitPath(name).value;
      var dirs, last := names[..|names| - 1], names[|names| - 1];
      EnsureDirsKeepInv(s, parent, dirs);
      EnsuredDirIsConfined(s, parent, dirs, root);
      var (t, r) := EnsureDirs(s, parent, dirs);
      if r.Ok? && CreateIn(t, r.value, last, qid, generation, prefix).1.Ok? {
        CreateInKeepsInv(t, r.value, last, qid, generation, prefix);
        CreateInInherits(t, r.value, last, qid, generation, prefix);
        CreateInListed(t, r.value, last, qid, generation, prefix);
        EntryIsConfined(t, CreateIn(t, r.value, last, qid, generation, prefix).0, r.value, last, root);
      }
    }
  }

  lemma CreateInListed(s: Store, parent: Id, name: Name, qid: CreatedQid, generation: nat, prefix: string)
    requires Inv(s)
    ensures var (t, r) := CreateIn(s, parent, name, qid, generation, prefix);
            r.Ok? ==> Child(t.nodes, parent, name) == r
  {
    hide Inv, Insert, Touch;
    var (t, r) := CreateIn(s, parent, name, qid, generation, prefix);
    if r.Ok? {
      if Child(s.nodes, parent, name).Ok? {
        TouchedIsListed(s, parent, name, r.value, Recreated(s.nodes[r.value], qid, generation, prefix));
      } else {
        InsertedIsListed(s, CreatedNode(name, parent, qid, generation, prefix));
      }
    }
  }

  lemma TouchedIsListed(s: Store, parent: Id, name: Name, id: Id, next: Node)
    requires Child(s.nodes, parent, name) == Ok(id) && id in s.nodes && KeepsPlace(s.nodes[id], next)
    ensures Child(Touch(s, id, next).nodes, parent, name) == Ok(id)
  {
  }

  lemma InsertedIsListed(s: Store, node: Node)
    requires Inv(s) && node.parent in s.nodes && s.nodes[node.parent].body.Dir?
    ensures Child(Insert(s, node).nodes, node.parent, node.name) == Ok(s.nextId)
  {
    NextIdIsNew(s);
  }

  // ----- That it happens -----

  function Ups(count: nat): (names: seq<Name>)
    ensures |names| == count && forall i :: 0 <= i < count ==> names[i] == DOT_DOT
  {
    seq(count, _ => DOT_DOT)
  }

  /** Being out is being able to leave: ".." from such a node visits every node of its line, up to the
      root of the namespace. */
  lemma {:induction false} WalkOut(s: Store, rank: map<Id, nat>, n: Id, root: Id, visited: seq<Id>)
    requires Linked(s) && Ranked(s, rank) && n in s.nodes && !Confined(s, n, root)
    ensures var line := Line(s, n);
            && Last(line) == ROOT_ID
            && WalkFrom(s, root, n, Ups(|line| - 1), visited) == Ok(visited + line[1..])
    decreases rank[n]
  {
    assert Acyclic(s);
    if n == ROOT_ID {
      assert Line(s, n)[1..] == [] && visited + [] == visited;
    } else {
      var parent := s.nodes[n].parent;
      assert RankFalls(s, rank, n);
      ConfinedStep(s, n, root);
      ConfinedStep(s, parent, root);
      LineStep(s, n);
      var rest := Line(s, parent);
      WalkOut(s, rank, parent, root, visited + [parent]);
      assert Ups(|rest|)[1..] == Ups(|rest| - 1);
      assert visited + [parent] + rest[1..] == visited + rest;
    }
  }

  /** ".." from `n` is not stopped by `root`: it leads to the root of the namespace. */
  ghost predicate LeadsOut(s: Store, n: Id, root: Id) {
    var line := Line(s, n);
    Last(line) == ROOT_ID && WalkFrom(s, root, n, Ups(|line| - 1), []) == Ok(line[1..])
  }

  /** A node brought back from below `root` to a place that is not below `root` is out. */
  lemma ReattachLetsOut(s: Store, id: Id, parent: Id, name: Name, at: seq<Name>, root: Id)
    requires Inv(s) && Movable(s, id, parent, name) && Resolve(s.nodes, ROOT_ID, at) == Ok(parent)
    requires Under(s, id, root) && root != id && !OnTheWay(s, at, root)
    ensures var t := Collect(Move(s, id, parent, name));
            && Resolve(t.nodes, ROOT_ID, at + [name]) == Ok(id)
            && WalkName(t, root, id, DOT_DOT) == Ok(Some(parent))
            && Confined(s, id, root) && !Confined(t, id, root)
  {
    var t := Collect(Move(s, id, parent, name));
    var rank: map<Id, nat> :| Ranked(s, rank);
    ReattachAt(s, id, parent, name, at, at, []);
    BelowMovedSurvives(s, rank, id, parent, name, id);
    MovedNodes(s, id, parent, name, id);
    UnderIsOnLine(s, rank, id, root);
    LineOfPath(s, at, parent);
    PassesStep(s, id, root, id);
    MovedLine(s, rank, id, parent, name, id, root);
  }
}
