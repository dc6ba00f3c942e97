/** `State` of crates/front/src/model.rs: the store updated in place, each method proved to compute
    the store function of the same operation. */
module FrontState {
  import opened Prelude
  import opened Paths
  import LogBody
  import opened FrontStore
  import opened FrontCollect
  import opened FrontSubtrees
  import opened FrontTreeRemoval
  import opened FrontOps
  import opened FrontReattach
  import FrontPaths
  import opened FrontPublish
  import opened FrontPublishPaths
  import opened FrontRetire
  import opened FrontRetain
  import opened FrontRetainLoops
  import opened FrontGrants
  import opened FrontFids

  class State {
    var nodes: map<Id, Node>
    var qidIndex: map<nat, Id>
    var refs: map<Id, nat>
    var detached: set<Id>
    var nextId: Id
    var intakes: map<Id, string>
    var renameRoots: map<Id, string>
    var principals: map<string, PrincipalRoot>
    var principalsRequired: bool
    var logCapacity: nat

    /** The store as a value. */
    ghost function Snap(): Store
      reads this
    {
      Store(nodes, qidIndex, refs, detached, nextId, intakes, renameRoots, principals, principalsRequired, logCapacity)
    }

    ghost predicate Valid()
      reads this
    {
      Inv(Snap())
    }

    constructor ()
      ensures Snap() == Fresh() && Valid()
    {
      nodes := map[ROOT_ID := PlainNode("/", ROOT_ID, ROOT_ID, EMPTY_DIR)];
      qidIndex := map[ROOT_ID := ROOT_ID];
      refs, detached, nextId := map[], {}, 1;
      intakes, renameRoots, principals := map[], map[], map[];
      principalsRequired, logCapacity := false, 0x10_0000;
      new;
      FreshStoreIsGood(Snap());
    }

    // ----- Collection -----

    /** `view` is the store with the node under inspection counted as a detached root. */
    method SubtreeHasFidReference(id: Id, ghost view: Store, ghost rank: map<Id, nat>) returns (found: bool)
      requires nodes == view.nodes && refs == view.refs && id in nodes
      requires Linked(view) && Ranked(view, rank)
      ensures found <==> HasRef(view, id)
      decreases Subtree(view.nodes, id)
    {
      HasRefSplits(view, id);
      if id in refs {
        return true;
      }
      if nodes[id].body.Dir? {
        var children := nodes[id].body.children;
        var left := children.Keys;
        while left != {}
          invariant left <= children.Keys
          invariant forall k :: k in children && k !in left ==> !HasRef(view, children[k])
          decreases left
        {
          var k :| k in left;
          assert k in Kids(view.nodes, id) && children[k] in Entries(view.nodes, id);
          EntryIsBelow(view, rank, id, children[k]);
          found := SubtreeHasFidReference(children[k], view, rank);
          if found {
            return;
          }
          left := left - {k};
        }
      }
      return false;
    }

    method DropNode(id: Id) returns (node: Node)
      requires id in nodes
      modifies this
      ensures node == old(nodes[id]) && Snap() == Dropped(old(Snap()), id) && |nodes| < |old(nodes)|
    {
      node := nodes[id];
      assert (nodes - {id}).Keys == nodes.Keys - {id};
      nodes := nodes - {id};
      detached := detached - {id};
      refs := refs - {id};
      qidIndex := qidIndex - {node.qidPath};
      intakes := intakes - {id};
      renameRoots := renameRoots - {id};
    }

    /** Removes what is left of the subtree, node by node. `view` is the store the tree is part of;
        `base` is the store as it is now except for the nodes `gone` in earlier calls. The two may
        differ in whether the tree's root counts as detached. */
    method RemoveNodeRecursive(
      id: Id, ghost view: Store, ghost rank: map<Id, nat>, ghost base: Store, ghost gone: set<Id>)
      requires Linked(view) && Ranked(view, rank) && id in view.nodes
      requires Indexed(base) && base == view.(detached := base.detached)
      requires Snap() == RemoveNodes(base, gone)
      requires id in gone || Subtree(view.nodes, id) !! gone
      modifies this
      ensures Snap() == RemoveNodes(base, if id in gone then gone else gone + Subtree(view.nodes, id))
      decreases |nodes|, 1
    {
      hide Linked, Ranked, Indexed, Subtree, Dropped;
      if id !in nodes {
        return;
      }
      SubtreeHasSelf(view.nodes, id);
      DroppedOne(base, gone, id);
      var node := DropNode(id);
      if node.body.Dir? {
        RemoveEntries(node.body.children, id, view, rank, base, gone);
      } else {
        LeafSubtree(view, id);
      }
    }

    /** The loop of `remove_node_recursive` over the entries of a directory just removed. */
    method RemoveEntries(children: map<Name, Id>, ghost id: Id, ghost view: Store, ghost rank: map<Id, nat>,
                         ghost base: Store, ghost gone: set<Id>)
      requires Linked(view) && Ranked(view, rank) && id in view.nodes
      requires Indexed(base) && base == view.(detached := base.detached)
      requires children == Kids(view.nodes, id) && Subtree(view.nodes, id) !! gone
      requires Snap() == RemoveNodes(base, gone + {id})
      modifies this
      ensures Snap() == RemoveNodes(base, gone + Subtree(view.nodes, id))
      decreases |nodes|, 2
    {
      ghost var start := nodes.Keys;
      var left := children.Keys;
      NoneRemoved(view, id, gone);
      while left != {}
        invariant left <= children.Keys
        invariant Snap() == RemoveNodes(base, RemovedSoFar(view, id, gone, left))
        invariant nodes.Keys <= start
        decreases left
      {
        var k :| k in left;
        RemoveStep(view, rank, id, gone, left, k);
        CardinalityMono(nodes.Keys, start);
        RemoveNodeRecursive(children[k], view, rank, base, RemovedSoFar(view, id, gone, left));
        left := left - {k};
      }
      AllRemoved(view, id, gone);
    }

    /** The detached roots below which no fid is bound. */
    method FindDead() returns (dead: set<Id>)
      requires Shape(Snap())
      ensures dead == Dead(Snap())
    {
      ghost var view := Snap();
      ghost var rank: map<Id, nat> :| Ranked(view, rank);
      dead := {};
      var look := detached;
      while look != {}
        invariant look <= detached
        invariant dead == set d | d in detached && d !in look && !HasRef(view, d)
        decreases look
      {
        var d :| d in look;
        var used := SubtreeHasFidReference(d, view, rank);
        if !used {
          dead := dead + {d};
        }
        look := look - {d};
      }
    }

    /** Removes one dead tree after others are gone. */
    method RemoveTree(d: Id, ghost view: Store, ghost done: set<Id>)
      requires Shape(view) && done <= view.detached && d in view.detached && d !in done
      requires Snap() == RemoveNodes(view, Trees(view.nodes, done))
      modifies this
      ensures Snap() == RemoveNodes(view, Trees(view.nodes, done + {d}))
    {
      ghost var rank: map<Id, nat> :| Ranked(view, rank);
      ghost var gone := Trees(view.nodes, done);
      ghost var base := view.(detached := view.detached - {d});
      TreeIsApart(view, done, d);
      DropRoot(view, base, gone, d);
      detached := detached - {d};
      RemoveNodeRecursive(d, view, rank, base, gone);
      TreesPlusOne(view.nodes, {}, done, d);
      assert gone + Subtree(view.nodes, d) == Trees(view.nodes, done + {d});
      DropRoot(view, base, Trees(view.nodes, done + {d}), d);
    }

    method CollectUnreferencedDetachedSubtrees()
      requires Shape(Snap())
      modifies this
      ensures Snap() == Collect(old(Snap()))
    {
      ghost var view := Snap();
      var dead := FindDead();
      var left := dead;
      ghost var done: set<Id> := {};
      assert Trees(view.nodes, done) == {};
      RemoveNothing(view);
      while left != {}
        invariant left !! done && left + done == dead
        invariant Snap() == RemoveNodes(view, Trees(view.nodes, done))
        decreases left
      {
        var d :| d in left;
        RemoveTree(d, view, done);
        left, done := left - {d}, done + {d};
      }
      assert done == dead;
    }

    /** Keeps the subtree as a detached root while a fid needs it, and removes it otherwise. `view`
        is the store with `id`, already out of its directory, counted as a detached root. */
    method RetireDetachedSubtree(id: Id, ghost view: Store)
      requires Shape(view) && id in view.nodes && id !in detached
      requires view == Snap().(detached := detached + {id})
      requires forall d :: d in detached ==> HasRef(view, d)
      modifies this
      ensures Snap() == Collect(view)
    {
      ghost var rank: map<Id, nat> :| Ranked(view, rank);
      var used := SubtreeHasFidReference(id, view, rank);
      if used {
        detached := detached + {id};
        CollectSettledIsNoop(view);
      } else {
        ghost var base := Snap();
        RemoveNothing(base);
        SameQidsKeepIndex(view, base);
        RemoveNodeRecursive(id, view, rank, base, {});
        assert {} + Subtree(view.nodes, id) == Subtree(view.nodes, id);
        DropRoot(view, base, Subtree(view.nodes, id), id);
        OnlyOneDead(view, id);
      }
    }

    // ----- Looking up -----

    method LookupPath(path: string) returns (r: Result<Id>)
      ensures r == FrontPaths.LookupPath(Snap(), path)
    {
      var trimmed := Trim(path);
      if trimmed == "" {
        return Ok(ROOT_ID);
      }
      var names := Split(trimmed);
      var current := ROOT_ID;
      for i := 0 to |names|
        invariant Resolve(nodes, ROOT_ID, names[..i]) == Ok(current)
      {
        assert names[..i + 1][..i] == names[..i];
        ResolveConcat(nodes, ROOT_ID, names[..i + 1], names[i + 1..]);
        assert names[..i + 1] + names[i + 1..] == names;
        if current !in nodes {
          return Err(ENOENT);
        }
        if !nodes[current].body.Dir? {
          return Err(ENOTDIR);
        }
        if names[i] !in nodes[current].body.children {
          return Err(ENOENT);
        }
        current := nodes[current].body.children[names[i]];
      }
      assert names[..|names|] == names;
      return Ok(current);
    }

    method LookupOptionalPath(path: string) returns (r: Result<Option<Id>>)
      ensures r == FrontPaths.LookupOptionalPath(Snap(), path)
    {
      var found := LookupPath(path);
      match found
      case Ok(id) => r := Ok(Some(id));
      case Err(e) => r := if e == ENOENT then Ok(None) else Err(e);
    }

    /** Follows parents up; stops in every reachable state because parent pointers are acyclic. */
    method NodeIsDetached(id: Id) returns (yes: bool)
      requires Shape(Snap())
      ensures yes <==> id in nodes && !Attached(Snap(), id)
    {
      ghost var s := Snap();
      ghost var rank: map<Id, nat> :| Ranked(s, rank);
      SubtreeHasSelf(nodes, ROOT_ID);
      var current := id;
      while true
        invariant id in nodes <==> current in nodes
        invariant id in nodes ==> (Attached(s, id) <==> Attached(s, current))
        decreases if current in rank then rank[current] + 1 else 0
      {
        if current in detached {
          TopsAreApart(s, current);
          return true;
        }
        if current !in nodes {
          return false;
        }
        var parent := nodes[current].parent;
        if current != ROOT_ID {
          assert Hangs(s, current) && RankFalls(s, rank, current);
          SubtreeStep(s, ROOT_ID, current);
        }
        if parent == current {
          return false;
        }
        current := parent;
      }
    }

    method PathRelativeTo(id: Id, root: Id) returns (r: Result<string>)
      requires Shape(Snap())
      ensures r == FrontPaths.PathRelativeTo(Snap(), id, root)
    {
      ghost var rank: map<Id, nat> :| Ranked(Snap(), rank);
      ghost var todo := nodes.Keys;
      var current := id;
      var names: seq<Name> := [];
      LongerByNone(FrontPaths.NamesUp(nodes, id, root, todo));
      while current != root
        invariant todo <= nodes.Keys && FrontPaths.Roomy(rank, todo, current)
        invariant FrontPaths.NamesUp(nodes, id, root, nodes.Keys)
               == Longer(FrontPaths.NamesUp(nodes, current, root, todo), names)
        decreases todo
      {
        if current == ROOT_ID {
          return Err(EPERM);
        }
        if current !in nodes {
          return Err(ENOENT);
        }
        assert RankFalls(Snap(), rank, current);
        LongerTwice(FrontPaths.NamesUp(nodes, nodes[current].parent, root, todo - {current}),
                    nodes[current].name, names);
        names := [nodes[current].name] + names;
        todo := todo - {current};
        current := nodes[current].parent;
      }
      assert [] + names == names;
      return Ok(PathText(names));
    }

    // ----- Fids -----

    method RetainFidNode(id: Id) returns (r: Result<()>)
      requires Valid()
      modifies this
      ensures Valid() && (Snap(), r) == RetainFid(old(Snap()), id)
    {
      if id !in nodes {
        return Err(ENOENT);
      }
      IncKeepsInv(Snap(), id);
      refs := refs[id := (if id in refs then refs[id] else 0) + 1];
      return Ok(());
    }

    method ReleaseFidNode(id: Id) returns (r: Result<()>)
      requires Valid()
      modifies this
      ensures Valid() && (Snap(), r) == ReleaseFid(old(Snap()), id)
    {
      ReleaseKeepsInv(Snap(), id);
      if id !in refs {
        return Err(REFERENCE_MISSING);
      }
      DecKeepsShape(Snap(), id);
      if refs[id] > 1 {
        refs := refs[id := refs[id] - 1];
      } else {
        refs := refs - {id};
      }
      CollectUnreferencedDetachedSubtrees();
      return Ok(());
    }

    // ----- Removing -----

    /** Takes `id` out of its directory and retires its subtree. */
    method Retire(id: Id)
      requires Valid() && Attached(Snap(), id) && id != ROOT_ID
      modifies this
      ensures Valid() && Snap() == Collect(Detach(old(Snap()), {id}))
    {
      ghost var s := Snap();
      AttachedIsNoRoot(s, id);
      RetireKeepsInv(s, {id});
      DetachKeepsShape(s, {id});
      UnlistedOnlyByParent(s, id);
      DetachLeavesRefs(s, id);
      var parent, name := nodes[id].parent, nodes[id].name;
      if parent in nodes && nodes[parent].body.Dir? {
        nodes := nodes[parent := nodes[parent].(body :=
                   nodes[parent].body.(children := nodes[parent].body.children - {name}))];
      }
      RetireDetachedSubtree(id, Detach(s, {id}));
    }

    method RemoveSubtreeIfExists(path: string) returns (r: Result<()>)
      requires Valid()
      modifies this
      ensures Valid() && (Snap(), r) == RemoveSubtree(old(Snap()), path)
    {
      RemoveSubtreeKeepsInv(Snap(), path);
      var found := LookupOptionalPath(path);
      if found.Err? {
        return Err(found.error);
      }
      if found.value.None? {
        return Ok(());
      }
      var id := found.value.value;
      LookupFindsNodes(Snap(), Segments(path));
      if id == ROOT_ID {
        return Err(EPERM);
      }
      Retire(id);
      return Ok(());
    }

    // ----- Retaining chosen paths -----

    /** Marks the nodes from `current` up to `root`, which is where `names` starts below. */
    method MarkUpTo(current: Id, root: Id, marked: set<Id>, ghost start: seq<Name>, ghost names: seq<Name>)
      returns (retained: set<Id>)
      requires Valid() && start <= names
      requires Resolve(nodes, ROOT_ID, start) == Ok(root) && Resolve(nodes, ROOT_ID, names) == Ok(current)
      ensures retained == marked + OnWay(Snap(), names, |start|)
    {
      hide Linked, Issued, Indexed, Tabled, Acyclic, Settled;
      ghost var s := Snap();
      ghost var k := |names|;
      var at := current;
      retained := marked;
      assert names[..|names|] == names && OnWay(s, names, k + 1) == {};
      while true
        invariant |start| <= k <= |names| && Resolve(nodes, ROOT_ID, names[..k]) == Ok(at)
        invariant retained == marked + OnWay(s, names, k + 1)
        decreases k
      {
        LookupFindsNodes(s, names[..k]);
        OnWayStep(s, names, k, at);
        ClimbReachesRoot(s, start, names, k, at);
        retained := retained + {at};
        if at == root {
          return;
        }
        ClimbToParent(s, names, k, at);
        at, k := nodes[at].parent, k - 1;
      }
    }

    /** Checks the supplied paths in order and marks what they need; stops at the first bad one. */
    method MarkPaths(root: Id, rootNames: seq<Name>, paths: seq<string>) returns (r: Result<set<Id>>)
      requires Valid() && Resolve(nodes, ROOT_ID, rootNames) == Ok(root)
      ensures match CheckPaths(Snap(), rootNames, paths)
              case Err(e) => r == Err(e)
              case Ok(_) => r == Ok(Retained(Snap(), rootNames, paths))
    {
      ghost var s := Snap();
      var retained := {root};
      RetainedOfNone(s, rootNames);
      assert paths[..0] == [] && paths[0..] == paths;
      for i := 0 to |paths|
        invariant retained == Retained(s, rootNames, paths[..i])
        invariant CheckPaths(s, rootNames, paths) == CheckPaths(s, rootNames, paths[i..])
      {
        assert paths[i..][1..] == paths[i + 1..];
        var names := Segments(paths[i]);
        if !(rootNames <= names) {
          return Err(EPERM);
        }
        var found := LookupPath(paths[i]);
        if found.Err? {
          return Err(found.error);
        }
        RetainedOfMore(s, rootNames, paths, i);
        retained := MarkUpTo(found.value, root, retained, rootNames, names);
      }
      assert paths[..|paths|] == paths;
      return Ok(retained);
    }

    /** The topmost unmarked nodes below a marked directory. */
    method CollectStaleSubtrees(dir: Id, retained: set<Id>, ghost rank: map<Id, nat>, ghost root: Id)
      returns (stale: set<Id>)
      requires Linked(Snap()) && Ranked(Snap(), rank) && Upward(Snap(), retained, root)
      requires dir in retained && nodes[dir].body.Dir? && root in rank && rank[root] <= rank[dir]
      ensures stale == StaleBelow(Snap(), retained, dir)
      decreases Subtree(nodes, dir)
    {
      hide Linked, Stale, Part, Parts, StaleBelow;
      ghost var s := Snap();
      var children := nodes[dir].body.children;
      assert children == Kids(s.nodes, dir);
      stale := {};
      var left := children.Keys;
      ghost var done: set<Id> := {};
      NoParts(s, retained);
      while left != {}
        invariant left <= children.Keys && done == set k | k in children && k !in left :: children[k]
        invariant stale == Parts(s, retained, done)
        decreases left
      {
        var k :| k in left;
        var child := children[k];
        assert child in Entries(s.nodes, dir);
        EntryIsBelow(s, rank, dir, child);
        PartsMore(s, retained, done, child);
        if child in retained {
          PartOfMarked(s, retained, child);
          if nodes[child].body.Dir? {
            var more := CollectStaleSubtrees(child, retained, rank, root);
            stale := stale + more;
          }
        } else {
          RootIsNotBelow(s, rank, root, child);
          PartOfUnmarked(s, retained, root, dir, child);
          stale := stale + {child};
        }
        done := done + {child};
        left := left - {k};
      }
      assert done == Entries(s.nodes, dir);
      StaleBelowIsParts(s, retained, dir);
    }

    method RetainSubtreePaths(rootPath: string, paths: seq<string>) returns (r: Result<bool>)
      requires Valid()
      modifies this
      ensures Valid() && (Snap(), r) == RetainPaths(old(Snap()), rootPath, paths)
    {
      ghost var s := Snap();
      RetainKeepsInv(s, rootPath, paths);
      var found := LookupPath(rootPath);
      if found.Err? {
        return Err(found.error);
      }
      var root, rootNames := found.value, Segments(rootPath);
      LookupFindsNodes(s, rootNames);
      if !nodes[root].body.Dir? {
        return Err(ENOTDIR);
      }
      var marked := MarkPaths(root, rootNames, paths);
      if marked.Err? {
        return Err(marked.error);
      }
      var stale := FindStale(root, marked.value, rootNames, paths);
      if stale == {} {
        return Ok(false);
      }
      RetireAll(stale, rootNames, paths);
      ForgetPrincipals();
      return Ok(true);
    }

    /** Forgets the principal roots that no longer exist. */
    method ForgetPrincipals()
      modifies this
      ensures Snap() == ForgetLostPrincipals(old(Snap()))
    {
      principals := map u | u in principals && principals[u].root in nodes :: principals[u];
    }

    /** `set_principal_class_aname`. */
    method SetPrincipalClassAname(uname: string, principalId: string, aname: string, rootPath: string)
      returns (r: Result<()>)
      requires Valid()
      modifies this
      ensures Valid() && (Snap(), r) == Grant(old(Snap()), uname, principalId, aname, rootPath)
    {
      hide Inv;
      GrantKeepsInv(Snap(), uname, principalId, aname, rootPath);
      if uname == "" || principalId == "" {
        return Err(EPERM);
      }
      if aname == "" {
        return Err(EPERM);
      }
      var found := LookupPath(rootPath);
      if found.Err? {
        return Err(found.error);
      }
      var root := found.value;
      if root !in nodes {
        return Err(ENOENT);
      }
      if !nodes[root].body.Dir? {
        return Err(ENOTDIR);
      }
      var text := RootText(rootPath);
      principalsRequired := true;
      if uname in principals {
        var existing := principals[uname];
        if existing.rootPath != text {
          return Err(ROOT_MISMATCH);
        }
        if existing.principalId != principalId {
          return Err(ID_MISMATCH);
        }
        principals := principals[uname := existing.(root := root, anames := existing.anames + {aname})];
      } else {
        principals := principals[uname := PrincipalRoot(root, text, principalId, {aname})];
      }
      return Ok(());
    }

    /** `retain_principal_roots`. */
    method RetainPrincipalRoots(unames: set<string>)
      requires Valid()
      modifies this
      ensures Valid() && Snap() == KeepPrincipals(old(Snap()), unames)
    {
      SettingsAside(Snap(), KeepPrincipals(Snap(), unames));
      principals := map u | u in principals && u in unames :: principals[u];
    }

    method FindStale(root: Id, retained: set<Id>, ghost rootNames: seq<Name>, ghost paths: seq<string>)
      returns (stale: set<Id>)
      requires Valid() && Resolve(nodes, ROOT_ID, rootNames) == Ok(root) && root in nodes && nodes[root].body.Dir?
      requires retained == Retained(Snap(), rootNames, paths)
      ensures stale == Stale(Snap(), retained)
    {
      ghost var s := Snap();
      ghost var rank: map<Id, nat> :| Ranked(s, rank);
      RetainedIsUpward(s, rootNames, paths);
      stale := CollectStaleSubtrees(root, retained, rank, root);
      assert Stale(s, retained) == StaleBelow(s, retained, root);
    }

    /** Retires the stale nodes one by one; collecting each time ends where collecting once would. */
    method RetireAll(stale: set<Id>, ghost rootNames: seq<Name>, ghost paths: seq<string>)
      requires Valid() && stale == Stale(Snap(), Retained(Snap(), rootNames, paths))
      modifies this
      ensures Valid() && Snap() == Collect(Detach(old(Snap()), stale))
    {
      ghost var s := Snap();
      var left := stale;
      ghost var done: set<Id> := {};
      DetachNothing(s);
      CollectSettledIsNoop(s);
      while left != {}
        invariant left !! done && left + done == stale
        invariant Valid() && Snap() == Collect(Detach(s, done))
        decreases left
      {
        var id :| id in left;
        StaleStaysAttached(s, rootNames, paths, done, id);
        RetireNext(s, done, id);
        DetachKeepsLinked(s, done);
        CollectKeepsTree(Detach(s, done), ROOT_ID);
        Retire(id);
        left, done := left - {id}, done + {id};
      }
      assert done == stale;
    }

    // ----- Publishing -----

    method NextAvailableQidPath(start: nat) returns (r: Result<nat>)
      ensures r == NextQid(qidIndex, start)
    {
      var candidate := start;
      while candidate in qidIndex
        invariant NextQid(qidIndex, candidate) == NextQid(qidIndex, start)
        decreases U64_MAX - candidate
      {
        if candidate >= U64_MAX {
          return Err(QID_EXHAUSTED);
        }
        candidate := candidate + 1;
      }
      return Ok(candidate);
    }

    /** Gives the node the next id, indexes it and lists it in its directory. */
    method AddNode(node: Node) returns (id: Id)
      requires Valid() && Insertable(Snap(), node)
      modifies this
      ensures Valid() && Snap() == Insert(old(Snap()), node) && id == old(nextId)
    {
      InsertKeepsInv(Snap(), node);
      NextIdIsNew(Snap());
      id := nextId;
      nextId := nextId + 1;
      nodes := nodes[id := node];
      qidIndex := qidIndex[node.qidPath := id];
      var dir := nodes[node.parent];
      nodes := nodes[node.parent := dir.(body := dir.body.(children := dir.body.children[node.name := id]))];
    }

    method ReplaceQidPath(id: Id, qidPath: nat) returns (r: Result<()>)
      requires Valid()
      modifies this
      ensures Valid() && (Snap(), r) == ReplaceQid(old(Snap()), id, qidPath)
    {
      ReplaceQidKeepsInv(Snap(), id, qidPath);
      if qidPath in qidIndex && qidIndex[qidPath] != id {
        return Err(QID_IN_USE);
      }
      if id !in nodes {
        return Err(ENOENT);
      }
      var before := nodes[id].qidPath;
      if before != qidPath {
        qidIndex := (qidIndex - {before})[qidPath := id];
        nodes := nodes[id := nodes[id].(qidPath := qidPath)];
      }
      return Ok(());
    }

    /** `apply_pushed_metadata`, followed by the new contents when a file is pushed. */
    method ApplyPushed(id: Id, kind: Kind, metadata: Metadata) returns (r: Result<Id>)
      requires Valid() && id in nodes && (kind.FileKind? ==> !nodes[id].body.Dir?)
      modifies this
      ensures Valid() && (Snap(), r) == FrontPublish.ApplyPushed(old(Snap()), id, kind, metadata)
    {
      ApplyPushedKeepsInv(Snap(), id, kind, metadata);
      var replaced := ReplaceQidPath(id, metadata.qidPath);
      if replaced.Err? {
        return Err(replaced.error);
      }
      var node := nodes[id].(version := metadata.qidVersion, generation := metadata.generation,
                             pushed := Some(metadata.pushed));
      if kind.FileKind? {
        node := node.(body := File(kind.bytes));
      }
      nodes := nodes[id := node];
      return Ok(id);
    }

    method EnsureDir(parent: Id, name: Name) returns (r: Result<Id>)
      requires Valid()
      modifies this
      ensures Valid() && (Snap(), r) == FrontPublish.EnsureDir(old(Snap()), parent, name)
    {
      if parent !in nodes {
        return Err(ENOENT);
      }
      if !nodes[parent].body.Dir? {
        return Err(ENOTDIR);
      }
      ChildOfDirectory(Snap(), parent, name);
      if name in nodes[parent].body.children {
        var existing := nodes[parent].body.children[name];
        return if nodes[existing].body.Dir? then Ok(existing) else Err(ENOTDIR);
      }
      var qid := NextAvailableQidPath(nextId);
      if qid.Err? {
        return Err(qid.error);
      }
      var id := AddNode(PlainNode(name, parent, qid.value, EMPTY_DIR));
      return Ok(id);
    }

    /** Makes the directories of a path one after another; what was made stays if one fails. */
    method EnsureDirs(start: Id, names: seq<Name>) returns (r: Result<Id>)
      requires Valid()
      modifies this
      ensures Valid() && (Snap(), r) == FrontPublish.EnsureDirs(old(Snap()), start, names)
    {
      var current := start;
      assert names[0..] == names;
      for i := 0 to |names|
        invariant Valid()
        invariant FrontPublish.EnsureDirs(Snap(), current, names[i..])
               == FrontPublish.EnsureDirs(old(Snap()), start, names)
      {
        assert names[i..][0] == names[i] && names[i..][1..] == names[i + 1..];
        var dir := EnsureDir(current, names[i]);
        if dir.Err? {
          return dir;
        }
        current := dir.value;
      }
      return Ok(current);
    }

    method EnsurePathDir(path: string) returns (r: Result<Id>)
      requires Valid()
      modifies this
      ensures Valid() && (Snap(), r) == FrontPublish.EnsurePathDir(old(Snap()), path)
    {
      var names := SplitPath(path);
      if names.Err? {
        return Err(names.error);
      }
      r := EnsureDirs(ROOT_ID, names.value);
    }

    /** The log of an existing node takes the incoming entries one by one. */
    method AppendEntries(log: LogBody.Log, incoming: seq<seq<byte>>) returns (out: LogBody.Log)
      ensures out == LogBody.AppendAll(log, incoming, logCapacity)
    {
      out := log;
      assert incoming[0..] == incoming;
      for i := 0 to |incoming|
        invariant LogBody.AppendAll(out, incoming[i..], logCapacity) == LogBody.AppendAll(log, incoming, logCapacity)
      {
        assert incoming[i..][0] == incoming[i] && incoming[i..][1..] == incoming[i + 1..];
        out := LogBody.Appended(out, incoming[i], logCapacity);
      }
    }

    /** Replaces the contents of a file, or appends to a log. */
    method Republish(id: Id, body: Leaf) returns (r: Result<Id>)
      requires id in nodes
      modifies this
      ensures match Republished(old(nodes[id]), body, old(logCapacity))
              case Ok(node) => r == Ok(id) && Snap() == Touch(old(Snap()), id, node)
              case Err(e) => r == Err(e) && Snap() == old(Snap())
    {
      var node := nodes[id];
      if node.body.File? && body.File? {
        nodes := nodes[id := node.(version := Bumped(node.version), body := body)];
        return Ok(id);
      }
      if node.body.Log? && body.Log? {
        var log := AppendEntries(node.body.log, body.log.entries);
        nodes := nodes[id := node.(version := Bumped(node.version), body := Log(log))];
        return Ok(id);
      }
      return Err(EPERM);
    }

    method PlaceIn(parent: Id, name: Name, body: Leaf) returns (r: Result<Id>)
      requires Valid()
      modifies this
      ensures Valid() && (Snap(), r) == FrontPublish.PlaceIn(old(Snap()), parent, name, body)
    {
      hide Linked, Issued, Indexed, Tabled, Acyclic, Settled, Touch, Republished;
      PlaceInKeepsInv(Snap(), parent, name, body);
      if parent !in nodes {
        return Err(ENOENT);
      }
      if !nodes[parent].body.Dir? {
        return Err(ENOTDIR);
      }
      ChildOfDirectory(Snap(), parent, name);
      if name in nodes[parent].body.children {
        var id := nodes[parent].body.children[name];
        r := Republish(id, body);
        return;
      }
      var qid := NextAvailableQidPath(nextId);
      if qid.Err? {
        return Err(qid.error);
      }
      var id := AddNode(PlainNode(name, parent, qid.value, body));
      return Ok(id);
    }

    method Place(path: string, body: Leaf) returns (r: Result<Id>)
      requires Valid()
      modifies this
      ensures Valid() && (Snap(), r) == FrontPublish.Place(old(Snap()), path, body)
    {
      var names := SplitPath(path);
      if names.Err? {
        return Err(names.error);
      }
      var last := |names.value| - 1;
      var parent := EnsureDirs(ROOT_ID, names.value[..last]);
      if parent.Err? {
        return parent;
      }
      r := PlaceIn(parent.value, names.value[last], body);
    }

    method ReattachDetachedPushedNode(path: string, parent: Id, name: Name, qidPath: nat, kind: Kind)
      returns (r: Result<Option<Id>>)
      requires Valid() && Attached(Snap(), parent)
      requires nodes[parent].body.Dir? && name !in nodes[parent].body.children
      modifies this
      ensures Valid() && (Snap(), r) == Reattach(old(Snap()), path, parent, name, qidPath, kind)
    {
      ghost var s := Snap();
      ReattachKeepsInv(s, path, parent, name, qidPath, kind);
      if qidPath !in qidIndex {
        return Ok(None);
      }
      var id := qidIndex[qidPath];
      IndexInverts(s);
      var free := NodeIsDetached(id);
      if !free {
        return Err(QID_IN_USE);
      }
      var text := PathRelativeTo(id, ROOT_ID);
      if text.Err? {
        return Err(text.error);
      }
      if text.value != "/" + Trim(path) || !Matches(kind, nodes[id].body) {
        return Err(QID_IN_USE);
      }
      MoveKeepsShape(s, id, parent, name);
      MoveNode(id, parent, name);
      CollectUnreferencedDetachedSubtrees();
      return Ok(Some(id));
    }

    /** Takes the node out of the directory that lists it, if one still does. */
    method Unlist(id: Id)
      requires Linked(Snap()) && id in nodes
      modifies this`nodes
      ensures nodes == Detach(old(Snap()), {id}).nodes
    {
      ListedOnlyByParent(Snap(), id);
      var dir, name := nodes[id].parent, nodes[id].name;
      if dir in nodes && nodes[dir].body.Dir? {
        var listed := nodes[dir].body.children;
        if name in listed && listed[name] == id {
          nodes := nodes[dir := nodes[dir].(body := nodes[dir].body.(children := listed - {name}))];
        }
      }
    }

    method MoveNode(id: Id, parent: Id, name: Name)
      requires Valid() && Movable(Snap(), id, parent, name)
      modifies this
      ensures Snap() == Move(old(Snap()), id, parent, name)
    {
      Unlist(id);
      nodes := nodes[id := nodes[id].(parent := parent, name := name)];
      var dir := nodes[parent];
      nodes := nodes[parent := dir.(body := dir.body.(children := dir.body.children[name := id]))];
      detached := detached - {id};
      assert detached == old(detached) + {id} - {id};
    }

    method PushIn(path: string, parent: Id, name: Name, kind: Kind, metadata: Metadata) returns (r: Result<Id>)
      requires Valid() && Attached(Snap(), parent)
      modifies this
      ensures Valid() && (Snap(), r) == FrontPublish.PushIn(old(Snap()), path, parent, name, kind, metadata)
    {
      PushInKeepsInv(Snap(), path, parent, name, kind, metadata);
      if !nodes[parent].body.Dir? {
        return Err(ENOTDIR);
      }
      ChildOfDirectory(Snap(), parent, name);
      if name in nodes[parent].body.children {
        var id := nodes[parent].body.children[name];
        if !Matches(kind, nodes[id].body) {
          return Err(EPERM);
        }
        r := ApplyPushed(id, kind, metadata);
        return;
      }
      ReattachKeepsInv(Snap(), path, parent, name, metadata.qidPath, kind);
      var again := ReattachDetachedPushedNode(path, parent, name, metadata.qidPath, kind);
      if again.Err? {
        return Err(again.error);
      }
      if again.value.Some? {
        r := ApplyPushed(again.value.value, kind, metadata);
        return;
      }
      var id := AddNode(PushedNode(name, parent, metadata, NewBody(kind)));
      return Ok(id);
    }

    method PlacePushed(path: string, kind: Kind, metadata: Metadata) returns (r: Result<Id>)
      requires Valid()
      modifies this
      ensures Valid() && (Snap(), r) == FrontPublish.PlacePushed(old(Snap()), path, kind, metadata)
    {
      if kind.DirectoryKind? && metadata.pushed.length != 0 {
        return Err(DIRECTORY_LENGTH);
      }
      var names := SplitPath(path);
      if names.Err? {
        return Err(names.error);
      }
      var last := |names.value| - 1;
      EnsureDirsAttach(Snap(), names.value[..last]);
      var parent := EnsureDirs(ROOT_ID, names.value[..last]);
      if parent.Err? {
        return parent;
      }
      r := PushIn(path, parent.value, names.value[last], kind, metadata);
    }

    method InsertPushedChildDirectory(
      parent: Id, name: Name, metadata: Metadata, readPrefix: string, removal: Removal) returns (r: Result<Id>)
      requires Valid()
      modifies this
      ensures Valid() && (Snap(), r) == InsertPushedChild(old(Snap()), parent, name, metadata, readPrefix, removal)
    {
      InsertPushedChildKeepsInv(Snap(), parent, name, metadata, readPrefix, removal);
      if metadata.pushed.length != 0 {
        return Err(DIRECTORY_LENGTH);
      }
      var relay: Option<string> := None;
      if removal.RelayToOwner? {
        var text := PathRelativeTo(parent, ROOT_ID);
        if text.Err? {
          return Err(text.error);
        }
        relay := Some(Trim(CreatedChildPath(text.value, name)));
      }
      if parent !in nodes {
        return Err(ENOENT);
      }
      if !nodes[parent].body.Dir? {
        return Err(ENOTDIR);
      }
      ChildOfDirectory(Snap(), parent, name);
      if name in nodes[parent].body.children {
        var existing := nodes[parent].body.children[name];
        if !nodes[existing].body.Dir? {
          return Err(ENOTDIR);
        }
        if relay.Some? {
          nodes := nodes[existing := nodes[existing].(removeRelay := relay)];
        }
        return Ok(existing);
      }
      if metadata.qidPath in qidIndex {
        return Err(QID_IN_USE);
      }
      var node := PushedNode(name, parent, metadata, Dir(map[], Some(readPrefix), None));
      var id := AddNode(node.(removeRelay := relay));
      return Ok(id);
    }

    method CreateIn(parent: Id, name: Name, qid: CreatedQid, generation: nat, prefix: string) returns (r: Result<Id>)
      requires Valid()
      modifies this
      ensures Valid() && (Snap(), r) == FrontPublish.CreateIn(old(Snap()), parent, name, qid, generation, prefix)
    {
      CreateInKeepsInv(Snap(), parent, name, qid, generation, prefix);
      if parent !in nodes {
        return Err(ENOENT);
      }
      if !nodes[parent].body.Dir? {
        return Err(ENOTDIR);
      }
      ChildOfDirectory(Snap(), parent, name);
      if name in nodes[parent].body.children {
        var id := nodes[parent].body.children[name];
        var node := nodes[id];
        if node.qidPath != qid.path || qid.path !in qidIndex || qidIndex[qid.path] != id {
          return Err("create relay existing node identity mismatch");
        }
        if qid.directory != node.body.Dir? {
          return Err("create relay existing node kind mismatch");
        }
        node := node.(version := qid.version, generation := generation);
        if !qid.directory {
          node := node.(writeRelay := Some(prefix), body := WriteRelay(prefix));
        }
        nodes := nodes[id := node];
        return Ok(id);
      }
      if qid.path in qidIndex {
        return Err(QID_IN_USE);
      }
      var relay := if qid.directory then None else Some(prefix);
      var body := if qid.directory then EMPTY_DIR else WriteRelay(prefix);
      var id := AddNode(Node(name, parent, qid.path, qid.version, generation, None, None, relay, None, None, body));
      return Ok(id);
    }

    method InsertCreatedRelayNode(parent: Id, name: string, qid: CreatedQid, generation: nat, prefix: string)
      returns (r: Result<Id>)
      requires Valid()
      modifies this
      ensures Valid() && (Snap(), r) == InsertCreated(old(Snap()), parent, name, qid, generation, prefix)
    {
      var names := SplitPath(name);
      if names.Err? {
        return Err(names.error);
      }
      var last := |names.value| - 1;
      var dir := EnsureDirs(parent, names.value[..last]);
      if dir.Err? {
        return dir;
      }
      r := CreateIn(dir.value, names.value[last], qid, generation, prefix);
    }
  }

  /** A node is listed by its parent under its own name, or by nobody. */
  lemma ListedOnlyByParent(s: Store, id: Id)
    requires Linked(s) && id in s.nodes
    ensures var node := s.nodes[id];
            var listed := node.name in Kids(s.nodes, node.parent) && Kids(s.nodes, node.parent)[node.name] == id;
            Detach(s, {id}).nodes ==
            if listed then
              s.nodes[node.parent := s.nodes[node.parent].(body :=
                s.nodes[node.parent].body.(children := s.nodes[node.parent].body.children - {node.name}))]
            else s.nodes
  {
    if Hangs(s, id) {
      assert EntryOk(s, s.nodes[id].parent, s.nodes[id].name);
      UnlistedOnlyByParent(s, id);
    } else {
      forall n | n in s.nodes
        ensures Unlisted(s.nodes[n], {id}) == s.nodes[n]
      {
        if s.nodes[n].body.Dir? {
          forall k | k in s.nodes[n].body.children
            ensures s.nodes[n].body.children[k] != id
          {
            assert k in Kids(s.nodes, n) && EntryOk(s, n, k);
          }
          assert Unlisted(s.nodes[n], {id}).body.children == s.nodes[n].body.children;
        }
      }
      assert Detach(s, {id}).nodes == s.nodes;
    }
  }

  lemma DetachNothing(s: Store)
    ensures Detach(s, {}) == s
  {
    forall n | n in s.nodes
      ensures Unlisted(s.nodes[n], {}) == s.nodes[n]
    {
      if s.nodes[n].body.Dir? {
        assert Unlisted(s.nodes[n], {}).body.children == s.nodes[n].body.children;
      }
    }
    assert Detach(s, {}).nodes == s.nodes;
  }

  lemma RootIsNotBelow(s: Store, rank: map<Id, nat>, root: Id, c: Id)
    requires Linked(s) && Ranked(s, rank) && root in rank && c in rank && rank[root] < rank[c]
    ensures root !in Subtree(s.nodes, c)
  {
    if root in Subtree(s.nodes, c) {
      var p: seq<Name> :| Resolve(s.nodes, c, p) == Ok(root);
      RankGrowsDown(s, rank, c, p);
    }
  }

  ghost function Longer(r: Result<seq<Name>>, names: seq<Name>): Result<seq<Name>> {
    match r
    case Ok(front) => Ok(front + names)
    case Err(e) => Err(e)
  }

  lemma LongerByNone(r: Result<seq<Name>>)
    ensures Longer(r, []) == r
  {
    if r.Ok? {
      assert r.value + [] == r.value;
    }
  }

  lemma LongerTwice(r: Result<seq<Name>>, name: Name, names: seq<Name>)
    ensures Longer(Longer(r, [name]), names) == Longer(r, [name] + names)
  {
    if r.Ok? {
      assert r.value + [name] + names == r.value + ([name] + names);
    }
  }

  lemma AttachedIsNoRoot(s: Store, id: Id)
    requires Linked(s) && Attached(s, id)
    ensures id !in s.detached
  {
    if id in s.detached {
      TopsAreApart(s, id);
    }
  }

  /** Only the parent lists a node, under the node's own name. */
  lemma UnlistedOnlyByParent(s: Store, id: Id)
    requires Linked(s) && id in s.nodes && !IsTop(s, id)
    ensures s.nodes[id].parent in s.nodes && s.nodes[s.nodes[id].parent].body.Dir?
    ensures var dir := s.nodes[s.nodes[id].parent];
            Detach(s, {id}).nodes ==
            s.nodes[s.nodes[id].parent := dir.(body := dir.body.(children := dir.body.children - {s.nodes[id].name}))]
  {
    assert Hangs(s, id);
    var parent := s.nodes[id].parent;
    var t := Detach(s, {id});
    forall n | n in s.nodes && n != parent
      ensures t.nodes[n] == s.nodes[n]
    {
      NotListed(s, n, id);
    }
    forall k | k in Kids(s.nodes, parent)
      ensures Kids(s.nodes, parent)[k] == id <==> k == s.nodes[id].name
    {
      assert EntryOk(s, parent, k);
    }
    assert t.nodes[parent].body.children == s.nodes[parent].body.children - {s.nodes[id].name};
  }

  lemma NotListed(s: Store, dir: Id, id: Id)
    requires Linked(s) && dir in s.nodes && id in s.nodes && s.nodes[id].parent != dir
    ensures Unlisted(s.nodes[dir], {id}) == s.nodes[dir]
  {
    if s.nodes[dir].body.Dir? {
      forall k | k in s.nodes[dir].body.children
        ensures s.nodes[dir].body.children[k] != id
      {
        assert k in Kids(s.nodes, dir) && EntryOk(s, dir, k);
      }
      assert Unlisted(s.nodes[dir], {id}).body.children == s.nodes[dir].body.children;
    }
  }

  /** The other detached trees keep the fids they had. */
  lemma DetachLeavesRefs(s: Store, id: Id)
    requires Inv(s) && Attached(s, id)
    ensures forall d :: d in s.detached ==> HasRef(Detach(s, {id}), d)
  {
    forall d | d in s.detached
      ensures HasRef(Detach(s, {id}), d)
    {
      assert HasRef(s, d);
      AttachedIsElsewhere(s, id, d);
      DetachElsewhere(s, d, id);
      var n :| n in s.refs && n in Subtree(s.nodes, d);
      assert n in Detach(s, {id}).refs && n in Subtree(Detach(s, {id}).nodes, d);
    }
  }
}
