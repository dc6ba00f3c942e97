/** The loops of `retain_subtree_paths`: marking the nodes on the way to each supplied path, and
    finding the topmost unmarked ones. */
module FrontRetainLoops {
  import opened Prelude
  import opened Paths
  import opened FrontStore
  import opened FrontCollect
  import opened FrontSubtrees
  import opened FrontOps
  import opened FrontRetire
  import opened FrontRetain

  // ----- Marking -----

  /** The nodes on the way along `names`, from the first `k` names on. */
  ghost function OnWay(s: Store, names: seq<Name>, k: nat): set<Id> {
    set n | n in s.nodes && exists j: nat :: k <= j <= |names| && Resolve(s.nodes, ROOT_ID, names[..j]) == Ok(n)
  }

  lemma RetainedOfNone(s: Store, root: seq<Name>)
    requires Linked(s) && Resolve(s.nodes, ROOT_ID, root).Ok?
    ensures Retained(s, root, []) == {Resolve(s.nodes, ROOT_ID, root).value}
  {
    LookupFindsNodes(s, root);
    assert Wanted(root, [], root);
  }

  lemma OnWayIsRetained(s: Store, root: seq<Name>, paths: seq<string>, i: nat, n: Id)
    requires i < |paths| && root <= Segments(paths[i]) && n in OnWay(s, Segments(paths[i]), |root|)
    ensures n in Retained(s, root, paths[..i + 1])
  {
    var names := Segments(paths[i]);
    var j: nat :| |root| <= j <= |names| && Resolve(s.nodes, ROOT_ID, names[..j]) == Ok(n);
    assert root <= names[..j];
    WantedOfMore(root, paths, i, names[..j]);
  }

  /** One more supplied path marks the nodes on the way from the root to it. */
  lemma RetainedOfMore(s: Store, root: seq<Name>, paths: seq<string>, i: nat)
    requires i < |paths| && root <= Segments(paths[i])
    ensures Retained(s, root, paths[..i + 1]) == Retained(s, root, paths[..i]) + OnWay(s, Segments(paths[i]), |root|)
  {
    var names := Segments(paths[i]);
    forall n | n in OnWay(s, names, |root|) {
      OnWayIsRetained(s, root, paths, i, n);
    }
    forall n | n in Retained(s, root, paths[..i])
      ensures n in Retained(s, root, paths[..i + 1])
    {
      var path: seq<Name> :| Wanted(root, paths[..i], path) && Resolve(s.nodes, ROOT_ID, path) == Ok(n);
      WantedOfMore(root, paths, i, path);
    }
    forall n | n in Retained(s, root, paths[..i + 1])
      ensures n in Retained(s, root, paths[..i]) + OnWay(s, names, |root|)
    {
      var path: seq<Name> :| Wanted(root, paths[..i + 1], path) && Resolve(s.nodes, ROOT_ID, path) == Ok(n);
      WantedOfMore(root, paths, i, path);
      if !Wanted(root, paths[..i], path) {
        assert path == names[..|path|];
      }
    }
  }

  /** `path` is on the way to one of the first `n` supplied paths. */
  ghost predicate LeadsToOne(paths: seq<string>, n: nat, path: seq<Name>)
    requires n <= |paths|
  {
    exists i :: 0 <= i < n && path <= Segments(paths[i])
  }

  lemma WantedIsLeading(root: seq<Name>, paths: seq<string>, n: nat, path: seq<Name>)
    requires n <= |paths|
    ensures Wanted(root, paths[..n], path) <==> root <= path && (path == root || LeadsToOne(paths, n, path))
  {
    if i :| 0 <= i < |paths[..n]| && path <= Segments(paths[..n][i]) {
      assert path <= Segments(paths[i]);
    }
    if i :| 0 <= i < n && path <= Segments(paths[i]) {
      assert path <= Segments(paths[..n][i]);
    }
  }

  lemma WantedOfMore(root: seq<Name>, paths: seq<string>, i: nat, path: seq<Name>)
    requires i < |paths| && root <= Segments(paths[i])
    ensures Wanted(root, paths[..i + 1], path) <==>
            Wanted(root, paths[..i], path) || (root <= path && path <= Segments(paths[i]))
  {
    WantedIsLeading(root, paths, i, path);
    WantedIsLeading(root, paths, i + 1, path);
  }

  lemma OnWayStep(s: Store, names: seq<Name>, k: nat, n: Id)
    requires k <= |names| && n in s.nodes && Resolve(s.nodes, ROOT_ID, names[..k]) == Ok(n)
    ensures OnWay(s, names, k) == OnWay(s, names, k + 1) + {n}
  {
  }

  lemma ClimbReachesRoot(s: Store, root: seq<Name>, names: seq<Name>, k: nat, n: Id)
    requires Linked(s) && root <= names && |root| <= k <= |names| && Resolve(s.nodes, ROOT_ID, names[..k]) == Ok(n)
    ensures Ok(n) == Resolve(s.nodes, ROOT_ID, root) <==> k == |root|
  {
    assert root == names[..|root|];
    if Ok(n) == Resolve(s.nodes, ROOT_ID, root) {
      TopPathUnique(s, ROOT_ID, names[..k], ROOT_ID, root);
    }
  }

  lemma ClimbToParent(s: Store, names: seq<Name>, k: nat, n: Id)
    requires Linked(s) && 0 < k <= |names| && Resolve(s.nodes, ROOT_ID, names[..k]) == Ok(n)
    ensures n in s.nodes && s.nodes[n].parent != n
    ensures Resolve(s.nodes, ROOT_ID, names[..k - 1]) == Ok(s.nodes[n].parent)
  {
    LastStep(s, ROOT_ID, names[..k]);
    assert names[..k][..k - 1] == names[..k - 1];
    if s.nodes[n].parent == n {
      TopPathUnique(s, ROOT_ID, names[..k], ROOT_ID, names[..k - 1]);
    }
  }

  // ----- Finding what is stale -----

  /** Marked nodes hang from marked nodes, up to the root. */
  ghost predicate Upward(s: Store, retained: set<Id>, root: Id) {
    && retained <= s.nodes.Keys && root in retained
    && (forall n :: n in retained && n != root ==> !IsTop(s, n) && s.nodes[n].parent in retained)
  }

  lemma RetainedParent(s: Store, root: seq<Name>, paths: seq<string>, n: Id)
    requires Linked(s) && Resolve(s.nodes, ROOT_ID, root).Ok? && n in Retained(s, root, paths)
    ensures var top := Resolve(s.nodes, ROOT_ID, root).value;
            && n in Subtree(s.nodes, top)
            && (n != top ==> !IsTop(s, n) && s.nodes[n].parent in Retained(s, root, paths))
  {
    var top := Resolve(s.nodes, ROOT_ID, root).value;
    var path: seq<Name> :| Wanted(root, paths, path) && Resolve(s.nodes, ROOT_ID, path) == Ok(n);
    assert path == root + path[|root|..];
    ResolveConcat(s.nodes, ROOT_ID, root, path[|root|..]);
    assert Reaches(s.nodes, top, n);
    if n != top {
      LastStep(s, ROOT_ID, path);
      WantedPrefix(root, paths, path);
      RetainedIsWanted(s, root, paths, path[..|path| - 1]);
    }
  }

  lemma RetainedIsUpward(s: Store, root: seq<Name>, paths: seq<string>)
    requires Linked(s) && Resolve(s.nodes, ROOT_ID, root).Ok?
    ensures Upward(s, Retained(s, root, paths), Resolve(s.nodes, ROOT_ID, root).value)
    ensures forall n :: n in Retained(s, root, paths) ==>
              n in Subtree(s.nodes, Resolve(s.nodes, ROOT_ID, root).value)
  {
    hide Linked, Subtree;
    RetainedIsWanted(s, root, paths, root);
    forall n | n in Retained(s, root, paths) {
      RetainedParent(s, root, paths, n);
    }
  }

  /** If a marked node is below `c`, then `c` is marked, unless the root is below `c` too. */
  lemma {:induction false} BetweenIsMarked(s: Store, retained: set<Id>, root: Id, c: Id, path: seq<Name>)
    requires Linked(s) && Upward(s, retained, root) && c in s.nodes && root !in Subtree(s.nodes, c)
    requires Resolve(s.nodes, c, path).Ok? && Resolve(s.nodes, c, path).value in retained
    ensures c in retained
    decreases |path|
  {
    if path != [] {
      var n := Resolve(s.nodes, c, path).value;
      assert n in Subtree(s.nodes, c);
      LastStep(s, c, path);
      BetweenIsMarked(s, retained, root, c, path[..|path| - 1]);
    }
  }

  /** The stale nodes at or below an entry. */
  ghost function Part(s: Store, retained: set<Id>, c: Id): set<Id> {
    set n | n in Stale(s, retained) && (n == c || s.nodes[n].parent in Subtree(s.nodes, c))
  }

  ghost function StaleBelow(s: Store, retained: set<Id>, dir: Id): set<Id> {
    set n | n in Stale(s, retained) && s.nodes[n].parent in Subtree(s.nodes, dir)
  }

  lemma PartOfMarked(s: Store, retained: set<Id>, c: Id)
    requires Linked(s) && c in s.nodes && c in retained
    ensures Part(s, retained, c) == StaleBelow(s, retained, c)
    ensures !s.nodes[c].body.Dir? ==> Part(s, retained, c) == {}
  {
    if !s.nodes[c].body.Dir? {
      SubtreeSplits(s, c);
      assert Entries(s.nodes, c) == {};
      forall n | n in Stale(s, retained)
        ensures s.nodes[n].parent != c
      {
        assert Hangs(s, n);
      }
    }
  }

  lemma PartOfUnmarked(s: Store, retained: set<Id>, root: Id, dir: Id, c: Id)
    requires Linked(s) && Upward(s, retained, root) && dir in retained && c in Entries(s.nodes, dir)
    requires c !in retained && root !in Subtree(s.nodes, c)
    ensures Part(s, retained, c) == {c}
  {
    var k :| k in Kids(s.nodes, dir) && Kids(s.nodes, dir)[k] == c;
    assert EntryOk(s, dir, k);
    forall n | n in Stale(s, retained) && s.nodes[n].parent in Subtree(s.nodes, c)
      ensures false
    {
      var path: seq<Name> :| Resolve(s.nodes, c, path) == Ok(s.nodes[n].parent);
      BetweenIsMarked(s, retained, root, c, path);
    }
  }

  /** Everything stale below a directory is stale at or below one of its entries. */
  lemma StaleBelowSplits(s: Store, retained: set<Id>, dir: Id, n: Id)
    requires Linked(s) && dir in s.nodes && n in Stale(s, retained)
    ensures n in StaleBelow(s, retained, dir) <==> exists c :: c in Entries(s.nodes, dir) && n in Part(s, retained, c)
  {
    SubtreeSplits(s, dir);
    assert Hangs(s, n);
    if n in StaleBelow(s, retained, dir) {
      if s.nodes[n].parent == dir {
        assert n in Entries(s.nodes, dir);
      } else {
        var c :| c in Entries(s.nodes, dir) && s.nodes[n].parent in Subtree(s.nodes, c);
        assert n in Part(s, retained, c);
      }
    }
    if c :| c in Entries(s.nodes, dir) && n in Part(s, retained, c) {
      if n == c {
        var k :| k in Kids(s.nodes, dir) && Kids(s.nodes, dir)[k] == c;
        assert EntryOk(s, dir, k);
      } else {
        assert s.nodes[n].parent in Trees(s.nodes, Entries(s.nodes, dir));
      }
    }
  }

  // ----- Retiring what is stale -----

  lemma {:induction false} AvoidsFewer(nodes: map<Id, Node>, id: Id, path: seq<Name>, more: set<Id>, fewer: set<Id>)
    requires Avoids(nodes, id, path, more) && fewer <= more
    ensures Avoids(nodes, id, path, fewer)
    decreases |path|
  {
    if path != [] {
      AvoidsFewer(nodes, id, path[..|path| - 1], more, fewer);
    }
  }

  /** A stale node is still attached while other stale nodes are being retired. */
  lemma StaleStaysAttached(s: Store, root: seq<Name>, paths: seq<string>, done: set<Id>, id: Id)
    requires Linked(s) && done <= Stale(s, Retained(s, root, paths))
    requires id in Stale(s, Retained(s, root, paths)) && id !in done
    ensures id != ROOT_ID && Attached(Detach(s, done), id)
  {
    var stale := Stale(s, Retained(s, root, paths));
    var parent := s.nodes[id].parent;
    var path: seq<Name> :| Wanted(root, paths, path) && Resolve(s.nodes, ROOT_ID, path) == Ok(parent);
    assert Hangs(s, id);
    AvoidsStale(s, root, paths, path);
    AvoidsFewer(s.nodes, ROOT_ID, path, stale, done);
    var full := path + [s.nodes[id].name];
    ResolveSnoc(s.nodes, ROOT_ID, path, s.nodes[id].name);
    assert full[..|full| - 1] == path;
    DetachPaths(s, done, ROOT_ID, full);
    assert Reaches(Detach(s, done).nodes, ROOT_ID, id);
  }

  /** What is stale at or below one of several nodes. */
  ghost function Parts(s: Store, retained: set<Id>, cs: set<Id>): set<Id> {
    set n | n in Stale(s, retained) && exists c :: c in cs && n in Part(s, retained, c)
  }

  lemma NoParts(s: Store, retained: set<Id>)
    ensures Parts(s, retained, {}) == {}
  {
  }

  lemma PartsMore(s: Store, retained: set<Id>, cs: set<Id>, c: Id)
    ensures Parts(s, retained, cs + {c}) == Parts(s, retained, cs) + Part(s, retained, c)
  {
    hide Stale, Subtree;
  }

  lemma StaleBelowIsParts(s: Store, retained: set<Id>, dir: Id)
    requires Linked(s) && dir in s.nodes
    ensures StaleBelow(s, retained, dir) == Parts(s, retained, Entries(s.nodes, dir))
  {
    hide Linked, Stale, Subtree, Entries;
    forall n | n in Stale(s, retained)
      ensures n in StaleBelow(s, retained, dir) <==> n in Parts(s, retained, Entries(s.nodes, dir))
    {
      StaleBelowSplits(s, retained, dir, n);
    }
  }
}
