/** `retain_subtree_paths`: everything below a root goes, except chosen paths and their ancestors. */
module FrontRetain {
  import opened Prelude
  import opened Paths
  import opened FrontStore
  import opened FrontCollect
  import opened FrontOps
  import opened FrontPaths
  import opened FrontRetire

  /** `path` is the root, a supplied path, or lies on the way from the root to one. */
  ghost predicate Wanted(root: seq<Name>, paths: seq<string>, path: seq<Name>) {
    && root <= path
    && (path == root || exists i :: 0 <= i < |paths| && path <= Segments(paths[i]))
  }

  /** The first complaint about the supplied paths, in order. */
  function CheckPaths(s: Store, root: seq<Name>, paths: seq<string>): Result<()> {
    if paths == [] then Ok(())
    else if !(root <= Segments(paths[0])) then Err(EPERM)
    else
      match LookupPath(s, paths[0])
      case Err(e) => Err(e)
      case Ok(_) => CheckPaths(s, root, paths[1..])
  }

  ghost function Retained(s: Store, root: seq<Name>, paths: seq<string>): set<Id> {
    set n | n in s.nodes && exists path: seq<Name> ::
              Wanted(root, paths, path) && Resolve(s.nodes, ROOT_ID, path) == Ok(n)
  }

  /** The topmost nodes to go: entries of a retained directory that are not retained. */
  ghost function Stale(s: Store, retained: set<Id>): set<Id> {
    set n | n in s.nodes && !IsTop(s, n) && s.nodes[n].parent in retained && n !in retained
  }

  /** Principal roots that no longer exist are forgotten. */
  function ForgetLostPrincipals(s: Store): Store {
    s.(principals := map u | u in s.principals && s.principals[u].root in s.nodes :: s.principals[u])
  }

  ghost function RetainPaths(s: Store, rootPath: string, paths: seq<string>): (Store, Result<bool>) {
    match LookupPath(s, rootPath)
    case Err(e) => (s, Err(e))
    case Ok(root) =>
      if root !in s.nodes then (s, Err(ENOENT))
      else if !s.nodes[root].body.Dir? then (s, Err(ENOTDIR))
      else
        match CheckPaths(s, Segments(rootPath), paths)
        case Err(e) => (s, Err(e))
        case Ok(_) =>
          var stale := Stale(s, Retained(s, Segments(rootPath), paths));
          if stale == {} then (s, Ok(false))
          else (ForgetLostPrincipals(Collect(Detach(s, stale))), Ok(true))
  }

  lemma RetainKeepsInv(s: Store, rootPath: string, paths: seq<string>)
    requires Inv(s)
    ensures var (t, r) := RetainPaths(s, rootPath, paths); Inv(t) && t.refs == s.refs
  {
    var stale := Stale(s, Retained(s, Segments(rootPath), paths));
    RetireKeepsInv(s, stale);
    var u := Collect(Detach(s, stale));
    var t := ForgetLostPrincipals(u);
    SettingsAside(u, t);
  }

  /** The invariant does not look at principal roots or the log capacity. */
  lemma SettingsAside(s: Store, t: Store)
    requires Inv(s)
    requires t == s.(principals := t.principals, principalsRequired := t.principalsRequired,
                    logCapacity := t.logCapacity)
    ensures Inv(t)
  {
    forall n | n in t.nodes
      ensures SamePlaceAt(s.nodes, t.nodes, n)
    {
    }
    SameQidsKeepIndex(s, t);
    SameKeysKeepTables(s, t);
    SameEdgesKeepInv(s, t);
  }

  lemma {:induction false} CheckedPathsResolve(s: Store, root: seq<Name>, paths: seq<string>, i: nat)
    requires CheckPaths(s, root, paths).Ok? && i < |paths|
    ensures root <= Segments(paths[i]) && LookupPath(s, paths[i]).Ok?
    decreases |paths|
  {
    hide Segments, LookupPath;
    if i > 0 {
      CheckedPathsResolve(s, root, paths[1..], i - 1);
    }
  }

  lemma WantedPathResolves(s: Store, root: seq<Name>, paths: seq<string>, path: seq<Name>)
    requires Resolve(s.nodes, ROOT_ID, root).Ok? && CheckPaths(s, root, paths).Ok? && Wanted(root, paths, path)
    ensures Resolve(s.nodes, ROOT_ID, path).Ok?
  {
    if path != root {
      var i :| 0 <= i < |paths| && path <= Segments(paths[i]);
      CheckedPathsResolve(s, root, paths, i);
      PrefixResolves(s, path, Segments(paths[i]));
    }
  }

  lemma RetainedIsWanted(s: Store, root: seq<Name>, paths: seq<string>, path: seq<Name>)
    requires Linked(s) && Resolve(s.nodes, ROOT_ID, path).Ok?
    ensures Resolve(s.nodes, ROOT_ID, path).value in Retained(s, root, paths) <==> Wanted(root, paths, path)
  {
    var n := Resolve(s.nodes, ROOT_ID, path).value;
    LookupFindsNodes(s, path);
    if n in Retained(s, root, paths) {
      var other: seq<Name> :| Wanted(root, paths, other) && Resolve(s.nodes, ROOT_ID, other) == Ok(n);
      TopPathUnique(s, ROOT_ID, path, ROOT_ID, other);
    }
  }

  /** Wanted paths are closed under taking prefixes, down to the root. */
  lemma WantedPrefix(root: seq<Name>, paths: seq<string>, path: seq<Name>)
    requires Wanted(root, paths, path) && path != root
    ensures Wanted(root, paths, path[..|path| - 1])
  {
    var i :| 0 <= i < |paths| && path <= Segments(paths[i]);
    assert path[..|path| - 1] <= Segments(paths[i]);
    assert root <= path[..|path| - 1];
  }

  /** A path avoids the stale entries exactly when it is outside the subtree or wanted. */
  lemma {:induction false} AvoidsStale(s: Store, root: seq<Name>, paths: seq<string>, path: seq<Name>)
    requires Linked(s) && Resolve(s.nodes, ROOT_ID, path).Ok?
    ensures Avoids(s.nodes, ROOT_ID, path, Stale(s, Retained(s, root, paths))) <==>
            (!(root <= path) || Wanted(root, paths, path))
    decreases |path|
  {
    if path != [] {
      var front := path[..|path| - 1];
      var retained := Retained(s, root, paths);
      LastStep(s, ROOT_ID, path);
      AvoidsStale(s, root, paths, front);
      RetainedIsWanted(s, root, paths, path);
      RetainedIsWanted(s, root, paths, front);
      assert root <= path <==> root <= front || root == path;
      if Wanted(root, paths, path) && path != root {
        WantedPrefix(root, paths, path);
      }
    }
  }

  /** Retention is all or nothing. On an error nothing changed; on success the paths below the root
      that still resolve are exactly the supplied ones and their ancestors, every surviving path
      leads to the node it led to, and paths outside the subtree are untouched. */
  lemma RetainResolves(s: Store, rootPath: string, paths: seq<string>, path: seq<Name>)
    requires Inv(s)
    ensures var (t, r) := RetainPaths(s, rootPath, paths);
            && (r.Err? ==> t == s)
            && (r.Ok? && Segments(rootPath) <= path ==>
                  (Resolve(t.nodes, ROOT_ID, path).Ok? <==> Wanted(Segments(rootPath), paths, path)))
            && (!(Segments(rootPath) <= path) ==>
                  (Resolve(t.nodes, ROOT_ID, path).Ok? <==> Resolve(s.nodes, ROOT_ID, path).Ok?))
            && (Resolve(t.nodes, ROOT_ID, path).Ok? ==>
                  Resolve(t.nodes, ROOT_ID, path) == Resolve(s.nodes, ROOT_ID, path))
  {
    var root := Segments(rootPath);
    var (t, r) := RetainPaths(s, rootPath, paths);
    if r.Ok? {
      var stale := Stale(s, Retained(s, root, paths));
      var u := Detach(s, stale);
      DetachKeepsLinked(s, stale);
      DetachPaths(s, stale, ROOT_ID, path);
      CollectKeepsPaths(u, path);
      if Resolve(s.nodes, ROOT_ID, path).Ok? {
        AvoidsStale(s, root, paths, path);
      } else if Wanted(root, paths, path) {
        WantedPathResolves(s, root, paths, path);
      }
      if stale == {} {
        NothingStale(s, path);
      }
    }
  }

  lemma {:induction false} NothingStale(s: Store, path: seq<Name>)
    ensures Avoids(s.nodes, ROOT_ID, path, {})
    decreases |path|
  {
    if path != [] {
      NothingStale(s, path[..|path| - 1]);
    }
  }
}
