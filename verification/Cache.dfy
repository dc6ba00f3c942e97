/** The client's cache of a namespace: crates/session/src/cache.rs. */
module Cache {
  import opened Prelude
  import opened Wire
  import opened Stats
  import opened Messages
  import opened AbsolutePaths

  type Path = seq<seq<byte>>

  datatype StaleReason = Reconnect | NamespaceChange | IdentityChange | NotDirectory | Explicit(detail: seq<byte>)

  datatype DirEntry = DirEntry(name: seq<byte>, qid: Qid, stat: Stat)

  datatype DirCache = DirCache(entries: seq<DirEntry>, stale: Option<StaleReason>)

  datatype CachedNode = CachedNode(stat: Stat, stale: Option<StaleReason>, dir: Option<DirCache>)

  type Entries = map<Path, CachedNode>

  predicate IsDir(stat: Stat) {
    stat.qid.qtype / 0x80 % 2 == 1 || stat.mode / 0x8000_0000 % 2 == 1
  }

  /** The top bit of the qid's type or of the mode, as 9P2000 marks directories. */
  lemma IsDirIff(stat: Stat)
    ensures IsDir(stat) <==> stat.qid.qtype >= 0x80 || stat.mode >= 0x8000_0000
  {
  }

  predicate Dots(name: seq<byte>) {
    name == [DOT] || name == [DOT, DOT]
  }

  // ----- Hits -----

  function StatIfFresh(c: Entries, path: Path): Option<Stat> {
    if path in c && c[path].stale == None then Some(c[path].stat) else None
  }

  function DirectoryIfFresh(c: Entries, path: Path): Option<seq<DirEntry>> {
    if path in c && c[path].stale == None && c[path].dir.Some? && c[path].dir.value.stale == None
    then Some(c[path].dir.value.entries)
    else None
  }

  // ----- Fills -----

  function UpdateStat(c: Entries, path: Path, stat: Stat): Entries {
    var dir := if path !in c || c[path].stat.qid != stat.qid || !IsDir(stat) then None else c[path].dir;
    c[path := CachedNode(stat, None, dir)]
  }

  function SeedChildStats(c: Entries, parent: Path, entries: seq<DirEntry>): Entries
    decreases |entries|
  {
    if entries == [] then c
    else
      var child := entries[0];
      var c' := if Dots(child.name) then c else UpdateStat(c, parent + [child.name], child.stat);
      SeedChildStats(c', parent, entries[1..])
  }

  function UpdateDirectory(c: Entries, path: Path, entries: seq<DirEntry>): Entries {
    if path in c && IsDir(c[path].stat) && c[path].stale == None
    then SeedChildStats(c[path := c[path].(dir := Some(DirCache(entries, None)))], path, entries)
    else c
  }

  // ----- Invalidation -----

  function ParentPath(path: Path): Option<Path> {
    if path == [] then None else Some(path[..|path| - 1])
  }

  /** What a notified change at `path` leaves of one cached node. */
  function MarkNode(path: Path, at: Path, node: CachedNode, reason: StaleReason): CachedNode {
    if path <= at then node.(stale := Some(reason), dir := None)
    else if ParentPath(path) == Some(at) then node.(dir := None)
    else node
  }

  function MarkPath(c: Entries, path: Path, reason: StaleReason): Entries {
    map at | at in c :: MarkNode(path, at, c[at], reason)
  }

  function MarkAll(c: Entries, reason: StaleReason): Entries {
    map at | at in c :: c[at].(stale := Some(reason), dir := None)
  }

  function MarkNotified(c: Entries, path: seq<byte>): Entries {
    match ParseAbsolutePath(path)
    case Some(segments) => MarkPath(c, segments, NamespaceChange)
    case None => MarkAll(c, Explicit(path))
  }

  function MarkNamespaceChange(c: Entries, path: seq<byte>, oldPath: Option<seq<byte>>): Entries {
    var c' := MarkNotified(c, path);
    if oldPath.Some? then MarkNotified(c', oldPath.value) else c'
  }

  // ----- The namespace behind the cache -----

  datatype Namespace = Namespace(stats: map<Path, Stat>, listings: map<Path, seq<DirEntry>>)

  ghost predicate Lists(n: Namespace, path: Path, entry: DirEntry) {
    Dots(entry.name) || (path + [entry.name] in n.stats && n.stats[path + [entry.name]] == entry.stat)
  }

  /** A listing shows the stats of the children it names. */
  ghost predicate ListsAll(n: Namespace, path: Path) {
    path in n.listings ==>
      forall i :: 0 <= i < |n.listings[path]| ==> Lists(n, path, n.listings[path][i])
  }

  ghost predicate Coherent(n: Namespace) {
    forall path :: ListsAll(n, path)
  }

  /** The cached node says nothing that is not so; a listing is kept only beside a fresh stat. */
  ghost predicate HonestAt(c: Entries, n: Namespace, path: Path) {
    path in c ==>
      && (c[path].stale == None ==> path in n.stats && n.stats[path] == c[path].stat)
      && (c[path].dir.Some? ==>
            c[path].stale == None && path in n.listings && n.listings[path] == c[path].dir.value.entries)
  }

  ghost predicate Honest(c: Entries, n: Namespace) {
    forall path :: HonestAt(c, n, path)
  }

  // ----- Fills keep the cache honest -----

  lemma UpdateStatIsHonest(c: Entries, n: Namespace, path: Path, stat: Stat)
    requires Honest(c, n) && path in n.stats && n.stats[path] == stat
    ensures Honest(UpdateStat(c, path, stat), n)
  {
    var c' := UpdateStat(c, path, stat);
    forall p
      ensures HonestAt(c', n, p)
    {
      assert HonestAt(c, n, p);
    }
  }

  lemma {:induction false} SeedIsHonest(c: Entries, n: Namespace, parent: Path, entries: seq<DirEntry>)
    requires Honest(c, n)
    requires forall i :: 0 <= i < |entries| ==> Lists(n, parent, entries[i])
    ensures Honest(SeedChildStats(c, parent, entries), n)
    decreases |entries|
  {
    if entries != [] {
      var child := entries[0];
      assert Lists(n, parent, entries[0]);
      if Dots(child.name) {
        SeedIsHonest(c, n, parent, entries[1..]);
      } else {
        UpdateStatIsHonest(c, n, parent + [child.name], child.stat);
        SeedIsHonest(UpdateStat(c, parent + [child.name], child.stat), n, parent, entries[1..]);
      }
    }
  }

  lemma UpdateDirectoryIsHonest(c: Entries, n: Namespace, path: Path)
    requires Honest(c, n) && Coherent(n) && path in n.listings
    ensures Honest(UpdateDirectory(c, path, n.listings[path]), n)
  {
    var entries := n.listings[path];
    if path in c && IsDir(c[path].stat) && c[path].stale == None {
      var c' := c[path := c[path].(dir := Some(DirCache(entries, None)))];
      forall p
        ensures HonestAt(c', n, p)
      {
        assert HonestAt(c, n, p);
      }
      assert ListsAll(n, path);
      SeedIsHonest(c', n, path, entries);
    }
  }

  // ----- Changes -----

  ghost predicate SameStat(n: Namespace, m: Namespace, p: Path) {
    (p in n.stats <==> p in m.stats) && (p in n.stats ==> n.stats[p] == m.stats[p])
  }

  ghost predicate SameListing(n: Namespace, m: Namespace, p: Path) {
    (p in n.listings <==> p in m.listings) && (p in n.listings ==> n.listings[p] == m.listings[p])
  }

  /** A notification for `path` covers a change of the stat at `p` when the text names `p` or a path above
      it. A text that names no path covers everything. */
  ghost predicate CoversStat(path: seq<byte>, p: Path) {
    !Absolute(path) || exists q: Path :: Spells(path, q) && q <= p
  }

  /** And of the listing at `p` when it names `p`, a path above it, or an entry of it. */
  ghost predicate CoversListing(path: seq<byte>, p: Path) {
    !Absolute(path) || exists q: Path :: Spells(path, q) && (q <= p || (q != [] && p == q[..|q| - 1]))
  }

  /** The change alters only stats at or below the notified paths and their entries in their parents. */
  ghost predicate Covered(n: Namespace, m: Namespace, path: seq<byte>, oldPath: Option<seq<byte>>) {
    && (forall p :: SameStat(n, m, p) || CoversStat(path, p) || (oldPath.Some? && CoversStat(oldPath.value, p)))
    && (forall p :: SameListing(n, m, p) || CoversListing(path, p)
                       || (oldPath.Some? && CoversListing(oldPath.value, p)))
  }

  lemma CoversIff(path: seq<byte>, p: Path)
    ensures CoversStat(path, p) <==>
            (match ParseAbsolutePath(path) case Some(q) => q <= p case None => true)
    ensures CoversListing(path, p) <==>
            (match ParseAbsolutePath(path) case Some(q) => q <= p || ParentPath(q) == Some(p) case None => true)
  {
    if Absolute(path) {
      var parsed := ParseAbsolutePath(path).value;
      ParseIsSpelling(path, parsed);
      forall q: Path | Spells(path, q)
        ensures q == parsed
      {
        ParseIsSpelling(path, q);
      }
    }
  }

  /** One notification drops exactly what it covers. */
  lemma MarkNotifiedIsExact(c: Entries, path: seq<byte>, p: Path)
    ensures StatIfFresh(MarkNotified(c, path), p) == (if CoversStat(path, p) then None else StatIfFresh(c, p))
    ensures DirectoryIfFresh(MarkNotified(c, path), p) ==
            (if CoversListing(path, p) then None else DirectoryIfFresh(c, p))
    ensures p in MarkNotified(c, path) <==> p in c
  {
    CoversIff(path, p);
  }

  lemma MarkNotifiedNode(c: Entries, path: seq<byte>, p: Path)
    requires p in c
    ensures var node := MarkNotified(c, path)[p];
            && node.stat == c[p].stat
            && (if CoversStat(path, p) then node.stale.Some? else node.stale == c[p].stale)
            && node.dir == (if CoversListing(path, p) then None else c[p].dir)
  {
    CoversIff(path, p);
  }

  /** A covered change followed by its notification leaves only hits that are still so. */
  lemma NotifiedChangeIsHonest(c: Entries, n: Namespace, m: Namespace, path: seq<byte>, oldPath: Option<seq<byte>>)
    requires Honest(c, n) && Covered(n, m, path, oldPath)
    ensures Honest(MarkNamespaceChange(c, path, oldPath), m)
  {
    var c1 := MarkNotified(c, path);
    var c2 := MarkNamespaceChange(c, path, oldPath);
    forall p
      ensures HonestAt(c2, m, p)
    {
      MarkNotifiedIsExact(c, path, p);
      if oldPath.Some? {
        MarkNotifiedIsExact(c1, oldPath.value, p);
      }
      if p in c {
        assert HonestAt(c, n, p);
        MarkNotifiedNode(c, path, p);
        if oldPath.Some? {
          MarkNotifiedNode(c1, oldPath.value, p);
        }
        assert SameStat(n, m, p) || CoversStat(path, p) || (oldPath.Some? && CoversStat(oldPath.value, p));
        assert SameListing(n, m, p) || CoversListing(path, p) || (oldPath.Some? && CoversListing(oldPath.value, p));
      }
    }
  }

  lemma MarkAllIsHonest(c: Entries, n: Namespace, m: Namespace, reason: StaleReason)
    ensures Honest(MarkAll(c, reason), m)
  {
  }

  // ----- Runs -----

  datatype World = World(cache: Entries, namespace: Namespace)

  datatype Step =
    | LearnStat(path: Path)
    | LearnDirectory(path: Path)
    | Change(notified: seq<byte>, oldPath: Option<seq<byte>>, after: Namespace)
    | Lose(reason: StaleReason, after: Namespace)

  /** Fills copy the namespace; changes are covered by their notification; after `mark_all_stale` the
      namespace may be any other. */
  ghost predicate Allowed(w: World, step: Step) {
    match step
    case LearnStat(path) => path in w.namespace.stats
    case LearnDirectory(path) => path in w.namespace.listings
    case Change(notified, oldPath, after) => Coherent(after) && Covered(w.namespace, after, notified, oldPath)
    case Lose(_, after) => Coherent(after)
  }

  ghost function Next(w: World, step: Step): World
    requires Allowed(w, step)
  {
    match step
    case LearnStat(path) => w.(cache := UpdateStat(w.cache, path, w.namespace.stats[path]))
    case LearnDirectory(path) => w.(cache := UpdateDirectory(w.cache, path, w.namespace.listings[path]))
    case Change(notified, oldPath, after) => World(MarkNamespaceChange(w.cache, notified, oldPath), after)
    case Lose(reason, after) => World(MarkAll(w.cache, reason), after)
  }

  ghost predicate Run(worlds: seq<World>, steps: seq<Step>) {
    && |worlds| == |steps| + 1
    && worlds[0].cache == map[] && Coherent(worlds[0].namespace)
    && forall i :: 0 <= i < |steps| ==> Allowed(worlds[i], steps[i]) && worlds[i + 1] == Next(worlds[i], steps[i])
  }

  lemma NextIsHonest(w: World, step: Step)
    requires Honest(w.cache, w.namespace) && Coherent(w.namespace) && Allowed(w, step)
    ensures var w' := Next(w, step); Honest(w'.cache, w'.namespace) && Coherent(w'.namespace)
  {
    match step {
      case LearnStat(path) => UpdateStatIsHonest(w.cache, w.namespace, path, w.namespace.stats[path]);
      case LearnDirectory(path) => UpdateDirectoryIsHonest(w.cache, w.namespace, path);
      case Change(notified, oldPath, after) => NotifiedChangeIsHonest(w.cache, w.namespace, after, notified, oldPath);
      case Lose(reason, after) => MarkAllIsHonest(w.cache, w.namespace, after, reason);
    }
  }

  lemma {:induction false} RunIsHonest(worlds: seq<World>, steps: seq<Step>, i: nat)
    requires Run(worlds, steps) && i < |worlds|
    ensures Honest(worlds[i].cache, worlds[i].namespace) && Coherent(worlds[i].namespace)
  {
    if i > 0 {
      RunIsHonest(worlds, steps, i - 1);
      assert Allowed(worlds[i - 1], steps[i - 1]);
      NextIsHonest(worlds[i - 1], steps[i - 1]);
    }
  }

  /** Every hit equals the current namespace, in every reachable state. */
  lemma HitsAreCurrent(worlds: seq<World>, steps: seq<Step>, i: nat, path: Path)
    requires Run(worlds, steps) && i < |worlds|
    ensures var w := worlds[i];
            && (StatIfFresh(w.cache, path).Some? ==>
                  path in w.namespace.stats && w.namespace.stats[path] == StatIfFresh(w.cache, path).value)
            && (DirectoryIfFresh(w.cache, path).Some? ==>
                  path in w.namespace.listings && w.namespace.listings[path] == DirectoryIfFresh(w.cache, path).value)
  {
    RunIsHonest(worlds, steps, i);
    assert HonestAt(worlds[i].cache, worlds[i].namespace, path);
  }

  /** A fill is a hit until something covers it: the cache is not honest by being empty. */
  lemma FillsHit(c: Entries, path: Path, stat: Stat, other: Path)
    ensures StatIfFresh(UpdateStat(c, path, stat), path) == Some(stat)
    ensures other != path ==> StatIfFresh(UpdateStat(c, path, stat), other) == StatIfFresh(c, other)
    ensures other != path ==> DirectoryIfFresh(UpdateStat(c, path, stat), other) == DirectoryIfFresh(c, other)
  {
  }

  /** A listing survives a new stat of the same qid that is still a directory, and no other. */
  lemma StatKeepsListing(c: Entries, path: Path, stat: Stat)
    ensures DirectoryIfFresh(UpdateStat(c, path, stat), path) ==
            if path in c && c[path].stat.qid == stat.qid && IsDir(stat) && c[path].dir.Some?
               && c[path].dir.value.stale == None
            then Some(c[path].dir.value.entries) else None
  {
  }

  lemma {:induction false} SeedKeepsOthers(c: Entries, parent: Path, entries: seq<DirEntry>, p: Path)
    requires |p| != |parent| + 1 || p[..|parent|] != parent
    ensures var c' := SeedChildStats(c, parent, entries); (p in c' <==> p in c) && (p in c ==> c'[p] == c[p])
    decreases |entries|
  {
    if entries != [] {
      var child := entries[0];
      assert (parent + [child.name])[..|parent|] == parent;
      SeedKeepsOthers(if Dots(child.name) then c else UpdateStat(c, parent + [child.name], child.stat),
                      parent, entries[1..], p);
    }
  }

  lemma DirectoryFillsHit(c: Entries, path: Path, entries: seq<DirEntry>)
    ensures DirectoryIfFresh(UpdateDirectory(c, path, entries), path)
         == (if StatIfFresh(c, path).Some? && IsDir(c[path].stat) then Some(entries) else DirectoryIfFresh(c, path))
  {
    if StatIfFresh(c, path).Some? && IsDir(c[path].stat) {
      SeedKeepsOthers(c[path := c[path].(dir := Some(DirCache(entries, None)))], path, entries, path);
    }
  }

  lemma {:induction false} SeedKeepsUnnamed(c: Entries, parent: Path, entries: seq<DirEntry>, name: seq<byte>)
    requires forall j :: 0 <= j < |entries| ==> entries[j].name != name
    ensures StatIfFresh(SeedChildStats(c, parent, entries), parent + [name]) == StatIfFresh(c, parent + [name])
    decreases |entries|
  {
    if entries != [] {
      var child := entries[0];
      var c' := if Dots(child.name) then c else UpdateStat(c, parent + [child.name], child.stat);
      assert (parent + [child.name])[|parent|] != (parent + [name])[|parent|];
      SeedKeepsUnnamed(c', parent, entries[1..], name);
    }
  }

  lemma {:induction false} SeedHits(c: Entries, parent: Path, entries: seq<DirEntry>, k: nat)
    requires k < |entries| && !Dots(entries[k].name)
    requires forall j :: k < j < |entries| ==> entries[j].name != entries[k].name
    ensures StatIfFresh(SeedChildStats(c, parent, entries), parent + [entries[k].name]) == Some(entries[k].stat)
    decreases k
  {
    var child, rest := entries[0], entries[1..];
    var c' := if Dots(child.name) then c else UpdateStat(c, parent + [child.name], child.stat);
    if k == 0 {
      FillsHit(c, parent + [child.name], child.stat, []);
      SeedKeepsUnnamed(c', parent, rest, child.name);
    } else {
      SeedHits(c', parent, rest, k - 1);
    }
  }

  /** A listing that is filled in makes hits of the stats it shows, of the last one where a name is listed twice. */
  lemma DirectorySeedsHits(c: Entries, path: Path, entries: seq<DirEntry>, k: nat)
    requires StatIfFresh(c, path).Some? && IsDir(c[path].stat) && k < |entries| && !Dots(entries[k].name)
    requires forall j :: k < j < |entries| ==> entries[j].name != entries[k].name
    ensures StatIfFresh(UpdateDirectory(c, path, entries), path + [entries[k].name]) == Some(entries[k].stat)
  {
    SeedHits(c[path := c[path].(dir := Some(DirCache(entries, None)))], path, entries, k);
  }

  // ----- The cache itself -----

  class NamespaceCache {
    var entries: Entries

    constructor ()
      ensures entries == map[]
    {
      entries := map[];
    }

    method StatHit(path: Path) returns (r: Option<Stat>)
      ensures r == StatIfFresh(entries, path)
    {
      r := if path in entries && entries[path].stale.None? then Some(entries[path].stat) else None;
    }

    method DirectoryHit(path: Path) returns (r: Option<seq<DirEntry>>)
      ensures r == DirectoryIfFresh(entries, path)
    {
      if path !in entries || entries[path].stale.Some? || entries[path].dir.None? {
        return None;
      }
      var listing := entries[path].dir.value;
      r := if listing.stale.None? then Some(listing.entries) else None;
    }

    method SetStat(path: Path, stat: Stat)
      modifies this
      ensures entries == UpdateStat(old(entries), path, stat)
    {
      var node := if path in entries then entries[path] else CachedNode(stat, None, None);
      var identityChanged := node.stat.qid != stat.qid;
      node := node.(stat := stat, stale := None);
      if identityChanged || !IsDir(stat) {
        node := node.(dir := None);
      }
      entries := entries[path := node];
    }

    method SetDirectory(path: Path, listing: seq<DirEntry>)
      modifies this
      ensures entries == UpdateDirectory(old(entries), path, listing)
    {
      if path !in entries || !IsDir(entries[path].stat) || entries[path].stale.Some? {
        return;
      }
      entries := entries[path := entries[path].(dir := Some(DirCache(listing, None)))];
      ghost var goal := SeedChildStats(entries, path, listing);
      assert listing[0..] == listing;
      for i := 0 to |listing|
        invariant goal == SeedChildStats(entries, path, listing[i..])
      {
        var child := listing[i];
        assert listing[i..][0] == child && listing[i..][1..] == listing[i + 1..];
        if !Dots(child.name) {
          SetStat(path + [child.name], child.stat);
        }
      }
    }

    /** The loop over all cached nodes. */
    method MarkBelow(path: Path, reason: StaleReason)
      modifies this
      ensures entries.Keys == old(entries.Keys)
      ensures forall at :: at in entries ==>
                entries[at] == if path <= at then old(entries)[at].(stale := Some(reason), dir := None)
                                else old(entries)[at]
    {
      var todo := entries.Keys;
      while todo != {}
        invariant todo <= entries.Keys == old(entries.Keys)
        invariant forall at :: at in todo ==> entries[at] == old(entries)[at]
        invariant forall at :: at in entries && at !in todo ==>
                    entries[at] == if path <= at then old(entries)[at].(stale := Some(reason), dir := None)
                                    else old(entries)[at]
        decreases |todo|
      {
        var at :| at in todo;
        if path <= at {
          entries := entries[at := entries[at].(stale := Some(reason), dir := None)];
        }
        todo := todo - {at};
      }
    }

    method MarkPathStale(path: Path, reason: StaleReason)
      modifies this
      ensures entries == MarkPath(old(entries), path, reason)
    {
      if path != [] {
        var parent := path[..|path| - 1];
        if parent in entries {
          entries := entries[parent := entries[parent].(dir := None)];
        }
      }
      MarkBelow(path, reason);
    }

    method MarkAllStale(reason: StaleReason)
      modifies this
      ensures entries == MarkAll(old(entries), reason)
    {
      var todo := entries.Keys;
      while todo != {}
        invariant todo <= entries.Keys == old(entries.Keys)
        invariant forall at :: at in todo ==> entries[at] == old(entries)[at]
        invariant forall at :: at in entries && at !in todo ==>
                    entries[at] == old(entries)[at].(stale := Some(reason), dir := None)
        decreases |todo|
      {
        var at :| at in todo;
        entries := entries[at := entries[at].(stale := Some(reason), dir := None)];
        todo := todo - {at};
      }
    }

    method MarkOne(path: seq<byte>)
      modifies this
      ensures entries == MarkNotified(old(entries), path)
    {
      var segments := ParseAbsolutePath(path);
      if segments.Some? {
        MarkPathStale(segments.value, NamespaceChange);
      } else {
        MarkAllStale(Explicit(path));
      }
    }

    method NotifyChange(path: seq<byte>, oldPath: Option<seq<byte>>)
      modifies this
      ensures entries == MarkNamespaceChange(old(entries), path, oldPath)
    {
      MarkOne(path);
      if oldPath.Some? {
        MarkOne(oldPath.value);
      }
    }
  }
}
