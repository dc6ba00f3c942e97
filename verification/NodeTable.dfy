/** Runs of the node table, and the table as the source changes it: crates/fuse/src/node.rs. */
module NodeTables {
  import opened Prelude
  import opened Stats
  import opened Cache
  import opened Nodes
  import opened NodeEffects

  // ----- Runs -----

  datatype Account = Account(table: Table, given: set<Fid>, returned: seq<Fid>)

  datatype Step =
    | Lookup(parent: nat, fid: Option<Fid>, stat: Stat, name: seq<byte>)
    | ForgetLookups(id: nat, count: nat)
    | ReplaceFid(id: nat, newFid: Fid, stat: Stat)
    | TakeFid(id: nat)
    | RefreshStat(id: nat, stat: Stat)
    | MarkStale(path: Path, descendants: bool)
    | RemoveBelow(path: Path)
    | Rename(from: Path, to: Path)

  /** Fids are offered at most once; a rename has a target that is not the root. */
  predicate Allowed(w: Account, step: Step) {
    match step
    case Lookup(_, fid, _, _) => ToSet(fid) !! w.given
    case ReplaceFid(_, fid, _) => fid !in w.given
    case Rename(_, to) => to != []
    case _ => true
  }

  function Next(w: Account, step: Step): Account {
    match step
    case Lookup(parent, fid, stat, name) =>
      (match Insert(w.table, parent, fid, stat, name)
       case Err(_) => w
       case Ok(r) => Account(r.table, w.given + ToSet(fid), w.returned + ToSeq(r.clunk)))
    case ForgetLookups(id, count) =>
      var (t, out) := Forget(w.table, id, count);
      Account(t, w.given, w.returned + ToSeq(out))
    case ReplaceFid(id, fid, stat) =>
      (match ReplaceBinding(w.table, id, fid, stat)
       case Err(_) => w
       case Ok((t, out)) => Account(t, w.given + {fid}, w.returned + ToSeq(out)))
    case TakeFid(id) =>
      (match TakeCachedFid(w.table, id)
       case Err(_) => w
       case Ok((t, out)) => Account(t, w.given, w.returned + ToSeq(out)))
    case RefreshStat(id, stat) =>
      (match UpdateNodeStat(w.table, id, stat)
       case Err(_) => w
       case Ok(t) => w.(table := t))
    case MarkStale(path, descendants) =>
      var (t, bindings) := MarkPathWith(w.table, path, descendants);
      Account(t, w.given, w.returned + BoundFids(bindings))
    case RemoveBelow(path) =>
      var (t, out) := RemovePathSubtree(w.table, path);
      Account(t, w.given, w.returned + out)
    case Rename(from, to) =>
      var (t, out) := RemovePathSubtree(w.table, to);
      Account(MovePathPrefix(t, from, to), w.given, w.returned + out)
  }

  /** A rename takes away what is at and below the target, and moves what is at and below the source there; no other
      node changes. */
  lemma RenameIsExact(w: Account, from: Path, to: Path, id: nat)
    requires from != [] && to != [] && id in w.table.nodes
    ensures var node, t := w.table.nodes[id], Next(w, Rename(from, to)).table;
            if Begins(node.path, to) then id !in t.nodes
            else
              && id in t.nodes
              && (!Begins(node.path, from) ==> t.nodes[id] == node)
              && (forall rest: Path :: node.path == from + rest ==> t.nodes[id] == node.(path := to + rest))
  {
    RemoveIsExact(w.table, to, id);
    if !Begins(w.table.nodes[id].path, to) {
      MoveIsExact(RemovePathSubtree(w.table, to).0, from, to, id);
    } else {
      assert id !in MovePathPrefix(RemovePathSubtree(w.table, to).0, from, to).nodes;
    }
  }

  ghost predicate Good(w: Account) {
    && Numbered(w.table) && Owned(w.table.nodes, w.given, w.returned) && PathsDistinct(w.table.nodes)
    && ROOT_NODEID in w.table.nodes && w.table.nodes[ROOT_NODEID].path == []
  }

  /** `insert_node` leaves a clear id for the next one until the counter reaches its top. */
  lemma NextKeepsAccount(w: Account, step: Step)
    requires Good(w) && Allowed(w, step) && w.table.next < U64_MAX
    ensures var w' := Next(w, step); Numbered(w'.table) && Owned(w'.table.nodes, w'.given, w'.returned)
    ensures Next(w, step).table.next <= w.table.next + 1
  {
    var t := w.table;
    match step {
      case Lookup(parent, fid, stat, name) =>
        if Insert(t, parent, fid, stat, name).Ok? {
          InsertAccounts(t, w.given, w.returned, parent, fid, stat, name);
        }
      case ForgetLookups(id, count) => ForgetAccounts(t, w.given, w.returned, id, count);
      case ReplaceFid(id, fid, stat) =>
        if id in t.nodes {
          ReplaceAccounts(t, w.given, w.returned, id, fid, stat);
        }
      case TakeFid(id) =>
        if id in t.nodes {
          TakeAccounts(t, w.given, w.returned, id);
        }
      case RefreshStat(id, stat) =>
        if id in t.nodes {
          UpdateAccounts(t, w.given, w.returned, id, stat);
        }
      case MarkStale(path, descendants) => MarkAccounts(t, w.given, w.returned, path, descendants);
      case RemoveBelow(path) => RemoveAccounts(t, w.given, w.returned, path);
      case Rename(from, to) =>
        RemoveAccounts(t, w.given, w.returned, to);
        var (t', out) := RemovePathSubtree(t, to);
        MoveAccounts(t', w.given, w.returned + out, from, to);
    }
  }

  /** Nodes keep their paths, and none is new. */
  ghost predicate SamePaths(nodes: map<nat, Node>, nodes': map<nat, Node>) {
    forall id :: id in nodes' ==> id in nodes && nodes'[id].path == nodes[id].path
  }

  lemma NextKeepsPlaces(w: Account, step: Step)
    requires !step.Lookup? && !step.Rename?
    ensures SamePaths(w.table.nodes, Next(w, step).table.nodes)
  {
  }

  lemma NextKeepsRoot(w: Account, step: Step)
    requires Good(w) && !step.Lookup? && !step.Rename?
    ensures ROOT_NODEID in Next(w, step).table.nodes
  {
  }

  lemma NextKeepsPaths(w: Account, step: Step)
    requires Good(w) && Allowed(w, step)
    ensures var nodes := Next(w, step).table.nodes;
            PathsDistinct(nodes) && ROOT_NODEID in nodes && nodes[ROOT_NODEID].path == []
  {
    match step {
      case Lookup(parent, fid, stat, name) =>
        if Insert(w.table, parent, fid, stat, name).Ok? {
          InsertKeepsDistinct(w.table, parent, fid, stat, name);
          FirstAtIsFirst(w.table.nodes, w.table.nodes[parent].path + [name], 0, w.table.next + 1);
        }
      case Rename(from, to) => RenameKeepsDistinct(w.table, from, to);
      case _ =>
        NextKeepsPlaces(w, step);
        NextKeepsRoot(w, step);
    }
  }

  ghost predicate Run(worlds: seq<Account>, steps: seq<Step>) {
    && |worlds| == |steps| + 1
    && (exists fid, stat :: worlds[0] == Account(NewTable(fid, stat), {fid}, []))
    && forall i :: 0 <= i < |steps| ==> Allowed(worlds[i], steps[i]) && worlds[i + 1] == Next(worlds[i], steps[i])
  }

  /** In every state of every run shorter than the id space, each fid ever given is held by exactly one
      node or was returned exactly once, and no two nodes share a path. */
  lemma {:induction false} RunKeepsAccount(worlds: seq<Account>, steps: seq<Step>, i: nat)
    requires Run(worlds, steps) && i < |worlds| && |steps| <= U64_MAX - 2
    ensures Good(worlds[i]) && worlds[i].table.next <= ROOT_NODEID + 1 + i
  {
    if i == 0 {
      var fid: Fid, stat: Stat :| worlds[0] == Account(NewTable(fid, stat), {fid}, []);
      assert Holds(worlds[0].table.nodes, ROOT_NODEID, fid);
    } else {
      RunKeepsAccount(worlds, steps, i - 1);
      assert Allowed(worlds[i - 1], steps[i - 1]);
      NextKeepsAccount(worlds[i - 1], steps[i - 1]);
      NextKeepsPaths(worlds[i - 1], steps[i - 1]);
    }
  }

  // ----- The table itself -----

  /** What is handed back for a marked node; its parent comes from an index of all paths. */
  function BindingVia(index: map<Path, nat>, id: nat, node: Node): StaleBinding {
    var n := |node.path|;
    if n == 0 then StaleBinding(id, None, node.stat.name, node.fid)
    else
      var parent := node.path[..n - 1];
      StaleBinding(id, if parent in index then Some(index[parent]) else None, node.path[n - 1], node.fid)
  }

  class NodeTable {
    var nodes: map<nat, Node>
    var next: nat

    function Contents(): Table
      reads this
    {
      Table(nodes, next)
    }

    ghost predicate Valid()
      reads this
    {
      Bounded(Contents())
    }

    constructor (rootFid: Fid, rootStat: Stat)
      ensures Valid() && Contents() == NewTable(rootFid, rootStat)
    {
      nodes := map[ROOT_NODEID := NewNode(Some(rootFid), [], rootStat)];
      next := ROOT_NODEID + 1;
    }

    method NodeidAtPath(path: Path) returns (r: Option<nat>)
      ensures r == FirstAt(nodes, path, 0, next + 1)
    {
      for id := 0 to next + 1
        invariant FirstAt(nodes, path, 0, next + 1) == FirstAt(nodes, path, id, next + 1)
      {
        if id in nodes && nodes[id].path == path {
          return Some(id);
        }
      }
      return None;
    }

    method InsertNode(parent: nat, fid: Option<Fid>, stat: Stat, name: seq<byte>)
      returns (r: Result<(nat, Option<Fid>)>)
      requires Valid()
      modifies this
      ensures Valid()
      ensures match Insert(old(Contents()), parent, fid, stat, name)
              case Ok(inserted) => r == Ok((inserted.nodeid, inserted.clunk)) && Contents() == inserted.table
              case Err(e) => r == Err(e) && Contents() == old(Contents())
    {
      if parent !in nodes {
        return Err(ESTALE);
      }
      var path := nodes[parent].path + [name];
      var found := NodeidAtPath(path);
      FirstAtIsFirst(nodes, path, 0, next + 1);
      if found.Some? {
        var id := found.value;
        var node := nodes[id];
        var qidChanged := node.qid != stat.qid;
        var identityChanged := !SameIdentity(node, stat);
        var clunk: Option<Fid> := None;
        if fid.Some? && node.fid.Some? && !identityChanged {
          clunk := fid;
        } else if fid.Some? && node.fid.Some? {
          clunk := if node.fid != fid then node.fid else None;
          node := node.(fid := fid);
        } else if fid.Some? {
          node := node.(fid := fid);
        }
        if identityChanged {
          node := node.(generation := Max(Succ(node.generation), 1));
        }
        if qidChanged || !IsDir(stat) {
          node := node.(dir := None);
        }
        node := node.(qid := stat.qid, stat := stat, stale := None, lookups := Max(Succ(node.lookups), 1),
                      needsRebind := false);
        nodes := nodes[id := node];
        return Ok((id, clunk));
      }
      r := Ok((next, None));
      nodes := nodes[next := NewNode(fid, path, stat)];
      next := Max(Succ(next), ROOT_NODEID + 1);
    }

    method ForgetNode(id: nat, count: nat) returns (out: Option<Fid>)
      requires Valid()
      modifies this
      ensures Valid() && (Contents(), out) == Forget(old(Contents()), id, count)
    {
      out := None;
      if id == ROOT_NODEID || id !in nodes {
        return;
      }
      var node := nodes[id];
      if node.lookups > count {
        nodes := nodes[id := node.(lookups := node.lookups - count)];
      } else {
        out := node.fid;
        nodes := nodes - {id};
      }
    }

    method RebindNode(id: nat, fid: Fid, stat: Stat) returns (r: Result<Option<Fid>>)
      requires Valid()
      modifies this
      ensures Valid()
      ensures match ReplaceBinding(old(Contents()), id, fid, stat)
              case Ok((t, out)) => r == Ok(out) && Contents() == t
              case Err(e) => r == Err(e) && Contents() == old(Contents())
    {
      if id !in nodes {
        return Err(ESTALE);
      }
      var node := nodes[id];
      var identityChanged := !SameIdentity(node, stat);
      var held := node.fid;
      node := node.(fid := Some(fid), qid := stat.qid, stat := stat, stale := None);
      if identityChanged || !IsDir(stat) {
        node := node.(dir := None);
      }
      if identityChanged {
        node := node.(generation := Max(Succ(node.generation), 1));
      }
      nodes := nodes[id := node.(needsRebind := false)];
      r := Ok(if held == Some(fid) then None else held);
    }

    method TakeFidOf(id: nat) returns (r: Result<Option<Fid>>)
      requires Valid()
      modifies this
      ensures Valid()
      ensures match TakeCachedFid(old(Contents()), id)
              case Ok((t, out)) => r == Ok(out) && Contents() == t
              case Err(e) => r == Err(e) && Contents() == old(Contents())
    {
      if id !in nodes {
        return Err(ESTALE);
      }
      r := Ok(nodes[id].fid);
      nodes := nodes[id := nodes[id].(fid := None)];
    }

    /** Takes out what lies at or below a path and hands back the fids found there. */
    method RemoveSubtree(path: Path) returns (fids: seq<Fid>)
      requires Valid()
      modifies this
      ensures Valid() && (Contents(), fids) == RemovePathSubtree(old(Contents()), path)
    {
      fids := [];
      if path == [] {
        return;
      }
      ghost var before := nodes;
      var doomed := Under(nodes, path);
      assert fids + FidsOf(nodes, doomed, 0, next + 1) == FidsOf(nodes, doomed, 0, next + 1);
      for id := 0 to next + 1
        invariant next == old(next)
        invariant nodes.Keys <= before.Keys && (forall k :: k in nodes ==> nodes[k] == before[k])
        invariant forall k :: k in before ==> (k !in nodes <==> k in doomed && k < id)
        invariant FidsOf(before, doomed, 0, next + 1) == fids + FidsOf(before, doomed, id, next + 1)
      {
        if id in nodes && id in doomed {
          var node := nodes[id];
          nodes := nodes - {id};
          if node.fid.Some? {
            fids := fids + [node.fid.value];
          }
        }
      }
      assert nodes == before - doomed && fids + [] == fids;
    }

    method MovePrefix(from: Path, to: Path)
      requires Valid()
      modifies this
      ensures Valid() && Contents() == MovePathPrefix(old(Contents()), from, to)
    {
      if from == [] {
        return;
      }
      ghost var before := nodes;
      for id := 0 to next + 1
        invariant next == old(next) && nodes.Keys == before.Keys
        invariant forall k :: k in nodes ==> nodes[k] == if k < id then MovedNode(before[k], from, to) else before[k]
      {
        if id in nodes && from <= nodes[id].path {
          nodes := nodes[id := nodes[id].(path := to + nodes[id].path[|from|..])];
        }
      }
    }

    /** The last node at each path. */
    method PathIndex() returns (index: map<Path, nat>)
      ensures forall p :: LastAt(nodes, p, next + 1) == if p in index then Some(index[p]) else None
    {
      index := map[];
      for id := 0 to next + 1
        invariant forall p :: LastAt(nodes, p, id) == if p in index then Some(index[p]) else None
      {
        if id in nodes {
          index := index[nodes[id].path := id];
        }
      }
    }

    method MarkWith(path: Path, descendants: bool) returns (stale: seq<StaleBinding>)
      requires Valid()
      modifies this
      ensures Valid() && (Contents(), stale) == MarkPathWith(old(Contents()), path, descendants)
    {
      hide Bindings, MarkedBelow, LastAt, Binding;
      var index := PathIndex();
      ghost var before := nodes;
      var chosen := Marked(nodes, path, descendants);
      stale := [];
      MarkNone(before, chosen, next + 1);
      for id := 0 to next + 1
        invariant next == old(next) && MarkedBelow(before, nodes, chosen, id)
        invariant Bindings(before, chosen, 0, next + 1) == stale + Bindings(before, chosen, id, next + 1)
      {
        MarkStep(before, nodes, chosen, id, next + 1, index, stale);
        if id in nodes && id in chosen {
          stale := stale + [BindingVia(index, id, nodes[id])];
          nodes := nodes[id := nodes[id].(fid := None, needsRebind := true, stale := Some(NamespaceChange),
                                         dir := None)];
        }
      }
      assert stale + [] == stale;
      MarkedAll(before, nodes, chosen, next + 1);
    }
  }

  /** The chosen nodes below `id` are marked, and nothing else has changed. */
  ghost predicate MarkedBelow(before: map<nat, Node>, nodes: map<nat, Node>, chosen: set<nat>, id: nat) {
    && nodes.Keys == before.Keys
    && forall k :: k in nodes ==> nodes[k] == if k < id && k in chosen then MarkedNode(before[k]) else before[k]
  }

  lemma MarkNone(before: map<nat, Node>, chosen: set<nat>, end: nat)
    ensures MarkedBelow(before, before, chosen, 0)
    ensures [] + Bindings(before, chosen, 0, end) == Bindings(before, chosen, 0, end)
    ensures Bindings(before, chosen, end, end) == []
  {
  }

  lemma MarkStep(before: map<nat, Node>, nodes: map<nat, Node>, chosen: set<nat>, id: nat, end: nat,
                 index: map<Path, nat>, stale: seq<StaleBinding>)
    requires id < end && MarkedBelow(before, nodes, chosen, id)
    requires forall p :: LastAt(before, p, end) == if p in index then Some(index[p]) else None
    ensures id in nodes && id in chosen ==>
              && MarkedBelow(before, nodes[id := MarkedNode(nodes[id])], chosen, id + 1)
              && stale + Bindings(before, chosen, id, end)
                 == stale + [BindingVia(index, id, nodes[id])] + Bindings(before, chosen, id + 1, end)
    ensures !(id in nodes && id in chosen) ==>
              && MarkedBelow(before, nodes, chosen, id + 1)
              && Bindings(before, chosen, id, end) == Bindings(before, chosen, id + 1, end)
  {
    if id in nodes && id in chosen {
      assert BindingVia(index, id, nodes[id]) == Binding(before, end, id);
    }
  }

  lemma MarkedAll(before: map<nat, Node>, nodes: map<nat, Node>, chosen: set<nat>, end: nat)
    requires MarkedBelow(before, nodes, chosen, end) && forall k :: k in before ==> k < end
    ensures nodes == MarkChosen(before, chosen)
  {
  }
}
