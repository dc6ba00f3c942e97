/** What each operation on the node table does to every node, said without its own helpers. */
module NodeEffects {
  import opened Prelude
  import opened Wire
  import opened Stats
  import opened Cache
  import opened Nodes

  /** The path goes on from `prefix`. */
  ghost predicate Begins(path: Path, prefix: Path) {
    exists rest: Path :: path == prefix + rest
  }

  lemma BeginsIsPrefix(path: Path, prefix: Path)
    ensures Begins(path, prefix) <==> prefix <= path
  {
    if prefix <= path {
      assert path == prefix + path[|prefix|..];
    }
  }

  // ----- Marking -----

  /** The nodes a mark is for: all but the root for the empty path, else those at the path, and those below
      it when they are asked for. */
  ghost predicate Touched(t: Table, path: Path, descendants: bool, id: nat) {
    && id in t.nodes && id != ROOT_NODEID
    && (path == [] || t.nodes[id].path == path || (descendants && Begins(t.nodes[id].path, path)))
  }

  lemma {:induction false} LastAtIsLast(nodes: map<nat, Node>, path: Path, end: nat)
    ensures match LastAt(nodes, path, end)
            case Some(k) => k < end && k in nodes && nodes[k].path == path
                            && forall j :: k < j < end && j in nodes ==> nodes[j].path != path
            case None => forall j :: 0 <= j < end && j in nodes ==> nodes[j].path != path
    decreases end
  {
    if end > 0 {
      LastAtIsLast(nodes, path, end - 1);
    }
  }

  /** What is reported of a marked node: its fid, its last name, and the last node at its parent's path. */
  ghost predicate Describes(t: Table, b: StaleBinding) {
    && b.nodeid in t.nodes && b.fid == t.nodes[b.nodeid].fid
    && var path := t.nodes[b.nodeid].path;
       if path == [] then b.parent == None && b.name == t.nodes[b.nodeid].stat.name
       else
         var above := path[..|path| - 1];
         && path == above + [b.name]
         && (match b.parent
             case None => forall j :: j in t.nodes ==> t.nodes[j].path != above
             case Some(k) => k in t.nodes && t.nodes[k].path == above
                             && forall j :: j in t.nodes && j > k ==> t.nodes[j].path != above)
  }

  lemma BindingDescribes(t: Table, id: nat)
    requires Bounded(t) && id in t.nodes
    ensures Binding(t.nodes, t.next + 1, id).nodeid == id && Describes(t, Binding(t.nodes, t.next + 1, id))
  {
    var path := t.nodes[id].path;
    if path != [] {
      LastAtIsLast(t.nodes, path[..|path| - 1], t.next + 1);
    }
  }

  /** Each of the chosen nodes once, in the order of the table. */
  ghost predicate InOrder(bindings: seq<StaleBinding>) {
    forall i, j :: 0 <= i < j < |bindings| ==> bindings[i].nodeid < bindings[j].nodeid
  }

  ghost predicate Reports(bindings: seq<StaleBinding>, id: nat) {
    exists i :: 0 <= i < |bindings| && bindings[i].nodeid == id
  }

  lemma ReportsMore(b: StaleBinding, rest: seq<StaleBinding>, id: nat)
    ensures Reports([b] + rest, id) <==> b.nodeid == id || Reports(rest, id)
  {
    var all := [b] + rest;
    assert all[0] == b;
    if Reports(rest, id) {
      var i :| 0 <= i < |rest| && rest[i].nodeid == id;
      assert all[i + 1].nodeid == id;
    }
    if i :| 0 <= i < |all| && all[i].nodeid == id {
      assert i > 0 ==> rest[i - 1].nodeid == id;
    }
  }

  lemma {:induction false} BindingsList(t: Table, chosen: set<nat>, id: nat)
    requires Bounded(t)
    ensures var bindings := Bindings(t.nodes, chosen, id, t.next + 1);
            && InOrder(bindings)
            && (forall i :: 0 <= i < |bindings| ==> id <= bindings[i].nodeid && Describes(t, bindings[i]))
    decreases t.next + 1 - id
  {
    hide Describes;
    if id <= t.next {
      BindingsList(t, chosen, id + 1);
      if id in t.nodes && id in chosen {
        BindingDescribes(t, id);
      }
    }
  }

  lemma {:induction false} BindingsReport(t: Table, chosen: set<nat>, id: nat, k: nat)
    requires Bounded(t)
    ensures Reports(Bindings(t.nodes, chosen, id, t.next + 1), k) <==> id <= k && k in t.nodes && k in chosen
    decreases t.next + 1 - id
  {
    hide Reports;
    if id <= t.next {
      BindingsReport(t, chosen, id + 1, k);
      if id in t.nodes && id in chosen {
        ReportsMore(Binding(t.nodes, t.next + 1, id), Bindings(t.nodes, chosen, id + 1, t.next + 1), k);
      }
    } else {
      NothingReported(k);
    }
  }

  lemma NothingReported(k: nat)
    ensures !Reports([], k)
  {
  }

  lemma TouchedIsMarked(t: Table, path: Path, descendants: bool, id: nat)
    ensures Touched(t, path, descendants, id) <==> id in Marked(t.nodes, path, descendants)
  {
    if id in t.nodes {
      BeginsIsPrefix(t.nodes[id].path, path);
    }
  }

  /** A mark takes the fid, the listing and the freshness of exactly the nodes it is for, leaves every other
      node as it is, and reports each of them once and in order. */
  lemma MarkIsExact(t: Table, path: Path, descendants: bool)
    requires Bounded(t)
    ensures var (u, bindings) := MarkPathWith(t, path, descendants);
            && u.next == t.next && u.nodes.Keys == t.nodes.Keys
            && (forall id :: id in t.nodes ==>
                  if Touched(t, path, descendants, id)
                  then u.nodes[id] == t.nodes[id].(fid := None, needsRebind := true, stale := Some(NamespaceChange),
                                                   dir := None)
                  else u.nodes[id] == t.nodes[id])
            && InOrder(bindings)
            && (forall i :: 0 <= i < |bindings| ==> Describes(t, bindings[i]))
            && (forall id: nat :: Reports(bindings, id) <==> Touched(t, path, descendants, id))
  {
    hide Describes, Touched, Marked, InOrder, Bindings, Reports;
    forall id: nat {
      TouchedIsMarked(t, path, descendants, id);
    }
    forall id: nat {
      BindingsReport(t, Marked(t.nodes, path, descendants), 0, id);
    }
    MarkedIsThere(t, path, descendants);
    BindingsList(t, Marked(t.nodes, path, descendants), 0);
  }

  lemma MarkedIsThere(t: Table, path: Path, descendants: bool)
    requires Bounded(t)
    ensures forall id :: id in Marked(t.nodes, path, descendants) ==> id in t.nodes && id <= t.next
  {
  }

  // ----- Removing and moving -----

  /** A removal takes exactly the nodes at and below a nonempty path, and leaves the others as they are. */
  lemma RemoveIsExact(t: Table, path: Path, id: nat)
    ensures var u := RemovePathSubtree(t, path).0;
            && u.next == t.next
            && (id in u.nodes <==> id in t.nodes && (path == [] || !Begins(t.nodes[id].path, path)))
            && (id in u.nodes ==> u.nodes[id] == t.nodes[id])
  {
    if id in t.nodes {
      BeginsIsPrefix(t.nodes[id].path, path);
    }
  }

  /** A move changes the path of exactly the nodes at and below a nonempty source, and nothing else. */
  lemma MoveIsExact(t: Table, from: Path, to: Path, id: nat)
    requires id in t.nodes
    ensures var u := MovePathPrefix(t, from, to);
            && u.next == t.next && u.nodes.Keys == t.nodes.Keys
            && (from == [] || !Begins(t.nodes[id].path, from) ==> u.nodes[id] == t.nodes[id])
            && (forall rest: Path :: from != [] && t.nodes[id].path == from + rest ==>
                  u.nodes[id] == t.nodes[id].(path := to + rest))
  {
    BeginsIsPrefix(t.nodes[id].path, from);
    forall rest: Path | from != [] && t.nodes[id].path == from + rest
      ensures MovePathPrefix(t, from, to).nodes[id] == t.nodes[id].(path := to + rest)
    {
      assert (from + rest)[|from|..] == rest;
    }
  }

  // ----- Looking up -----

  /** Two qids give one inode exactly when they agree on the type and on the low 55 bits of the path. */
  lemma InodeIsExact(a: Qid, b: Qid)
    ensures QidToInode(a) == QidToInode(b) <==>
              a.qtype == b.qtype && a.path % 0x80_0000_0000_0000 == b.path % 0x80_0000_0000_0000
  {
    var low, high := a.path % 0x80_0000_0000_0000, b.path % 0x80_0000_0000_0000;
    assert QidToInode(a) == low + a.qtype * 0x80_0000_0000_0000;
    assert QidToInode(b) == high + b.qtype * 0x80_0000_0000_0000;
  }

  /** All fields a new stat sets, whatever node it is for. */
  ghost predicate Refreshed(node: Node, stat: Stat) {
    node.stat == stat && node.qid == stat.qid && node.stale == None && !node.needsRebind
  }

  /** The generation moves on exactly when the node is another one now. */
  ghost predicate Aged(before: Node, after: Node, stat: Stat) {
    && (SameIdentity(before, stat) ==> after.generation == before.generation)
    && (!SameIdentity(before, stat) ==>
          after.generation == if before.generation < U64_MAX then before.generation + 1 else U64_MAX)
  }

  /** Of the fid offered and the fid held: the held one stays with the same node, the offered one replaces
      it for another node, and the one not kept is handed back. */
  ghost predicate Settles(
    offered: Option<Fid>, before: Option<Fid>, same: bool, after: Option<Fid>, back: Option<Fid>)
  {
    if offered == None then after == before && back == None
    else if before == None then after == offered && back == None
    else if same then after == before && back == offered
    else after == offered && back == if before == offered then None else before
  }

  /** A lookup of a path that has a node renews that node and no other; of one that has none, it makes one. */
  lemma LookupIsExact(t: Table, parent: nat, fid: Option<Fid>, stat: Stat, name: seq<byte>)
    requires Numbered(t) && t.next <= U64_MAX
    ensures Insert(t, parent, fid, stat, name).Ok? <==> parent in t.nodes
    ensures parent in t.nodes ==>
              var r := Insert(t, parent, fid, stat, name).value;
              && r.nodeid in r.table.nodes
              && var after := r.table.nodes[r.nodeid];
                 && Refreshed(after, stat) && after.path == t.nodes[parent].path + [name]
                 && (forall id :: id != r.nodeid ==>
                       (id in r.table.nodes <==> id in t.nodes)
                       && (id in t.nodes ==> r.table.nodes[id] == t.nodes[id]))
                 && if r.nodeid in t.nodes then
                      var before := t.nodes[r.nodeid];
                      && before.path == after.path && r.table.next == t.next && Aged(before, after, stat)
                      && Settles(fid, before.fid, SameIdentity(before, stat), after.fid, r.clunk)
                      && after.dir == (if before.qid == stat.qid && IsDir(stat) then before.dir else None)
                      && after.lookups == if before.lookups < U64_MAX then before.lookups + 1 else U64_MAX
                    else
                      && r.nodeid == t.next && (t.next < U64_MAX ==> r.table.next == t.next + 1)
                      && after == Node(fid, after.path, stat.qid, stat, None, None, 1, 1, false) && r.clunk == None
  {
    if parent in t.nodes {
      FirstAtIsFirst(t.nodes, t.nodes[parent].path + [name], 0, t.next + 1);
    }
  }

  // ----- The other operations on one node -----

  /** Nothing but the node `id` differs. */
  ghost predicate OnlyAt(t: Table, u: Table, id: nat) {
    u.next == t.next && forall k :: k != id ==>
      (k in u.nodes <==> k in t.nodes) && (k in t.nodes ==> u.nodes[k] == t.nodes[k])
  }

  /** A forget lowers the lookups of a node that has more, and else removes it and hands back its fid; the
      root stays. */
  lemma ForgetIsExact(t: Table, id: nat, count: nat)
    ensures var (u, back) := Forget(t, id, count);
            && OnlyAt(t, u, id)
            && if id == ROOT_NODEID || id !in t.nodes then u == t && back == None
               else if t.nodes[id].lookups <= count then id !in u.nodes && back == t.nodes[id].fid
               else
                 && id in u.nodes && back == None
                 && u.nodes[id] == t.nodes[id].(lookups := t.nodes[id].lookups - count)
  {
  }

  /** A rebinding gives the node the new fid and stat and hands back the fid it had, if that is another. */
  lemma RebindIsExact(t: Table, id: nat, fid: Fid, stat: Stat)
    ensures ReplaceBinding(t, id, fid, stat).Ok? <==> id in t.nodes
    ensures id in t.nodes ==>
              var (u, back) := ReplaceBinding(t, id, fid, stat).value;
              && OnlyAt(t, u, id) && id in u.nodes
              && var before, after := t.nodes[id], u.nodes[id];
                 && Refreshed(after, stat) && Aged(before, after, stat) && after.fid == Some(fid)
                 && after.path == before.path && after.lookups == before.lookups
                 && after.dir == (if SameIdentity(before, stat) && IsDir(stat) then before.dir else None)
                 && back == if before.fid == Some(fid) then None else before.fid
  {
  }

  /** A refresh gives the node the new stat and keeps its fid and generation. */
  lemma RefreshIsExact(t: Table, id: nat, stat: Stat)
    ensures UpdateNodeStat(t, id, stat).Ok? <==> id in t.nodes
    ensures id in t.nodes ==>
              var u := UpdateNodeStat(t, id, stat).value;
              && OnlyAt(t, u, id) && id in u.nodes
              && var before, after := t.nodes[id], u.nodes[id];
                 && Refreshed(after, stat) && after.fid == before.fid && after.generation == before.generation
                 && after.path == before.path && after.lookups == before.lookups
                 && after.dir == if SameIdentity(before, stat) && IsDir(stat) then before.dir else None
  {
  }

  /** Taking the fid of a node leaves all else of it. */
  lemma TakeIsExact(t: Table, id: nat)
    ensures TakeCachedFid(t, id).Ok? <==> id in t.nodes
    ensures id in t.nodes ==>
              var (u, back) := TakeCachedFid(t, id).value;
              && OnlyAt(t, u, id) && id in u.nodes
              && u.nodes[id] == t.nodes[id].(fid := None) && back == t.nodes[id].fid
  {
  }

  /** Two stats are of one node exactly when their inodes are one and their kinds are. */
  lemma IdentityIsExact(node: Node, stat: Stat)
    ensures SameIdentity(node, stat) <==>
              && node.qid.qtype == stat.qid.qtype
              && node.qid.path % 0x80_0000_0000_0000 == stat.qid.path % 0x80_0000_0000_0000
              && (IsDir(node.stat) <==> IsDir(stat))
              && (!IsDir(stat) ==> (IsSymlink(node.stat) <==> IsSymlink(stat)))
  {
    InodeIsExact(node.qid, stat.qid);
  }

  /** The bit of a symbolic link in the type or in the mode, as in 9P2000.u. */
  ghost predicate IsSymlink(stat: Stat) {
    stat.qid.qtype % 4 >= 2 || stat.mode % 0x0400_0000 >= 0x0200_0000
  }
}
