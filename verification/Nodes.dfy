/** The FUSE client's table of nodes and the fids they hold: crates/fuse/src/node.rs. */
module Nodes {
  import opened Prelude
  import opened Wire
  import opened Stats
  import opened Cache

  type Fid = u32

  const ROOT_NODEID: nat := 1
  const ESTALE := "unknown nodeid"

  datatype Node = Node(
    fid: Option<Fid>,
    path: Path,
    qid: Qid,
    stat: Stat,
    stale: Option<StaleReason>,
    dir: Option<DirCache>,
    generation: nat,
    lookups: nat,
    needsRebind: bool)

  datatype Table = Table(nodes: map<nat, Node>, next: nat)

  datatype StaleBinding = StaleBinding(nodeid: nat, parent: Option<nat>, name: seq<byte>, fid: Option<Fid>)

  datatype FileKind = Directory | Symlink | Regular

  function NewNode(fid: Option<Fid>, path: Path, stat: Stat): Node {
    Node(fid, path, stat.qid, stat, None, None, 1, 1, false)
  }

  function NewTable(rootFid: Fid, rootStat: Stat): Table {
    Table(map[ROOT_NODEID := NewNode(Some(rootFid), [], rootStat)], ROOT_NODEID + 1)
  }

  function ModeKind(stat: Stat): FileKind {
    if IsDir(stat) then Directory
    else if stat.qid.qtype / 0x02 % 2 == 1 || stat.mode / 0x0200_0000 % 2 == 1 then Symlink
    else Regular
  }

  function QidToInode(qid: Qid): nat {
    qid.path % 0x80_0000_0000_0000 + qid.qtype * 0x80_0000_0000_0000
  }

  predicate SameIdentity(node: Node, stat: Stat) {
    QidToInode(node.qid) == QidToInode(stat.qid) && ModeKind(node.stat) == ModeKind(stat)
  }

  // ----- Finding nodes -----

  /** The first id from `id` on whose node has the path, in the order of the table. */
  function FirstAt(nodes: map<nat, Node>, path: Path, id: nat, end: nat): Option<nat>
    decreases end - id
  {
    if id >= end then None
    else if id in nodes && nodes[id].path == path then Some(id)
    else FirstAt(nodes, path, id + 1, end)
  }

  /** The last one; this is what an index built from all nodes in order gives. */
  function LastAt(nodes: map<nat, Node>, path: Path, end: nat): Option<nat> {
    if end == 0 then None
    else if end - 1 in nodes && nodes[end - 1].path == path then Some(end - 1)
    else LastAt(nodes, path, end - 1)
  }

  // ----- Operations -----

  /** A new stat for a node found again under its path or id. */
  function Renewed(node: Node, fid: Option<Fid>, stat: Stat, dropListing: bool, generation: nat, lookups: nat): Node {
    Node(fid, node.path, stat.qid, stat, None, if dropListing then None else node.dir, generation, lookups, false)
  }

  function NextGeneration(node: Node, stat: Stat): nat {
    if SameIdentity(node, stat) then node.generation else Max(Succ(node.generation), 1)
  }

  /** Which fid a node found again keeps, and which one is no longer needed. */
  function Rebind(given: Option<Fid>, held: Option<Fid>, sameIdentity: bool): (Option<Fid>, Option<Fid>) {
    match (given, held)
    case (None, _) => (held, None)
    case (Some(f), None) => (Some(f), None)
    case (Some(f), Some(h)) =>
      if sameIdentity then (held, Some(f)) else (Some(f), if h != f then held else None)
  }

  datatype Inserted = Inserted(table: Table, nodeid: nat, clunk: Option<Fid>)

  function Insert(t: Table, parent: nat, fid: Option<Fid>, stat: Stat, name: seq<byte>): Result<Inserted> {
    if parent !in t.nodes then Err(ESTALE)
    else
      var path := t.nodes[parent].path + [name];
      match FirstAt(t.nodes, path, 0, t.next + 1)
      case Some(id) =>
        if id !in t.nodes then Err(ESTALE)
        else
          var node := t.nodes[id];
          var (kept, clunk) := Rebind(fid, node.fid, SameIdentity(node, stat));
          var node' := Renewed(node, kept, stat, node.qid != stat.qid || !IsDir(stat),
                               NextGeneration(node, stat), Max(Succ(node.lookups), 1));
          Ok(Inserted(t.(nodes := t.nodes[id := node']), id, clunk))
      case None =>
        Ok(Inserted(Table(t.nodes[t.next := NewNode(fid, path, stat)], Max(Succ(t.next), ROOT_NODEID + 1)),
                    t.next, None))
  }

  function Forget(t: Table, id: nat, count: nat): (Table, Option<Fid>) {
    if id == ROOT_NODEID || id !in t.nodes then (t, None)
    else if t.nodes[id].lookups > count then
      (t.(nodes := t.nodes[id := t.nodes[id].(lookups := t.nodes[id].lookups - count)]), None)
    else (t.(nodes := t.nodes - {id}), t.nodes[id].fid)
  }

  function ReplaceBinding(t: Table, id: nat, fid: Fid, stat: Stat): Result<(Table, Option<Fid>)> {
    if id !in t.nodes then Err(ESTALE)
    else
      var node := t.nodes[id];
      var node' := Renewed(node, Some(fid), stat, !SameIdentity(node, stat) || !IsDir(stat),
                           NextGeneration(node, stat), node.lookups);
      Ok((t.(nodes := t.nodes[id := node']), if node.fid == Some(fid) then None else node.fid))
  }

  function TakeCachedFid(t: Table, id: nat): Result<(Table, Option<Fid>)> {
    if id !in t.nodes then Err(ESTALE)
    else Ok((t.(nodes := t.nodes[id := t.nodes[id].(fid := None)]), t.nodes[id].fid))
  }

  function UpdateNodeStat(t: Table, id: nat, stat: Stat): Result<Table> {
    if id !in t.nodes then Err(ESTALE)
    else
      var node := t.nodes[id];
      Ok(t.(nodes := t.nodes[id := Renewed(node, node.fid, stat, !SameIdentity(node, stat) || !IsDir(stat),
                                           node.generation, node.lookups)]))
  }

  /** The fids of the chosen nodes, in the order of the table. */
  function FidsOf(nodes: map<nat, Node>, chosen: set<nat>, id: nat, end: nat): seq<Fid>
    decreases end - id
  {
    if id >= end then []
    else if id in nodes && id in chosen && nodes[id].fid.Some? then
      [nodes[id].fid.value] + FidsOf(nodes, chosen, id + 1, end)
    else FidsOf(nodes, chosen, id + 1, end)
  }

  function Under(nodes: map<nat, Node>, path: Path): set<nat> {
    set id | id in nodes && path <= nodes[id].path
  }

  function RemovePathSubtree(t: Table, path: Path): (Table, seq<Fid>) {
    if path == [] then (t, [])
    else (t.(nodes := t.nodes - Under(t.nodes, path)), FidsOf(t.nodes, Under(t.nodes, path), 0, t.next + 1))
  }

  function MovedNode(node: Node, from: Path, to: Path): Node {
    if from <= node.path then node.(path := to + node.path[|from|..]) else node
  }

  function MovePathPrefix(t: Table, from: Path, to: Path): Table {
    if from == [] then t else t.(nodes := map id | id in t.nodes :: MovedNode(t.nodes[id], from, to))
  }

  /** The nodes a stale mark touches; never the root. */
  function Marked(nodes: map<nat, Node>, path: Path, descendants: bool): set<nat> {
    set id | id in nodes && id != ROOT_NODEID
             && (path == [] || (if descendants then path <= nodes[id].path else nodes[id].path == path))
  }

  function MarkedNode(node: Node): Node {
    node.(fid := None, needsRebind := true, stale := Some(NamespaceChange), dir := None)
  }

  function Binding(nodes: map<nat, Node>, end: nat, id: nat): StaleBinding
    requires id in nodes
  {
    var node := nodes[id];
    var n := |node.path|;
    if n == 0 then StaleBinding(id, None, node.stat.name, node.fid)
    else StaleBinding(id, LastAt(nodes, node.path[..n - 1], end), node.path[n - 1], node.fid)
  }

  function Bindings(nodes: map<nat, Node>, chosen: set<nat>, id: nat, end: nat): seq<StaleBinding>
    decreases end - id
  {
    if id >= end then []
    else if id in nodes && id in chosen then [Binding(nodes, end, id)] + Bindings(nodes, chosen, id + 1, end)
    else Bindings(nodes, chosen, id + 1, end)
  }

  function MarkChosen(nodes: map<nat, Node>, chosen: set<nat>): map<nat, Node> {
    map id | id in nodes :: if id in chosen then MarkedNode(nodes[id]) else nodes[id]
  }

  function MarkPathWith(t: Table, path: Path, descendants: bool): (Table, seq<StaleBinding>) {
    var chosen := Marked(t.nodes, path, descendants);
    (t.(nodes := MarkChosen(t.nodes, chosen)), Bindings(t.nodes, chosen, 0, t.next + 1))
  }

  function BoundFids(bindings: seq<StaleBinding>): seq<Fid> {
    if bindings == [] then []
    else if bindings[0].fid.Some? then [bindings[0].fid.value] + BoundFids(bindings[1..])
    else BoundFids(bindings[1..])
  }

  /** The fids handed back with the bindings are those of the marked nodes. */
  lemma {:induction false} BindingFids(nodes: map<nat, Node>, chosen: set<nat>, id: nat, end: nat)
    ensures BoundFids(Bindings(nodes, chosen, id, end)) == FidsOf(nodes, chosen, id, end)
    decreases end - id
  {
    if id < end {
      BindingFids(nodes, chosen, id + 1, end);
      if id in nodes && id in chosen {
        var rest := Bindings(nodes, chosen, id + 1, end);
        assert ([Binding(nodes, end, id)] + rest)[1..] == rest;
      }
    }
  }

  // ----- Ids -----

  /** Ids are handed out in order, so the search above sees every node. */
  ghost predicate Numbered(t: Table) {
    t.next > ROOT_NODEID && forall id :: id in t.nodes ==> 0 < id < t.next
  }

  /** What remains true even when the counter of ids has reached its top. */
  ghost predicate Bounded(t: Table) {
    ROOT_NODEID < t.next <= U64_MAX && forall id :: id in t.nodes ==> 0 < id <= t.next
  }

  lemma {:induction false} FirstAtIsFirst(nodes: map<nat, Node>, path: Path, id: nat, end: nat)
    ensures match FirstAt(nodes, path, id, end)
            case Some(k) => id <= k < end && k in nodes && nodes[k].path == path
            case None => forall k :: id <= k < end && k in nodes ==> nodes[k].path != path
    decreases end - id
  {
    if id < end {
      FirstAtIsFirst(nodes, path, id + 1, end);
    }
  }

  // ----- Who owns a fid -----

  predicate Holds(nodes: map<nat, Node>, id: nat, f: Fid) {
    id in nodes && nodes[id].fid == Some(f)
  }

  ghost predicate Held(nodes: map<nat, Node>, f: Fid) {
    exists id :: Holds(nodes, id, f)
  }

  ghost predicate OneHolder(nodes: map<nat, Node>) {
    forall i, j, f :: Holds(nodes, i, f) && Holds(nodes, j, f) ==> i == j
  }

  predicate NoRepeats(fids: seq<Fid>) {
    forall i, j :: 0 <= i < j < |fids| ==> fids[i] != fids[j]
  }

  /** Each fid ever given to the table is held by exactly one node, or was returned exactly once. */
  ghost predicate Owned(nodes: map<nat, Node>, given: set<Fid>, returned: seq<Fid>) {
    && OneHolder(nodes)
    && NoRepeats(returned)
    && (forall f :: f in given <==> Held(nodes, f) || f in returned)
    && (forall f :: f in returned ==> !Held(nodes, f))
  }

  /** A step that hands back exactly what it stops holding keeps the account. */
  lemma Accounts(nodes: map<nat, Node>, nodes': map<nat, Node>, given: set<Fid>, returned: seq<Fid>,
                 taken: set<Fid>, out: seq<Fid>)
    requires Owned(nodes, given, returned) && taken !! given
    requires OneHolder(nodes') && NoRepeats(out)
    requires forall f :: Held(nodes', f) ==> Held(nodes, f) || f in taken
    requires forall f :: f in out <==> (Held(nodes, f) || f in taken) && !Held(nodes', f)
    ensures Owned(nodes', given + taken, returned + out)
  {
    forall f: Fid
      ensures f in given + taken <==> Held(nodes', f) || f in returned + out
      ensures f in returned + out ==> !Held(nodes', f)
    {
      assert f in returned + out <==> f in returned || f in out;
      assert f in given <==> Held(nodes, f) || f in returned;
      assert f in out <==> (Held(nodes, f) || f in taken) && !Held(nodes', f);
    }
    forall i, j | 0 <= i < j < |returned + out|
      ensures (returned + out)[i] != (returned + out)[j]
    {
      if i < |returned| <= j {
        var f := returned[i];
        assert f in returned && !Held(nodes, f) && f in given;
        assert f !in out;
        assert out[j - |returned|] in out;
      }
    }
  }

  function ToSeq(f: Option<Fid>): seq<Fid> {
    if f.Some? then [f.value] else []
  }

  function ToSet(f: Option<Fid>): set<Fid> {
    if f.Some? then {f.value} else {}
  }

  function FidAt(nodes: map<nat, Node>, id: nat): Option<Fid> {
    if id in nodes then nodes[id].fid else None
  }

  /** Both of a node's old fid and an offered one are accounted for: one stays and one goes back. */
  predicate Swaps(before: Option<Fid>, offered: Option<Fid>, after: Option<Fid>, out: Option<Fid>) {
    (after == before && out == offered) || (after == offered && out == before)
  }

  /** A step that touches the fid of one node only. */
  lemma OneNodeAccounts(nodes: map<nat, Node>, nodes': map<nat, Node>, given: set<Fid>, returned: seq<Fid>,
                        k: nat, offered: Option<Fid>, out: Option<Fid>)
    requires Owned(nodes, given, returned) && ToSet(offered) !! given
    requires forall id :: id != k ==> FidAt(nodes', id) == FidAt(nodes, id)
    requires Swaps(FidAt(nodes, k), offered, FidAt(nodes', k), out)
    ensures Owned(nodes', given + ToSet(offered), returned + ToSeq(out))
  {
    var taken := ToSet(offered);
    forall id: nat, f: Fid
      ensures id != k ==> (Holds(nodes', id, f) <==> Holds(nodes, id, f))
      ensures Holds(nodes, id, f) ==> f !in taken
    {
      assert id != k ==> FidAt(nodes', id) == FidAt(nodes, id);
      assert Holds(nodes, id, f) ==> Held(nodes, f) && f in given;
    }
    forall f: Fid
      ensures Held(nodes', f) <==> (Held(nodes, f) || f in taken) && Some(f) != out
      ensures f in ToSeq(out) <==> (Held(nodes, f) || f in taken) && !Held(nodes', f)
    {
      assert Some(f) == out ==> Holds(nodes, k, f) || f in taken;
      HeldAfterSwap(nodes, nodes', k, offered, out, f);
    }
    assert OneHolder(nodes');
    Accounts(nodes, nodes', given, returned, taken, ToSeq(out));
  }

  lemma HeldAfterSwap(nodes: map<nat, Node>, nodes': map<nat, Node>, k: nat,
                      offered: Option<Fid>, out: Option<Fid>, f: Fid)
    requires OneHolder(nodes)
    requires forall id :: id != k ==> (Holds(nodes', id, f) <==> Holds(nodes, id, f))
    requires f in ToSet(offered) ==> !Held(nodes, f)
    requires Swaps(FidAt(nodes, k), offered, FidAt(nodes', k), out)
    ensures Held(nodes', f) <==> (Held(nodes, f) || f in ToSet(offered)) && Some(f) != out
  {
    assert Holds(nodes', k, f) ==> Held(nodes', f);
    if Held(nodes, f) {
      var id: nat :| Holds(nodes, id, f);
      assert id != k ==> Holds(nodes', id, f) && Held(nodes', f) && !Holds(nodes, k, f);
    }
    if Held(nodes', f) {
      var id: nat :| Holds(nodes', id, f);
      assert id != k ==> Holds(nodes, id, f) && !Holds(nodes, k, f);
      assert id == k ==> Some(f) == FidAt(nodes', k);
    }
  }

  /** The fids of the chosen nodes, each once. */
  lemma {:induction false} FidsOfChosen(nodes: map<nat, Node>, chosen: set<nat>, id: nat, end: nat)
    requires OneHolder(nodes)
    ensures NoRepeats(FidsOf(nodes, chosen, id, end))
    ensures forall f :: f in FidsOf(nodes, chosen, id, end) <==>
              exists k: nat :: id <= k < end && k in chosen && Holds(nodes, k, f)
    decreases end - id
  {
    if id < end {
      FidsOfChosen(nodes, chosen, id + 1, end);
      var rest := FidsOf(nodes, chosen, id + 1, end);
      if id in nodes && id in chosen && nodes[id].fid.Some? {
        var mine := nodes[id].fid.value;
        assert Holds(nodes, id, mine);
        assert mine !in rest;
        forall f: Fid
          ensures f in [mine] + rest <==> exists k: nat :: id <= k < end && k in chosen && Holds(nodes, k, f)
        {
          if exists k: nat :: id <= k < end && k in chosen && Holds(nodes, k, f) {
            var k: nat :| id <= k < end && k in chosen && Holds(nodes, k, f);
            assert k == id ==> f == mine;
          }
        }
      }
    }
  }

  /** A step that makes the chosen nodes give up their fids and leaves the other nodes theirs. */
  lemma ChosenAccounts(t: Table, nodes': map<nat, Node>, given: set<Fid>, returned: seq<Fid>, chosen: set<nat>)
    requires Numbered(t) && Owned(t.nodes, given, returned)
    requires forall id :: FidAt(nodes', id) == if id in chosen then None else FidAt(t.nodes, id)
    ensures Owned(nodes', given, returned + FidsOf(t.nodes, chosen, 0, t.next + 1))
  {
    var nodes, out := t.nodes, FidsOf(t.nodes, chosen, 0, t.next + 1);
    FidsOfChosen(nodes, chosen, 0, t.next + 1);
    forall id: nat, f: Fid
      ensures Holds(nodes', id, f) <==> Holds(nodes, id, f) && id !in chosen
    {
      assert FidAt(nodes', id) == if id in chosen then None else FidAt(nodes, id);
    }
    forall f: Fid
      ensures f in out <==> Held(nodes, f) && !Held(nodes', f)
    {
      if Held(nodes, f) {
        var id: nat :| Holds(nodes, id, f);
        assert 0 <= id < t.next;
      }
    }
    assert given + {} == given;
    Accounts(nodes, nodes', given, returned, {}, out);
  }

  // ----- Each operation keeps the account -----

  /** Some node has the path `name` has under `parent`. */
  ghost predicate Known(t: Table, parent: nat, name: seq<byte>)
    requires parent in t.nodes
  {
    exists id :: id in t.nodes && t.nodes[id].path == t.nodes[parent].path + [name]
  }

  /** An insertion keeps the account exactly when it finds a node to renew, or the next id names no node
      with a fid. */
  lemma InsertAccountsIff(t: Table, given: set<Fid>, returned: seq<Fid>, parent: nat, fid: Option<Fid>, stat: Stat,
                          name: seq<byte>)
    requires Bounded(t) && Owned(t.nodes, given, returned) && ToSet(fid) !! given && parent in t.nodes
    ensures Insert(t, parent, fid, stat, name).Ok?
    ensures var r := Insert(t, parent, fid, stat, name).value;
            Owned(r.table.nodes, given + ToSet(fid), returned + ToSeq(r.clunk)) <==>
              Known(t, parent, name) || FidAt(t.nodes, t.next) == None
  {
    FirstAtIsFirst(t.nodes, t.nodes[parent].path + [name], 0, t.next + 1);
    var r := Insert(t, parent, fid, stat, name).value;
    assert fid.Some? && Holds(t.nodes, r.nodeid, fid.value) ==> Held(t.nodes, fid.value);
    if Known(t, parent, name) || FidAt(t.nodes, t.next) == None {
      OneNodeAccounts(t.nodes, r.table.nodes, given, returned, r.nodeid, fid, r.clunk);
    } else {
      LastIdLosesFid(t, given, returned, parent, fid, stat, name);
    }
  }

  /** At the top of the counter the same id is handed out again, and the fid of the node it named is
      neither held nor returned. */
  lemma LastIdLosesFid(t: Table, given: set<Fid>, returned: seq<Fid>, parent: nat, fid: Option<Fid>, stat: Stat,
                       name: seq<byte>)
    requires Bounded(t) && Owned(t.nodes, given, returned) && ToSet(fid) !! given && parent in t.nodes
    requires !Known(t, parent, name) && FidAt(t.nodes, t.next).Some?
    ensures Insert(t, parent, fid, stat, name).Ok?
    ensures var r := Insert(t, parent, fid, stat, name).value;
            var lost := FidAt(t.nodes, t.next).value;
            lost in given && !Held(r.table.nodes, lost) && r.clunk == None && lost !in returned
  {
    FirstAtIsFirst(t.nodes, t.nodes[parent].path + [name], 0, t.next + 1);
    var lost := FidAt(t.nodes, t.next).value;
    assert Holds(t.nodes, t.next, lost) && Held(t.nodes, lost);
    var nodes' := Insert(t, parent, fid, stat, name).value.table.nodes;
    forall id | Holds(nodes', id, lost)
      ensures false
    {
      assert id != t.next && Holds(t.nodes, id, lost);
    }
  }

  lemma InsertAccounts(t: Table, given: set<Fid>, returned: seq<Fid>, parent: nat, fid: Option<Fid>, stat: Stat,
                       name: seq<byte>)
    requires Numbered(t) && t.next < U64_MAX && Owned(t.nodes, given, returned) && ToSet(fid) !! given
    requires Insert(t, parent, fid, stat, name).Ok?
    ensures var r := Insert(t, parent, fid, stat, name).value;
            Numbered(r.table) && Owned(r.table.nodes, given + ToSet(fid), returned + ToSeq(r.clunk))
  {
    InsertAccountsIff(t, given, returned, parent, fid, stat, name);
    FirstAtIsFirst(t.nodes, t.nodes[parent].path + [name], 0, t.next + 1);
  }

  lemma ForgetAccounts(t: Table, given: set<Fid>, returned: seq<Fid>, id: nat, count: nat)
    requires Numbered(t) && Owned(t.nodes, given, returned)
    ensures var (t', out) := Forget(t, id, count);
            Numbered(t') && Owned(t'.nodes, given, returned + ToSeq(out))
  {
    var (t', out) := Forget(t, id, count);
    OneNodeAccounts(t.nodes, t'.nodes, given, returned, id, None, out);
    assert given + {} == given;
  }

  lemma ReplaceAccounts(t: Table, given: set<Fid>, returned: seq<Fid>, id: nat, fid: Fid, stat: Stat)
    requires Numbered(t) && Owned(t.nodes, given, returned) && fid !in given && id in t.nodes
    ensures var (t', out) := ReplaceBinding(t, id, fid, stat).value;
            Numbered(t') && Owned(t'.nodes, given + {fid}, returned + ToSeq(out))
  {
    var (t', out) := ReplaceBinding(t, id, fid, stat).value;
    assert Holds(t.nodes, id, fid) ==> Held(t.nodes, fid);
    OneNodeAccounts(t.nodes, t'.nodes, given, returned, id, Some(fid), out);
  }

  lemma TakeAccounts(t: Table, given: set<Fid>, returned: seq<Fid>, id: nat)
    requires Numbered(t) && Owned(t.nodes, given, returned) && id in t.nodes
    ensures var (t', out) := TakeCachedFid(t, id).value;
            Numbered(t') && Owned(t'.nodes, given, returned + ToSeq(out))
  {
    var (t', out) := TakeCachedFid(t, id).value;
    OneNodeAccounts(t.nodes, t'.nodes, given, returned, id, None, out);
    assert given + {} == given;
  }

  lemma UpdateAccounts(t: Table, given: set<Fid>, returned: seq<Fid>, id: nat, stat: Stat)
    requires Numbered(t) && Owned(t.nodes, given, returned) && id in t.nodes
    ensures var t' := UpdateNodeStat(t, id, stat).value; Numbered(t') && Owned(t'.nodes, given, returned)
  {
    var t' := UpdateNodeStat(t, id, stat).value;
    OneNodeAccounts(t.nodes, t'.nodes, given, returned, id, None, None);
    assert given + {} == given && returned + [] == returned;
  }

  lemma MarkAccounts(t: Table, given: set<Fid>, returned: seq<Fid>, path: Path, descendants: bool)
    requires Numbered(t) && Owned(t.nodes, given, returned)
    ensures var (t', bindings) := MarkPathWith(t, path, descendants);
            Numbered(t') && Owned(t'.nodes, given, returned + BoundFids(bindings))
  {
    var chosen := Marked(t.nodes, path, descendants);
    BindingFids(t.nodes, chosen, 0, t.next + 1);
    ChosenAccounts(t, MarkPathWith(t, path, descendants).0.nodes, given, returned, chosen);
  }

  lemma RemoveAccounts(t: Table, given: set<Fid>, returned: seq<Fid>, path: Path)
    requires Numbered(t) && Owned(t.nodes, given, returned)
    ensures var (t', out) := RemovePathSubtree(t, path);
            Numbered(t') && Owned(t'.nodes, given, returned + out)
  {
    if path == [] {
      assert returned + [] == returned;
    } else {
      ChosenAccounts(t, RemovePathSubtree(t, path).0.nodes, given, returned, Under(t.nodes, path));
    }
  }

  lemma MoveAccounts(t: Table, given: set<Fid>, returned: seq<Fid>, from: Path, to: Path)
    requires Numbered(t) && Owned(t.nodes, given, returned)
    ensures Numbered(MovePathPrefix(t, from, to)) && Owned(MovePathPrefix(t, from, to).nodes, given, returned)
  {
    var nodes' := MovePathPrefix(t, from, to).nodes;
    forall id
      ensures FidAt(nodes', id) == FidAt(t.nodes, id)
    {
    }
    OneNodeAccounts(t.nodes, nodes', given, returned, 0, None, None);
    assert given + {} == given && returned + [] == returned;
  }

  /** Forgetting a lookup once undoes its counting: a node that was there counts as before, and one that
      was made for it is gone with its fid handed back. */
  lemma ForgetUndoesLookup(t: Table, parent: nat, fid: Option<Fid>, stat: Stat, name: seq<byte>)
    requires Numbered(t) && t.next < U64_MAX && Insert(t, parent, fid, stat, name).Ok?
    requires Insert(t, parent, fid, stat, name).value.nodeid != ROOT_NODEID
    ensures var r := Insert(t, parent, fid, stat, name).value;
            var (u, out) := Forget(r.table, r.nodeid, 1);
            if r.nodeid in t.nodes then
              0 < t.nodes[r.nodeid].lookups < U64_MAX ==>
                r.nodeid in u.nodes && u.nodes[r.nodeid].lookups == t.nodes[r.nodeid].lookups && out == None
            else u.nodes == t.nodes && out == fid
  {
    FirstAtIsFirst(t.nodes, t.nodes[parent].path + [name], 0, t.next + 1);
  }

  // ----- Paths -----

  ghost predicate PathsDistinct(nodes: map<nat, Node>) {
    forall i, j :: i in nodes && j in nodes && nodes[i].path == nodes[j].path ==> i == j
  }

  /** No moved node lands on the path of a node that stays. */
  ghost predicate LandsClear(nodes: map<nat, Node>, from: Path, to: Path) {
    forall i, j :: i in nodes && j in nodes && from <= nodes[i].path && !(from <= nodes[j].path) ==>
      to + nodes[i].path[|from|..] != nodes[j].path
  }

  /** Moving a prefix keeps paths distinct exactly when nothing lands on a node that stays. */
  lemma MoveKeepsDistinctIff(t: Table, from: Path, to: Path)
    requires PathsDistinct(t.nodes) && from != []
    ensures PathsDistinct(MovePathPrefix(t, from, to).nodes) <==> LandsClear(t.nodes, from, to)
  {
    var nodes, nodes' := t.nodes, MovePathPrefix(t, from, to).nodes;
    if LandsClear(nodes, from, to) {
      forall i, j | i in nodes' && j in nodes' && nodes'[i].path == nodes'[j].path
        ensures i == j
      {
        if from <= nodes[i].path && from <= nodes[j].path {
          var a, b := nodes[i].path[|from|..], nodes[j].path[|from|..];
          assert a == (to + a)[|to|..] && b == (to + b)[|to|..];
          assert nodes[i].path == from + a && nodes[j].path == from + b;
        }
      }
    }
    if PathsDistinct(nodes') {
      forall i, j | i in nodes && j in nodes && from <= nodes[i].path && !(from <= nodes[j].path)
        ensures to + nodes[i].path[|from|..] != nodes[j].path
      {
        assert nodes'[i].path == to + nodes[i].path[|from|..] && nodes'[j].path == nodes[j].path;
      }
    }
  }

  /** The rename of a FUSE client: what was at a nonempty target goes, and then the source moves there. */
  lemma RenameKeepsDistinct(t: Table, from: Path, to: Path)
    requires PathsDistinct(t.nodes) && to != []
    ensures PathsDistinct(MovePathPrefix(RemovePathSubtree(t, to).0, from, to).nodes)
  {
    var removed := RemovePathSubtree(t, to).0;
    if from != [] {
      MoveKeepsDistinctIff(removed, from, to);
    }
  }

  /** With an empty target nothing is removed first, and a moved node can land on the root. */
  lemma RenameToRootCollides(stat: Stat)
    ensures var root, child := NewNode(None, [], stat), NewNode(None, [[97]], stat);
            var t := Table(map[1 := root, 2 := child], 3);
            PathsDistinct(t.nodes) && !PathsDistinct(MovePathPrefix(RemovePathSubtree(t, []).0, [[97]], []).nodes)
  {
    var root, child := NewNode(None, [], stat), NewNode(None, [[97]], stat);
    var t := Table(map[1 := root, 2 := child], 3);
    var nodes' := MovePathPrefix(t, [[97]], []).nodes;
    assert nodes'[1].path == [] && nodes'[2].path == [] + [[97]][1..];
  }

  lemma InsertKeepsDistinct(t: Table, parent: nat, fid: Option<Fid>, stat: Stat, name: seq<byte>)
    requires Numbered(t) && PathsDistinct(t.nodes) && Insert(t, parent, fid, stat, name).Ok?
    ensures var r := Insert(t, parent, fid, stat, name).value;
            PathsDistinct(r.table.nodes) && r.nodeid in r.table.nodes
            && r.table.nodes[r.nodeid].path == t.nodes[parent].path + [name]
  {
    FirstAtIsFirst(t.nodes, t.nodes[parent].path + [name], 0, t.next + 1);
  }
}
