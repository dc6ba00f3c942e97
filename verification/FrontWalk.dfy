/** Walking: `walk` of crates/front/src/tree.rs, lock by lock and on one state of the store. */
module FrontWalk {
  import opened Prelude
  import opened Paths
  import opened FrontStore
  import opened FrontPaths

  const DOT_DOT: Name := ".."

  /** One name of a walk: up to the parent, but not above the attach root, or down to an entry. */
  function WalkName(s: Store, root: Id, current: Id, name: Name): Result<Option<Id>> {
    if name == DOT_DOT then
      if current == root then Ok(Some(current))
      else if current !in s.nodes then Err(ENOENT)
      else Ok(Some(s.nodes[current].parent))
    else if current !in s.nodes then Err(ENOENT)
    else if name in Kids(s.nodes, current) then Ok(Some(Kids(s.nodes, current)[name]))
    else Ok(None)
  }

  /** The nodes a walk visits, one per name it gets through. A walk that gets nowhere, or that meets
      a node that no longer exists, is an error; otherwise it may stop short. */
  function WalkFrom(s: Store, root: Id, current: Id, names: seq<Name>, visited: seq<Id>): Result<seq<Id>>
    decreases |names|
  {
    if names == [] then Ok(visited)
    else
      match WalkName(s, root, current, names[0])
      case Err(e) => Err(e)
      case Ok(None) => if visited == [] then Err(ENOENT) else Ok(visited)
      case Ok(Some(id)) =>
        if id !in s.nodes then Err(ENOENT) else WalkFrom(s, root, id, names[1..], visited + [id])
  }

  // ----- One lock at a time -----

  /** A walk in progress. The store is locked once to look a name up, and once more for the qid of
      the node found; in between, anything may happen to the store. */
  datatype Walk =
    | Looking(left: seq<Name>, current: Id, visited: seq<Id>)
    | Found(left: seq<Name>, current: Id, visited: seq<Id>, id: Id)
    | Over(outcome: Result<seq<Id>>)

  /** What a walk does under one lock, with the store as it is then. */
  function Locked(s: Store, root: Id, walk: Walk): Walk {
    match walk
    case Looking(left, current, visited) =>
      if left == [] then walk
      else
        (match WalkName(s, root, current, left[0])
         case Err(e) => Over(Err(e))
         case Ok(None) => Over(if visited == [] then Err(ENOENT) else Ok(visited))
         case Ok(Some(id)) => Found(left[1..], current, visited, id))
    case Found(left, current, visited, id) =>
      if id in s.nodes then Looking(left, id, visited + [id]) else Over(Err(ENOENT))
    case Over(_) => walk
  }

  /** A walk that sees these states of the store, one per lock. */
  function WalkThrough(locks: seq<Store>, root: Id, walk: Walk): Walk {
    if locks == [] then walk
    else Locked(locks[|locks| - 1], root, WalkThrough(locks[..|locks| - 1], root, walk))
  }

  lemma {:induction false} OverStays(locks: seq<Store>, root: Id, walk: Walk)
    requires walk.Over?
    ensures WalkThrough(locks, root, walk) == walk
  {
    if locks != [] {
      OverStays(locks[..|locks| - 1], root, walk);
    }
  }

  lemma {:induction false} WalkThroughConcat(a: seq<Store>, b: seq<Store>, root: Id, walk: Walk)
    ensures WalkThrough(a + b, root, walk) == WalkThrough(b, root, WalkThrough(a, root, walk))
    decreases |b|
  {
    if b == [] {
      assert a + b == a;
    } else {
      var front := b[..|b| - 1];
      WalkThroughConcat(a, front, root, walk);
      assert (a + b)[..|a + b| - 1] == a + front;
    }
  }

  lemma LockNext(locks: seq<Store>, k: nat, root: Id, walk: Walk)
    requires k < |locks|
    ensures WalkThrough(locks[..k + 1], root, walk) == Locked(locks[k], root, WalkThrough(locks[..k], root, walk))
  {
    assert locks[..k + 1][..k] == locks[..k];
  }

  /** A walk that is over stays as it is. */
  lemma OverAfter(locks: seq<Store>, k: nat, root: Id, walk: Walk)
    requires k <= |locks| && WalkThrough(locks[..k], root, walk).Over?
    ensures WalkThrough(locks, root, walk) == WalkThrough(locks[..k], root, walk)
  {
    assert locks == locks[..k] + locks[k..];
    WalkThroughConcat(locks[..k], locks[k..], root, walk);
    OverStays(locks[k..], root, WalkThrough(locks[..k], root, walk));
  }

  function Outcome(walk: Walk): Result<seq<Id>> {
    if walk.Over? then walk.outcome else Ok(walk.visited)
  }

  /** On a store nobody disturbs, the locks do not show. */
  lemma {:induction false} UndisturbedWalk(s: Store, locks: seq<Store>, root: Id, current: Id, names: seq<Name>,
                                           visited: seq<Id>)
    requires |locks| == 2 * |names| && forall i :: 0 <= i < |locks| ==> locks[i] == s
    ensures Outcome(WalkThrough(locks, root, Looking(names, current, visited)))
         == WalkFrom(s, root, current, names, visited)
    decreases |names|
  {
    if names != [] {
      var start := Looking(names, current, visited);
      var first := WalkThrough(locks[..2], root, start);
      assert locks[..2] + locks[2..] == locks;
      WalkThroughConcat(locks[..2], locks[2..], root, start);
      TwoLocks(locks[0], locks[1], root, start);
      assert locks[..2] == [locks[0], locks[1]];
      if first.Over? {
        OverStays(locks[2..], root, first);
      } else {
        UndisturbedWalk(s, locks[2..], root, first.current, names[1..], first.visited);
      }
    }
  }

  lemma TwoLocks(a: Store, b: Store, root: Id, walk: Walk)
    ensures WalkThrough([a, b], root, walk) == Locked(b, root, Locked(a, root, walk))
  {
    assert [a, b][..1] == [a];
    assert WalkThrough([a], root, walk) == Locked(a, root, walk);
  }

  // ----- Under the attach root -----

  /** Following parents up from `id` meets `root`. */
  predicate Under(s: Store, id: Id, root: Id) {
    NamesUp(s.nodes, id, root, s.nodes.Keys).Ok?
  }

  lemma {:induction false} NamesUpRoom(s: Store, rank: map<Id, nat>, id: Id, root: Id, todo: set<Id>)
    requires Ranked(s, rank) && todo <= s.nodes.Keys && Roomy(rank, todo, id)
    ensures NamesUp(s.nodes, id, root, todo) == NamesUp(s.nodes, id, root, s.nodes.Keys)
    decreases if id in rank then rank[id] + 1 else 0
  {
    if id != root && id != ROOT_ID && id in todo {
      assert RankFalls(s, rank, id);
      NamesUpRoom(s, rank, s.nodes[id].parent, root, todo - {id});
      NamesUpRoom(s, rank, s.nodes[id].parent, root, s.nodes.Keys - {id});
    }
  }

  /** One name keeps the walk under the attach root. */
  lemma WalkNameStaysUnder(s: Store, root: Id, current: Id, name: Name)
    requires Shape(s) && Under(s, current, root)
    ensures var r := WalkName(s, root, current, name);
            r.Ok? && r.value.Some? ==> Under(s, r.value.value, root)
  {
    var r := WalkName(s, root, current, name);
    var rank: map<Id, nat> :| Ranked(s, rank);
    if r.Ok? && r.value.Some? && r.value != Some(current) {
      var id := r.value.value;
      if name == DOT_DOT {
        assert RankFalls(s, rank, current);
        NamesUpRoom(s, rank, id, root, s.nodes.Keys - {current});
      } else {
        assert EntryOk(s, current, name) && RankFalls(s, rank, id);
        NamesUpRoom(s, rank, current, root, s.nodes.Keys - {id});
      }
    }
  }

  predicate AllUnder(s: Store, ids: seq<Id>, root: Id) {
    forall i :: 0 <= i < |ids| ==> Under(s, ids[i], root)
  }

  lemma AllUnderSnoc(s: Store, ids: seq<Id>, id: Id, root: Id)
    requires AllUnder(s, ids, root) && Under(s, id, root)
    ensures AllUnder(s, ids + [id], root)
  {
    hide Under;
  }

  /** A walk with any mix of names and ".." visits only nodes under the attach root. */
  lemma {:induction false} WalkStaysUnder(s: Store, root: Id, current: Id, names: seq<Name>, visited: seq<Id>)
    requires Shape(s) && Under(s, current, root) && AllUnder(s, visited, root)
    ensures var r := WalkFrom(s, root, current, names, visited); r.Ok? ==> AllUnder(s, r.value, root)
    decreases |names|
  {
    hide Under, AllUnder, Shape, WalkName;
    if names != [] {
      WalkNameStaysUnder(s, root, current, names[0]);
      var r := WalkName(s, root, current, names[0]);
      if r.Ok? && r.value.Some? && r.value.value in s.nodes {
        var id := r.value.value;
        AllUnderSnoc(s, visited, id, root);
        assert WalkFrom(s, root, current, names, visited) == WalkFrom(s, root, id, names[1..], visited + [id]);
        WalkStaysUnder(s, root, id, names[1..], visited + [id]);
      }
    }
  }

  // ----- Where a walk ends -----

  /** The path a walk name leads to, read off the text alone. */
  function Lexical(root: seq<Name>, at: seq<Name>, name: Name): seq<Name> {
    if name != DOT_DOT then at + [name]
    else if at == root || at == [] then at
    else at[..|at| - 1]
  }

  /** The nodes found by following the text of a walk from the root of the namespace, up to the
      first path that leads nowhere. */
  function LexicalNodes(nodes: map<Id, Node>, root: seq<Name>, at: seq<Name>, names: seq<Name>): seq<Id>
    decreases |names|
  {
    if names == [] then []
    else
      match Resolve(nodes, ROOT_ID, Lexical(root, at, names[0]))
      case Err(_) => []
      case Ok(id) => [id] + LexicalNodes(nodes, root, Lexical(root, at, names[0]), names[1..])
  }

  lemma RootIsThere(s: Store)
    requires Linked(s)
    ensures ROOT_ID in s.nodes
  {
  }

  lemma NodeHangs(s: Store, n: Id)
    requires Linked(s) && n in s.nodes && !IsTop(s, n)
    ensures Hangs(s, n)
  {
  }

  /** In an attached region a walk name leads exactly where its text says, or nowhere. */
  lemma WalkNameIsLexical(s: Store, root: Id, rootAt: seq<Name>, current: Id, at: seq<Name>, name: Name)
    requires Shape(s) && rootAt <= at
    requires Resolve(s.nodes, ROOT_ID, rootAt) == Ok(root) && Resolve(s.nodes, ROOT_ID, at) == Ok(current)
    ensures var next := Lexical(rootAt, at, name);
            && rootAt <= next
            && (match Resolve(s.nodes, ROOT_ID, next)
                case Ok(id) => WalkName(s, root, current, name) == Ok(Some(id)) && id in s.nodes
                case Err(_) => name != DOT_DOT && WalkName(s, root, current, name) == Ok(None))
  {
    hide Linked, Issued, Indexed, Tabled, Ranked;
    var rank: map<Id, nat> :| Ranked(s, rank);
    RootIsThere(s);
    RankGrowsDown(s, rank, ROOT_ID, at);
    if current == root {
      TopPathUnique(s, ROOT_ID, at, ROOT_ID, rootAt);
    }
    if name != DOT_DOT {
      ResolveSnoc(s.nodes, ROOT_ID, at, name);
      if Resolve(s.nodes, ROOT_ID, at + [name]).Ok? {
        RankGrowsDown(s, rank, ROOT_ID, at + [name]);
      }
    } else if at != rootAt {
      LastStep(s, ROOT_ID, at);
      NodeHangs(s, current);
    }
  }

  /** A walk that gets nowhere is an error. */
  function WalkOutcome(names: seq<Name>, visited: seq<Id>): Result<seq<Id>> {
    if names != [] && visited == [] then Err(ENOENT) else Ok(visited)
  }

  /** A walk from an attached node under its attach root visits exactly the nodes its text names,
      with ".." stopping at the attach root, and fails exactly when it gets nowhere. */
  lemma {:induction false} WalkIsLexical(
    s: Store, root: Id, rootAt: seq<Name>, current: Id, at: seq<Name>, names: seq<Name>, visited: seq<Id>)
    requires Shape(s) && rootAt <= at
    requires Resolve(s.nodes, ROOT_ID, rootAt) == Ok(root) && Resolve(s.nodes, ROOT_ID, at) == Ok(current)
    ensures WalkFrom(s, root, current, names, visited)
         == WalkOutcome(names, visited + LexicalNodes(s.nodes, rootAt, at, names))
    decreases |names|
  {
    if names == [] {
      assert visited + [] == visited;
    } else {
      var next := Lexical(rootAt, at, names[0]);
      var found := LexicalNodes(s.nodes, rootAt, at, names);
      WalkNameIsLexical(s, root, rootAt, current, at, names[0]);
      if Resolve(s.nodes, ROOT_ID, next).Err? {
        assert visited + found == visited;
      } else {
        var id := Resolve(s.nodes, ROOT_ID, next).value;
        var rest := LexicalNodes(s.nodes, rootAt, next, names[1..]);
        assert visited + found == visited + [id] + rest;
        WalkIsLexical(s, root, rootAt, id, next, names[1..], visited + [id]);
      }
    }
  }
}
