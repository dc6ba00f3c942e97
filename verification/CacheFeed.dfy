/** The cache between its readers and its change feed: crates/session/src/control/snapshot.rs reads a value
    and stores it later, and crates/session/src/feed/worker.rs learns of a change after it has happened. */
module CacheFeed {
  import opened Prelude
  import opened Stats
  import opened Messages
  import opened Cache
  import opened AbsolutePaths

  /** One notified path, and the namespace with what it covers changed. A change that names two paths is
      two notes, made at once and told one after the other. */
  datatype Note = Note(path: seq<byte>, after: Namespace)

  /** A value in a reader's hand, with the number of notes that had been made when it was read. */
  datatype Fetch =
    | FetchedStat(path: Path, stat: Stat, at: nat)
    | FetchedDirectory(path: Path, entries: seq<DirEntry>, at: nat)

  /** How many notes had been made when a value was read, and how many told when it was stored. */
  datatype Origin = Origin(read: nat, fill: nat)

  datatype Feed = Feed(
    cache: Entries,
    first: Namespace,
    notes: seq<Note>,
    told: nat,
    hands: map<nat, Fetch>,
    stats: map<Path, Origin>,
    listings: map<Path, Origin>)

  /** The namespace after so many notes. */
  function At(f: Feed, i: nat): Namespace
    requires i <= |f.notes|
  {
    if i == 0 then f.first else f.notes[i - 1].after
  }

  datatype Step =
    | Alter(notes: seq<Note>)
    | Tell
    | Forget(reason: StaleReason)
    | ReadStat(hand: nat, path: Path)
    | ReadDirectory(hand: nat, path: Path)
    | Fill(hand: nat)

  function SeedOrigins(stats: map<Path, Origin>, parent: Path, entries: seq<DirEntry>, origin: Origin)
    : map<Path, Origin>
    decreases |entries|
  {
    if entries == [] then stats
    else
      var child := entries[0];
      SeedOrigins(if Dots(child.name) then stats else stats[parent + [child.name] := origin],
                  parent, entries[1..], origin)
  }

  /** `update_stat` and `update_directory`, with a record of where the values come from. */
  function Filled(f: Feed, fetch: Fetch): Feed {
    var origin := Origin(fetch.at, f.told);
    match fetch
    case FetchedStat(path, stat, _) =>
      f.(cache := UpdateStat(f.cache, path, stat), stats := f.stats[path := origin])
    case FetchedDirectory(path, entries, _) =>
      if path in f.cache && IsDir(f.cache[path].stat) && f.cache[path].stale == None then
        f.(cache := UpdateDirectory(f.cache, path, entries), listings := f.listings[path := origin],
           stats := SeedOrigins(f.stats, path, entries, origin))
      else f
  }

  function Now(f: Feed): Namespace {
    At(f, |f.notes|)
  }

  ghost function Next(f: Feed, step: Step): Feed {
    match step
    case Alter(notes) => f.(notes := f.notes + notes)
    case Tell =>
      if f.told >= |f.notes| then f
      else f.(cache := MarkNotified(f.cache, f.notes[f.told].path), told := f.told + 1)
    case Forget(reason) => f.(cache := MarkAll(f.cache, reason), told := |f.notes|)
    case ReadStat(hand, path) =>
      if path in Now(f).stats then f.(hands := f.hands[hand := FetchedStat(path, Now(f).stats[path], |f.notes|)])
      else f
    case ReadDirectory(hand, path) =>
      if path in Now(f).listings then
        f.(hands := f.hands[hand := FetchedDirectory(path, Now(f).listings[path], |f.notes|)])
      else f
    case Fill(hand) => if hand in f.hands then Filled(f.(hands := f.hands - {hand}), f.hands[hand]) else f
  }

  // ----- What the namespace does -----

  /** The note covers what it changes. */
  /** A note that is told drops exactly the hits it covers. */
  lemma TellIsExact(f: Feed, p: Path)
    requires f.told < |f.notes|
    ensures var note, g := f.notes[f.told], Next(f, Tell);
            && g.told == f.told + 1
            && StatIfFresh(g.cache, p) == (if CoversStat(note.path, p) then None else StatIfFresh(f.cache, p))
            && DirectoryIfFresh(g.cache, p) ==
               (if CoversListing(note.path, p) then None else DirectoryIfFresh(f.cache, p))
  {
    MarkNotifiedIsExact(f.cache, f.notes[f.told].path, p);
  }

  ghost predicate NoteOk(f: Feed, i: nat)
    requires i < |f.notes|
  {
    Covered(At(f, i), At(f, i + 1), f.notes[i].path, None)
  }

  /** Each note covers its change, and readers see a coherent namespace. */
  ghost predicate Noted(f: Feed) {
    Coherent(Now(f)) && forall i {:trigger NoteOk(f, i)} :: 0 <= i < |f.notes| ==> NoteOk(f, i)
  }

  ghost predicate Allowed(f: Feed, step: Step) {
    step.Alter? ==> Noted(Next(f, step))
  }

  /** A change under two paths can be told as two notes. */
  lemma TwoPathsAreTwoNotes(n: Namespace, m: Namespace, path: seq<byte>, oldPath: seq<byte>) returns (mid: Namespace)
    requires Covered(n, m, path, Some(oldPath))
    ensures Covered(n, mid, path, None) && Covered(mid, m, oldPath, None)
  {
    mid := Namespace(
      map p | p in n.stats.Keys + m.stats.Keys && (if CoversStat(path, p) then p in m.stats else p in n.stats) ::
        if CoversStat(path, p) then m.stats[p] else n.stats[p],
      map p | p in n.listings.Keys + m.listings.Keys
              && (if CoversListing(path, p) then p in m.listings else p in n.listings) ::
        if CoversListing(path, p) then m.listings[p] else n.listings[p]);
    forall p
      ensures SameStat(n, mid, p) || CoversStat(path, p)
      ensures SameStat(mid, m, p) || CoversStat(oldPath, p)
      ensures SameListing(n, mid, p) || CoversListing(path, p)
      ensures SameListing(mid, m, p) || CoversListing(oldPath, p)
    {
      assert SameStat(n, m, p) || CoversStat(path, p) || CoversStat(oldPath, p);
      assert SameListing(n, m, p) || CoversListing(path, p) || CoversListing(oldPath, p);
    }
  }

  // ----- What the cache holds -----

  ghost predicate QuietStat(f: Feed, from: nat, end: nat, p: Path)
    requires end <= |f.notes|
  {
    forall i :: from <= i < end ==> !CoversStat(f.notes[i].path, p)
  }

  ghost predicate QuietListing(f: Feed, from: nat, end: nat, p: Path)
    requires end <= |f.notes|
  {
    forall i :: from <= i < end ==> !CoversListing(f.notes[i].path, p)
  }

  ghost predicate ShowsStat(n: Namespace, p: Path, stat: Stat) {
    p in n.stats && n.stats[p] == stat
  }

  ghost predicate ShowsListing(n: Namespace, p: Path, entries: seq<DirEntry>) {
    p in n.listings && n.listings[p] == entries
  }

  ghost predicate Sound(f: Feed, origin: Origin) {
    origin.read <= |f.notes| && origin.fill <= f.told <= |f.notes|
  }

  /** A fresh stat is what was read, and no note told since it was stored covers it. */
  ghost predicate StatOk(f: Feed, p: Path) {
    p in f.cache && f.cache[p].stale == None ==>
      && p in f.stats && Sound(f, f.stats[p])
      && ShowsStat(At(f, f.stats[p].read), p, f.cache[p].stat) && QuietStat(f, f.stats[p].fill, f.told, p)
  }

  ghost predicate ListingOk(f: Feed, p: Path) {
    p in f.cache && f.cache[p].dir.Some? ==>
      && p in f.listings && Sound(f, f.listings[p])
      && ShowsListing(At(f, f.listings[p].read), p, f.cache[p].dir.value.entries)
      && QuietListing(f, f.listings[p].fill, f.told, p)
  }

  /** A value in hand is what was read. */
  ghost predicate FetchOk(f: Feed, fetch: Fetch) {
    && fetch.at <= |f.notes|
    && match fetch
       case FetchedStat(path, stat, at) => ShowsStat(At(f, at), path, stat)
       case FetchedDirectory(path, entries, at) =>
         && ShowsListing(At(f, at), path, entries)
         && forall i :: 0 <= i < |entries| ==> Lists(At(f, at), path, entries[i])
  }

  ghost predicate Good(f: Feed) {
    && f.told <= |f.notes| && Noted(f)
    && (forall p {:trigger StatOk(f, p)} :: StatOk(f, p))
    && (forall p {:trigger ListingOk(f, p)} :: ListingOk(f, p))
    && (forall hand :: hand in f.hands ==> FetchOk(f, f.hands[hand]))
  }

  // ----- Each step -----

  lemma AtMore(f: Feed, notes: seq<Note>, i: nat)
    requires i <= |f.notes|
    ensures At(f.(notes := f.notes + notes), i) == At(f, i)
  {
  }

  lemma ChangeIsGood(f: Feed, notes: seq<Note>)
    requires Good(f) && Allowed(f, Alter(notes))
    ensures Good(Next(f, Alter(notes)))
  {
    var g := Next(f, Alter(notes));
    forall i: nat | i <= |f.notes| {
      AtMore(f, notes, i);
    }
    forall p
      ensures StatOk(g, p)
      ensures ListingOk(g, p)
    {
      assert StatOk(f, p) && ListingOk(f, p);
    }
    forall hand | hand in g.hands
      ensures FetchOk(g, g.hands[hand])
    {
      assert FetchOk(f, f.hands[hand]);
    }
  }

  /** The namespace and the values in hand stay as they are. */
  lemma SameHistory(f: Feed, g: Feed)
    requires Good(f) && g.first == f.first && g.notes == f.notes && g.hands == f.hands
    ensures Noted(g) && forall hand :: hand in g.hands ==> FetchOk(g, g.hands[hand])
  {
    forall i: nat | i < |g.notes|
      ensures NoteOk(g, i)
    {
      assert NoteOk(f, i);
    }
    forall hand | hand in g.hands
      ensures FetchOk(g, g.hands[hand])
    {
      assert FetchOk(f, f.hands[hand]);
    }
  }

  lemma TellKeepsStat(f: Feed, p: Path)
    requires f.told < |f.notes| && StatOk(f, p)
    ensures StatOk(Next(f, Tell), p)
  {
    hide MarkNotified, CoversStat, CoversListing, ShowsStat;
    if p in f.cache {
      MarkNotifiedNode(f.cache, f.notes[f.told].path, p);
    }
    MarkNotifiedIsExact(f.cache, f.notes[f.told].path, p);
  }

  lemma TellKeepsListing(f: Feed, p: Path)
    requires f.told < |f.notes| && ListingOk(f, p)
    ensures ListingOk(Next(f, Tell), p)
  {
    hide MarkNotified, CoversStat, CoversListing, ShowsListing;
    if p in f.cache {
      MarkNotifiedNode(f.cache, f.notes[f.told].path, p);
    }
    MarkNotifiedIsExact(f.cache, f.notes[f.told].path, p);
  }

  lemma TellIsGood(f: Feed)
    requires Good(f)
    ensures Good(Next(f, Tell))
  {
    hide StatOk, ListingOk, MarkNotified, FetchOk, NoteOk;
    if f.told < |f.notes| {
      forall p
        ensures StatOk(Next(f, Tell), p)
        ensures ListingOk(Next(f, Tell), p)
      {
        assert StatOk(f, p) && ListingOk(f, p);
        TellKeepsStat(f, p);
        TellKeepsListing(f, p);
      }
      SameHistory(f, Next(f, Tell));
    }
  }

  lemma FillStatIsGood(f: Feed, path: Path, stat: Stat, at: nat)
    requires Good(f) && FetchOk(f, FetchedStat(path, stat, at))
    ensures Good(Filled(f, FetchedStat(path, stat, at)))
  {
    var g := Filled(f, FetchedStat(path, stat, at));
    forall p
      ensures StatOk(g, p)
      ensures ListingOk(g, p)
    {
      assert StatOk(f, p) && ListingOk(f, p);
    }
    SameHistory(f, g);
  }

  /** The feed with other contents of the cache. */
  function Seeded(f: Feed, parent: Path, entries: seq<DirEntry>, origin: Origin): Feed {
    f.(cache := SeedChildStats(f.cache, parent, entries), stats := SeedOrigins(f.stats, parent, entries, origin))
  }

  lemma {:induction false} SeedIsGood(f: Feed, parent: Path, entries: seq<DirEntry>, at: nat)
    requires Good(f) && at <= |f.notes| && forall i :: 0 <= i < |entries| ==> Lists(At(f, at), parent, entries[i])
    ensures Good(Seeded(f, parent, entries, Origin(at, f.told)))
    decreases |entries|
  {
    if entries != [] {
      var child := entries[0];
      assert Lists(At(f, at), parent, entries[0]);
      if Dots(child.name) {
        SeedIsGood(f, parent, entries[1..], at);
      } else {
        var fetch := FetchedStat(parent + [child.name], child.stat, at);
        FillStatIsGood(f, fetch.path, fetch.stat, at);
        SeedIsGood(Filled(f, fetch), parent, entries[1..], at);
      }
    } else {
      assert Seeded(f, parent, entries, Origin(at, f.told)) == f;
    }
  }

  lemma FillDirectoryIsGood(f: Feed, path: Path, entries: seq<DirEntry>, at: nat)
    requires Good(f) && FetchOk(f, FetchedDirectory(path, entries, at))
    ensures Good(Filled(f, FetchedDirectory(path, entries, at)))
  {
    if path in f.cache && IsDir(f.cache[path].stat) && f.cache[path].stale == None {
      var g := f.(cache := f.cache[path := f.cache[path].(dir := Some(DirCache(entries, None)))],
                  listings := f.listings[path := Origin(at, f.told)]);
      forall p
        ensures StatOk(g, p)
        ensures ListingOk(g, p)
      {
        assert StatOk(f, p) && ListingOk(f, p);
      }
      SameHistory(f, g);
      SeedIsGood(g, path, entries, at);
    }
  }

  lemma ReadIsGood(f: Feed, hand: nat, fetch: Fetch)
    requires Good(f) && FetchOk(f, fetch)
    ensures Good(f.(hands := f.hands[hand := fetch]))
  {
    KeepsCache(f, f.(hands := f.hands[hand := fetch]));
  }

  lemma KeepsCache(f: Feed, g: Feed)
    requires Good(f) && g == f.(hands := g.hands) && forall hand :: hand in g.hands ==> FetchOk(f, g.hands[hand])
    ensures Good(g)
  {
    forall p
      ensures StatOk(g, p)
      ensures ListingOk(g, p)
    {
      assert StatOk(f, p) && ListingOk(f, p);
    }
    forall i: nat | i < |g.notes|
      ensures NoteOk(g, i)
    {
      assert NoteOk(f, i);
    }
    forall hand | hand in g.hands
      ensures FetchOk(g, g.hands[hand])
    {
      assert FetchOk(f, g.hands[hand]);
    }
  }

  lemma ForgetIsGood(f: Feed, reason: StaleReason)
    requires Good(f)
    ensures Good(Next(f, Forget(reason)))
  {
    var g := Next(f, Forget(reason));
    SameHistory(f, g);
  }

  lemma NextIsGood(f: Feed, step: Step)
    requires Good(f) && Allowed(f, step)
    ensures Good(Next(f, step))
  {
    match step {
      case Alter(notes) => ChangeIsGood(f, notes);
      case Tell => TellIsGood(f);
      case Forget(reason) => ForgetIsGood(f, reason);
      case ReadStat(hand, path) =>
        if path in Now(f).stats {
          ReadIsGood(f, hand, FetchedStat(path, Now(f).stats[path], |f.notes|));
        }
      case ReadDirectory(hand, path) =>
        if path in Now(f).listings {
          assert ListsAll(Now(f), path);
          ReadIsGood(f, hand, FetchedDirectory(path, Now(f).listings[path], |f.notes|));
        }
      case Fill(hand) =>
        if hand in f.hands {
          var g := f.(hands := f.hands - {hand});
          KeepsCache(f, g);
          match f.hands[hand] {
            case FetchedStat(path, stat, at) => FillStatIsGood(g, path, stat, at);
            case FetchedDirectory(path, entries, at) => FillDirectoryIsGood(g, path, entries, at);
          }
        }
    }
  }

  // ----- Whole runs -----

  ghost predicate Run(feeds: seq<Feed>, steps: seq<Step>) {
    && |feeds| == |steps| + 1
    && Coherent(feeds[0].first) && feeds[0] == Feed(map[], feeds[0].first, [], 0, map[], map[], map[])
    && forall i :: 0 <= i < |steps| ==> Allowed(feeds[i], steps[i]) && feeds[i + 1] == Next(feeds[i], steps[i])
  }

  lemma {:induction false} RunIsGood(feeds: seq<Feed>, steps: seq<Step>, i: nat)
    requires Run(feeds, steps) && i < |feeds|
    ensures Good(feeds[i])
  {
    if i > 0 {
      RunIsGood(feeds, steps, i - 1);
      assert Allowed(feeds[i - 1], steps[i - 1]);
      NextIsGood(feeds[i - 1], steps[i - 1]);
    }
  }

  lemma {:induction false} QuietStatStays(f: Feed, from: nat, end: nat, p: Path)
    requires Noted(f) && from <= end <= |f.notes| && QuietStat(f, from, end, p)
    ensures SameStat(At(f, from), At(f, end), p)
    decreases end
  {
    if from < end {
      QuietStatStays(f, from, end - 1, p);
      assert NoteOk(f, end - 1);
      assert CoversStat(f.notes[end - 1].path, p) || SameStat(At(f, end - 1), At(f, end), p);
    }
  }

  lemma {:induction false} QuietListingStays(f: Feed, from: nat, end: nat, p: Path)
    requires Noted(f) && from <= end <= |f.notes| && QuietListing(f, from, end, p)
    ensures SameListing(At(f, from), At(f, end), p)
    decreases end
  {
    if from < end {
      QuietListingStays(f, from, end - 1, p);
      assert NoteOk(f, end - 1);
      assert CoversListing(f.notes[end - 1].path, p) || SameListing(At(f, end - 1), At(f, end), p);
    }
  }

  /** A stat hit in any state of any run. It shows the namespace as told so far, or as it was read if that
      is later, exactly when what was told between its read and its fill did not change it. */
  lemma StatHitIff(feeds: seq<Feed>, steps: seq<Step>, i: nat, p: Path)
    requires Run(feeds, steps) && i < |feeds| && StatIfFresh(feeds[i].cache, p).Some?
    ensures var f := feeds[i];
            && p in f.stats && Sound(f, f.stats[p])
            && var origin := f.stats[p];
               ShowsStat(At(f, Max(origin.read, f.told)), p, StatIfFresh(f.cache, p).value) <==>
                 origin.fill <= origin.read || SameStat(At(f, origin.read), At(f, origin.fill), p)
  {
    RunIsGood(feeds, steps, i);
    var f := feeds[i];
    assert StatOk(f, p);
    var origin := f.stats[p];
    if origin.read < f.told {
      var from := Max(origin.read, origin.fill);
      QuietStatStays(f, from, f.told, p);
    }
  }

  lemma ListingHitIff(feeds: seq<Feed>, steps: seq<Step>, i: nat, p: Path)
    requires Run(feeds, steps) && i < |feeds| && DirectoryIfFresh(feeds[i].cache, p).Some?
    ensures var f := feeds[i];
            && p in f.listings && Sound(f, f.listings[p])
            && var origin := f.listings[p];
               ShowsListing(At(f, Max(origin.read, f.told)), p, DirectoryIfFresh(f.cache, p).value) <==>
                 origin.fill <= origin.read || SameListing(At(f, origin.read), At(f, origin.fill), p)
  {
    RunIsGood(feeds, steps, i);
    var f := feeds[i];
    assert ListingOk(f, p);
    var origin := f.listings[p];
    if origin.read < f.told {
      var from := Max(origin.read, origin.fill);
      QuietListingStays(f, from, f.told, p);
    }
  }

  /** So a hit is never older than what has been told, if nothing that covers it was told between its read
      and its fill. */
  lemma UncoveredHitsAreCurrent(feeds: seq<Feed>, steps: seq<Step>, i: nat, p: Path)
    requires Run(feeds, steps) && i < |feeds|
    ensures var f := feeds[i];
            && (StatIfFresh(f.cache, p).Some? && p in f.stats && Sound(f, f.stats[p])
                && QuietStat(f, f.stats[p].read, f.stats[p].fill, p) ==>
                  ShowsStat(At(f, Max(f.stats[p].read, f.told)), p, StatIfFresh(f.cache, p).value))
            && (DirectoryIfFresh(f.cache, p).Some? && p in f.listings && Sound(f, f.listings[p])
                && QuietListing(f, f.listings[p].read, f.listings[p].fill, p) ==>
                  ShowsListing(At(f, Max(f.listings[p].read, f.told)), p, DirectoryIfFresh(f.cache, p).value))
  {
    RunIsGood(feeds, steps, i);
    var f := feeds[i];
    if StatIfFresh(f.cache, p).Some? && p in f.stats && Sound(f, f.stats[p]) {
      StatHitIff(feeds, steps, i, p);
      if f.stats[p].read <= f.stats[p].fill && QuietStat(f, f.stats[p].read, f.stats[p].fill, p) {
        QuietStatStays(f, f.stats[p].read, f.stats[p].fill, p);
      }
    }
    if DirectoryIfFresh(f.cache, p).Some? && p in f.listings && Sound(f, f.listings[p]) {
      ListingHitIff(feeds, steps, i, p);
      if f.listings[p].read <= f.listings[p].fill && QuietListing(f, f.listings[p].read, f.listings[p].fill, p) {
        QuietListingStays(f, f.listings[p].read, f.listings[p].fill, p);
      }
    }
  }

  /** A stat read before a change and stored after it was told is a hit, and wrong. */
  lemma LateFillIsWrong(before: Stat, after: Stat) returns (feeds: seq<Feed>, steps: seq<Step>)
    requires before != after
    ensures Run(feeds, steps) && |steps| == 4
    ensures var f := feeds[4];
            && f.told == |f.notes| && StatIfFresh(f.cache, []) == Some(before)
            && ShowsStat(Now(f), [], after)
  {
    var n, m := Namespace(map[[] := before], map[]), Namespace(map[[] := after], map[]);
    var note := Note([SLASH], m);
    hide Noted, Coherent;
    steps := [ReadStat(0, []), Alter([note]), Tell, Fill(0)];
    var f0 := Feed(map[], n, [], 0, map[], map[], map[]);
    var f1 := f0.(hands := map[0 := FetchedStat([], before, 0)]);
    var f2 := f1.(notes := [note]);
    var f3 := f2.(told := 1);
    var f4 := f3.(hands := map[], cache := map[[] := CachedNode(before, None, None)], stats := map[[] := Origin(0, 1)]);
    feeds := [f0, f1, f2, f3, f4];
    assert MarkNotified(map[], note.path) == map[];
    RootNoteIsOk(f2);
    assert Next(f0, steps[0]) == f1 && Next(f1, steps[1]) == f2 && Next(f2, steps[2]) == f3 && Next(f3, steps[3]) == f4;
  }

  lemma RootNoteIsOk(f: Feed)
    requires |f.notes| == 1 && f.notes[0].path == [SLASH] && Now(f).listings == map[] && f.first.listings == map[]
    ensures Noted(f) && Coherent(f.first)
  {
    RootCoversAll();
    assert NoteOk(f, 0);
  }

  lemma RootCoversAll()
    ensures forall p: Path :: CoversStat([SLASH], p) && CoversListing([SLASH], p)
  {
    var root: Path := [];
    assert Spells([SLASH], root);
    forall p: Path
      ensures CoversStat([SLASH], p) && CoversListing([SLASH], p)
    {
      assert root <= p;
    }
  }
}
