/** GetGames: the game listing. Instances come from the database query,
    pass each source's own filter, are paired with their game (a placeholder
    when the game is not stored), are narrowed by the search text and the
    genres, and are sorted. The database query and game lookups are
    functions passed in; Go's map iteration order over sources is an input. */
module Listing {
  import opened Wrappers
  import opened Models
  import opened Text
  import opened Seqs
  import Ordering
  import Library

  // ---------------------------------------------------------------------
  // Defaults

  /** The filter GetGames uses when none is given: every instance, Steam
      tools excluded. */
  const DefaultFilter := GameFilter(false, "", "", "", [], map["steam" := map["excludeTools" := VBool(true)]])

  /** The sort GetGames uses when none is given. */
  const DefaultSort := GameSort("name", "asc")

  /** GetDefaultFilterConfig: the Steam excludeTools option from the
      configuration, or true when there is no configuration manager. */
  function GetDefaultFilterConfig(steamExcludeTools: Option<bool>): (f: GameFilter)
    ensures !f.installedOnly && f.search == "" && f.genres == []
    ensures f.sourceFilters.Keys == {"steam"}
    ensures f.sourceFilters["steam"].Keys == {"excludeTools"}
    ensures steamExcludeTools.Some? ==> f.sourceFilters["steam"]["excludeTools"] == VBool(steamExcludeTools.value)
    ensures steamExcludeTools.None? ==> f.sourceFilters["steam"]["excludeTools"] == VBool(true)
  {
    var exclude := if steamExcludeTools.Some? then steamExcludeTools.value else true;
    GameFilter(false, "", "", "", [], map["steam" := map["excludeTools" := VBool(exclude)]])
  }

  /** Without a configuration the default filter is the one GetGames falls
      back to, so a nil filter and the advertised default list the same. */
  lemma DefaultFilterAgrees()
    ensures GetDefaultFilterConfig(None) == DefaultFilter
    ensures DefaultFilter.sourceFilters["steam"]["excludeTools"] == VBool(true)
  {
  }

  // ---------------------------------------------------------------------
  // Source filters

  /** A registered source's FilterInstances. */
  type SourceFilter = (seq<GameInstance>, GameFilter) -> seq<GameInstance>

  /** The instances of one source, in their original order. */
  function Group(xs: seq<GameInstance>, s: string): (g: seq<GameInstance>)
    ensures |g| <= |xs|
    ensures forall x :: x in g <==> x in xs && x.source == s
  {
    if xs == [] then []
    else (if xs[0].source == s then [xs[0]] else []) + Group(xs[1..], s)
  }

  /** A map iteration order over the grouped sources: each source of the
      instances exactly once. */
  predicate GroupOrder(order: seq<string>, xs: seq<GameInstance>) {
    && Distinct(order)
    && (forall k :: 0 <= k < |xs| ==> xs[k].source in order)
    && (forall k :: 0 <= k < |order| ==> Group(xs, order[k]) != [])
  }

  /** One group after its source's filter; unregistered sources pass. */
  function Filtered(s: string, g: seq<GameInstance>, filter: GameFilter, filters: map<string, SourceFilter>): seq<GameInstance> {
    if s in filters then filters[s](g, filter) else g
  }

  function Outputs(order: seq<string>, xs: seq<GameInstance>, filter: GameFilter,
                   filters: map<string, SourceFilter>): (r: seq<GameInstance>)
    ensures forall y :: y in r <==>
              exists k :: 0 <= k < |order| && y in Filtered(order[k], Group(xs, order[k]), filter, filters)
  {
    if order == [] then []
    else
      var head := Filtered(order[0], Group(xs, order[0]), filter, filters);
      var rest := Outputs(order[1..], xs, filter, filters);
      assert forall k :: 0 < k < |order| ==> order[k] == order[1..][k - 1];
      head + rest
  }

  /** applySourceFilters: an empty list is returned as it is; otherwise the
      instances are grouped by source and the groups' filtered outputs are
      concatenated in map order. Instances of unregistered sources are kept
      (fail open). */
  function ApplySourceFilters(instances: seq<GameInstance>, filter: GameFilter,
                              filters: map<string, SourceFilter>, order: seq<string>): (r: seq<GameInstance>)
    requires GroupOrder(order, instances)
    ensures instances == [] ==> r == []
    ensures forall y :: y in r <==>
              exists k :: 0 <= k < |order| && y in Filtered(order[k], Group(instances, order[k]), filter, filters)
    ensures forall x :: x in instances && x.source !in filters ==> x in r
  {
    if |instances| == 0 then instances
    else
      var r := Outputs(order, instances, filter, filters);
      forall x | x in instances && x.source !in filters
        ensures x in r
      {
        var i :| 0 <= i < |instances| && instances[i] == x;
        var k :| 0 <= k < |order| && order[k] == x.source;
        assert x in Filtered(order[k], Group(instances, order[k]), filter, filters);
      }
      r
  }

  /** The groups concatenated in `order`, with no filtering. */
  function Grouped(order: seq<string>, xs: seq<GameInstance>): seq<GameInstance> {
    if order == [] then [] else Group(xs, order[0]) + Grouped(order[1..], xs)
  }

  lemma {:induction false} OutputsOfIdentity(order: seq<string>, xs: seq<GameInstance>, filter: GameFilter,
                                             filters: map<string, SourceFilter>)
    requires forall s, g :: s in filters ==> filters[s](g, filter) == g
    ensures Outputs(order, xs, filter, filters) == Grouped(order, xs)
  {
    if order != [] {
      OutputsOfIdentity(order[1..], xs, filter, filters);
    }
  }

  lemma {:induction false} GroupedEmpty(order: seq<string>)
    ensures Grouped(order, []) == []
  {
    if order != [] {
      GroupedEmpty(order[1..]);
    }
  }

  /** Adding one instance in front adds it to exactly one group, when its
      source is listed once. */
  lemma {:induction false} GroupedCons(order: seq<string>, x: GameInstance, t: seq<GameInstance>)
    requires Distinct(order)
    ensures multiset(Grouped(order, [x] + t)) ==
            multiset(Grouped(order, t)) + (if x.source in order then multiset{x} else multiset{})
  {
    if order != [] {
      var xs := [x] + t;
      var o := order[0];
      assert xs[1..] == t;
      var e: seq<GameInstance> := if x.source == o then [x] else [];
      assert Group(xs, o) == e + Group(t, o);
      assert Grouped(order, xs) == Group(xs, o) + Grouped(order[1..], xs);
      assert Grouped(order, t) == Group(t, o) + Grouped(order[1..], t);
      assert Distinct(order[1..]);
      GroupedCons(order[1..], x, t);
      assert x.source in order <==> x.source == o || x.source in order[1..];
      assert x.source == o ==> x.source !in order[1..];
      var m := if x.source in order then multiset{x} else multiset{};
      var m1 := if x.source in order[1..] then multiset{x} else multiset{};
      assert m == multiset(e) + m1;
      Regroup(e, Group(t, o), Grouped(order[1..], xs), Grouped(order[1..], t), m1, m);
    }
  }

  /** The multiset bookkeeping of GroupedCons: the new instance's own group
      share plus its share in the later groups. */
  lemma Regroup(e: seq<GameInstance>, g: seq<GameInstance>, rx: seq<GameInstance>, rt: seq<GameInstance>,
                m1: multiset<GameInstance>, m: multiset<GameInstance>)
    requires multiset(rx) == multiset(rt) + m1 && m == multiset(e) + m1
    ensures multiset((e + g) + rx) == multiset(g + rt) + m
  {
    calc {
      multiset((e + g) + rx);
      multiset(e) + multiset(g) + multiset(rx);
      multiset(g) + multiset(rt) + (multiset(e) + m1);
    }
  }

  lemma {:induction false} GroupedPermutes(order: seq<string>, xs: seq<GameInstance>)
    requires Distinct(order)
    requires forall k :: 0 <= k < |xs| ==> xs[k].source in order
    ensures multiset(Grouped(order, xs)) == multiset(xs)
  {
    if xs == [] {
      GroupedEmpty(order);
    } else {
      GroupedPermutes(order, xs[1..]);
      assert xs == [xs[0]] + xs[1..];
      GroupedCons(order, xs[0], xs[1..]);
    }
  }

  /** With filters that keep every instance (as the test's mock source
      does), applySourceFilters returns the same instances, possibly
      reordered by source. */
  lemma PassThroughKeepsAll(instances: seq<GameInstance>, filter: GameFilter,
                            filters: map<string, SourceFilter>, order: seq<string>)
    requires GroupOrder(order, instances)
    requires forall s, g :: s in filters ==> filters[s](g, filter) == g
    ensures multiset(ApplySourceFilters(instances, filter, filters, order)) == multiset(instances)
    ensures |ApplySourceFilters(instances, filter, filters, order)| == |instances|
  {
    if |instances| != 0 {
      OutputsOfIdentity(order, instances, filter, filters);
      GroupedPermutes(order, instances);
    }
    assert |multiset(ApplySourceFilters(instances, filter, filters, order))| == |multiset(instances)|;
  }

  // ---------------------------------------------------------------------
  // Search and genre filters

  /** The search filter: an empty search keeps everything; otherwise the
      lower-cased name must contain the lower-cased search text. */
  predicate MatchesSearch(game: Game, search: string) {
    search == "" || Contains(Lower(game.name), Lower(search))
  }

  lemma LowerSlice(s: string, i: nat, j: nat)
    requires i <= j <= |s|
    ensures Lower(s)[i..j] == Lower(s[i..j])
  {
    var l, r := Lower(s)[i..j], Lower(s[i..j]);
    assert forall k :: 0 <= k < |l| ==> l[k] == r[k];
  }

  lemma LowerIdempotent(s: string)
    ensures Lower(Lower(s)) == Lower(s)
  {
  }

  /** The case of the search text does not matter. */
  lemma SearchIgnoresCase(game: Game, search: string)
    ensures MatchesSearch(game, search) <==> MatchesSearch(game, Lower(search))
  {
    LowerIdempotent(search);
  }

  /** A name that contains the search text verbatim matches. */
  lemma SearchFindsSubstring(game: Game, search: string)
    ensures Contains(game.name, search) ==> MatchesSearch(game, search)
  {
    if Contains(game.name, search) && search != "" {
      var i :| 0 <= i <= |game.name| - |search| && OccursAt(game.name, search, i);
      LowerSlice(game.name, i, i + |search|);
      assert OccursAt(Lower(game.name), Lower(search), i);
    }
  }

  /** Some wanted genre equals one of the game's genres up to case. */
  predicate HasGenre(game: Game, wanted: seq<string>) {
    exists i, j :: 0 <= i < |wanted| && 0 <= j < |game.genres| && EqualFold(game.genres[j], wanted[i])
  }

  /** The genre filter: no genres keeps everything. */
  predicate MatchesGenres(game: Game, wanted: seq<string>) {
    |wanted| == 0 || HasGenre(game, wanted)
  }

  /** The nested loop of GetGames: the inner `break` only leaves the scan of
      the game's genres, so the flag ends true exactly when some pair
      matches. */
  method GenreMatch(game: Game, wanted: seq<string>) returns (has: bool)
    ensures has <==> HasGenre(game, wanted)
  {
    has := false;
    for i := 0 to |wanted|
      invariant has <==> exists a, b :: 0 <= a < i && 0 <= b < |game.genres| && EqualFold(game.genres[b], wanted[a])
    {
      for j := 0 to |game.genres|
        invariant has <==>
                    (|| (exists a, b :: 0 <= a < i && 0 <= b < |game.genres| && EqualFold(game.genres[b], wanted[a]))
                     || (exists b :: 0 <= b < j && EqualFold(game.genres[b], wanted[i])))
      {
        if EqualFold(game.genres[j], wanted[i]) {
          has := true;
          break;
        }
      }
    }
  }

  predicate Keep(game: Game, filter: GameFilter) {
    MatchesSearch(game, filter.search) && MatchesGenres(game, filter.genres)
  }

  // ---------------------------------------------------------------------
  // Pairing instances with games

  /** The first instance, at or before k, of a game id. */
  function FirstOfGame(xs: seq<GameInstance>, k: nat): (j: nat)
    requires k < |xs|
    ensures j <= k && xs[j].gameID == xs[k].gameID
    ensures forall i :: 0 <= i < j ==> xs[i].gameID != xs[k].gameID
    decreases k
  {
    if xs[0].gameID == xs[k].gameID then 0
    else
      var j := FirstOfGame(xs[1..], k - 1);
      assert forall i :: 0 < i <= j + 1 ==> xs[i] == xs[1..][i - 1];
      j + 1
  }

  /** The game shown for the instance at k when the lookup succeeds: the
      stored game, or else the placeholder built from the first instance of
      that game id, which the listing caches for the later ones. */
  function GameAt(xs: seq<GameInstance>, k: nat, load: string -> Result<Option<Game>>): (g: Game)
    requires k < |xs| && load(xs[k].gameID).Ok?
    ensures load(xs[k].gameID).value.Some? ==> g == load(xs[k].gameID).value.value
    ensures load(xs[k].gameID).value.None? ==>
              g.id == xs[k].gameID && g.name == Library.DisplayName(xs[FirstOfGame(xs, k)])
  {
    match load(xs[k].gameID).value
    case Some(g) => g
    case None => Library.PlaceholderGame(xs[FirstOfGame(xs, k)])
  }

  /** Instances of the same game are shown with the same game. */
  lemma GameAtSameGame(xs: seq<GameInstance>, k1: nat, k2: nat, load: string -> Result<Option<Game>>)
    requires k1 < |xs| && k2 < |xs| && xs[k1].gameID == xs[k2].gameID
    requires load(xs[k1].gameID).Ok?
    ensures GameAt(xs, k1, load) == GameAt(xs, k2, load)
  {
    var j1, j2 := FirstOfGame(xs, k1), FirstOfGame(xs, k2);
    assert j1 == j2 by {
      if j1 < j2 {
        assert xs[j1].gameID == xs[k2].gameID;
      } else if j2 < j1 {
        assert xs[j2].gameID == xs[k1].gameID;
      }
    }
  }

  /** At most one listing entry per instance: the first n instances with
      their games, skipping failed lookups and games the filter rejects. */
  function Entry(xs: seq<GameInstance>, k: nat, load: string -> Result<Option<Game>>, filter: GameFilter): seq<GameWithInstance>
    requires k < |xs|
  {
    if load(xs[k].gameID).Err? then []
    else
      var g := GameAt(xs, k, load);
      if Keep(g, filter) then [GameWithInstance(g, xs[k])] else []
  }

  function Entries(xs: seq<GameInstance>, n: nat, load: string -> Result<Option<Game>>, filter: GameFilter): (r: seq<GameWithInstance>)
    requires n <= |xs|
    ensures |r| <= n
  {
    if n == 0 then [] else Entries(xs, n - 1, load, filter) + Entry(xs, n - 1, load, filter)
  }

  /** Every entry is an instance among the first n, paired with its game
      after a successful lookup, and passing the filters. */
  lemma {:induction false} EntriesSound(xs: seq<GameInstance>, n: nat, load: string -> Result<Option<Game>>, filter: GameFilter,
                                         e: GameWithInstance)
    requires n <= |xs| && e in Entries(xs, n, load, filter)
    ensures exists k :: 0 <= k < n && e.instance == xs[k] && load(xs[k].gameID).Ok?
                        && e.game == GameAt(xs, k, load) && Keep(e.game, filter)
    decreases n
  {
    var prev := Entries(xs, n - 1, load, filter);
    if e in prev {
      EntriesSound(xs, n - 1, load, filter, e);
    } else {
      assert e in Entry(xs, n - 1, load, filter);
    }
  }

  /** Every instance among the first n whose lookup succeeds and whose game
      passes the filters has its entry. */
  lemma {:induction false} EntriesComplete(xs: seq<GameInstance>, n: nat, load: string -> Result<Option<Game>>, filter: GameFilter,
                                            k: nat)
    requires k < n <= |xs| && load(xs[k].gameID).Ok? && Keep(GameAt(xs, k, load), filter)
    ensures GameWithInstance(GameAt(xs, k, load), xs[k]) in Entries(xs, n, load, filter)
    decreases n
  {
    if k < n - 1 {
      EntriesComplete(xs, n - 1, load, filter, k);
      EntriesGrow(xs, n, load, filter, GameWithInstance(GameAt(xs, k, load), xs[k]));
    } else {
      EntriesLast(xs, k, load, filter);
    }
  }

  lemma EntriesGrow(xs: seq<GameInstance>, n: nat, load: string -> Result<Option<Game>>, filter: GameFilter,
                    x: GameWithInstance)
    requires 0 < n <= |xs| && x in Entries(xs, n - 1, load, filter)
    ensures x in Entries(xs, n, load, filter)
  {
    InAppendLeft(x, Entries(xs, n - 1, load, filter), Entry(xs, n - 1, load, filter));
  }

  lemma EntriesLast(xs: seq<GameInstance>, k: nat, load: string -> Result<Option<Game>>, filter: GameFilter)
    requires k < |xs| && load(xs[k].gameID).Ok? && Keep(GameAt(xs, k, load), filter)
    ensures GameWithInstance(GameAt(xs, k, load), xs[k]) in Entries(xs, k + 1, load, filter)
  {
    var last := Entry(xs, k, load, filter);
    assert last == [GameWithInstance(GameAt(xs, k, load), xs[k])];
    InAppendRight(GameWithInstance(GameAt(xs, k, load), xs[k]), Entries(xs, k, load, filter), last);
  }

  /** Every entry passes the search and genre filters, and two entries of
      the same game id show the same game. */
  lemma EntriesConsistent(xs: seq<GameInstance>, load: string -> Result<Option<Game>>, filter: GameFilter,
                          e1: GameWithInstance, e2: GameWithInstance)
    requires e1 in Entries(xs, |xs|, load, filter) && e2 in Entries(xs, |xs|, load, filter)
    requires e1.instance.gameID == e2.instance.gameID
    ensures e1.game == e2.game
    ensures MatchesSearch(e1.game, filter.search) && MatchesGenres(e1.game, filter.genres)
  {
    EntriesSound(xs, |xs|, load, filter, e1);
    EntriesSound(xs, |xs|, load, filter, e2);
    var k1 :| 0 <= k1 < |xs| && e1.instance == xs[k1] && load(xs[k1].gameID).Ok? && e1.game == GameAt(xs, k1, load);
    var k2 :| 0 <= k2 < |xs| && e2.instance == xs[k2] && load(xs[k2].gameID).Ok? && e2.game == GameAt(xs, k2, load);
    GameAtSameGame(xs, k1, k2, load);
  }

  /** Every cached game id was looked up without error among the first i
      instances, and its entry holds the game the first of them was shown
      with. */
  predicate CacheJustified(xs: seq<GameInstance>, i: nat, load: string -> Result<Option<Game>>, cache: map<string, Game>)
    requires i <= |xs|
  {
    forall id :: id in cache ==>
      exists j :: 0 <= j < i && xs[j].gameID == id && load(id).Ok? && cache[id] == GameAt(xs, j, load)
  }

  /** Every game id looked up without error among the first i instances is
      cached. */
  predicate CacheCovers(xs: seq<GameInstance>, i: nat, load: string -> Result<Option<Game>>, cache: map<string, Game>)
    requires i <= |xs|
  {
    forall j :: 0 <= j < i && load(xs[j].gameID).Ok? ==> xs[j].gameID in cache
  }

  /** The game cache after the first i instances: an entry for exactly the
      game ids looked up without error, holding the game the first of them
      was shown with. */
  predicate CacheAfter(xs: seq<GameInstance>, i: nat, load: string -> Result<Option<Game>>, cache: map<string, Game>)
    requires i <= |xs|
  {
    CacheJustified(xs, i, load, cache) && CacheCovers(xs, i, load, cache)
  }

  /** A cache hit, or a failed lookup, leaves the cache right for one more
      instance. */
  lemma CacheKeep(xs: seq<GameInstance>, i: nat, load: string -> Result<Option<Game>>, cache: map<string, Game>)
    requires i < |xs| && CacheAfter(xs, i, load, cache)
    requires xs[i].gameID in cache || load(xs[i].gameID).Err?
    ensures CacheAfter(xs, i + 1, load, cache)
  {
    forall id | id in cache
      ensures exists j :: 0 <= j < i + 1 && xs[j].gameID == id && load(id).Ok? && cache[id] == GameAt(xs, j, load)
    {
      var j :| 0 <= j < i && xs[j].gameID == id && load(id).Ok? && cache[id] == GameAt(xs, j, load);
    }
  }

  /** The first successful lookup of a game id is the first instance of it. */
  lemma FirstLookup(xs: seq<GameInstance>, i: nat, load: string -> Result<Option<Game>>, cache: map<string, Game>)
    requires i < |xs| && CacheAfter(xs, i, load, cache)
    requires xs[i].gameID !in cache && load(xs[i].gameID).Ok?
    ensures FirstOfGame(xs, i) == i
  {
    var j := FirstOfGame(xs, i);
    var id := xs[j].gameID;
    assert id == xs[i].gameID;
  }

  lemma JustifiedAdd(xs: seq<GameInstance>, i: nat, load: string -> Result<Option<Game>>, cache: map<string, Game>)
    requires i < |xs| && CacheJustified(xs, i, load, cache) && load(xs[i].gameID).Ok?
    ensures CacheJustified(xs, i + 1, load, cache[xs[i].gameID := GameAt(xs, i, load)])
  {
    var c := cache[xs[i].gameID := GameAt(xs, i, load)];
    forall id | id in c
      ensures exists j :: 0 <= j < i + 1 && xs[j].gameID == id && load(id).Ok? && c[id] == GameAt(xs, j, load)
    {
      if id == xs[i].gameID {
        assert c[id] == GameAt(xs, i, load);
      } else {
        var j :| 0 <= j < i && xs[j].gameID == id && load(id).Ok? && cache[id] == GameAt(xs, j, load);
        assert c[id] == cache[id];
      }
    }
  }

  lemma CoversAdd(xs: seq<GameInstance>, i: nat, load: string -> Result<Option<Game>>, cache: map<string, Game>, g: Game)
    requires i < |xs| && CacheCovers(xs, i, load, cache)
    ensures CacheCovers(xs, i + 1, load, cache[xs[i].gameID := g])
  {
    var c := cache[xs[i].gameID := g];
    forall j | 0 <= j < i + 1 && load(xs[j].gameID).Ok?
      ensures xs[j].gameID in c
    {
      if j < i {
        assert xs[j].gameID in cache;
      }
    }
  }

  /** Caching the game of a first successful lookup keeps the cache right
      for one more instance. */
  lemma CacheAdd(xs: seq<GameInstance>, i: nat, load: string -> Result<Option<Game>>, cache: map<string, Game>)
    requires i < |xs| && CacheAfter(xs, i, load, cache)
    requires xs[i].gameID !in cache && load(xs[i].gameID).Ok?
    ensures CacheAfter(xs, i + 1, load, cache[xs[i].gameID := GameAt(xs, i, load)])
  {
    JustifiedAdd(xs, i, load, cache);
    CoversAdd(xs, i, load, cache, GameAt(xs, i, load));
  }

  /** Looking up the game of the instance at i through the cache. */
  method LookupGame(xs: seq<GameInstance>, i: nat, load: string -> Result<Option<Game>>, cache: map<string, Game>)
    returns (found: bool, game: Game, cache': map<string, Game>)
    requires i < |xs| && CacheAfter(xs, i, load, cache)
    ensures found <==> load(xs[i].gameID).Ok?
    ensures found ==> game == GameAt(xs, i, load)
    ensures CacheAfter(xs, i + 1, load, cache')
  {
    var inst := xs[i];
    found, game, cache' := true, Library.PlaceholderGame(inst), cache;
    if inst.gameID in cache {
      game := cache[inst.gameID];
      var j :| 0 <= j < i && xs[j].gameID == inst.gameID && load(inst.gameID).Ok? && cache[inst.gameID] == GameAt(xs, j, load);
      GameAtSameGame(xs, j, i, load);
      CacheKeep(xs, i, load, cache);
    } else {
      var loaded := load(inst.gameID);
      if loaded.Err? {
        found := false;
        CacheKeep(xs, i, load, cache);
      } else {
        if loaded.value.Some? {
          game := loaded.value.value;
        } else {
          FirstLookup(xs, i, load, cache);
        }
        CacheAdd(xs, i, load, cache);
        cache' := cache[inst.gameID := game];
      }
    }
  }


  /** What one more instance adds to the entries: nothing after a failed
      lookup or a game the filters drop, else the instance with its game. */
  lemma EntriesNext(xs: seq<GameInstance>, i: nat, load: string -> Result<Option<Game>>, filter: GameFilter)
    requires i < |xs|
    ensures load(xs[i].gameID).Err? ==> Entries(xs, i + 1, load, filter) == Entries(xs, i, load, filter)
    ensures load(xs[i].gameID).Ok? && !Keep(GameAt(xs, i, load), filter) ==>
              Entries(xs, i + 1, load, filter) == Entries(xs, i, load, filter)
    ensures load(xs[i].gameID).Ok? && Keep(GameAt(xs, i, load), filter) ==>
              Entries(xs, i + 1, load, filter) == Entries(xs, i, load, filter) + [GameWithInstance(GameAt(xs, i, load), xs[i])]
  {
    var prev := Entries(xs, i, load, filter);
    assert Entries(xs, i + 1, load, filter) == prev + Entry(xs, i, load, filter);
    assert prev + [] == prev;
  }

  /** The search and genre filters as GetGames applies them. */
  method KeepGame(game: Game, filter: GameFilter) returns (keep: bool)
    ensures keep <==> Keep(game, filter)
  {
    keep := MatchesSearch(game, filter.search);
    if keep && |filter.genres| > 0 {
      keep := GenreMatch(game, filter.genres);
    }
  }

  /** One iteration of the GetGames loop: look the game up through the
      cache and keep the instance when the filters pass its game. */
  method CollectStep(xs: seq<GameInstance>, i: nat, load: string -> Result<Option<Game>>, filter: GameFilter,
                     result: seq<GameWithInstance>, cache: map<string, Game>)
    returns (result': seq<GameWithInstance>, cache': map<string, Game>)
    requires i < |xs| && result == Entries(xs, i, load, filter) && CacheAfter(xs, i, load, cache)
    ensures result' == Entries(xs, i + 1, load, filter) && CacheAfter(xs, i + 1, load, cache')
  {
    EntriesNext(xs, i, load, filter);
    var found, game;
    found, game, cache' := LookupGame(xs, i, load, cache);
    result' := result;
    if found {
      var keep := KeepGame(game, filter);
      if keep {
        result' := result + [GameWithInstance(game, xs[i])];
      }
    }
  }

  /** The loop of GetGames with its game cache: the first lookup of a game
      id decides the game for every later instance of it; a failed lookup is
      not cached and skips the instance. */
  method Collect(xs: seq<GameInstance>, load: string -> Result<Option<Game>>, filter: GameFilter)
    returns (result: seq<GameWithInstance>)
    ensures result == Entries(xs, |xs|, load, filter)
  {
    var cache: map<string, Game> := map[];
    result := [];
    for i := 0 to |xs|
      invariant result == Entries(xs, i, load, filter)
      invariant CacheAfter(xs, i, load, cache)
    {
      result, cache := CollectStep(xs, i, load, filter, result, cache);
    }
  }

  // ---------------------------------------------------------------------
  // GetGames

  /** GetGames: the query's error is wrapped; otherwise the result holds
      exactly the entries built from the source-filtered instances, sorted
      by the effective sort. */
  method GetGames(filter: Option<GameFilter>, sortOpts: Option<GameSort>,
                  query: GameFilter -> Result<seq<GameInstance>>,
                  filters: map<string, SourceFilter>, order: seq<string>,
                  load: string -> Result<Option<Game>>)
    returns (r: Result<seq<GameWithInstance>>)
    requires var f := filter.GetOr(DefaultFilter); query(f).Ok? ==> GroupOrder(order, query(f).value)
    ensures var f := filter.GetOr(DefaultFilter); r.Err? <==> query(f).Err?
    ensures var f := filter.GetOr(DefaultFilter); r.Err? ==> r.msg == "failed to get instances: " + query(f).msg
    ensures r.Ok? ==>
              var f := filter.GetOr(DefaultFilter);
              var kept := ApplySourceFilters(query(f).value, f, filters, order);
              multiset(r.value) == multiset(Entries(kept, |kept|, load, f))
    ensures r.Ok? ==>
              var s := sortOpts.GetOr(DefaultSort);
              s.field == "" || Ordering.Sorted(s, r.value)
  {
    var f := filter.GetOr(DefaultFilter);
    var s := sortOpts.GetOr(DefaultSort);
    var instances := query(f);
    if instances.Err? {
      return Err("failed to get instances: " + instances.msg);
    }
    var kept := ApplySourceFilters(instances.value, f, filters, order);
    var entries := Collect(kept, load, f);
    r := Ok(Ordering.SortGames(entries, Some(s)));
  }

  /** With no options the listing is sorted by name, ascending. */
  lemma DefaultSortByName(games: seq<GameWithInstance>)
    ensures Ordering.Sorted(DefaultSort, Ordering.SortGames(games, Some(DefaultSort)))
    ensures forall i, j :: 0 <= i < j < |Ordering.SortGames(games, Some(DefaultSort))| ==>
              var r := Ordering.SortGames(games, Some(DefaultSort));
              !Ordering.LexLess(Lower(r[j].game.name), Lower(r[i].game.name))
  {
  }
}
