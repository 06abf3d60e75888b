/** cmd/api/igdb_handlers.go: from IGDB ids to local game ids, fetching and storing the
    games the catalog has not seen. */
module ImportHandler {
  import opened Wrappers
  import opened Cardinality
  import opened Catalog
  import opened CatalogImport

  /** What GetByIDs answers, if it is asked. */
  datatype Upstream = Unreachable | Fetched(games: seq<ApiGame>)

  /** 503, 500, 502, 404, or the local ids in the caller's order. */
  datatype Reply = NotConfigured | DatabaseError | BadGateway | UnknownGame | Local(ids: seq<int>)

  function Missing(db: Db, igdbIDs: seq<int>): seq<int> {
    if igdbIDs == [] then []
    else
      var init, last := Missing(db, igdbIDs[..|igdbIDs| - 1]), igdbIDs[|igdbIDs| - 1];
      if last in db.games then init else init + [last]
  }

  function Entries(games: seq<ApiGame>): seq<Entry> {
    seq(|games|, i requires 0 <= i < |games| => EntryFrom(games[i]))
  }

  /** The catalog after a 200. */
  function Outcome(db: Db, igdbIDs: seq<int>, upstream: Upstream, now: int): Db {
    if Missing(db, igdbIDs) == [] || upstream.Unreachable? then db
    else ImportAll(db, Entries(upstream.games), now)
  }

  lemma {:induction false} MissingMembers(db: Db, igdbIDs: seq<int>)
    ensures forall a :: a in Missing(db, igdbIDs) <==> a in igdbIDs && a !in db.games
  {
    if igdbIDs == [] {
    } else {
      MissingMembers(db, igdbIDs[..|igdbIDs| - 1]);
      assert forall a :: a in igdbIDs <==> a in igdbIDs[..|igdbIDs| - 1] || a == igdbIDs[|igdbIDs| - 1];
    }
  }

  /** The positions at which a game is asked for that the catalog does not have. */
  ghost function Unknown(db: Db, igdbIDs: seq<int>): set<int> {
    set i | 0 <= i < |igdbIDs| && igdbIDs[i] !in db.games
  }

  /** An id asked for twice is missing twice. */
  lemma {:induction false} MissingCount(db: Db, igdbIDs: seq<int>)
    ensures |Missing(db, igdbIDs)| == |Unknown(db, igdbIDs)|
  {
    if igdbIDs == [] {
      assert Unknown(db, igdbIDs) == {};
    } else {
      var n := |igdbIDs| - 1;
      MissingCount(db, igdbIDs[..n]);
      assert Unknown(db, igdbIDs) == Unknown(db, igdbIDs[..n]) + if igdbIDs[n] in db.games then {} else {n};
    }
  }

  /** How far an import gets: no further than the lookup, or than asking upstream, or past it
      with as many games as are unknown. */
  predicate LookupFails(igdbIDs: seq<int>, readFails: bool) {
    igdbIDs != [] && readFails
  }

  ghost predicate Fetches(db: Db, igdbIDs: seq<int>, readFails: bool) {
    !LookupFails(igdbIDs, readFails) && exists i :: 0 <= i < |igdbIDs| && igdbIDs[i] !in db.games
  }

  ghost predicate Stores(db: Db, igdbIDs: seq<int>, upstream: Upstream, readFails: bool) {
    && Fetches(db, igdbIDs, readFails)
    && upstream.Fetched? && |upstream.games| == |Unknown(db, igdbIDs)|
  }

  /** Two statements for each game, and two for each of its tags. */
  function StatementCount(games: seq<ApiGame>): nat {
    if games == [] then 0
    else
      var g := games[|games| - 1];
      StatementCount(games[..|games| - 1]) + 2 + 2 * (|g.genres| + |g.themes| + |g.gameModes|)
  }

  /** One of the statements of an import of these games reports an error. */
  predicate StatementFails(games: seq<ApiGame>, failAt: Option<nat>) {
    failAt.Some? && failAt.value < StatementCount(games)
  }

  lemma {:induction false} StatementsCounted(games: seq<ApiGame>)
    ensures Statements(Entries(games)) == StatementCount(games)
  {
    if games == [] {
    } else {
      var n := |games| - 1;
      StatementsCounted(games[..n]);
      assert Entries(games)[..n] == Entries(games[..n]);
      LabelledInOrder(Genre, games[n].genres);
      LabelledInOrder(Theme, games[n].themes);
      LabelledInOrder(GameMode, games[n].gameModes);
    }
  }

  /** The lookup works, and all games asked for are in the catalog, or upstream answers as many
      as are not and every statement of their import works. */
  ghost predicate Succeeds(db: Db, igdbIDs: seq<int>, upstream: Upstream, readFails: bool, failAt: Option<nat>) {
    && !LookupFails(igdbIDs, readFails)
    && (|| (forall i :: 0 <= i < |igdbIDs| ==> igdbIDs[i] in db.games)
        || (upstream.Fetched? && |upstream.games| == |Unknown(db, igdbIDs)| && !StatementFails(upstream.games, failAt)))
  }

  lemma FetchesWhenMissing(db: Db, igdbIDs: seq<int>)
    ensures |Missing(db, igdbIDs)| > 0 <==> exists i :: 0 <= i < |igdbIDs| && igdbIDs[i] !in db.games
  {
    MissingMembers(db, igdbIDs);
    if i :| 0 <= i < |igdbIDs| && igdbIDs[i] !in db.games {
      var a := igdbIDs[i];
      assert a in igdbIDs && a in Missing(db, igdbIDs);
    }
    if |Missing(db, igdbIDs)| > 0 {
      var a := Missing(db, igdbIDs)[0];
      assert a in Missing(db, igdbIDs);
      var i :| 0 <= i < |igdbIDs| && igdbIDs[i] == a;
    }
  }

  /** Distinct games, all of them asked for. */
  ghost predicate Faithful(games: seq<ApiGame>, asked: seq<int>) {
    && (forall i :: 0 <= i < |games| ==> games[i].igdbId in asked)
    && (forall i, j :: 0 <= i < j < |games| ==> games[i].igdbId != games[j].igdbId)
  }

  lemma {:induction false} DistinctCount(games: seq<ApiGame>)
    requires forall i, j :: 0 <= i < j < |games| ==> games[i].igdbId != games[j].igdbId
    ensures |set g | g in games :: g.igdbId| == |games|
  {
    if games == [] {
      assert (set g | g in games :: g.igdbId) == {};
    } else {
      var n := |games| - 1;
      DistinctCount(games[..n]);
      assert forall g :: g in games <==> g in games[..n] || g == games[n];
      assert (set g | g in games :: g.igdbId) == (set g | g in games[..n] :: g.igdbId) + {games[n].igdbId};
    }
  }

  lemma {:induction false} MembersCount(s: seq<int>)
    ensures |set x | x in s| <= |s|
  {
    if s == [] {
      assert (set x | x in s) == {};
    } else {
      var n := |s| - 1;
      MembersCount(s[..n]);
      assert (set x | x in s) == (set x | x in s[..n]) + {s[n]};
    }
  }

  /** As many distinct games as were asked for, all asked for, are all that were asked for. */
  lemma FaithfulIsComplete(games: seq<ApiGame>, asked: seq<int>)
    requires Faithful(games, asked) && |games| == |asked|
    ensures forall a | a in asked :: exists g :: g in games && g.igdbId == a
  {
    var got, wanted := set g | g in games :: g.igdbId, set a | a in asked;
    DistinctCount(games);
    MembersCount(asked);
    assert got <= wanted;
    SameSizeSubset(got, wanted);
    forall a | a in asked ensures exists g :: g in games && g.igdbId == a {
      assert a in got;
    }
  }

  /** A batch leaves all its games in the catalog, and an id that names no game of the
      batch as known or unknown as before. */
  lemma {:induction false} KnownAfter(db: Db, batch: seq<Entry>, now: int)
    ensures forall a ::
      a in ImportAll(db, batch, now).games <==> a in db.games || exists e :: e in batch && e.igdbId == a
    ensures forall a | a in db.games :: ImportAll(db, batch, now).games[a].id == db.games[a].id
  {
    if batch == [] {
    } else {
      var n := |batch| - 1;
      KnownAfter(db, batch[..n], now);
      var mid, g := ImportAll(db, batch[..n], now), batch[n];
      UpsertTagsDescribed(UpsertGame(mid, g.igdbId, g.fields, now), g.tags, now);
      assert forall e :: e in batch <==> e in batch[..n] || e == g;
    }
  }

  /** What ImportGames answers for a fetched batch, told by the fetched games. */
  lemma StoredIds(db: Db, fetched: seq<ApiGame>, now: int, stored: map<int, int>)
    requires AnswersFor(stored, ImportAll(db, Entries(fetched), now), Entries(fetched))
    ensures var db' := ImportAll(db, Entries(fetched), now);
      && (forall g | g in fetched :: g.igdbId in stored)
      && (forall a | a in stored :: a in db'.games && stored[a] == db'.games[a].id)
      && (forall a :: a in db'.games <==> a in db.games || a in stored)
      && (forall a | a in db.games :: db'.games[a].id == db.games[a].id)
  {
    KnownAfter(db, Entries(fetched), now);
    forall g | g in fetched ensures g.igdbId in stored {
      var i :| 0 <= i < |fetched| && fetched[i] == g;
      assert Entries(fetched)[i] in Entries(fetched);
    }
  }

  function KnownIds(db: Db, igdbIDs: seq<int>): map<int, int> {
    map a | a in igdbIDs && a in db.games :: db.games[a].id
  }

  /** The known ids and the stored ones together are the local ids after the import. */
  lemma MergedIds(db: Db, igdbIDs: seq<int>, fetched: seq<ApiGame>, now: int, stored: map<int, int>)
    requires AnswersFor(stored, ImportAll(db, Entries(fetched), now), Entries(fetched))
    requires |fetched| == |Missing(db, igdbIDs)|
    ensures var db', known := ImportAll(db, Entries(fetched), now), KnownIds(db, igdbIDs) + stored;
      && (forall a | a in igdbIDs :: LocalId(db', a) == if a in known then known[a] else 0)
      && (Faithful(fetched, Missing(db, igdbIDs)) ==> forall a | a in igdbIDs :: a in db'.games)
  {
    StoredIds(db, fetched, now, stored);
    MissingMembers(db, igdbIDs);
    if Faithful(fetched, Missing(db, igdbIDs)) {
      FaithfulIsComplete(fetched, Missing(db, igdbIDs));
    }
  }

  lemma DistinctObjects(games: seq<Game>)
    requires forall j, k :: 0 <= j < k < |games| ==> games[j] != games[k]
    ensures forall i :: 0 <= i < |games| ==> BatchOf(games)[i] == EntryOf(games[i])
  {
    forall i | 0 <= i < |games| ensures games[i] !in First(games, i) {
    }
  }

  class Importer {
    const repo: CatalogRepo
    const configured: bool

    constructor (repo: CatalogRepo, configured: bool)
      ensures this.repo == repo && this.configured == configured
    {
      this.repo, this.configured := repo, configured;
    }

    /** Every reply but 200 leaves the catalog as it was. A 200 has at each position the
        local id of the game asked for there; if upstream is faithful none of them is
        missing. (Go's zero value, 0, stands for an id the catalog still does not have.) */
    method ImportIGDBGames(igdbIDs: seq<int>, upstream: Upstream, now: int, readFails: bool, failAt: Option<nat>)
      returns (reply: Reply)
      modifies repo
      ensures !reply.Local? ==> repo.db == old(repo.db)
      ensures reply.Local? ==>
        && repo.db == Outcome(old(repo.db), igdbIDs, upstream, now)
        && |reply.ids| == |igdbIDs|
        && (forall i :: 0 <= i < |igdbIDs| ==> reply.ids[i] == LocalId(repo.db, igdbIDs[i]))
      ensures reply.Local? && upstream.Fetched? && Faithful(upstream.games, Missing(old(repo.db), igdbIDs)) ==>
        forall i :: 0 <= i < |igdbIDs| ==> igdbIDs[i] in repo.db.games
      ensures reply.NotConfigured? <==> !configured
      ensures reply.BadGateway? <==>
        configured && Fetches(old(repo.db), igdbIDs, readFails) && upstream.Unreachable?
      ensures reply.UnknownGame? <==>
        && configured && Fetches(old(repo.db), igdbIDs, readFails)
        && upstream.Fetched? && |upstream.games| != |Unknown(old(repo.db), igdbIDs)|
      ensures reply.DatabaseError? <==>
        configured && (LookupFails(igdbIDs, readFails)
          || (Stores(old(repo.db), igdbIDs, upstream, readFails) && StatementFails(upstream.games, failAt)))
      ensures reply.Local? <==> configured && Succeeds(old(repo.db), igdbIDs, upstream, readFails, failAt)
    {
      if !configured {
        return NotConfigured;
      }
      var found := repo.GamesByIGDBIDs(igdbIDs, readFails);
      if found.None? {
        return DatabaseError;
      }
      var known := found.value;
      var missing := NotIn(igdbIDs, known);
      MissingMembers(repo.db, igdbIDs);
      MissingCount(repo.db, igdbIDs);
      FetchesWhenMissing(repo.db, igdbIDs);
      if |missing| > 0 {
        if upstream.Unreachable? {
          return BadGateway;
        }
        if |upstream.games| != |missing| {
          return UnknownGame;
        }
        var stored := Store(upstream.games, now, failAt);
        if stored.None? {
          return DatabaseError;
        }
        known := Merge(known, stored.value);
        MergedIds(old(repo.db), igdbIDs, upstream.games, now, stored.value);
      }
      var out := InOrder(igdbIDs, known);
      return Local(out);
    }

    method NotIn(igdbIDs: seq<int>, known: map<int, int>) returns (missing: seq<int>)
      requires forall a | a in igdbIDs :: a in known <==> a in repo.db.games
      ensures missing == Missing(repo.db, igdbIDs)
    {
      missing := [];
      for i := 0 to |igdbIDs|
        invariant missing == Missing(repo.db, igdbIDs[..i])
      {
        assert igdbIDs[..i + 1][..i] == igdbIDs[..i];
        if igdbIDs[i] !in known {
          missing := missing + [igdbIDs[i]];
        }
      }
      assert igdbIDs[..|igdbIDs|] == igdbIDs;
    }

    static method InOrder(igdbIDs: seq<int>, known: map<int, int>) returns (out: seq<int>)
      ensures |out| == |igdbIDs|
      ensures forall i :: 0 <= i < |igdbIDs| ==> out[i] == if igdbIDs[i] in known then known[igdbIDs[i]] else 0
    {
      out := [];
      for i := 0 to |igdbIDs|
        invariant |out| == i
        invariant forall j :: 0 <= j < i ==> out[j] == if igdbIDs[j] in known then known[igdbIDs[j]] else 0
      {
        out := out + [if igdbIDs[i] in known then known[igdbIDs[i]] else 0];
      }
    }

    /** The middle of the handler: build catalog rows from what was fetched and import them. */
    method Store(fetched: seq<ApiGame>, now: int, failAt: Option<nat>) returns (stored: Option<map<int, int>>)
      modifies repo
      ensures stored.None? ==> repo.db == old(repo.db)
      ensures stored.None? <==> StatementFails(fetched, failAt)
      ensures stored.Some? ==>
        && repo.db == ImportAll(old(repo.db), Entries(fetched), now)
        && AnswersFor(stored.value, repo.db, Entries(fetched))
    {
      var toStore := Build(fetched);
      stored := repo.ImportGames(toStore, now, failAt);
      StatementsCounted(fetched);
    }

    static method Build(fetched: seq<ApiGame>) returns (toStore: seq<Game>)
      ensures fresh(set g | g in toStore)
      ensures BatchOf(toStore) == Entries(fetched)
    {
      toStore := [];
      for i := 0 to |fetched|
        invariant |toStore| == i && forall g | g in toStore :: fresh(g)
        invariant forall j :: 0 <= j < i ==> EntryOf(toStore[j]) == EntryFrom(fetched[j])
        invariant forall j, k :: 0 <= j < k < i ==> toStore[j] != toStore[k]
      {
        var g := new Game.FromIGDB(fetched[i]);
        assert forall j :: 0 <= j < i ==> toStore[j] in toStore;
        toStore := toStore + [g];
      }
      DistinctObjects(toStore);
    }

    static method Merge<K(==), V(==)>(known: map<K, V>, stored: map<K, V>) returns (merged: map<K, V>)
      ensures merged == known + stored
    {
      merged := known;
      var todo := stored.Keys;
      while todo != {}
        invariant todo <= stored.Keys
        invariant merged == map a | a in known.Keys + (stored.Keys - todo) ::
          if a in stored && a !in todo then stored[a] else known[a]
        decreases todo
      {
        var igdbID :| igdbID in todo;
        merged := merged[igdbID := stored[igdbID]];
        todo := todo - {igdbID};
      }
    }
  }
}
