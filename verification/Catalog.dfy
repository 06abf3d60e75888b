/** The game catalog: games, tags and their links, and the upsert of a batch of games in
    one transaction (internal/repository/dbrepo/catalog.go). The unique indexes on
    games.igdb_id and tags(facet, igdb_id) make the two tables maps by those keys; `id` is
    the surrogate primary key, drawn from a sequence. */
module Catalog {
  import opened Wrappers
  import ReleaseDate

  datatype Facet = Genre | Theme | GameMode

  datatype TagKey = TagKey(facet: Facet, igdbId: int)

  datatype Tag = Tag(key: TagKey, name: string)

  /** Every column IGDB owns. */
  datatype Fields = Fields(title: string, image: string, kind: string, releaseDate: ReleaseDate.Date,
                           parent: Option<int>, summary: string)

  datatype GameRow = GameRow(id: int, fields: Fields, updatedAt: int)
  datatype TagRow = TagRow(id: int, name: string, updatedAt: int)

  datatype Db = Db(games: map<int, GameRow>, tags: map<TagKey, TagRow>, links: set<(int, int)>,
                   nextGame: int, nextTag: int)

  /** One game of a batch, as the statements of ImportGames see it. */
  datatype Entry = Entry(igdbId: int, fields: Fields, tags: seq<Tag>)

  // ------------------------------------------------------------------ integrity

  /** Primary keys count up from 1. */
  ghost predicate GameIdsUnique(db: Db) {
    && 0 < db.nextGame
    && (forall a | a in db.games :: 0 < db.games[a].id < db.nextGame)
    && (forall a, b | a in db.games && b in db.games && a != b :: db.games[a].id != db.games[b].id)
  }

  ghost predicate TagIdsUnique(db: Db) {
    && (forall k | k in db.tags :: db.tags[k].id < db.nextTag)
    && (forall k, m | k in db.tags && m in db.tags && k != m :: db.tags[k].id != db.tags[m].id)
  }

  /** Both ends of every link exist. */
  ghost predicate LinksHold(db: Db) {
    forall l | l in db.links ::
      (exists a | a in db.games :: db.games[a].id == l.0) && (exists k | k in db.tags :: db.tags[k].id == l.1)
  }

  ghost predicate Sound(db: Db) {
    GameIdsUnique(db) && TagIdsUnique(db) && LinksHold(db)
  }

  // ------------------------------------------------------------- the statements

  /** INSERT ... ON CONFLICT (igdb_id) DO UPDATE. The sequence moves on either way. */
  function UpsertGame(db: Db, igdbId: int, fields: Fields, now: int): Db {
    var id := if igdbId in db.games then db.games[igdbId].id else db.nextGame;
    db.(games := db.games[igdbId := GameRow(id, fields, now)], nextGame := db.nextGame + 1)
  }

  function UpsertTag(db: Db, tag: Tag, now: int): Db {
    var id := if tag.key in db.tags then db.tags[tag.key].id else db.nextTag;
    db.(tags := db.tags[tag.key := TagRow(id, tag.name, now)], nextTag := db.nextTag + 1)
  }

  function UpsertTags(db: Db, tags: seq<Tag>, now: int): Db {
    if tags == [] then db
    else UpsertTag(UpsertTags(db, tags[..|tags| - 1], now), tags[|tags| - 1], now)
  }

  function Unlinked(links: set<(int, int)>, gameId: int): set<(int, int)> {
    set l | l in links && l.0 != gameId
  }

  function LinkAll(gameId: int, tags: seq<Tag>, rows: map<TagKey, TagRow>): set<(int, int)>
    requires forall t | t in tags :: t.key in rows
  {
    set t | t in tags :: (gameId, rows[t.key].id)
  }

  /** The last mention of a tag in a list. */
  function LastName(tags: seq<Tag>, k: TagKey): Option<string> {
    if tags == [] then None
    else if tags[|tags| - 1].key == k then Some(tags[|tags| - 1].name)
    else LastName(tags[..|tags| - 1], k)
  }

  /** Upserting a list of tags touches only the tags table: old tags keep their ids, the
      listed ones are there under the name they are listed with last, the rest is as it was. */
  ghost predicate TagsUpserted(db: Db, tags: seq<Tag>, db': Db) {
    && db' == db.(tags := db'.tags, nextTag := db'.nextTag)
    && (forall k | k in db.tags :: k in db'.tags && db'.tags[k].id == db.tags[k].id)
    && (forall t | t in tags :: t.key in db'.tags)
    && (forall k | k in db'.tags ::
          match LastName(tags, k)
          case Some(name) => db'.tags[k].name == name
          case None => k in db.tags && db'.tags[k] == db.tags[k])
  }

  lemma {:induction false} ListedMeansNamed(tags: seq<Tag>, k: TagKey)
    ensures LastName(tags, k).Some? <==> exists t :: t in tags && t.key == k
  {
    if tags == [] {
    } else {
      var n := |tags| - 1;
      ListedMeansNamed(tags[..n], k);
      assert forall t :: t in tags <==> t in tags[..n] || t == tags[n];
    }
  }

  lemma TagUpserted(db: Db, tags: seq<Tag>, mid: Db, last: Tag, now: int)
    requires TagsUpserted(db, tags, mid)
    ensures TagsUpserted(db, tags + [last], UpsertTag(mid, last, now))
    ensures TagIdsUnique(mid) ==> TagIdsUnique(UpsertTag(mid, last, now))
  {
    assert (tags + [last])[..|tags|] == tags;
    assert forall t :: t in tags + [last] <==> t in tags || t == last;
  }

  lemma {:induction false} UpsertTagsDescribed(db: Db, tags: seq<Tag>, now: int)
    ensures TagsUpserted(db, tags, UpsertTags(db, tags, now))
    ensures TagIdsUnique(db) ==> TagIdsUnique(UpsertTags(db, tags, now))
  {
    if tags == [] {
    } else {
      var init, last := tags[..|tags| - 1], tags[|tags| - 1];
      UpsertTagsDescribed(db, init, now);
      TagUpserted(db, init, UpsertTags(db, init, now), last, now);
      assert init + [last] == tags;
    }
  }

  function ImportOne(db: Db, g: Entry, now: int): Db {
    var db1 := UpsertGame(db, g.igdbId, g.fields, now);
    var db2 := UpsertTags(db1, g.tags, now);
    UpsertTagsDescribed(db1, g.tags, now);
    var id := db2.games[g.igdbId].id;
    db2.(links := Unlinked(db2.links, id) + LinkAll(id, g.tags, db2.tags))
  }

  function ImportAll(db: Db, batch: seq<Entry>, now: int): Db {
    if batch == [] then db
    else ImportOne(ImportAll(db, batch[..|batch| - 1], now), batch[|batch| - 1], now)
  }

  // ---------------------------------------------------- what a batch amounts to

  /** The last occurrence of a game in a batch. */
  function LastEntry(batch: seq<Entry>, igdbId: int): Option<Entry> {
    if batch == [] then None
    else if batch[|batch| - 1].igdbId == igdbId then Some(batch[|batch| - 1])
    else LastEntry(batch[..|batch| - 1], igdbId)
  }

  /** The name a batch leaves a tag with: its last mention anywhere in it. */
  function LastNaming(batch: seq<Entry>, k: TagKey): Option<string> {
    if batch == [] then None
    else
      var name := LastName(batch[|batch| - 1].tags, k);
      if name.Some? then name else LastNaming(batch[..|batch| - 1], k)
  }

  ghost function TagsOf(db: Db, igdbId: int): set<TagKey>
    requires igdbId in db.games
  {
    set k | k in db.tags && (db.games[igdbId].id, db.tags[k].id) in db.links
  }

  ghost function KeysOf(tags: seq<Tag>): set<TagKey> {
    set t | t in tags :: t.key
  }

  /** The part of Imported about the tags table. */
  ghost predicate TagsImported(db: Db, batch: seq<Entry>, db': Db) {
    && (forall k | k in db.tags :: k in db'.tags && db'.tags[k].id == db.tags[k].id)
    && (forall k | k in db'.tags ::
          match LastNaming(batch, k)
          case Some(name) => db'.tags[k].name == name
          case None => k in db.tags && db'.tags[k] == db.tags[k])
  }

  /** Rows that existed keep their ids; a game takes the fields of its last occurrence, a
      tag the name of its last mention, and a game of the batch ends linked to exactly the
      tags of its last occurrence. Everything the batch does not name is as it was. */
  ghost predicate Imported(db: Db, batch: seq<Entry>, db': Db) {
    && (forall a | a in db.games :: a in db'.games && db'.games[a].id == db.games[a].id)
    && (forall a | LastEntry(batch, a).Some? :: a in db'.games)
    && (forall a | a in db'.games ::
          match LastEntry(batch, a)
          case Some(g) => db'.games[a].fields == g.fields && TagsOf(db', a) == KeysOf(g.tags)
          case None => a in db.games && db'.games[a] == db.games[a] && TagsOf(db', a) == TagsOf(db, a))
    && TagsImported(db, batch, db')
  }

  lemma OwnTags(db: Db, g: Entry, now: int)
    requires Sound(db)
    ensures g.igdbId in ImportOne(db, g, now).games
    ensures TagsOf(ImportOne(db, g, now), g.igdbId) == KeysOf(g.tags)
  {
    var db1, db' := UpsertGame(db, g.igdbId, g.fields, now), ImportOne(db, g, now);
    UpsertTagsDescribed(db1, g.tags, now);
    var id := db'.games[g.igdbId].id;
    forall k ensures k in TagsOf(db', g.igdbId) <==> k in KeysOf(g.tags) {
      if k in TagsOf(db', g.igdbId) {
        assert (id, db'.tags[k].id) in LinkAll(id, g.tags, db'.tags);
        var t :| t in g.tags && db'.tags[t.key].id == db'.tags[k].id;
        assert t.key == k;
      }
      if k in KeysOf(g.tags) {
        var t :| t in g.tags && t.key == k;
        assert (id, db'.tags[t.key].id) in LinkAll(id, g.tags, db'.tags);
      }
    }
  }

  lemma OthersTags(db: Db, g: Entry, now: int, a: int)
    requires Sound(db) && a in db.games && a != g.igdbId
    ensures a in ImportOne(db, g, now).games && TagsOf(ImportOne(db, g, now), a) == TagsOf(db, a)
  {
    var db1, db' := UpsertGame(db, g.igdbId, g.fields, now), ImportOne(db, g, now);
    UpsertTagsDescribed(db1, g.tags, now);
    var id := db.games[a].id;
    assert id != db'.games[g.igdbId].id;
    forall k ensures k in TagsOf(db', a) <==> k in TagsOf(db, a) {
      if k in TagsOf(db', a) {
        var l := (id, db'.tags[k].id);
        assert l in db.links;
        var m :| m in db.tags && db.tags[m].id == l.1;
        assert db'.tags[m].id == db'.tags[k].id;
        assert m == k;
      }
    }
  }

  lemma ImportOneSound(db: Db, g: Entry, now: int)
    requires Sound(db)
    ensures Sound(ImportOne(db, g, now))
  {
    var db1, db' := UpsertGame(db, g.igdbId, g.fields, now), ImportOne(db, g, now);
    UpsertTagsDescribed(db1, g.tags, now);
    assert GameIdsUnique(db') by { assert db'.games == db1.games; }
    forall l | l in db'.links
      ensures exists a | a in db'.games :: db'.games[a].id == l.0
      ensures exists k | k in db'.tags :: db'.tags[k].id == l.1
    {
      if l in db.links {
        var a :| a in db.games && db.games[a].id == l.0;
        assert a in db'.games && db'.games[a].id == l.0;
        var k :| k in db.tags && db.tags[k].id == l.1;
        assert k in db'.tags && db'.tags[k].id == l.1;
      } else {
        var t :| t in g.tags && l == (db'.games[g.igdbId].id, db'.tags[t.key].id);
        assert t.key in db'.tags;
      }
    }
  }

  lemma ImportOneTags(db: Db, batch: seq<Entry>, mid: Db, g: Entry, now: int)
    requires TagsImported(db, batch, mid)
    ensures TagsImported(db, batch + [g], ImportOne(mid, g, now))
  {
    UpsertTagsDescribed(UpsertGame(mid, g.igdbId, g.fields, now), g.tags, now);
    assert (batch + [g])[..|batch|] == batch;
  }

  lemma ImportOneDescribed(db: Db, batch: seq<Entry>, mid: Db, g: Entry, now: int)
    requires Sound(mid) && Imported(db, batch, mid)
    ensures Imported(db, batch + [g], ImportOne(mid, g, now))
  {
    var db' := ImportOne(mid, g, now);
    ImportOneTags(db, batch, mid, g, now);
    assert (batch + [g])[..|batch|] == batch;
    assert db'.games == UpsertGame(mid, g.igdbId, g.fields, now).games by {
      UpsertTagsDescribed(UpsertGame(mid, g.igdbId, g.fields, now), g.tags, now);
    }
    forall a | a in db'.games ensures
      match LastEntry(batch + [g], a)
      case Some(last) => db'.games[a].fields == last.fields && TagsOf(db', a) == KeysOf(last.tags)
      case None => a in db.games && db'.games[a] == db.games[a] && TagsOf(db', a) == TagsOf(db, a)
    {
      if a == g.igdbId {
        OwnTags(mid, g, now);
      } else {
        OthersTags(mid, g, now, a);
      }
    }
  }

  /** Importing any batch keeps the unique keys and the links whole, and does to the three
      tables exactly what Imported says. */
  lemma {:induction false} ImportAllDescribed(db: Db, batch: seq<Entry>, now: int)
    requires Sound(db)
    ensures Sound(ImportAll(db, batch, now)) && Imported(db, batch, ImportAll(db, batch, now))
  {
    if batch == [] {
    } else {
      var init, g := batch[..|batch| - 1], batch[|batch| - 1];
      ImportAllDescribed(db, init, now);
      var mid := ImportAll(db, init, now);
      assert ImportAll(db, batch, now) == ImportOne(mid, g, now);
      assert Sound(ImportOne(mid, g, now)) by { ImportOneSound(mid, g, now); }
      assert Imported(db, init + [g], ImportOne(mid, g, now)) by { ImportOneDescribed(db, init, mid, g, now); }
      assert init + [g] == batch;
    }
  }

  lemma {:induction false} TagsStamped(db: Db, tags: seq<Tag>, now: int, k: TagKey)
    ensures LastName(tags, k).Some? ==>
      k in UpsertTags(db, tags, now).tags && UpsertTags(db, tags, now).tags[k].updatedAt == now
    ensures LastName(tags, k).None? ==>
      (k in UpsertTags(db, tags, now).tags <==> k in db.tags)
      && (k in db.tags ==> UpsertTags(db, tags, now).tags[k] == db.tags[k])
  {
    if tags == [] {
    } else {
      TagsStamped(db, tags[..|tags| - 1], now, k);
    }
  }

  /** Every game of a batch, and every tag it names, bears the time of the import. */
  lemma {:induction false} ImportStamps(db: Db, batch: seq<Entry>, now: int, a: int, k: TagKey)
    ensures var db' := ImportAll(db, batch, now);
      && (LastEntry(batch, a).Some? ==> a in db'.games && db'.games[a].updatedAt == now)
      && (LastNaming(batch, k).Some? ==> k in db'.tags && db'.tags[k].updatedAt == now)
  {
    if batch == [] {
    } else {
      var init, g := batch[..|batch| - 1], batch[|batch| - 1];
      ImportStamps(db, init, now, a, k);
      var mid := UpsertGame(ImportAll(db, init, now), g.igdbId, g.fields, now);
      UpsertTagsDescribed(mid, g.tags, now);
      TagsStamped(mid, g.tags, now, k);
    }
  }

  // --------------------------------------------------------------- importing again

  /** Equal but for timestamps and the positions of the id sequences. */
  ghost predicate SameContent(a: Db, b: Db) {
    && a.games.Keys == b.games.Keys
    && (forall g | g in a.games :: a.games[g].id == b.games[g].id && a.games[g].fields == b.games[g].fields)
    && a.tags.Keys == b.tags.Keys
    && (forall k | k in a.tags :: a.tags[k].id == b.tags[k].id && a.tags[k].name == b.tags[k].name)
    && a.links == b.links
  }

  /** A link is determined by the game and tag it joins. */
  lemma LinksFromTags(a: Db, b: Db)
    requires Sound(a) && Sound(b)
    requires forall g | g in a.games :: g in b.games && a.games[g].id == b.games[g].id && TagsOf(a, g) == TagsOf(b, g)
    requires forall k | k in a.tags :: k in b.tags && a.tags[k].id == b.tags[k].id
    ensures a.links <= b.links
  {
    forall l | l in a.links ensures l in b.links {
      var g :| g in a.games && a.games[g].id == l.0;
      var k :| k in a.tags && a.tags[k].id == l.1;
      assert l == (l.0, l.1);
      assert k in TagsOf(a, g);
      assert k in TagsOf(b, g);
    }
  }

  lemma SameAgain(db: Db, batch: seq<Entry>, once: Db, twice: Db)
    requires Sound(once) && Sound(twice) && Imported(db, batch, once) && Imported(once, batch, twice)
    requires forall k | LastNaming(batch, k).Some? :: k in once.tags
    ensures SameContent(once, twice)
  {
    forall g ensures g in twice.games <==> g in once.games {
      assert LastEntry(batch, g).Some? ==> g in once.games;
    }
    forall g | g in once.games
      ensures TagsOf(once, g) == TagsOf(twice, g) && once.games[g].fields == twice.games[g].fields
    {
    }
    forall k ensures k in twice.tags <==> k in once.tags {
      assert LastNaming(batch, k).Some? ==> k in once.tags;
    }
    LinksFromTags(once, twice);
    LinksFromTags(twice, once);
  }

  lemma {:induction false} NamedTagsExist(db: Db, batch: seq<Entry>, now: int, k: TagKey)
    requires LastNaming(batch, k).Some?
    ensures k in ImportAll(db, batch, now).tags
  {
    var n := |batch| - 1;
    var mid, g := ImportAll(db, batch[..n], now), batch[n];
    UpsertTagsDescribed(UpsertGame(mid, g.igdbId, g.fields, now), g.tags, now);
    if LastName(g.tags, k).Some? {
      ListedMeansNamed(g.tags, k);
    } else {
      NamedTagsExist(db, batch[..n], now, k);
    }
  }

  /** Importing a batch with the same content again changes timestamps only. */
  lemma ReimportChangesNothing(db: Db, batch: seq<Entry>, now: int, later: int)
    requires Sound(db)
    ensures SameContent(ImportAll(db, batch, now), ImportAll(ImportAll(db, batch, now), batch, later))
  {
    var once := ImportAll(db, batch, now);
    ImportAllDescribed(db, batch, now);
    ImportAllDescribed(once, batch, later);
    forall k | LastNaming(batch, k).Some? ensures k in once.tags {
      NamedTagsExist(db, batch, now, k);
    }
    SameAgain(db, batch, once, ImportAll(once, batch, later));
  }
}
