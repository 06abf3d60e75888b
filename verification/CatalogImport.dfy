/** The code around the catalog tables: building games from IGDB's answers and reading them
    back (internal/models/Game.go), and the import transaction
    (internal/repository/dbrepo/catalog.go). */
module CatalogImport {
  import opened Wrappers
  import opened Catalog
  import opened ReleaseDate

  datatype ApiTag = ApiTag(igdbId: int, name: string)

  /** A fetched game (internal/igdb/types.go); absent image, summary and date are None. */
  datatype ApiGame = ApiGame(igdbId: int, title: string, kind: string, parent: Option<int>,
                             image: Option<string>, summary: Option<string>, releaseDate: Option<string>,
                             genres: seq<ApiTag>, themes: seq<ApiTag>, gameModes: seq<ApiTag>)

  function OrEmpty(s: Option<string>): string {
    if s.Some? then s.value else ""
  }

  /** An absent or unreadable date is stored as the zero time. */
  function DateOf(raw: Option<string>): Date {
    if raw.Some? && Parse(raw.value).Some? then Parse(raw.value).value else ZERO_DATE
  }

  function FieldsOf(src: ApiGame): Fields {
    Fields(src.title, OrEmpty(src.image), src.kind, DateOf(src.releaseDate), src.parent, OrEmpty(src.summary))
  }

  function Labelled(facet: Facet, tags: seq<ApiTag>): seq<Tag> {
    if tags == [] then []
    else Labelled(facet, tags[..|tags| - 1]) + [Tag(TagKey(facet, tags[|tags| - 1].igdbId), tags[|tags| - 1].name)]
  }

  function AllTags(src: ApiGame): seq<Tag> {
    Labelled(Genre, src.genres) + Labelled(Theme, src.themes) + Labelled(GameMode, src.gameModes)
  }

  function EntryFrom(src: ApiGame): Entry {
    Entry(src.igdbId, FieldsOf(src), AllTags(src))
  }

  function OfFacet(tags: seq<Tag>, facet: Facet): seq<Tag> {
    if tags == [] then []
    else
      var init := OfFacet(tags[..|tags| - 1], facet);
      if tags[|tags| - 1].key.facet == facet then init + [tags[|tags| - 1]] else init
  }

  /** models.Game. */
  class Game {
    var id: int
    var igdbId: int
    var fields: Fields
    var updatedAt: int
    var tags: seq<Tag>
    var genres: seq<Tag>
    var themes: seq<Tag>
    var gameModes: seq<Tag>

    constructor FromIGDB(src: ApiGame)
      ensures igdbId == src.igdbId && fields == FieldsOf(src) && tags == AllTags(src)
    {
      id, updatedAt := 0, 0;
      igdbId := src.igdbId;
      var read := FieldsFrom(src);
      fields := read;
      genres, themes, gameModes := [], [], [];
      tags := [];
      new;
      for i := 0 to |src.genres|
        invariant igdbId == src.igdbId && fields == read
        invariant tags == Labelled(Genre, src.genres[..i])
      {
        assert src.genres[..i + 1][..i] == src.genres[..i];
        tags := tags + [Tag(TagKey(Genre, src.genres[i].igdbId), src.genres[i].name)];
      }
      assert src.genres[..|src.genres|] == src.genres;
      ghost var soFar := tags;
      for i := 0 to |src.themes|
        invariant igdbId == src.igdbId && fields == read
        invariant tags == soFar + Labelled(Theme, src.themes[..i])
      {
        assert src.themes[..i + 1][..i] == src.themes[..i];
        tags := tags + [Tag(TagKey(Theme, src.themes[i].igdbId), src.themes[i].name)];
      }
      assert src.themes[..|src.themes|] == src.themes;
      soFar := tags;
      for i := 0 to |src.gameModes|
        invariant igdbId == src.igdbId && fields == read
        invariant tags == soFar + Labelled(GameMode, src.gameModes[..i])
      {
        assert src.gameModes[..i + 1][..i] == src.gameModes[..i];
        tags := tags + [Tag(TagKey(GameMode, src.gameModes[i].igdbId), src.gameModes[i].name)];
      }
      assert src.gameModes[..|src.gameModes|] == src.gameModes;
    }

    static method FieldsFrom(src: ApiGame) returns (fields: Fields)
      ensures fields == FieldsOf(src)
    {
      var image, summary, releaseDate := "", "", ZERO_DATE;
      if src.image.Some? {
        image := src.image.value;
      }
      if src.summary.Some? {
        summary := src.summary.value;
      }
      if src.releaseDate.Some? {
        var parsed := Parse(src.releaseDate.value);
        if parsed.Some? {
          releaseDate := parsed.value;
        }
      }
      return Fields(src.title, image, src.kind, releaseDate, src.parent, summary);
    }

    method SplitTags()
      modifies this`genres, this`themes, this`gameModes
      ensures genres == OfFacet(tags, Genre)
      ensures themes == OfFacet(tags, Theme)
      ensures gameModes == OfFacet(tags, GameMode)
    {
      genres, themes, gameModes := [], [], [];
      for i := 0 to |tags|
        invariant genres == OfFacet(tags[..i], Genre)
        invariant themes == OfFacet(tags[..i], Theme)
        invariant gameModes == OfFacet(tags[..i], GameMode)
      {
        assert tags[..i + 1][..i] == tags[..i];
        match tags[i].key.facet {
          case Genre => genres := genres + [tags[i]];
          case Theme => themes := themes + [tags[i]];
          case GameMode => gameModes := gameModes + [tags[i]];
        }
      }
      assert tags[..|tags|] == tags;
    }
  }

  // --------------------------------------------------------------- the read-back

  ghost function FacetIds(tags: seq<Tag>, facet: Facet): set<int> {
    set t | t in OfFacet(tags, facet) :: t.key.igdbId
  }

  ghost function ApiIds(tags: seq<ApiTag>): set<int> {
    set t | t in tags :: t.igdbId
  }

  /** What Preload fills in: the linked tags of a stored game, in any order. */
  ghost predicate Loads(db: Db, igdbId: int, loaded: seq<Tag>) {
    && igdbId in db.games
    && (forall t | t in loaded :: t.key in TagsOf(db, igdbId) && t.name == db.tags[t.key].name)
    && (forall k | k in TagsOf(db, igdbId) :: exists t :: t in loaded && t.key == k)
  }

  lemma {:induction false} OfFacetMembers(tags: seq<Tag>, facet: Facet)
    ensures forall t :: t in OfFacet(tags, facet) <==> t in tags && t.key.facet == facet
  {
    if tags == [] {
    } else {
      OfFacetMembers(tags[..|tags| - 1], facet);
      assert forall t :: t in tags <==> t in tags[..|tags| - 1] || t == tags[|tags| - 1];
    }
  }

  lemma {:induction false} LabelledKeys(facet: Facet, tags: seq<ApiTag>)
    ensures forall k :: k in KeysOf(Labelled(facet, tags)) <==> k.facet == facet && k.igdbId in ApiIds(tags)
  {
    if tags == [] {
    } else {
      var n := |tags| - 1;
      LabelledKeys(facet, tags[..n]);
      assert ApiIds(tags) == ApiIds(tags[..n]) + {tags[n].igdbId} by {
        assert forall t :: t in tags <==> t in tags[..n] || t == tags[n];
      }
      var last := Tag(TagKey(facet, tags[n].igdbId), tags[n].name);
      assert KeysOf(Labelled(facet, tags)) == KeysOf(Labelled(facet, tags[..n])) + {last.key} by {
        assert forall t :: t in Labelled(facet, tags) <==> t in Labelled(facet, tags[..n]) || t == last;
      }
    }
  }

  function Given(src: ApiGame, facet: Facet): seq<ApiTag> {
    match facet
    case Genre => src.genres
    case Theme => src.themes
    case GameMode => src.gameModes
  }

  lemma AllKeys(src: ApiGame, k: TagKey)
    ensures k in KeysOf(AllTags(src)) <==> k.igdbId in ApiIds(Given(src, k.facet))
  {
    LabelledKeys(Genre, src.genres);
    LabelledKeys(Theme, src.themes);
    LabelledKeys(GameMode, src.gameModes);
    assert KeysOf(AllTags(src)) == KeysOf(Labelled(Genre, src.genres)) + KeysOf(Labelled(Theme, src.themes))
                                 + KeysOf(Labelled(GameMode, src.gameModes));
  }

  lemma FacetReadsBack(src: ApiGame, loaded: seq<Tag>, facet: Facet)
    requires forall k :: k in KeysOf(AllTags(src)) <==> exists t :: t in loaded && t.key == k
    ensures FacetIds(loaded, facet) == ApiIds(Given(src, facet))
  {
    OfFacetMembers(loaded, facet);
    forall id ensures id in FacetIds(loaded, facet) <==> id in ApiIds(Given(src, facet)) {
      var k := TagKey(facet, id);
      AllKeys(src, k);
      if id in FacetIds(loaded, facet) {
        var t :| t in OfFacet(loaded, facet) && t.key.igdbId == id;
        assert t in loaded && t.key == k;
      }
      if k in KeysOf(AllTags(src)) {
        var t :| t in loaded && t.key == k;
        assert t in OfFacet(loaded, facet);
      }
    }
  }

  /** Labelling keeps order and names, and adds the facet. */
  lemma {:induction false} LabelledInOrder(facet: Facet, tags: seq<ApiTag>)
    ensures |Labelled(facet, tags)| == |tags|
    ensures forall i :: 0 <= i < |tags| ==>
      Labelled(facet, tags)[i] == Tag(TagKey(facet, tags[i].igdbId), tags[i].name)
  {
    if tags == [] {
    } else {
      LabelledInOrder(facet, tags[..|tags| - 1]);
    }
  }

  /** An imported game has the title, kind and parent it was given, and the image and summary,
      or none. */
  lemma FieldsTold(src: ApiGame)
    ensures var fields := EntryFrom(src).fields;
      && EntryFrom(src).igdbId == src.igdbId
      && fields.title == src.title && fields.kind == src.kind && fields.parent == src.parent
      && fields.image == (if src.image.Some? then src.image.value else "")
      && fields.summary == (if src.summary.Some? then src.summary.value else "")
      && fields.releaseDate == DateOf(src.releaseDate) && EntryFrom(src).tags == AllTags(src)
  {
  }

  /** An imported game has the date it was given, if it was given one, and Go's zero time if
      not or if it was unreadable. */
  lemma DateTold(raw: Option<string>, d: Date)
    ensures Valid(d) && raw == Some(Format(d)) ==> DateOf(raw) == d
    ensures (forall e :: Valid(e) ==> raw != Some(Format(e))) ==> DateOf(raw) == Date(1, 1, 1)
  {
    if raw.Some? {
      ParsesExactlyFormats(raw.value, d);
      if Parse(raw.value).Some? {
        ParsesExactlyFormats(raw.value, Parse(raw.value).value);
      }
    }
  }

  /** The tags of an imported game: its genres, themes and modes, in order, each with its
      facet, id and name. */
  lemma TagsTold(src: ApiGame)
    ensures var tags, m, n := AllTags(src), |src.genres|, |src.genres| + |src.themes|;
      && |tags| == n + |src.gameModes|
      && (forall i :: 0 <= i < m ==> tags[i] == Tag(TagKey(Genre, src.genres[i].igdbId), src.genres[i].name))
      && (forall i :: m <= i < n ==>
            tags[i] == Tag(TagKey(Theme, src.themes[i - m].igdbId), src.themes[i - m].name))
      && (forall i :: n <= i < |tags| ==>
            tags[i] == Tag(TagKey(GameMode, src.gameModes[i - n].igdbId), src.gameModes[i - n].name))
  {
    LabelledInOrder(Genre, src.genres);
    LabelledInOrder(Theme, src.themes);
    LabelledInOrder(GameMode, src.gameModes);
  }

  /** Splitting keeps the order: a facet's list is that of the first part, then of the rest. */
  lemma {:induction false} OfFacetAppend(a: seq<Tag>, b: seq<Tag>, facet: Facet)
    ensures OfFacet(a + b, facet) == OfFacet(a, facet) + OfFacet(b, facet)
  {
    if b == [] {
      assert a + b == a;
    } else {
      var n := |b| - 1;
      assert (a + b)[..|a + b| - 1] == a + b[..n];
      OfFacetAppend(a, b[..n], facet);
    }
  }

  /** A game imported alone and read back through SplitTags has the genre, theme and mode
      ids it was built from. */
  lemma ReadsBack(db: Db, src: ApiGame, now: int, loaded: seq<Tag>)
    requires Sound(db)
    requires Loads(ImportAll(db, [EntryFrom(src)], now), src.igdbId, loaded)
    ensures FacetIds(loaded, Genre) == ApiIds(src.genres)
    ensures FacetIds(loaded, Theme) == ApiIds(src.themes)
    ensures FacetIds(loaded, GameMode) == ApiIds(src.gameModes)
  {
    var db' := ImportAll(db, [EntryFrom(src)], now);
    ImportAllDescribed(db, [EntryFrom(src)], now);
    assert TagsOf(db', src.igdbId) == KeysOf(AllTags(src));
    FacetReadsBack(src, loaded, Genre);
    FacetReadsBack(src, loaded, Theme);
    FacetReadsBack(src, loaded, GameMode);
  }

  // ------------------------------------------------------------- the transaction

  /** The objects among the first `k`. */
  ghost function First(games: seq<Game>, k: nat): set<Game>
    requires k <= |games|
  {
    set m | 0 <= m < k :: games[m]
  }

  /** The batch as its statements will see it. ImportGames takes the tags off each game it
      stores, so an object listed twice has none the second time. */
  ghost function BatchOf(games: seq<Game>): (batch: seq<Entry>)
    reads games
    ensures |batch| == |games|
    ensures forall i :: 0 <= i < |games| ==>
      batch[i] == Entry(games[i].igdbId, games[i].fields, if games[i] in First(games, i) then [] else games[i].tags)
  {
    if games == [] then []
    else
      var init, g := games[..|games| - 1], games[|games| - 1];
      assert forall i :: 0 <= i < |init| ==> First(init, i) == First(games, i);
      BatchOf(init) + [Entry(g.igdbId, g.fields, if g in First(games, |init|) then [] else g.tags)]
  }

  ghost function EntryOf(g: Game): Entry
    reads g
  {
    Entry(g.igdbId, g.fields, g.tags)
  }

  lemma FirstNext(games: seq<Game>, k: nat)
    requires k < |games|
    ensures First(games, k + 1) == First(games, k) + {games[k]}
  {
  }

  /** From position `i` on, the objects still hold what the batch has for them: nothing
      for one already stored or listed before. */
  ghost predicate TagsLeft(games: seq<Game>, i: nat, batch: seq<Entry>)
    requires i <= |games| == |batch|
    reads games
  {
    forall j :: i <= j < |games| ==>
      && batch[j].igdbId == games[j].igdbId && batch[j].fields == games[j].fields
      && (if games[j] in First(games, j) then batch[j].tags == [] else batch[j].tags == games[j].tags)
      && (games[j] in First(games, i) ==> games[j].tags == [])
  }

  function StatementsFor(e: Entry): nat {
    2 + 2 * |e.tags|
  }

  function Statements(batch: seq<Entry>): nat {
    if batch == [] then 0 else Statements(batch[..|batch| - 1]) + StatementsFor(batch[|batch| - 1])
  }

  lemma {:induction false} StatementsGrow(batch: seq<Entry>, k: nat)
    requires k <= |batch|
    ensures Statements(batch[..k]) <= Statements(batch)
  {
    if k == |batch| {
      assert batch[..k] == batch;
    } else {
      StatementsGrow(batch[..|batch| - 1], k);
      assert batch[..|batch| - 1][..k] == batch[..k];
    }
  }

  lemma BatchNext(db: Db, batch: seq<Entry>, i: nat, now: int)
    requires i < |batch|
    ensures batch[..i + 1] == batch[..i] + [batch[i]]
    ensures ImportAll(db, batch[..i + 1], now) == ImportOne(ImportAll(db, batch[..i], now), batch[i], now)
    ensures Statements(batch[..i + 1]) == Statements(batch[..i]) + StatementsFor(batch[i]) <= Statements(batch)
  {
    assert batch[..i + 1][..i] == batch[..i];
    StatementsGrow(batch, i + 1);
  }

  /** Whether statement number `failAt` is among the next `n` after `done`. */
  predicate FailsWithin(failAt: Option<nat>, done: nat, n: nat) {
    failAt.Some? && done <= failAt.value < done + n
  }

  function LocalId(db: Db, igdbId: int): int {
    if igdbId in db.games then db.games[igdbId].id else 0
  }

  /** Ids start at 1, so Go's zero value stands for an absent game and nothing else. */
  lemma ZeroMeansAbsent(db: Db, igdbId: int)
    requires Sound(db)
    ensures LocalId(db, igdbId) == 0 <==> igdbId !in db.games
  {
  }

  ghost predicate AnswersFor(imported: map<int, int>, db: Db, batch: seq<Entry>) {
    && imported.Keys == (set e | e in batch :: e.igdbId)
    && forall a | a in imported :: a in db.games && imported[a] == db.games[a].id
  }

  lemma AnswersGrow(imported: map<int, int>, db: Db, batch: seq<Entry>, g: Entry, now: int)
    requires AnswersFor(imported, db, batch)
    ensures g.igdbId in ImportOne(db, g, now).games
    ensures AnswersFor(imported[g.igdbId := ImportOne(db, g, now).games[g.igdbId].id],
                       ImportOne(db, g, now), batch + [g])
  {
    UpsertTagsDescribed(UpsertGame(db, g.igdbId, g.fields, now), g.tags, now);
    assert forall e :: e in batch + [g] <==> e in batch || e == g;
    assert (set e | e in batch + [g] :: e.igdbId) == (set e | e in batch :: e.igdbId) + {g.igdbId};
  }

  /** Where the transaction stands after the first `i` games. */
  ghost predicate Progress(db0: Db, batch: seq<Entry>, i: nat, tx: Db, result: map<int, int>, done: nat,
                           failAt: Option<nat>, now: int)
    requires i <= |batch|
  {
    && tx == ImportAll(db0, batch[..i], now)
    && AnswersFor(result, tx, batch[..i])
    && done == Statements(batch[..i]) && !FailsWithin(failAt, 0, done)
  }

  lemma ProgressNext(db0: Db, batch: seq<Entry>, i: nat, tx: Db, result: map<int, int>, done: nat,
                     failAt: Option<nat>, now: int)
    requires i < |batch| && Progress(db0, batch, i, tx, result, done, failAt, now)
    ensures if FailsWithin(failAt, done, StatementsFor(batch[i])) then FailsWithin(failAt, 0, Statements(batch))
      else
        var g, tx' := batch[i], ImportOne(tx, batch[i], now);
        && g.igdbId in tx'.games
        && Progress(db0, batch, i + 1, tx', result[g.igdbId := tx'.games[g.igdbId].id], done + StatementsFor(g),
                    failAt, now)
  {
    BatchNext(db0, batch, i, now);
    AnswersGrow(result, tx, batch[..i], batch[i], now);
  }

  lemma ProgressEnds(db0: Db, batch: seq<Entry>, tx: Db, result: map<int, int>, done: nat,
                     failAt: Option<nat>, now: int)
    requires Progress(db0, batch, |batch|, tx, result, done, failAt, now)
    ensures tx == ImportAll(db0, batch, now) && AnswersFor(result, tx, batch)
    ensures !FailsWithin(failAt, 0, Statements(batch))
  {
    assert batch[..|batch|] == batch;
  }

  lemma AllTagsLeft(games: seq<Game>)
    ensures TagsLeft(games, 0, BatchOf(games))
  {
  }

  class CatalogRepo {
    var db: Db

    constructor (db: Db)
      ensures this.db == db
    {
      this.db := db;
    }

    method GamesByIGDBIDs(igdbIDs: seq<int>, fails: bool) returns (known: Option<map<int, int>>)
      ensures known == if igdbIDs != [] && fails then None
                       else Some(map a | a in igdbIDs && a in db.games :: db.games[a].id)
    {
      if |igdbIDs| == 0 {
        return Some(map[]);
      }
      if fails {
        return None;
      }
      return Some(map a | a in igdbIDs && a in db.games :: db.games[a].id);
    }

    /** The transaction runs on a copy of the tables that replaces them at the end;
        statement number `failAt`, if there is one, reports an error. */
    method ImportGames(games: seq<Game>, now: int, failAt: Option<nat>) returns (imported: Option<map<int, int>>)
      modifies this, games`id, games`tags, games`updatedAt
      ensures imported.None? <==> FailsWithin(failAt, 0, Statements(old(BatchOf(games))))
      ensures imported.None? ==> db == old(db)
      ensures imported.Some? ==>
        && db == ImportAll(old(db), old(BatchOf(games)), now)
        && AnswersFor(imported.value, db, old(BatchOf(games)))
    {
      AllTagsLeft(games);
      var after := ImportBatch(games, db, BatchOf(games), now, failAt);
      if after.None? {
        return None;
      }
      db := after.value.0;
      return Some(after.value.1);
    }

    /** The transaction's body. */
    static method ImportBatch(games: seq<Game>, db0: Db, ghost batch: seq<Entry>, now: int, failAt: Option<nat>)
      returns (after: Option<(Db, map<int, int>)>)
      requires |batch| == |games| && TagsLeft(games, 0, batch)
      modifies games`id, games`tags, games`updatedAt
      ensures after.None? <==> FailsWithin(failAt, 0, Statements(batch))
      ensures after.Some? ==>
        after.value.0 == ImportAll(db0, batch, now) && AnswersFor(after.value.1, after.value.0, batch)
    {
      var result: map<int, int> := map[];
      var tx, done: nat := db0, 0;
      for i := 0 to |games|
        invariant Progress(db0, batch, i, tx, result, done, failAt, now)
        invariant TagsLeft(games, i, batch)
      {
        var next := ImportNext(games[i], games, i, db0, batch, tx, result, done, failAt, now);
        if next.None? {
          return None;
        }
        tx, result, done := next.value.0, next.value.1, next.value.2;
      }
      ProgressEnds(db0, batch, tx, result, done, failAt, now);
      return Some((tx, result));
    }

    /** One turn of the loop over the batch. */
    static method ImportNext(g: Game, ghost games: seq<Game>, ghost i: nat, ghost db0: Db,
                             ghost batch: seq<Entry>, tx: Db, result: map<int, int>, done: nat,
                             failAt: Option<nat>, now: int)
      returns (next: Option<(Db, map<int, int>, nat)>)
      requires i < |games| == |batch| && g == games[i] && TagsLeft(games, i, batch)
      requires Progress(db0, batch, i, tx, result, done, failAt, now)
      modifies g`id, g`tags, g`updatedAt
      ensures TagsLeft(games, i + 1, batch)
      ensures next.None? ==> FailsWithin(failAt, 0, Statements(batch))
      ensures next.Some? ==>
        Progress(db0, batch, i + 1, next.value.0, next.value.1, next.value.2, failAt, now)
    {
      ProgressNext(db0, batch, i, tx, result, done, failAt, now);
      assert batch[i] == EntryOf(g);
      var statements := 2 + 2 * |g.tags|;
      var after := ImportGame(g, tx, now, failAt, done);
      FirstNext(games, i);
      assert forall j :: i < j < |games| && games[j] == g ==> games[j] in First(games, j);
      if after.None? {
        return None;
      }
      return Some((after.value, result[g.igdbId := g.id], done + statements));
    }

    /** The statements for one game, which loses its tags and learns its id. */
    static method ImportGame(g: Game, db0: Db, now: int, failAt: Option<nat>, start: nat) returns (after: Option<Db>)
      modifies g`id, g`tags, g`updatedAt
      ensures g.tags == []
      ensures after == if FailsWithin(failAt, start, StatementsFor(old(EntryOf(g)))) then None
                       else Some(ImportOne(db0, old(EntryOf(g)), now))
      ensures after.Some? ==> g.igdbId in after.value.games && g.id == after.value.games[g.igdbId].id
    {
      var tags := g.tags;
      g.tags := [];
      g.updatedAt := now;
      if failAt == Some(start) {
        return None;
      }
      var tx := UpsertGame(db0, g.igdbId, g.fields, now);
      ghost var db1 := tx;
      g.id := tx.games[g.igdbId].id;
      var upserted := ImportTags(tx, tags, now, failAt, start + 1);
      UpsertTagsDescribed(db1, tags, now);
      if upserted.None? {
        return None;
      }
      tx := upserted.value.0;
      if failAt == Some(start + 1 + |tags|) {
        return None;
      }
      tx := tx.(links := Unlinked(tx.links, g.id));
      after := LinkTags(tx, g.id, tags, upserted.value.1, failAt, start + 2 + |tags|);
    }

    static method ImportTags(db1: Db, tags: seq<Tag>, now: int, failAt: Option<nat>, start: nat)
      returns (after: Option<(Db, seq<int>)>)
      ensures after.None? <==> FailsWithin(failAt, start, |tags|)
      ensures after.Some? ==>
        && after.value.0 == UpsertTags(db1, tags, now)
        && |after.value.1| == |tags|
        && forall m :: 0 <= m < |tags| ==>
             tags[m].key in after.value.0.tags && after.value.1[m] == after.value.0.tags[tags[m].key].id
    {
      var tx := db1;
      var tagIDs := [];
      for j := 0 to |tags|
        invariant tx == UpsertTags(db1, tags[..j], now)
        invariant |tagIDs| == j && !FailsWithin(failAt, start, j)
        invariant forall m :: 0 <= m < j ==> tags[m].key in tx.tags && tagIDs[m] == tx.tags[tags[m].key].id
      {
        if failAt == Some(start + j) {
          return None;
        }
        assert tags[..j + 1][..j] == tags[..j];
        tx := UpsertTag(tx, tags[j], now);
        tagIDs := tagIDs + [tx.tags[tags[j].key].id];
      }
      assert tags[..|tags|] == tags;
      return Some((tx, tagIDs));
    }

    static method LinkTags(db2: Db, id: int, ghost tags: seq<Tag>, tagIDs: seq<int>, failAt: Option<nat>, start: nat)
      returns (after: Option<Db>)
      requires |tagIDs| == |tags|
      requires forall m :: 0 <= m < |tags| ==> tags[m].key in db2.tags && tagIDs[m] == db2.tags[tags[m].key].id
      ensures after == if FailsWithin(failAt, start, |tags|) then None
                       else Some(db2.(links := db2.links + LinkAll(id, tags, db2.tags)))
    {
      var tx := db2;
      for j := 0 to |tagIDs|
        invariant tx == db2.(links := db2.links + set m | 0 <= m < j :: (id, tagIDs[m]))
        invariant !FailsWithin(failAt, start, j)
      {
        if failAt == Some(start + j) {
          return None;
        }
        tx := tx.(links := tx.links + {(id, tagIDs[j])});
      }
      assert (set m | 0 <= m < |tagIDs| :: (id, tagIDs[m])) == LinkAll(id, tags, db2.tags);
      return Some(tx);
    }
  }
}
