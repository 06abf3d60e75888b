/** A user's list: one row per (user, game), the validation rules, the repository, and what
    each request does to the rows (cmd/api/user_games_handlers.go,
    internal/repository/dbrepo/user_games.go, internal/validate/listentry.go). Text arrives
    here already trimmed and, for categories, lower-cased. A rating is a real number; the
    half-steps it may take are exact in binary floating point. */
module UserGames {
  import opened Wrappers

  const FINISHED: string := "finished"
  const CATEGORIES: set<string> := {FINISHED, "currently_playing", "want_to_play"}
  const REVIEW_MAX_RUNES: nat := 8000

  datatype Row = Row(category: string, rating: Option<real>, review: Option<string>)

  type Rows = map<(int, int), Row>

  // ------------------------------------------------------------------- validation

  function ResultingCategory(current: string, patch: Option<string>): string {
    if patch.Some? then patch.value else current
  }

  predicate RatingAllowed(category: string) {
    category == FINISHED
  }

  predicate RatingValid(raw: Option<real>) {
    raw.None? || (
      && !(raw.value < 0.5 || raw.value > 10.0)
      && raw.value * 2.0 == (raw.value * 2.0).Floor as real)
  }

  predicate ReviewValid(trimmed: Option<string>) {
    trimmed.None? || |trimmed.value| <= REVIEW_MAX_RUNES
  }

  function StoredReview(trimmed: Option<string>): Option<string> {
    if trimmed == Some("") then None else trimmed
  }

  function HalfStep(k: int): real {
    k as real / 2.0
  }

  /** Rating validation accepts exactly the half-steps from 0.5 to 10. */
  lemma RatingsAreHalfSteps(r: real)
    ensures RatingValid(Some(r)) <==> exists k :: 1 <= k <= 20 && r == HalfStep(k)
  {
    if RatingValid(Some(r)) {
      var k := (r * 2.0).Floor;
      assert 1 <= k <= 20 && r == HalfStep(k);
    }
    if k :| 1 <= k <= 20 && r == HalfStep(k) {
      assert r * 2.0 == k as real;
    }
  }

  // ---------------------------------------------------------------------- requests

  /** `game` of a Post is what importIGDBGames answered, None if it failed. `readFails`,
      `writeFails` and `rereadFails` are the category lookup, the statement that writes, and
      the query that reads the entry back for the reply, reporting an error. */
  datatype Request =
    | Post(user: int, game: Option<int>, category: string, rating: Option<real>, review: Option<string>,
           writeFails: bool, rereadFails: bool)
    | Patch(user: int, gameId: int, patch: Option<string>, rating: Option<real>, review: Option<string>,
            readFails: bool, writeFails: bool, rereadFails: bool)
    | Delete(user: int, gameId: int, writeFails: bool)

  /** 2xx, 400, 404, 409, 500, or whatever the import had answered. A 500 may come after the
      write was made, when only the entry could not be read back. */
  datatype Status = Done | BadRequest | NotFound | Conflict | ServerError(applied: bool) | ImportFailed

  function Read(rereadFails: bool): Status {
    if rereadFails then ServerError(true) else Done
  }

  predicate Applied(status: Status) {
    status == Done || status == ServerError(true)
  }

  function PostStep(rows: Rows, r: Request): (Rows, Status)
    requires r.Post?
  {
    if r.category !in CATEGORIES then (rows, BadRequest)
    else if (r.rating.Some? || r.review.Some?) && !RatingAllowed(r.category) then (rows, BadRequest)
    else if !RatingValid(r.rating) || !ReviewValid(r.review) then (rows, BadRequest)
    else if r.game.None? then (rows, ImportFailed)
    else if r.writeFails then (rows, ServerError(false))
    else if (r.user, r.game.value) in rows then (rows, Conflict)
    else (rows[(r.user, r.game.value) := Row(r.category, r.rating, StoredReview(r.review))], Read(r.rereadFails))
  }

  /** A rating of 0 clears; so does a blank review. */
  function ClearedOr(rating: Option<real>): Option<real> {
    if rating == Some(0.0) then None else rating
  }

  function PatchStep(rows: Rows, r: Request): (Rows, Status)
    requires r.Patch?
  {
    var key := (r.user, r.gameId);
    var rates := r.rating.Some? || r.review.Some?;
    if r.patch.None? && !rates then (rows, BadRequest)
    else if r.patch.Some? && r.patch.value !in CATEGORIES then (rows, BadRequest)
    else if rates && r.readFails then (rows, ServerError(false))
    else if rates && key !in rows then (rows, NotFound)
    else if rates && !RatingAllowed(ResultingCategory(rows[key].category, r.patch)) then (rows, BadRequest)
    else if !RatingValid(ClearedOr(r.rating)) || !ReviewValid(r.review) then (rows, BadRequest)
    else if r.writeFails then (rows, ServerError(false))
    else if key !in rows then (rows, NotFound)
    else
      (rows[key := Row(ResultingCategory(rows[key].category, r.patch),
                       if r.rating.Some? then ClearedOr(r.rating) else rows[key].rating,
                       if r.review.Some? then StoredReview(r.review) else rows[key].review)], Read(r.rereadFails))
  }

  function DeleteStep(rows: Rows, r: Request): (Rows, Status)
    requires r.Delete?
  {
    if r.writeFails then (rows, ServerError(false))
    else if (r.user, r.gameId) !in rows then (rows, NotFound)
    else (rows - {(r.user, r.gameId)}, Done)
  }

  function Handle(rows: Rows, r: Request): (Rows, Status) {
    match r
    case Post(_, _, _, _, _, _, _) => PostStep(rows, r)
    case Patch(_, _, _, _, _, _, _, _) => PatchStep(rows, r)
    case Delete(_, _, _) => DeleteStep(rows, r)
  }

  // ------------------------------------------------------------------ the handlers

  datatype Update = Update(category: Option<string>, setRating: bool, rating: Option<real>,
                           setReview: bool, review: Option<string>)

  datatype Value = Text(text: string) | Score(score: Option<real>) | Prose(prose: Option<string>)

  /** An UPDATE statement writing the named columns. */
  function Written(row: Row, columns: map<string, Value>): Row {
    Row(if "category" in columns && columns["category"].Text? then columns["category"].text else row.category,
        if "rating" in columns && columns["rating"].Score? then columns["rating"].score else row.rating,
        if "review" in columns && columns["review"].Prose? then columns["review"].prose else row.review)
  }

  class UserGameRepo {
    var rows: Rows

    constructor ()
      ensures rows == map[]
    {
      rows := map[];
    }

    /** The unique constraint, not a look first, decides about duplicates. */
    method AddUserGame(user: int, game: int, category: string, rating: Option<real>, review: Option<string>,
                       fails: bool, rereadFails: bool)
      returns (status: Status)
      modifies this
      ensures status == if fails then ServerError(false)
                        else if (user, game) in old(rows) then Conflict else Read(rereadFails)
      ensures rows == if Applied(status) then old(rows)[(user, game) := Row(category, rating, review)] else old(rows)
    {
      if fails {
        return ServerError(false);
      }
      if (user, game) in rows {
        return Conflict;
      }
      rows := rows[(user, game) := Row(category, rating, review)];
      return Read(rereadFails);
    }

    method GetUserGameCategory(user: int, game: int) returns (category: Option<string>)
      ensures category == if (user, game) in rows then Some(rows[(user, game)].category) else None
    {
      if (user, game) in rows {
        return Some(rows[(user, game)].category);
      }
      return None;
    }

    method UpdateUserGame(user: int, game: int, upd: Update, fails: bool, rereadFails: bool)
      returns (status: Status)
      modifies this
      ensures status == if fails then ServerError(false)
                        else if (user, game) !in old(rows) then NotFound else Read(rereadFails)
      ensures !Applied(status) ==> rows == old(rows)
      ensures Applied(status) ==>
        var row := old(rows)[(user, game)];
        rows == old(rows)[(user, game) := Row(if upd.category.Some? then upd.category.value else row.category,
                                              if upd.setRating then upd.rating else row.rating,
                                              if upd.setReview then upd.review else row.review)]
    {
      var updates: map<string, Value> := map[];
      if upd.category.Some? {
        updates := updates["category" := Text(upd.category.value)];
      }
      if upd.setRating {
        updates := updates["rating" := Score(upd.rating)];
      }
      if upd.setReview {
        updates := updates["review" := Prose(upd.review)];
      }
      if fails {
        return ServerError(false);
      }
      if (user, game) !in rows {
        return NotFound;
      }
      rows := rows[(user, game) := Written(rows[(user, game)], updates)];
      return Read(rereadFails);
    }

    method DeleteUserGame(user: int, game: int, fails: bool) returns (status: Status)
      modifies this
      ensures status == if fails then ServerError(false) else if (user, game) !in old(rows) then NotFound else Done
      ensures rows == if status == Done then old(rows) - {(user, game)} else old(rows)
    {
      if fails {
        return ServerError(false);
      }
      if (user, game) !in rows {
        return NotFound;
      }
      rows := rows - {(user, game)};
      return Done;
    }
  }

  // ------------------------------------------------------------- the list's history

  function RowsAfter(rs: seq<Request>): Rows {
    if rs == [] then map[] else Handle(RowsAfter(rs[..|rs| - 1]), rs[|rs| - 1]).0
  }

  /** Request k of the history took effect: answered 2xx, or 500 on the re-read alone. */
  predicate Succeeded(rs: seq<Request>, k: nat)
    requires k < |rs|
  {
    Applied(Handle(RowsAfter(rs[..k]), rs[k]).1)
  }

  datatype Column = Category | Rating | Review

  /** The request names a value for the column. */
  predicate Carries(r: Request, col: Column) {
    !r.Delete? &&
    match col
    case Category => r.Post? || r.patch.Some?
    case Rating => r.rating.Some?
    case Review => r.review.Some?
  }

  /** ... and one that only a finished game may hold. */
  predicate Rates(r: Request, col: Column) {
    !col.Category? && Carries(r, col)
  }

  predicate Concerns(r: Request, key: (int, int)) {
    r.user == key.0 && if r.Post? then r.game == Some(key.1) else r.gameId == key.1
  }

  /** Request k succeeded on the entry and set the column: it inserted the entry, or was a
      patch carrying a value for that column. */
  predicate Writes(rs: seq<Request>, k: nat, key: (int, int), col: Column)
    requires k < |rs|
  {
    Concerns(rs[k], key) && Succeeded(rs, k) && (rs[k].Post? || (rs[k].Patch? && Carries(rs[k], col)))
  }

  predicate Removes(rs: seq<Request>, k: nat, key: (int, int))
    requires k < |rs|
  {
    Concerns(rs[k], key) && Succeeded(rs, k) && rs[k].Delete?
  }

  /** Request k is the last write of the column since the entry was inserted. */
  ghost predicate LastWrite(rs: seq<Request>, k: nat, key: (int, int), col: Column) {
    && k < |rs| && Writes(rs, k, key, col)
    && forall m: nat :: k < m < |rs| ==> !Writes(rs, m, key, col) && !Removes(rs, m, key)
  }

  /** The entry holds in this column what the request asked for. */
  predicate Holds(row: Row, r: Request, col: Column)
    requires !r.Delete?
  {
    match col
    case Category => if r.Post? then row.category == r.category else r.patch == Some(row.category)
    case Rating => row.rating == ClearedOr(r.rating)
    case Review => row.review == StoredReview(r.review)
  }

  ghost predicate Explained(rs: seq<Request>, key: (int, int), col: Column)
    requires key in RowsAfter(rs)
  {
    exists k: nat ::
      && LastWrite(rs, k, key, col)
      && Holds(RowsAfter(rs)[key], rs[k], col)
      && (Rates(rs[k], col) ==> key in RowsAfter(rs[..k + 1]) && RowsAfter(rs[..k + 1])[key].category == FINISHED)
  }

  lemma LastWriteStays(rs: seq<Request>, r: Request, k: nat, key: (int, int), col: Column)
    requires LastWrite(rs, k, key, col)
    requires !Writes(rs + [r], |rs|, key, col) && !Removes(rs + [r], |rs|, key)
    ensures LastWrite(rs + [r], k, key, col) && (rs + [r])[..k + 1] == rs[..k + 1]
  {
    var longer := rs + [r];
    assert longer[..k + 1] == rs[..k + 1];
    forall m: nat | m < |rs|
      ensures Writes(longer, m, key, col) == Writes(rs, m, key, col) && Removes(longer, m, key) == Removes(rs, m, key)
    {
      assert longer[..m] == rs[..m];
    }
  }

  /** What a successful write of the column leaves behind. */
  lemma WriteHolds(rows: Rows, r: Request, key: (int, int), col: Column)
    requires Concerns(r, key) && Applied(Handle(rows, r).1) && (r.Post? || (r.Patch? && Carries(r, col)))
    ensures var rows' := Handle(rows, r).0;
      key in rows' && Holds(rows'[key], r, col) && (Rates(r, col) ==> rows'[key].category == FINISHED)
  {
  }

  /** Anything but a write or a removal leaves the column alone, and conjures no entry. */
  lemma OthersKeep(rows: Rows, r: Request, key: (int, int), col: Column)
    requires key in Handle(rows, r).0
    requires Concerns(r, key) && Applied(Handle(rows, r).1) ==> r.Patch? && !Carries(r, col)
    ensures key in rows
    ensures match col
      case Category => Handle(rows, r).0[key].category == rows[key].category
      case Rating => Handle(rows, r).0[key].rating == rows[key].rating
      case Review => Handle(rows, r).0[key].review == rows[key].review
  {
  }

  lemma ExplainedNext(rs: seq<Request>, r: Request, key: (int, int), col: Column)
    requires key in RowsAfter(rs) ==> Explained(rs, key, col)
    requires key in RowsAfter(rs + [r])
    ensures Explained(rs + [r], key, col)
  {
    var longer, n := rs + [r], |rs|;
    assert longer[..n] == rs && longer[..n + 1] == longer;
    assert RowsAfter(longer) == Handle(RowsAfter(rs), r).0;
    if Writes(longer, n, key, col) {
      WriteHolds(RowsAfter(rs), r, key, col);
      assert LastWrite(longer, n, key, col);
    } else {
      if Removes(longer, n, key) {
        assert false;
      }
      OthersKeep(RowsAfter(rs), r, key, col);
      var k: nat :| LastWrite(rs, k, key, col) && Holds(RowsAfter(rs)[key], rs[k], col)
        && (Rates(rs[k], col) ==> key in RowsAfter(rs[..k + 1]) && RowsAfter(rs[..k + 1])[key].category == FINISHED);
      LastWriteStays(rs, r, k, key, col);
      assert LastWrite(longer, k, key, col) && longer[k] == rs[k];
    }
  }

  /** In every reachable list each entry's category, and likewise its rating and its review, is
      what the last write to it that took effect since the insertion asked for; and if that
      request carried a rating or a review, it left the entry finished. Moving a finished game
      elsewhere keeps both. */
  lemma {:induction false} EntriesAreExplained(rs: seq<Request>, key: (int, int), col: Column)
    requires key in RowsAfter(rs)
    ensures Explained(rs, key, col)
  {
    var n := |rs| - 1;
    if key in RowsAfter(rs[..n]) {
      EntriesAreExplained(rs[..n], key, col);
    }
    assert rs[..n] + [rs[n]] == rs;
    ExplainedNext(rs[..n], rs[n], key, col);
  }

  /** The table's CHECK constraints: a known category, a half-step rating. */
  lemma {:induction false} ChecksHold(rs: seq<Request>, key: (int, int))
    requires key in RowsAfter(rs)
    ensures RowsAfter(rs)[key].category in CATEGORIES
    ensures RowsAfter(rs)[key].review != Some("")
    ensures var rating := RowsAfter(rs)[key].rating;
      rating.Some? ==> exists k :: 1 <= k <= 20 && rating.value == HalfStep(k)
  {
    var n := |rs| - 1;
    if key in RowsAfter(rs[..n]) {
      ChecksHold(rs[..n], key);
    }
    if RowsAfter(rs)[key].rating.Some? && RatingValid(RowsAfter(rs)[key].rating) {
      RatingsAreHalfSteps(RowsAfter(rs)[key].rating.value);
    }
  }

  /** A request touches no row but the one of its own user and game; one that took no effect
      touches none, and one that only moves a game keeps its rating and review. */
  lemma StepsStayHome(rows: Rows, r: Request, key: (int, int))
    ensures !Concerns(r, key) || !Applied(Handle(rows, r).1) ==>
      && (key in Handle(rows, r).0 <==> key in rows)
      && (key in rows ==> Handle(rows, r).0[key] == rows[key])
    ensures r.Patch? && r.rating.None? && r.review.None? && key in rows ==>
      && key in Handle(rows, r).0
      && Handle(rows, r).0[key] == rows[key].(category := Handle(rows, r).0[key].category)
  {
  }
}
