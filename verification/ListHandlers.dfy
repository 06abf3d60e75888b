/** The three handlers that change a list (cmd/api/user_games_handlers.go), over the list and
    the catalog. */
module ListHandlers {
  import opened Wrappers
  import opened CatalogImport
  import opened ImportHandler
  import opened ListAnswers
  import opened UserGames

  /** What an import meets: upstream's answer, the time, and which of its calls fail. */
  datatype Imports = Imports(upstream: Upstream, now: int, readFails: bool, failAt: Option<nat>)

  class ListHandler {
    const repo: UserGameRepo
    const importer: Importer

    constructor (repo: UserGameRepo, importer: Importer)
      ensures this.repo == repo && this.importer == importer
    {
      this.repo, this.importer := repo, importer;
    }

    /** The game is named by its IGDB id and imported, if need be, once everything else about
        the request is in order; `game` is the local id the import answers. An import that
        succeeds stands even if the list then refuses the entry. */
    method PostMyGame(user: int, igdbId: int, category: string, rating: Option<real>, review: Option<string>,
                      imports: Imports, writeFails: bool, rereadFails: bool)
      returns (status: Status, ghost game: Option<int>)
      modifies repo, importer.repo
      ensures (repo.rows, status)
        == Handle(old(repo.rows), Post(user, game, category, rating, review, writeFails, rereadFails))
      ensures status == BadRequest || status == ImportFailed ==> importer.repo.db == old(importer.repo.db)
      ensures game.Some? <==>
        && Postable(category, rating, review) && importer.configured
        && Succeeds(old(importer.repo.db), [igdbId], imports.upstream, imports.readFails, imports.failAt)
      ensures game.None? ==> importer.repo.db == old(importer.repo.db)
      ensures game.Some? ==>
        && importer.repo.db == Outcome(old(importer.repo.db), [igdbId], imports.upstream, imports.now)
        && game.value == LocalId(importer.repo.db, igdbId)
      ensures game.Some? ==> imports.upstream.Fetched? ==>
        Faithful(imports.upstream.games, Missing(old(importer.repo.db), [igdbId])) ==>
          igdbId in importer.repo.db.games
    {
      game := None;
      RatingsJudged(rating);
      if category !in CATEGORIES {
        return BadRequest, game;
      }
      if rating.Some? || review.Some? {
        if !RatingAllowed(category) {
          return BadRequest, game;
        }
      }
      if !RatingValid(rating) {
        return BadRequest, game;
      }
      if !ReviewValid(review) {
        return BadRequest, game;
      }
      var reply := importer.ImportIGDBGames([igdbId], imports.upstream, imports.now, imports.readFails, imports.failAt);
      if !reply.Local? {
        return ImportFailed, game;
      }
      game := Some(reply.ids[0]);
      assert [igdbId][0] == igdbId;
      status := repo.AddUserGame(user, reply.ids[0], category, rating, StoredReview(review), writeFails, rereadFails);
    }

    method PatchMyGame(r: Request) returns (status: Status)
      requires r.Patch?
      modifies repo
      ensures (repo.rows, status) == Handle(old(repo.rows), r)
    {
      if r.patch.None? && r.rating.None? && r.review.None? {
        return BadRequest;
      }
      var upd := Update(None, false, None, false, None);
      if r.patch.Some? {
        if r.patch.value !in CATEGORIES {
          return BadRequest;
        }
        upd := upd.(category := r.patch);
      }
      if r.rating.Some? || r.review.Some? {
        if r.readFails {
          return ServerError(false);
        }
        var current := repo.GetUserGameCategory(r.user, r.gameId);
        if current.None? {
          return NotFound;
        }
        if !RatingAllowed(ResultingCategory(current.value, upd.category)) {
          return BadRequest;
        }
      }
      if r.rating.Some? {
        upd := upd.(setRating := true);
        if r.rating.value != 0.0 {
          if !RatingValid(r.rating) {
            return BadRequest;
          }
          upd := upd.(rating := r.rating);
        }
      }
      if r.review.Some? {
        if !ReviewValid(r.review) {
          return BadRequest;
        }
        upd := upd.(setReview := true, review := StoredReview(r.review));
      }
      status := repo.UpdateUserGame(r.user, r.gameId, upd, r.writeFails, r.rereadFails);
    }

    method DeleteMyGame(r: Request) returns (status: Status)
      requires r.Delete?
      modifies repo
      ensures (repo.rows, status) == Handle(old(repo.rows), r)
    {
      status := repo.DeleteUserGame(r.user, r.gameId, r.writeFails);
    }
  }
}
