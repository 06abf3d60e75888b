/** What each request to a list is answered, and what it leaves, in the terms of the request:
    the three categories, half-steps from 0.5 to 10, reviews of at most 8000 runes. */
module ListAnswers {
  import opened Wrappers
  import opened UserGames

  predicate KnownCategory(category: string) {
    category == "finished" || category == "currently_playing" || category == "want_to_play"
  }

  function Halves(k: int): real {
    k as real / 2.0
  }

  ghost predicate HalfStepped(rating: Option<real>) {
    rating.Some? ==> exists k :: 1 <= k <= 20 && rating.value == Halves(k)
  }

  predicate ShortEnough(review: Option<string>) {
    review.Some? ==> |review.value| <= 8000
  }

  lemma RatingsJudged(rating: Option<real>)
    ensures RatingValid(rating) <==> HalfStepped(rating)
  {
    if rating.Some? {
      RatingsAreHalfSteps(rating.value);
      assert forall k :: Halves(k) == HalfStep(k);
    }
  }

  /** A known category; a rating or review with a finished game only, and within bounds. */
  ghost predicate Postable(category: string, rating: Option<real>, review: Option<string>) {
    && KnownCategory(category)
    && (rating.Some? || review.Some? ==> category == "finished")
    && HalfStepped(rating) && ShortEnough(review)
  }

  function Blanked(review: Option<string>): Option<string> {
    if review.Some? && |review.value| == 0 then None else review
  }

  lemma PostAnswered(rows: Rows, r: Request)
    requires r.Post?
    ensures var (rows', status) := Handle(rows, r);
      var asked := Postable(r.category, r.rating, r.review);
      && (status == BadRequest <==> !asked)
      && (status == ImportFailed <==> asked && r.game.None?)
      && (asked && r.game.Some? ==>
            var key := (r.user, r.game.value);
            if r.writeFails then status == ServerError(false) && rows' == rows
            else if key in rows then status == Conflict && rows' == rows
            else
              && status == (if r.rereadFails then ServerError(true) else Done)
              && rows' == rows[key := Row(r.category, r.rating, Blanked(r.review))])
      && (!asked || r.game.None? ==> rows' == rows)
  {
    RatingsJudged(r.rating);
  }

  predicate RatesOrReviews(r: Request)
    requires r.Patch?
  {
    r.rating.Some? || r.review.Some?
  }

  /** What the request itself shows to be wrong with it: nothing asked, or an unknown category. */
  predicate Malformed(r: Request)
    requires r.Patch?
  {
    (r.patch.None? && !RatesOrReviews(r)) || (r.patch.Some? && !KnownCategory(r.patch.value))
  }

  /** A patch without a rating and a review passes; one with either does if the entry ends up
      finished, a rating is 0 or a half-step, and a review is short enough. */
  ghost predicate Allowed(row: Row, r: Request)
    requires r.Patch?
  {
    && (RatesOrReviews(r) ==> (if r.patch.Some? then r.patch.value else row.category) == "finished")
    && (r.rating == Some(0.0) || HalfStepped(r.rating))
    && ShortEnough(r.review)
  }

  /** The columns a patch names take what it asks for, 0 and blank clearing; the others stay. */
  ghost predicate Patched(row: Row, r: Request, row': Row)
    requires r.Patch?
  {
    && row'.category == (if r.patch.Some? then r.patch.value else row.category)
    && row'.rating == (if r.rating.None? then row.rating else if r.rating.value == 0.0 then None else r.rating)
    && row'.review == (if r.review.None? then row.review else Blanked(r.review))
  }

  lemma PatchAnswered(rows: Rows, r: Request)
    requires r.Patch?
    ensures var ((rows', status), key) := (Handle(rows, r), (r.user, r.gameId));
      && (status == BadRequest <==>
            Malformed(r) || (RatesOrReviews(r) && !r.readFails && key in rows && !Allowed(rows[key], r)))
      && (status == ServerError(false) <==>
            !Malformed(r) && (if RatesOrReviews(r) && r.readFails then true
                              else r.writeFails && (RatesOrReviews(r) ==> key in rows && Allowed(rows[key], r))))
      && (Applied(status) <==>
            !Malformed(r) && key in rows && !r.writeFails
            && (RatesOrReviews(r) ==> !r.readFails && Allowed(rows[key], r)))
      && status in {BadRequest, ServerError(false), NotFound, if r.rereadFails then ServerError(true) else Done}
      && (if Applied(status) then key in rows' && Patched(rows[key], r, rows'[key]) && rows' == rows[key := rows'[key]]
          else rows' == rows)
  {
    RatingsJudged(ClearedOr(r.rating));
  }

  lemma DeleteAnswered(rows: Rows, r: Request)
    requires r.Delete?
    ensures Handle(rows, r) ==
      if r.writeFails then (rows, ServerError(false))
      else if (r.user, r.gameId) in rows then (rows - {(r.user, r.gameId)}, Done)
      else (rows, NotFound)
  {
  }

  /** Finishing a game and rating it is one request, whatever category it comes from. */
  lemma FinishAndRate(rows: Rows, user: int, game: int, k: int, review: string)
    requires (user, game) in rows && 1 <= k <= 20 && 0 < |review| <= 8000
    ensures Handle(rows, Patch(user, game, Some("finished"), Some(Halves(k)), Some(review), false, false, false))
         == (rows[(user, game) := Row("finished", Some(Halves(k)), Some(review))], Done)
  {
    var r := Patch(user, game, Some("finished"), Some(Halves(k)), Some(review), false, false, false);
    assert HalfStepped(r.rating);
    PatchAnswered(rows, r);
  }
}
