/**
 * The viewsets of api/views.py. Django REST framework runs a request in a
 * fixed order: the permission's `has_permission`, then (for a detail route)
 * the lookup through `get_queryset` and `has_object_permission`, then the
 * serializer's field stage and `validate()`, and finally `perform_create`
 * or `save()`. Each view below is a function that decides the outcome in
 * that order and a method that performs it on the database.
 */
module ApiViews {
  import opened Wrappers
  import opened Strings
  import opened Models
  import opened Responses
  import opened Store
  import opened Permissions
  import opened ApiSerializers

  /** `request.user` is the row authentication loaded from the user table. */
  predicate Current(users: map<Username, Account>, req: Requester)
  {
    req.Authenticated? ==> req.name in users && users[req.name] == req.account
  }

  // ---------------------------------------------------------------- lookups

  /** `take_title`: `get_object_or_404(Title, pk=title_id)`. */
  function TakeTitle(titles: map<TitleId, Title>, titleId: TitleId): (r: Result<Title, Error>)
    ensures r.Success? <==> titleId in titles
    ensures r.Success? ==> r.value == titles[titleId]
    ensures r.Failure? ==> r.error == NotFound
  {
    if titleId in titles then Success(titles[titleId]) else Failure(NotFound)
  }

  /** `take_review`: `get_object_or_404(Review, pk=review_id)`; the title of the URL is not consulted. */
  function TakeReview(reviews: map<ReviewId, Review>, reviewId: ReviewId): (r: Result<Review, Error>)
    ensures r.Success? <==> reviewId in reviews
    ensures r.Success? ==> r.value == reviews[reviewId]
    ensures r.Failure? ==> r.error == NotFound
  {
    if reviewId in reviews then Success(reviews[reviewId]) else Failure(NotFound)
  }

  /** `ReviewViewSet.get_queryset`: the reviews of the URL's title, or NotFound when the title does not exist. */
  function ListReviews(titles: map<TitleId, Title>, reviews: map<ReviewId, Review>, titleId: TitleId)
    : (r: Result<map<ReviewId, Review>, Error>)
    ensures r.Failure? <==> titleId !in titles
    ensures r.Failure? ==> r.error == NotFound
    ensures r.Success? ==> forall id :: id in r.value <==> id in reviews && reviews[id].title == titleId
    ensures r.Success? ==> forall id :: id in r.value ==> r.value[id] == reviews[id]
  {
    match TakeTitle(titles, titleId)
    case Failure(e) => Failure(e)
    case Success(_) => Success(map id | id in reviews && reviews[id].title == titleId :: reviews[id])
  }

  /** Under `unique_review`, the list of one title's reviews holds at most one review per author. */
  lemma ListedReviewsHaveDistinctAuthors(titles: map<TitleId, Title>, reviews: map<ReviewId, Review>, titleId: TitleId,
                                         a: ReviewId, b: ReviewId)
    requires UniqueReviews(reviews)
    requires ListReviews(titles, reviews, titleId).Success?
    requires a in ListReviews(titles, reviews, titleId).value && b in ListReviews(titles, reviews, titleId).value
    requires a != b
    ensures reviews[a].author != reviews[b].author
  {
    assert reviews[a].title == titleId && reviews[b].title == titleId;
  }

  /** `CommentViewSet.get_queryset`: the comments of the URL's review, or NotFound when the review does not exist. */
  function ListComments(titleId: TitleId, reviews: map<ReviewId, Review>, comments: map<CommentId, Comment>,
                        reviewId: ReviewId): (r: Result<map<CommentId, Comment>, Error>)
    ensures r.Failure? <==> reviewId !in reviews
    ensures r.Failure? ==> r.error == NotFound
    ensures r.Success? ==> forall id :: id in r.value <==> id in comments && comments[id].review == reviewId
    ensures r.Success? ==> forall id :: id in r.value ==> r.value[id] == comments[id]
  {
    match TakeReview(reviews, reviewId)
    case Failure(e) => Failure(e)
    case Success(_) => Success(map id | id in comments && comments[id].review == reviewId :: comments[id])
  }

  /**
   * The title in the URL plays no part in listing comments: a review of
   * one title can be reached under any other title's path.
   */
  lemma CommentsIgnoreTitle(t1: TitleId, t2: TitleId, reviews: map<ReviewId, Review>, comments: map<CommentId, Comment>,
                            reviewId: ReviewId)
    ensures ListComments(t1, reviews, comments, reviewId) == ListComments(t2, reviews, comments, reviewId)
  {
  }

  /** `get_object()` on ReviewViewSet: the review with that id among the reviews of the URL's title. */
  function FindReview(titles: map<TitleId, Title>, reviews: map<ReviewId, Review>, titleId: TitleId, reviewId: ReviewId)
    : (r: Result<Review, Error>)
    ensures r.Success? <==> titleId in titles && reviewId in reviews && reviews[reviewId].title == titleId
    ensures r.Success? ==> r.value == reviews[reviewId]
    ensures r.Failure? ==> r.error == NotFound
  {
    match ListReviews(titles, reviews, titleId)
    case Failure(e) => Failure(e)
    case Success(listed) => if reviewId in listed then Success(listed[reviewId]) else Failure(NotFound)
  }

  /** `get_object()` on CommentViewSet: the comment with that id among the comments of the URL's review. */
  function FindComment(titleId: TitleId, reviews: map<ReviewId, Review>, comments: map<CommentId, Comment>,
                       reviewId: ReviewId, commentId: CommentId): (r: Result<Comment, Error>)
    ensures r.Success? <==> reviewId in reviews && commentId in comments && comments[commentId].review == reviewId
    ensures r.Success? ==> r.value == comments[commentId]
    ensures r.Failure? ==> r.error == NotFound
  {
    match ListComments(titleId, reviews, comments, reviewId)
    case Failure(e) => Failure(e)
    case Success(listed) => if commentId in listed then Success(listed[commentId]) else Failure(NotFound)
  }

  // ---------------------------------------------------------------- ReviewViewSet

  /**
   * POST on the reviews of a title: `has_permission`, the field stage,
   * `validate()`, then `perform_create`, which stores the requester as
   * author and the URL's title as title.
   */
  function ReviewToCreate(titles: map<TitleId, Title>, reviews: map<ReviewId, Review>, req: Requester,
                          titleId: TitleId, input: ReviewInput, now: int): (r: Result<Review, Error>)
    ensures req.Anonymous? ==> r == Failure(NotAuthenticated)
    ensures req.Authenticated? && ReviewFields(input, false).Failure? ==> r == Failure(Invalid(ReviewFields(input, false).error))
    ensures req.Authenticated? && ReviewFields(input, false).Success? ==>
      (r.Success? <==> titleId in titles && !HasReviewBy(reviews, titleId, req.name))
    ensures req.Authenticated? && ReviewFields(input, false).Success? && titleId !in titles ==> r == Failure(NotFound)
    ensures req.Authenticated? && ReviewFields(input, false).Success? && titleId in titles && HasReviewBy(reviews, titleId, req.name)
      ==> r == Failure(NonFieldInvalid(DuplicateReviewMessage))
    ensures r.Success? ==>
      && req.Authenticated? && r.value.author == req.name && r.value.title == titleId && r.value.pubDate == now
      && titleId in titles && !HasReviewBy(reviews, titleId, req.name)
      && r.value.text == Strip(input.text.value) && r.value.score == input.score.value && ValidScore(r.value.score)
  {
    if !OwnerHasPermission(Post, req) then Failure(Refusal(req, OwnerMessage))
    else match ReviewFields(input, false)
      case Failure(fields) => Failure(Invalid(fields))
      case Success(data) =>
        match ValidateReview(Post, req.name, titleId, titles, reviews, data)
        case Failure(e) => Failure(e)
        case Success(_) => Success(Review(titleId, req.name, data.text.value, data.score.value, now))
  }

  /** The author and title a client puts in the body never reach the stored review. */
  lemma ReviewAuthorAndTitleFromRequest(titles: map<TitleId, Title>, reviews: map<ReviewId, Review>, req: Requester,
                                        titleId: TitleId, input: ReviewInput, now: int,
                                        author: Option<string>, title: Option<string>)
    ensures ReviewToCreate(titles, reviews, req, titleId, input.(author := author, title := title), now)
         == ReviewToCreate(titles, reviews, req, titleId, input, now)
  {
    ReviewReadOnlyFieldsIgnored(input, false, author, title);
  }

  /** Once a review is stored, the same author's next POST for that title is refused, whatever it holds. */
  lemma {:induction false} SecondReviewNeverCreated(titles: map<TitleId, Title>, reviews: map<ReviewId, Review>,
                                                    req: Requester, titleId: TitleId, input: ReviewInput, now: int,
                                                    id: ReviewId, next: ReviewInput, later: int)
    requires id !in reviews
    requires ReviewToCreate(titles, reviews, req, titleId, input, now).Success?
    ensures var stored := reviews[id := ReviewToCreate(titles, reviews, req, titleId, input, now).value];
      ReviewToCreate(titles, stored, req, titleId, next, later).Failure?
  {
    var review := ReviewToCreate(titles, reviews, req, titleId, input, now).value;
    ReviewByAfterInsert(reviews, id, review, titleId, req.name);
  }

  /** `ReviewViewSet.create`. */
  method CreateReview(db: Database, req: Requester, titleId: TitleId, input: ReviewInput, now: int)
    returns (r: Result<ReviewId, Error>)
    requires db.Valid() && Current(db.users, req)
    modifies db`reviews, db`nextId
    ensures db.Valid()
    ensures match ReviewToCreate(old(db.titles), old(db.reviews), req, titleId, input, now)
      case Failure(e) => r == Failure(e) && db.reviews == old(db.reviews)
      case Success(review) => r.Success? && r.value !in old(db.reviews) && db.reviews == old(db.reviews)[r.value := review]
  {
    if !OwnerHasPermission(Post, req) {
      return Failure(Refusal(req, OwnerMessage));
    }
    var fields := ReviewFields(input, false);
    if fields.Failure? {
      return Failure(Invalid(fields.error));
    }
    var checked := ValidateReview(Post, req.name, titleId, db.titles, db.reviews, fields.value);
    if checked.Failure? {
      return Failure(checked.error);
    }
    // perform_create: take_title() finds the title validate() already found
    var data := checked.value;
    var ok, id := db.InsertReview(Review(titleId, req.name, data.text.value, data.score.value, now));
    r := Success(id);
  }

  /**
   * PUT or PATCH on one review: `has_permission`, the lookup,
   * `has_object_permission`, the field stage (every field optional for
   * PATCH) and `validate()`, which checks nothing for these methods. Only
   * the text and the score can change.
   */
  function ReviewToUpdate(titles: map<TitleId, Title>, reviews: map<ReviewId, Review>, req: Requester, m: Method,
                          titleId: TitleId, reviewId: ReviewId, input: ReviewInput): (r: Result<Review, Error>)
    requires m == Put || m == Patch
    ensures req.Anonymous? ==> r == Failure(NotAuthenticated)
    ensures req.Authenticated? && FindReview(titles, reviews, titleId, reviewId).Failure? ==> r == Failure(NotFound)
    ensures req.Authenticated? && FindReview(titles, reviews, titleId, reviewId).Success?
            && !(IsAdmin(req.account) || IsModerator(req.account) || reviews[reviewId].author == req.name)
            ==> r == Failure(PermissionDenied(OwnerMessage))
    ensures req.Authenticated? && FindReview(titles, reviews, titleId, reviewId).Success?
            && (IsAdmin(req.account) || IsModerator(req.account) || reviews[reviewId].author == req.name)
            ==> (r.Success? <==> ReviewFields(input, m == Patch).Success?)
    ensures req.Authenticated? && FindReview(titles, reviews, titleId, reviewId).Success?
            && (IsAdmin(req.account) || IsModerator(req.account) || reviews[reviewId].author == req.name)
            && ReviewFields(input, m == Patch).Failure?
            ==> r == Failure(Invalid(ReviewFields(input, m == Patch).error))
    ensures r.Success? ==>
      && req.Authenticated? && reviewId in reviews && reviews[reviewId].title == titleId && titleId in titles
      && (IsAdmin(req.account) || IsModerator(req.account) || reviews[reviewId].author == req.name)
      && ReviewFields(input, m == Patch).Success?
      && r.value == reviews[reviewId].(text := if input.text.Some? then r.value.text else reviews[reviewId].text,
                                       score := if input.score.Some? then input.score.value else reviews[reviewId].score)
      && (input.text.Some? ==> r.value.text == Strip(input.text.value))
      && (input.score.Some? ==> ValidScore(r.value.score))
  {
    if !OwnerHasPermission(m, req) then Failure(Refusal(req, OwnerMessage))
    else match FindReview(titles, reviews, titleId, reviewId)
      case Failure(e) => Failure(e)
      case Success(current) =>
        if OwnerHasObjectPermission(m, req, current.author) != Allow then Failure(Refusal(req, OwnerMessage))
        else match ReviewFields(input, m == Patch)
          case Failure(fields) => Failure(Invalid(fields))
          case Success(data) =>
            match ValidateReview(m, req.name, titleId, titles, reviews, data)
            case Failure(e) => Failure(e)
            case Success(d) =>
              Success(current.(text := if d.text.Some? then d.text.value else current.text,
                               score := if d.score.Some? then d.score.value else current.score))
  }

  /** A user with the plain role and no staff flag can never change someone else's review. */
  lemma PlainUserCannotEditOthersReview(titles: map<TitleId, Title>, reviews: map<ReviewId, Review>, name: Username,
                                        a: Account, m: Method, titleId: TitleId, reviewId: ReviewId, input: ReviewInput)
    requires m == Put || m == Patch
    requires a.role == User && !a.isStaff
    requires reviewId in reviews && reviews[reviewId].author != name
    ensures ReviewToUpdate(titles, reviews, Authenticated(name, a), m, titleId, reviewId, input).Failure?
  {
  }

  /** `ReviewViewSet.update` and `partial_update`. */
  method UpdateReview(db: Database, req: Requester, m: Method, titleId: TitleId, reviewId: ReviewId, input: ReviewInput)
    returns (r: Result<Review, Error>)
    requires db.Valid() && Current(db.users, req)
    requires m == Put || m == Patch
    modifies db`reviews
    ensures db.Valid()
    ensures r == ReviewToUpdate(old(db.titles), old(db.reviews), req, m, titleId, reviewId, input)
    ensures r.Failure? ==> db.reviews == old(db.reviews)
    ensures r.Success? ==> db.reviews == old(db.reviews)[reviewId := r.value]
  {
    r := ReviewToUpdate(db.titles, db.reviews, req, m, titleId, reviewId, input);
    if r.Success? {
      db.UpdateReview(reviewId, r.value.text, r.value.score);
    }
  }

  /** DELETE on one review: `has_permission`, the lookup, `has_object_permission`. */
  function ReviewToDestroy(titles: map<TitleId, Title>, reviews: map<ReviewId, Review>, req: Requester,
                           titleId: TitleId, reviewId: ReviewId): (r: Result<ReviewId, Error>)
    ensures req.Anonymous? ==> r == Failure(NotAuthenticated)
    ensures r.Success? <==>
      && req.Authenticated? && FindReview(titles, reviews, titleId, reviewId).Success?
      && (IsAdmin(req.account) || IsModerator(req.account) || reviews[reviewId].author == req.name)
    ensures req.Authenticated? && FindReview(titles, reviews, titleId, reviewId).Failure? ==> r == Failure(NotFound)
    ensures req.Authenticated? && FindReview(titles, reviews, titleId, reviewId).Success?
            && !(IsAdmin(req.account) || IsModerator(req.account) || reviews[reviewId].author == req.name)
            ==> r == Failure(PermissionDenied(OwnerMessage))
    ensures r.Success? ==> r.value == reviewId && reviewId in reviews
  {
    if !OwnerHasPermission(Delete, req) then Failure(Refusal(req, OwnerMessage))
    else match FindReview(titles, reviews, titleId, reviewId)
      case Failure(e) => Failure(e)
      case Success(current) =>
        if OwnerHasObjectPermission(Delete, req, current.author) != Allow then Failure(Refusal(req, OwnerMessage))
        else Success(reviewId)
  }

  /** `ReviewViewSet.destroy`: the review goes, and its comments with it. */
  method DestroyReview(db: Database, req: Requester, titleId: TitleId, reviewId: ReviewId)
    returns (r: Result<ReviewId, Error>)
    requires db.Valid() && Current(db.users, req)
    modifies db`reviews, db`comments
    ensures db.Valid()
    ensures r == ReviewToDestroy(old(db.titles), old(db.reviews), req, titleId, reviewId)
    ensures r.Failure? ==> db.reviews == old(db.reviews) && db.comments == old(db.comments)
    ensures r.Success? ==> db.reviews == old(db.reviews) - {reviewId}
                           && db.comments == CommentsKept(old(db.comments), db.reviews.Keys, {})
  {
    r := ReviewToDestroy(db.titles, db.reviews, req, titleId, reviewId);
    if r.Success? {
      db.DeleteReview(reviewId);
    }
  }

  // ---------------------------------------------------------------- CommentViewSet

  /**
   * POST on the comments of a review: `has_permission`, the field stage,
   * then `perform_create`, whose `take_review()` can still answer NotFound;
   * the requester is the author and the URL's review the review.
   */
  function CommentToCreate(reviews: map<ReviewId, Review>, req: Requester, reviewId: ReviewId, input: CommentInput,
                           now: int): (r: Result<Comment, Error>)
    ensures req.Anonymous? ==> r == Failure(NotAuthenticated)
    ensures req.Authenticated? && CommentFields(input).Failure? ==> r == Failure(Invalid({TextField}))
    ensures req.Authenticated? && CommentFields(input).Success? ==> (r.Success? <==> reviewId in reviews)
    ensures req.Authenticated? && CommentFields(input).Success? && reviewId !in reviews ==> r == Failure(NotFound)
    ensures r.Success? ==>
      && req.Authenticated? && reviewId in reviews
      && r.value == Comment(reviewId, req.name, Strip(input.text.value), now)
  {
    if !OwnerHasPermission(Post, req) then Failure(Refusal(req, OwnerMessage))
    else match CommentFields(input)
      case Failure(fields) => Failure(Invalid(fields))
      case Success(text) =>
        match TakeReview(reviews, reviewId)
        case Failure(e) => Failure(e)
        case Success(_) => Success(Comment(reviewId, req.name, text, now))
  }

  /** The author and review a client puts in the body never reach the stored comment. */
  lemma CommentAuthorAndReviewFromRequest(reviews: map<ReviewId, Review>, req: Requester, reviewId: ReviewId,
                                          input: CommentInput, now: int, author: Option<string>, review: Option<ReviewId>)
    ensures CommentToCreate(reviews, req, reviewId, input.(author := author, review := review), now)
         == CommentToCreate(reviews, req, reviewId, input, now)
  {
  }

  /** `CommentViewSet.create`. */
  method CreateComment(db: Database, req: Requester, reviewId: ReviewId, input: CommentInput, now: int)
    returns (r: Result<CommentId, Error>)
    requires db.Valid() && Current(db.users, req)
    modifies db`comments, db`nextId
    ensures db.Valid()
    ensures match CommentToCreate(old(db.reviews), req, reviewId, input, now)
      case Failure(e) => r == Failure(e) && db.comments == old(db.comments)
      case Success(c) => r.Success? && r.value !in old(db.comments) && db.comments == old(db.comments)[r.value := c]
  {
    if !OwnerHasPermission(Post, req) {
      return Failure(Refusal(req, OwnerMessage));
    }
    var fields := CommentFields(input);
    if fields.Failure? {
      return Failure(Invalid(fields.error));
    }
    var review := TakeReview(db.reviews, reviewId);
    if review.Failure? {
      return Failure(review.error);
    }
    var id := db.InsertComment(Comment(reviewId, req.name, fields.value, now));
    r := Success(id);
  }

  /** DELETE on one comment: `has_permission`, the lookup, `has_object_permission`. */
  function CommentToDestroy(titleId: TitleId, reviews: map<ReviewId, Review>, comments: map<CommentId, Comment>,
                            req: Requester, reviewId: ReviewId, commentId: CommentId): (r: Result<CommentId, Error>)
    ensures req.Anonymous? ==> r == Failure(NotAuthenticated)
    ensures r.Success? <==>
      && req.Authenticated? && FindComment(titleId, reviews, comments, reviewId, commentId).Success?
      && (IsAdmin(req.account) || IsModerator(req.account) || comments[commentId].author == req.name)
    ensures req.Authenticated? && FindComment(titleId, reviews, comments, reviewId, commentId).Failure?
            ==> r == Failure(NotFound)
    ensures req.Authenticated? && FindComment(titleId, reviews, comments, reviewId, commentId).Success?
            && !(IsAdmin(req.account) || IsModerator(req.account) || comments[commentId].author == req.name)
            ==> r == Failure(PermissionDenied(OwnerMessage))
    ensures r.Success? ==> r.value == commentId && commentId in comments
  {
    if !OwnerHasPermission(Delete, req) then Failure(Refusal(req, OwnerMessage))
    else match FindComment(titleId, reviews, comments, reviewId, commentId)
      case Failure(e) => Failure(e)
      case Success(current) =>
        if OwnerHasObjectPermission(Delete, req, current.author) != Allow then Failure(Refusal(req, OwnerMessage))
        else Success(commentId)
  }

  /** `CommentViewSet.destroy`. */
  method DestroyComment(db: Database, req: Requester, titleId: TitleId, reviewId: ReviewId, commentId: CommentId)
    returns (r: Result<CommentId, Error>)
    requires db.Valid() && Current(db.users, req)
    modifies db`comments
    ensures db.Valid()
    ensures r == CommentToDestroy(titleId, old(db.reviews), old(db.comments), req, reviewId, commentId)
    ensures r.Failure? ==> db.comments == old(db.comments)
    ensures r.Success? ==> db.comments == old(db.comments) - {commentId}
  {
    r := CommentToDestroy(titleId, db.reviews, db.comments, req, reviewId, commentId);
    if r.Success? {
      db.DeleteComment(commentId);
    }
  }

  // ---------------------------------------------------------------- CategoryViewSet, GenreViewSet

  /** POST on categories or genres: IsAdminOrReadOnly, then the field stage against the slugs in use. */
  function CatalogToCreate(taken: set<Slug>, req: Requester, input: CatalogInput): (r: Result<CatalogData, Error>)
    ensures r.Success? <==> AdminHasPermission(Post, req) && CatalogFields(input, taken).Success?
    ensures !AdminHasPermission(Post, req) ==> r == Failure(Refusal(req, AdminOrReadOnlyMessage))
    ensures AdminHasPermission(Post, req) && CatalogFields(input, taken).Failure? ==> r == Failure(Invalid(CatalogFields(input, taken).error))
    ensures r.Success? ==> r.value == CatalogFields(input, taken).value && r.value.slug !in taken && ValidSlug(r.value.slug)
  {
    AdminOrReadOnlyDecision(Post, req);
    if !AdminOrReadOnlyHasPermission(Post, req) then Failure(Refusal(req, AdminOrReadOnlyMessage))
    else match CatalogFields(input, taken)
      case Failure(fields) => Failure(Invalid(fields))
      case Success(data) => Success(data)
  }

  /** DELETE on a category or genre by slug: IsAdminOrReadOnly, then the lookup. */
  function CatalogToDestroy(slugs: set<Slug>, req: Requester, slug: Slug): (r: Result<Slug, Error>)
    ensures r.Success? <==> AdminHasPermission(Delete, req) && slug in slugs
    ensures !AdminHasPermission(Delete, req) ==> r == Failure(Refusal(req, AdminOrReadOnlyMessage))
    ensures AdminHasPermission(Delete, req) && slug !in slugs ==> r == Failure(NotFound)
    ensures r.Success? ==> r.value == slug
  {
    AdminOrReadOnlyDecision(Delete, req);
    if !AdminOrReadOnlyHasPermission(Delete, req) then Failure(Refusal(req, AdminOrReadOnlyMessage))
    else if slug !in slugs then Failure(NotFound)
    else Success(slug)
  }

  /** `CategoryViewSet.create`. */
  method CreateCategory(db: Database, req: Requester, input: CatalogInput) returns (r: Result<CatalogData, Error>)
    requires db.Valid()
    modifies db`categories
    ensures db.Valid()
    ensures r == CatalogToCreate(old(db.categories).Keys, req, input)
    ensures r.Failure? ==> db.categories == old(db.categories)
    ensures r.Success? ==> db.categories == old(db.categories)[r.value.slug := Category(r.value.name)]
  {
    r := CatalogToCreate(db.categories.Keys, req, input);
    if r.Success? {
      var ok := db.InsertCategory(r.value.slug, Category(r.value.name));
    }
  }

  /** `GenreViewSet.create`. */
  method CreateGenre(db: Database, req: Requester, input: CatalogInput) returns (r: Result<CatalogData, Error>)
    requires db.Valid()
    modifies db`genres
    ensures db.Valid()
    ensures r == CatalogToCreate(old(db.genres).Keys, req, input)
    ensures r.Failure? ==> db.genres == old(db.genres)
    ensures r.Success? ==> db.genres == old(db.genres)[r.value.slug := Genre(r.value.name)]
  {
    r := CatalogToCreate(db.genres.Keys, req, input);
    if r.Success? {
      var ok := db.InsertGenre(r.value.slug, Genre(r.value.name));
    }
  }

  /** `CategoryViewSet.destroy`: titles of the category lose it. */
  method DestroyCategory(db: Database, req: Requester, slug: Slug) returns (r: Result<Slug, Error>)
    requires db.Valid()
    modifies db`categories, db`titles
    ensures db.Valid()
    ensures r == CatalogToDestroy(old(db.categories).Keys, req, slug)
    ensures r.Failure? ==> db.categories == old(db.categories) && db.titles == old(db.titles)
    ensures r.Success? ==> db.categories == old(db.categories) - {slug} && db.titles == CategoryCleared(old(db.titles), slug)
  {
    r := CatalogToDestroy(db.categories.Keys, req, slug);
    if r.Success? {
      db.DeleteCategory(slug);
    }
  }

  /** `GenreViewSet.destroy`: the genre's links to titles go with it. */
  method DestroyGenre(db: Database, req: Requester, slug: Slug) returns (r: Result<Slug, Error>)
    requires db.Valid()
    modifies db`genres, db`genreLinks
    ensures db.Valid()
    ensures r == CatalogToDestroy(old(db.genres).Keys, req, slug)
    ensures r.Failure? ==> db.genres == old(db.genres) && db.genreLinks == old(db.genreLinks)
    ensures r.Success? ==> db.genres == old(db.genres) - {slug} && db.genreLinks == set l | l in old(db.genreLinks) && l.1 != slug
  {
    r := CatalogToDestroy(db.genres.Keys, req, slug);
    if r.Success? {
      db.DeleteGenre(slug);
    }
  }

  // ---------------------------------------------------------------- TitleViewSet

  datatype Action = ListAction | RetrieveAction | CreateAction | UpdateAction | PartialUpdateAction | DestroyAction
  datatype TitleSerializerKind = ReadSerializer | WriteSerializer

  /** `TitleViewSet.get_serializer_class`. */
  function TitleSerializerClass(action: Action): (k: TitleSerializerKind)
    ensures k == ReadSerializer <==> action == ListAction || action == RetrieveAction
  {
    if action in {ListAction, RetrieveAction} then ReadSerializer else WriteSerializer
  }

  /** POST on titles: IsAdminOrReadOnly, then the field stage of the write serializer. */
  function TitleToCreate(categories: set<Slug>, genres: set<Slug>, req: Requester, input: TitleInput, currentYear: int)
    : (r: Result<TitleData, Error>)
    ensures r.Success? <==> AdminHasPermission(Post, req) && TitleFields(input, categories, genres, currentYear).Success?
    ensures !AdminHasPermission(Post, req) ==> r == Failure(Refusal(req, AdminOrReadOnlyMessage))
    ensures AdminHasPermission(Post, req) && TitleFields(input, categories, genres, currentYear).Failure? ==>
      r == Failure(Invalid(TitleFields(input, categories, genres, currentYear).error))
    ensures r.Success? ==> r.value == TitleFields(input, categories, genres, currentYear).value
  {
    AdminOrReadOnlyDecision(Post, req);
    if !AdminOrReadOnlyHasPermission(Post, req) then Failure(Refusal(req, AdminOrReadOnlyMessage))
    else match TitleFields(input, categories, genres, currentYear)
      case Failure(fields) => Failure(Invalid(fields))
      case Success(data) => Success(data)
  }

  /** `TitleViewSet.create`: the title row and one GenreTitle row per genre. */
  method CreateTitle(db: Database, req: Requester, input: TitleInput, currentYear: int) returns (r: Result<TitleId, Error>)
    requires db.Valid()
    modifies db`titles, db`genreLinks, db`nextId
    ensures db.Valid()
    ensures match TitleToCreate(old(db.categories).Keys, old(db.genres).Keys, req, input, currentYear)
      case Failure(e) => r == Failure(e) && db.titles == old(db.titles) && db.genreLinks == old(db.genreLinks)
      case Success(d) =>
        && r.Success? && r.value !in old(db.titles)
        && db.titles == old(db.titles)[r.value := Title(d.name, d.year, d.description, d.category)]
        && db.genreLinks == old(db.genreLinks) + TitleLinks(r.value, d.genres)
  {
    var decision := TitleToCreate(db.categories.Keys, db.genres.Keys, req, input, currentYear);
    if decision.Failure? {
      return Failure(decision.error);
    }
    var d := decision.value;
    var id := db.InsertTitle(Title(d.name, d.year, d.description, d.category), d.genres);
    r := Success(id);
  }

  /** DELETE on one title: IsAdminOrReadOnly, then the lookup. */
  function TitleToDestroy(titles: map<TitleId, Title>, req: Requester, id: TitleId): (r: Result<TitleId, Error>)
    ensures r.Success? <==> AdminHasPermission(Delete, req) && id in titles
    ensures !AdminHasPermission(Delete, req) ==> r == Failure(Refusal(req, AdminOrReadOnlyMessage))
    ensures AdminHasPermission(Delete, req) && id !in titles ==> r == Failure(NotFound)
    ensures r.Success? ==> r.value == id
  {
    AdminOrReadOnlyDecision(Delete, req);
    if !AdminOrReadOnlyHasPermission(Delete, req) then Failure(Refusal(req, AdminOrReadOnlyMessage))
    else match TakeTitle(titles, id)
      case Failure(e) => Failure(e)
      case Success(_) => Success(id)
  }

  /** `TitleViewSet.destroy`: the title goes with its genre links, its reviews and their comments. */
  method DestroyTitle(db: Database, req: Requester, id: TitleId) returns (r: Result<TitleId, Error>)
    requires db.Valid()
    modifies db`titles, db`genreLinks, db`reviews, db`comments
    ensures db.Valid()
    ensures r == TitleToDestroy(old(db.titles), req, id)
    ensures r.Failure? ==> db.titles == old(db.titles) && db.reviews == old(db.reviews) && db.comments == old(db.comments)
    ensures r.Failure? ==> db.genreLinks == old(db.genreLinks)
    ensures r.Success? ==>
      && db.titles == old(db.titles) - {id}
      && db.genreLinks == LinksWithoutTitle(old(db.genreLinks), id)
      && db.reviews == ReviewsKept(old(db.reviews), {id}, {})
      && db.comments == CommentsKept(old(db.comments), db.reviews.Keys, {})
  {
    r := TitleToDestroy(db.titles, req, id);
    if r.Success? {
      db.DeleteTitle(id);
    }
  }

  // ---------------------------------------------------------------- the rating annotation

  /** The ids below `n` of the reviews of `title`. */
  ghost function ReviewsOf(reviews: map<ReviewId, Review>, title: TitleId, n: nat): set<ReviewId>
  {
    set id | 0 <= id < n && id in reviews && reviews[id].title == title
  }

  /** How many reviews of `title` have an id below `n`: the size of `ReviewsOf`. */
  function ReviewCount(reviews: map<ReviewId, Review>, title: TitleId, n: nat): (c: nat)
    ensures c == |ReviewsOf(reviews, title, n)|
    ensures c <= n
  {
    if n == 0 then 0
    else
      ReviewsOfStep(reviews, title, n);
      ReviewCount(reviews, title, n - 1) + (if n - 1 in reviews && reviews[n - 1].title == title then 1 else 0)
  }

  /** Raising the bound by one adds id `n - 1` exactly when it is a review of the title. */
  lemma ReviewsOfStep(reviews: map<ReviewId, Review>, title: TitleId, n: nat)
    requires 0 < n
    ensures n - 1 !in ReviewsOf(reviews, title, n - 1)
    ensures ReviewsOf(reviews, title, n) ==
      ReviewsOf(reviews, title, n - 1) + (if n - 1 in reviews && reviews[n - 1].title == title then {n - 1} else {})
  {
  }

  /**
   * The sum of the scores of the reviews of `title` with an id below `n`;
   * with every score in [1, 10] it lies between the count and ten times the count.
   */
  function ScoreSum(reviews: map<ReviewId, Review>, title: TitleId, n: nat): (s: int)
    ensures ReviewCount(reviews, title, n) == 0 ==> s == 0
    ensures (forall id :: id in reviews ==> ValidScore(reviews[id].score)) ==>
      ReviewCount(reviews, title, n) <= s <= ScoreMax * ReviewCount(reviews, title, n)
  {
    if n == 0 then 0
    else ScoreSum(reviews, title, n - 1) + (if n - 1 in reviews && reviews[n - 1].title == title then reviews[n - 1].score else 0)
  }

  /**
   * `Avg('reviews__score')` as the read serializer's IntegerField shows
   * it: `int()` of the mean, which for positive scores is the integer
   * quotient; `None` when the title has no review.
   */
  function Rating(reviews: map<ReviewId, Review>, title: TitleId, nextId: nat): (o: Option<int>)
    ensures o.None? <==> ReviewCount(reviews, title, nextId) == 0
    ensures o.Some? ==>
      var count, sum := ReviewCount(reviews, title, nextId), ScoreSum(reviews, title, nextId);
      o.value * count <= sum < (o.value + 1) * count
  {
    var count := ReviewCount(reviews, title, nextId);
    if count == 0 then None
    else
      var sum := ScoreSum(reviews, title, nextId);
      FloorQuotient(sum, count);
      Some(sum / count)
  }

  /** Integer division rounds down: the quotient is the largest q with q * count <= sum. */
  lemma FloorQuotient(sum: int, count: int)
    requires 0 < count
    ensures (sum / count) * count <= sum < (sum / count + 1) * count
  {
    var q, m := sum / count, sum % count;
    assert sum == q * count + m && 0 <= m < count;
    assert (q + 1) * count == q * count + count;
  }

  /**
   * With every id below `nextId` (as the database keeps them), the rating
   * covers every review of the title, is absent exactly when there is none,
   * and otherwise lies in [1, 10].
   */
  lemma RatingInRange(reviews: map<ReviewId, Review>, title: TitleId, nextId: nat)
    requires forall id :: id in reviews ==> id < nextId && ValidScore(reviews[id].score)
    ensures ReviewsOf(reviews, title, nextId) == set id | id in reviews && reviews[id].title == title
    ensures Rating(reviews, title, nextId).None? <==> forall id :: id in reviews ==> reviews[id].title != title
    ensures Rating(reviews, title, nextId).Some? ==>
      ScoreMin <= Rating(reviews, title, nextId).value <= ScoreMax
  {
    var count := ReviewCount(reviews, title, nextId);
    var sum := ScoreSum(reviews, title, nextId);
    if count == 0 {
      forall id | id in reviews
        ensures reviews[id].title != title
      {
        assert id !in ReviewsOf(reviews, title, nextId);
      }
    } else {
      var some :| some in ReviewsOf(reviews, title, nextId);
      assert reviews[some].title == title;
      QuotientBounds(sum, count);
    }
  }

  /** For `count <= sum <= 10 * count`, the quotient lies in [1, 10]. */
  lemma QuotientBounds(sum: int, count: int)
    requires 0 < count <= sum <= ScoreMax * count
    ensures ScoreMin <= sum / count <= ScoreMax
  {
    var q := sum / count;
    assert q * count <= sum < (q + 1) * count;
  }

  /** Two reviews scoring 3 and 4: the mean is 3.5 and the rating shown is 3. */
  lemma RatingTruncatesMean()
    ensures Rating(map[0 := Review(7, "a", "", 3, 0), 1 := Review(7, "b", "", 4, 0)], 7, 2) == Some(3)
  {
  }

  // ---------------------------------------------------------------- UserViewSet.me

  /**
   * GET or PATCH on `users/me/`: IsAuthenticated, then the field stage of
   * UserMeSerializer, then `save(role=request.user.role)`. A GET carries no
   * body, so it saves the row unchanged.
   */
  function ProfileUpdate(req: Requester, input: ProfileInput): (r: Result<Account, Error>)
    ensures req.Anonymous? ==> r == Failure(NotAuthenticated)
    ensures req.Authenticated? ==> (r.Success? <==> ProfileFields(input).Success?)
    ensures req.Authenticated? && ProfileFields(input).Failure? ==> r == Failure(Invalid(ProfileFields(input).error))
    ensures r.Success? ==> r.value == ApplyProfile(req.account, ProfileFields(input).value)
    ensures r.Success? ==> r.value.role == req.account.role && r.value.email == req.account.email
                           && r.value.isStaff == req.account.isStaff && r.value.isSuperuser == req.account.isSuperuser
  {
    match req
    case Anonymous => Failure(NotAuthenticated)
    case Authenticated(_, account) =>
      match ProfileFields(input)
      case Failure(fields) => Failure(Invalid(fields))
      case Success(patch) => Success(ApplyProfile(account, patch))
  }

  /** `UserViewSet.me`. */
  method Me(db: Database, req: Requester, input: ProfileInput) returns (r: Result<Account, Error>)
    requires db.Valid() && Current(db.users, req)
    modifies db`users
    ensures db.Valid()
    ensures r == ProfileUpdate(req, input)
    ensures r.Failure? ==> db.users == old(db.users)
    ensures r.Success? ==> db.users == old(db.users)[req.name := r.value]
  {
    r := ProfileUpdate(req, input);
    if r.Success? {
      var ok := db.SaveUser(req.name, r.value);
    }
  }
}
