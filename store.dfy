/**
 * The database behind the models of reviews/models.py: one table per model,
 * the unique constraints (username, email, slug, one review per title and
 * author) and what deleting a row does to the rows that reference it
 * (`on_delete=CASCADE` and `on_delete=SET_NULL`).
 */
module Store {
  import opened Wrappers
  import opened Models

  // ---------------------------------------------------------------- invariants

  /** `email` is unique across users (the username is the map key, so it is unique too). */
  ghost predicate UsersValid(users: map<Username, Account>)
  {
    forall u, v :: u in users && v in users && u != v ==> users[u].email != users[v].email
  }

  /** No user other than `except` holds `email`. */
  predicate EmailFree(users: map<Username, Account>, email: string, except: Username)
  {
    forall u :: u in users && u != except ==> users[u].email != email
  }

  ghost predicate CatalogValid(categories: map<Slug, Category>, genres: map<Slug, Genre>,
                               titles: map<TitleId, Title>, links: set<(TitleId, Slug)>)
  {
    && (forall s :: s in categories ==> ValidSlug(s))
    && (forall s :: s in genres ==> ValidSlug(s))
    && (forall t :: t in titles && titles[t].category.Some? ==> titles[t].category.value in categories)
    && (forall l :: l in links ==> l.0 in titles && l.1 in genres)
  }

  /** The `unique_review` constraint: no two reviews share a (title, author) pair. */
  ghost predicate UniqueReviews(reviews: map<ReviewId, Review>)
    ensures UniqueReviews(reviews) <==>
      forall id :: id in reviews ==> !HasReviewBy(reviews - {id}, reviews[id].title, reviews[id].author)
  {
    NoTwinReview(reviews);
    forall a, b ::
      (a in reviews && b in reviews && reviews[a].title == reviews[b].title && reviews[a].author == reviews[b].author)
      ==> a == b
  }

  /** Pairwise distinct (title, author) pairs means no review has a twin among the others. */
  lemma NoTwinReview(reviews: map<ReviewId, Review>)
    ensures (forall a, b ::
               (a in reviews && b in reviews && reviews[a].title == reviews[b].title && reviews[a].author == reviews[b].author)
               ==> a == b)
            <==> (forall id :: id in reviews ==> !HasReviewBy(reviews - {id}, reviews[id].title, reviews[id].author))
  {
    if forall id :: id in reviews ==> !HasReviewBy(reviews - {id}, reviews[id].title, reviews[id].author) {
      forall a, b | a in reviews && b in reviews && reviews[a].title == reviews[b].title && reviews[a].author == reviews[b].author
        ensures a == b
      {
        if a != b {
          assert b in reviews - {a};
          assert HasReviewBy(reviews - {a}, reviews[a].title, reviews[a].author);
        }
      }
    }
  }

  /** Some review by `author` for `title` is already stored. */
  predicate HasReviewBy(reviews: map<ReviewId, Review>, title: TitleId, author: Username)
  {
    exists id :: id in reviews && reviews[id].title == title && reviews[id].author == author
  }

  /** Storing one more review adds exactly its own (title, author) pair to those already taken. */
  lemma ReviewByAfterInsert(reviews: map<ReviewId, Review>, id: ReviewId, r: Review, title: TitleId, author: Username)
    requires id !in reviews
    ensures HasReviewBy(reviews[id := r], title, author)
        <==> HasReviewBy(reviews, title, author) || (r.title == title && r.author == author)
  {
    var stored := reviews[id := r];
    if HasReviewBy(reviews, title, author) {
      var k :| k in reviews && reviews[k].title == title && reviews[k].author == author;
      assert stored[k] == reviews[k];
    }
    if r.title == title && r.author == author {
      assert stored[id] == r;
    }
    if HasReviewBy(stored, title, author) {
      var k :| k in stored && stored[k].title == title && stored[k].author == author;
      if k != id {
        assert k in reviews && reviews[k] == stored[k];
      }
    }
  }

  ghost predicate ReviewsValid(users: map<Username, Account>, titles: map<TitleId, Title>,
                               reviews: map<ReviewId, Review>)
  {
    && (forall r :: r in reviews ==>
          reviews[r].title in titles && reviews[r].author in users && ValidScore(reviews[r].score))
    && UniqueReviews(reviews)
  }

  ghost predicate CommentsValid(users: map<Username, Account>, reviews: map<ReviewId, Review>,
                                comments: map<CommentId, Comment>)
  {
    forall c :: c in comments ==> comments[c].review in reviews && comments[c].author in users
  }

  ghost predicate IdsBelow(titles: map<TitleId, Title>, reviews: map<ReviewId, Review>,
                           comments: map<CommentId, Comment>, bound: nat)
  {
    && (forall t :: t in titles ==> t < bound)
    && (forall r :: r in reviews ==> r < bound)
    && (forall c :: c in comments ==> c < bound)
  }

  /** Adding a review for a pair nobody has reviewed yet keeps the constraint. */
  lemma {:induction false} InsertKeepsUnique(reviews: map<ReviewId, Review>, id: ReviewId, r: Review)
    requires UniqueReviews(reviews) && id !in reviews
    requires !HasReviewBy(reviews, r.title, r.author)
    ensures UniqueReviews(reviews[id := r])
  {
    var m := reviews[id := r];
    forall a, b | a in m && b in m && m[a].title == m[b].title && m[a].author == m[b].author
      ensures a == b
    {
      if a != id && b != id {
        assert reviews[a] == m[a] && reviews[b] == m[b];
      }
    }
  }

  // ---------------------------------------------------------------- cascades

  /** The reviews left after CASCADE from deleted titles and deleted authors. */
  function ReviewsKept(reviews: map<ReviewId, Review>, deadTitles: set<TitleId>, deadAuthors: set<Username>)
    : (m: map<ReviewId, Review>)
    ensures forall r :: r in m <==> r in reviews && reviews[r].title !in deadTitles && reviews[r].author !in deadAuthors
    ensures forall r :: r in m ==> m[r] == reviews[r]
  {
    map r | r in reviews && reviews[r].title !in deadTitles && reviews[r].author !in deadAuthors :: reviews[r]
  }

  /** The comments left after CASCADE from the reviews that no longer exist and from deleted authors. */
  function CommentsKept(comments: map<CommentId, Comment>, liveReviews: set<ReviewId>, deadAuthors: set<Username>)
    : (m: map<CommentId, Comment>)
    ensures forall c :: c in m <==> c in comments && comments[c].review in liveReviews && comments[c].author !in deadAuthors
    ensures forall c :: c in m ==> m[c] == comments[c]
  {
    map c | c in comments && comments[c].review in liveReviews && comments[c].author !in deadAuthors :: comments[c]
  }

  /** The GenreTitle rows that do not belong to title `id` (CASCADE from the title). */
  function LinksWithoutTitle(links: set<(TitleId, Slug)>, id: TitleId): (r: set<(TitleId, Slug)>)
    ensures forall l :: l in r <==> l in links && l.0 != id
  {
    set l | l in links && l.0 != id
  }

  /** The GenreTitle rows a new title `id` gets: one per genre slug. */
  function TitleLinks(id: TitleId, genreSlugs: set<Slug>): (r: set<(TitleId, Slug)>)
    ensures forall l :: l in r <==> l.0 == id && l.1 in genreSlugs
  {
    set g | g in genreSlugs :: (id, g)
  }

  /** SET_NULL: every title that referenced `slug` loses its category, nothing else changes. */
  function CategoryCleared(titles: map<TitleId, Title>, slug: Slug): (m: map<TitleId, Title>)
    ensures m.Keys == titles.Keys
    ensures forall t :: t in m ==> m[t].category != Some(slug)
    ensures forall t :: t in m ==> m[t] == if titles[t].category == Some(slug) then titles[t].(category := None) else titles[t]
  {
    map t | t in titles :: if titles[t].category == Some(slug) then titles[t].(category := None) else titles[t]
  }

  /** Removing a title and its GenreTitle rows keeps every catalog reference resolvable. */
  lemma TitleRemovedKeepsCatalog(categories: map<Slug, Category>, genres: map<Slug, Genre>,
                                 titles: map<TitleId, Title>, links: set<(TitleId, Slug)>, id: TitleId)
    requires CatalogValid(categories, genres, titles, links)
    ensures CatalogValid(categories, genres, titles - {id}, LinksWithoutTitle(links, id))
  {
  }

  /** The reviews a title's deletion leaves all point at titles that remain. */
  lemma TitleRemovedKeepsReviews(users: map<Username, Account>, titles: map<TitleId, Title>,
                                 reviews: map<ReviewId, Review>, id: TitleId)
    requires ReviewsValid(users, titles, reviews)
    ensures ReviewsValid(users, titles - {id}, ReviewsKept(reviews, {id}, {}))
  {
    var kept := ReviewsKept(reviews, {id}, {});
    forall a, b | a in kept && b in kept && kept[a].title == kept[b].title && kept[a].author == kept[b].author
      ensures a == b
    {
      assert reviews[a] == kept[a] && reviews[b] == kept[b];
    }
  }

  /** The reviews an author's deletion leaves all have authors that remain. */
  lemma AuthorRemovedKeepsReviews(users: map<Username, Account>, titles: map<TitleId, Title>,
                                  reviews: map<ReviewId, Review>, name: Username)
    requires ReviewsValid(users, titles, reviews)
    ensures ReviewsValid(users - {name}, titles, ReviewsKept(reviews, {}, {name}))
  {
    var kept := ReviewsKept(reviews, {}, {name});
    forall a, b | a in kept && b in kept && kept[a].title == kept[b].title && kept[a].author == kept[b].author
      ensures a == b
    {
      assert reviews[a] == kept[a] && reviews[b] == kept[b];
    }
  }

  /** The comments a cascade leaves point at reviews that remain and at authors that remain. */
  lemma CascadeKeepsComments(users: map<Username, Account>, reviews: map<ReviewId, Review>,
                             comments: map<CommentId, Comment>, live: map<ReviewId, Review>, dead: set<Username>)
    requires CommentsValid(users, reviews, comments)
    ensures CommentsValid(users - dead, live, CommentsKept(comments, live.Keys, dead))
  {
  }

  /** Dropping rows keeps every id below the counter. */
  lemma SubmapsKeepIdsBelow(titles: map<TitleId, Title>, reviews: map<ReviewId, Review>,
                            comments: map<CommentId, Comment>, titles': map<TitleId, Title>,
                            reviews': map<ReviewId, Review>, comments': map<CommentId, Comment>, bound: nat)
    requires IdsBelow(titles, reviews, comments, bound)
    requires titles'.Keys <= titles.Keys && reviews'.Keys <= reviews.Keys && comments'.Keys <= comments.Keys
    ensures IdsBelow(titles', reviews', comments', bound)
  {
  }

  /** Every constraint of the schema, over the contents of all tables. */
  ghost predicate Consistent(users: map<Username, Account>, categories: map<Slug, Category>, genres: map<Slug, Genre>,
                             titles: map<TitleId, Title>, links: set<(TitleId, Slug)>, reviews: map<ReviewId, Review>,
                             comments: map<CommentId, Comment>, nextId: nat)
    ensures Consistent(users, categories, genres, titles, links, reviews, comments, nextId) ==>
      && nextId !in titles && nextId !in reviews && nextId !in comments
      && forall c :: c in comments ==> comments[c].review in reviews && reviews[comments[c].review].title in titles
  {
    && UsersValid(users)
    && CatalogValid(categories, genres, titles, links)
    && ReviewsValid(users, titles, reviews)
    && CommentsValid(users, reviews, comments)
    && IdsBelow(titles, reviews, comments, nextId)
  }

  /** Deleting a title, with its cascades, keeps every constraint. */
  lemma {:induction false} TitleDeletionConsistent(users: map<Username, Account>, categories: map<Slug, Category>,
                                                   genres: map<Slug, Genre>, titles: map<TitleId, Title>,
                                                   links: set<(TitleId, Slug)>, reviews: map<ReviewId, Review>,
                                                   comments: map<CommentId, Comment>, nextId: nat, id: TitleId)
    requires Consistent(users, categories, genres, titles, links, reviews, comments, nextId)
    ensures var keptReviews := ReviewsKept(reviews, {id}, {});
      Consistent(users, categories, genres, titles - {id}, LinksWithoutTitle(links, id),
                 keptReviews, CommentsKept(comments, keptReviews.Keys, {}), nextId)
  {
    var keptReviews := ReviewsKept(reviews, {id}, {});
    TitleRemovedKeepsCatalog(categories, genres, titles, links, id);
    TitleRemovedKeepsReviews(users, titles, reviews, id);
    CascadeKeepsComments(users, reviews, comments, keptReviews, {});
    assert users - {} == users;
    SubmapsKeepIdsBelow(titles, reviews, comments, titles - {id}, keptReviews,
                        CommentsKept(comments, keptReviews.Keys, {}), nextId);
  }

  /** Adding a title under the next id, with links to existing genres, keeps every constraint. */
  lemma {:induction false} TitleInsertionConsistent(users: map<Username, Account>, categories: map<Slug, Category>,
                                                    genres: map<Slug, Genre>, titles: map<TitleId, Title>,
                                                    links: set<(TitleId, Slug)>, reviews: map<ReviewId, Review>,
                                                    comments: map<CommentId, Comment>, nextId: nat,
                                                    t: Title, genreSlugs: set<Slug>)
    requires Consistent(users, categories, genres, titles, links, reviews, comments, nextId)
    requires t.category.Some? ==> t.category.value in categories
    requires genreSlugs <= genres.Keys
    ensures nextId !in titles
    ensures Consistent(users, categories, genres, titles[nextId := t], links + TitleLinks(nextId, genreSlugs),
                       reviews, comments, nextId + 1)
  {
    var titles' := titles[nextId := t];
    var links' := links + TitleLinks(nextId, genreSlugs);
    assert CatalogValid(categories, genres, titles', links');
    assert ReviewsValid(users, titles', reviews);
    assert IdsBelow(titles', reviews, comments, nextId + 1);
  }

  /** Deleting a user, with its cascades, keeps every constraint. */
  lemma {:induction false} UserDeletionConsistent(users: map<Username, Account>, categories: map<Slug, Category>,
                                                  genres: map<Slug, Genre>, titles: map<TitleId, Title>,
                                                  links: set<(TitleId, Slug)>, reviews: map<ReviewId, Review>,
                                                  comments: map<CommentId, Comment>, nextId: nat, name: Username)
    requires Consistent(users, categories, genres, titles, links, reviews, comments, nextId)
    ensures var keptReviews := ReviewsKept(reviews, {}, {name});
      Consistent(users - {name}, categories, genres, titles, links,
                 keptReviews, CommentsKept(comments, keptReviews.Keys, {name}), nextId)
  {
    var keptReviews := ReviewsKept(reviews, {}, {name});
    AuthorRemovedKeepsReviews(users, titles, reviews, name);
    CascadeKeepsComments(users, reviews, comments, keptReviews, {name});
    SubmapsKeepIdsBelow(titles, reviews, comments, titles, keptReviews,
                        CommentsKept(comments, keptReviews.Keys, {name}), nextId);
  }

  // ---------------------------------------------------------------- the database

  class Database {
    var users: map<Username, Account>
    var categories: map<Slug, Category>
    var genres: map<Slug, Genre>
    var titles: map<TitleId, Title>
    var genreLinks: set<(TitleId, Slug)>   // the GenreTitle rows
    var reviews: map<ReviewId, Review>
    var comments: map<CommentId, Comment>
    var nextId: nat                        // the next primary key the sequences hand out

    ghost predicate Valid()
      reads this
    {
      Consistent(users, categories, genres, titles, genreLinks, reviews, comments, nextId)
    }

    constructor ()
      ensures Valid()
      ensures users == map[] && categories == map[] && genres == map[] && titles == map[]
      ensures genreLinks == {} && reviews == map[] && comments == map[]
    {
      users, categories, genres, titles := map[], map[], map[], map[];
      genreLinks, reviews, comments, nextId := {}, map[], map[], 0;
    }

    // ------------------------------------------------------------ writes

    /** `user.save()`: insert or update one row; the unique email constraint refuses a clash. */
    method SaveUser(name: Username, a: Account) returns (ok: bool)
      requires Valid()
      modifies this`users
      ensures Valid()
      ensures ok <==> EmailFree(old(users), a.email, name)
      ensures users == if ok then old(users)[name := a] else old(users)
    {
      ok := EmailFree(users, a.email, name);
      if ok {
        users := users[name := a];
      }
    }

    /** Insert a category or genre row; the unique slug constraint refuses a clash. */
    method InsertCategory(slug: Slug, c: Category) returns (ok: bool)
      requires Valid() && ValidSlug(slug)
      modifies this`categories
      ensures Valid()
      ensures ok <==> slug !in old(categories)
      ensures categories == if ok then old(categories)[slug := c] else old(categories)
    {
      ok := slug !in categories;
      if ok {
        categories := categories[slug := c];
      }
    }

    method InsertGenre(slug: Slug, g: Genre) returns (ok: bool)
      requires Valid() && ValidSlug(slug)
      modifies this`genres
      ensures Valid()
      ensures ok <==> slug !in old(genres)
      ensures genres == if ok then old(genres)[slug := g] else old(genres)
    {
      ok := slug !in genres;
      if ok {
        genres := genres[slug := g];
      }
    }

    /** Insert a title and one GenreTitle row per genre. */
    method InsertTitle(t: Title, genreSlugs: set<Slug>) returns (id: TitleId)
      requires Valid()
      requires t.category.Some? ==> t.category.value in categories
      requires genreSlugs <= genres.Keys
      modifies this`titles, this`genreLinks, this`nextId
      ensures Valid()
      ensures id !in old(titles) && titles == old(titles)[id := t]
      ensures genreLinks == old(genreLinks) + TitleLinks(id, genreSlugs)
    {
      TitleInsertionConsistent(users, categories, genres, titles, genreLinks, reviews, comments, nextId, t, genreSlugs);
      id := nextId;
      titles := titles[id := t];
      genreLinks := genreLinks + TitleLinks(id, genreSlugs);
      nextId := nextId + 1;
    }

    /** Insert a review; the `unique_review` constraint refuses a second review of a title by one author. */
    method InsertReview(r: Review) returns (ok: bool, id: ReviewId)
      requires Valid()
      requires r.title in titles && r.author in users && ValidScore(r.score)
      modifies this`reviews, this`nextId
      ensures Valid()
      ensures ok <==> !HasReviewBy(old(reviews), r.title, r.author)
      ensures ok ==> id !in old(reviews) && reviews == old(reviews)[id := r]
      ensures !ok ==> reviews == old(reviews) && nextId == old(nextId)
    {
      ok := !HasReviewBy(reviews, r.title, r.author);
      id := nextId;
      if ok {
        InsertKeepsUnique(reviews, id, r);
        reviews := reviews[id := r];
        nextId := nextId + 1;
      }
    }

    /** `review.save()` on an existing row: only the text and the score can change. */
    method UpdateReview(id: ReviewId, text: string, score: int)
      requires Valid() && id in reviews && ValidScore(score)
      modifies this`reviews
      ensures Valid()
      ensures reviews == old(reviews)[id := old(reviews)[id].(text := text, score := score)]
    {
      var r := reviews[id].(text := text, score := score);
      reviews := reviews[id := r];
      assert forall x :: x in reviews ==> reviews[x].title == old(reviews)[x].title && reviews[x].author == old(reviews)[x].author;
    }

    method InsertComment(c: Comment) returns (id: CommentId)
      requires Valid()
      requires c.review in reviews && c.author in users
      modifies this`comments, this`nextId
      ensures Valid()
      ensures id !in old(comments) && comments == old(comments)[id := c]
    {
      id := nextId;
      comments := comments[id := c];
      nextId := nextId + 1;
    }

    // ------------------------------------------------------------ deletes

    /** Deleting a category sets the category of every title that referenced it to null. */
    method DeleteCategory(slug: Slug)
      requires Valid() && slug in categories
      modifies this`categories, this`titles
      ensures Valid()
      ensures categories == old(categories) - {slug}
      ensures titles == CategoryCleared(old(titles), slug)
    {
      categories := categories - {slug};
      titles := CategoryCleared(titles, slug);
    }

    /** Deleting a genre removes its GenreTitle rows; titles stay. */
    method DeleteGenre(slug: Slug)
      requires Valid() && slug in genres
      modifies this`genres, this`genreLinks
      ensures Valid()
      ensures genres == old(genres) - {slug}
      ensures genreLinks == set l | l in old(genreLinks) && l.1 != slug
    {
      genres := genres - {slug};
      genreLinks := set l | l in genreLinks && l.1 != slug;
    }

    /** Deleting a title removes its GenreTitle rows, its reviews and their comments. */
    method DeleteTitle(id: TitleId)
      requires Valid() && id in titles
      modifies this`titles, this`genreLinks, this`reviews, this`comments
      ensures Valid()
      ensures titles == old(titles) - {id}
      ensures genreLinks == LinksWithoutTitle(old(genreLinks), id)
      ensures reviews == ReviewsKept(old(reviews), {id}, {})
      ensures comments == CommentsKept(old(comments), reviews.Keys, {})
    {
      TitleDeletionConsistent(users, categories, genres, titles, genreLinks, reviews, comments, nextId, id);
      titles := titles - {id};
      genreLinks := LinksWithoutTitle(genreLinks, id);
      reviews := ReviewsKept(reviews, {id}, {});
      comments := CommentsKept(comments, reviews.Keys, {});
    }

    /** Deleting a review removes its comments. */
    method DeleteReview(id: ReviewId)
      requires Valid() && id in reviews
      modifies this`reviews, this`comments
      ensures Valid()
      ensures reviews == old(reviews) - {id}
      ensures comments == CommentsKept(old(comments), reviews.Keys, {})
    {
      reviews := reviews - {id};
      comments := CommentsKept(comments, reviews.Keys, {});
    }

    method DeleteComment(id: CommentId)
      requires Valid() && id in comments
      modifies this`comments
      ensures Valid()
      ensures comments == old(comments) - {id}
    {
      comments := comments - {id};
    }

    /** Deleting a user removes their reviews, their comments, and the comments on their reviews. */
    method DeleteUser(name: Username)
      requires Valid() && name in users
      modifies this`users, this`reviews, this`comments
      ensures Valid()
      ensures users == old(users) - {name}
      ensures reviews == ReviewsKept(old(reviews), {}, {name})
      ensures comments == CommentsKept(old(comments), reviews.Keys, {name})
    {
      UserDeletionConsistent(users, categories, genres, titles, genreLinks, reviews, comments, nextId, name);
      users := users - {name};
      reviews := ReviewsKept(reviews, {}, {name});
      comments := CommentsKept(comments, reviews.Keys, {name});
    }
  }
}
