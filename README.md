# yamdb: a verified model of the review service's core

yamdb is a Django REST backend. Users sign up, receive a confirmation code by
mail and exchange it for an access token. Administrators curate a catalog of
titles, categories and genres. Users review titles with a score from 1 to 10
and comment on reviews. A title shows a rating: the mean score of its reviews.

This project models the parts of that backend that carry logic of their own:

- **Permissions** (`permissions.dfy`). The three permission classes are
  boolean decisions over the request method and the requesting user. The
  role predicates of the user are in `models.dfy`.
- **Signup and token exchange** (`user_serializers.dfy`, `user_views.dfy`).
  - The two serializers are modelled field by field: strip, refuse blank,
    length bounds, the slug pattern, the uniqueness validators and
    `validate_username`.
  - The two views are methods on the database.
  - Both are also transitions on the user table (`AfterSignup`,
    `AfterGetToken`), and the lemmas are stated about those transitions.
- **The store** (`store.dfy`). One `Database` class holds every table:
  - the unique constraints: email, slug, and one review per title and author;
  - what deleting a row does to the rows that reference it: CASCADE and
    SET_NULL.
  Every write method keeps the schema invariant `Valid()`.
- **The API** (`api_serializers.dfy`, `api_views.dfy`).
  - The serializers are the validation they perform.
  - Each viewset action is a function deciding its outcome, in the order
    Django REST framework runs its steps: `has_permission`, then the lookup
    (404), then `has_object_permission`, then the field stage, then
    `validate()`, then the save.
  - A method performs that outcome on the database.
  - The rating annotation is a (sum, count) pair over a title's reviews.

Modelling choices:

- Errors are values (`Responses.Error`): field errors, 404, 400, 401, 403, a
  database IntegrityError, and a 500 for an exception the code does not
  expect.
- Things the model cannot see are parameters:
  - `make_token`, `AccessToken.for_user` and the e-mail address grammar;
  - the current year;
  - creation timestamps.

**Signing up again.** Because `signup` calls `get_or_create`, one might
expect a repeated signup to find the existing user and re-send a fresh code.
The code refuses it instead. `SignUpSerializer` puts `UniqueValidator` on both fields, so a second signup
with the same username or email fails validation before `get_or_create`
runs. The "get" branch of `get_or_create` is dead, and a stored code is never
replaced. The model follows the code: see `UserViews.ValidatedSignUpCreates`
and `UserViews.RepeatedSignupRejected`.

**Comment URLs.** `CommentViewSet` looks the review up by its id alone. The
title id in the URL is never consulted, so a review's comments can be listed
and created under any title's path (`ApiViews.CommentsIgnoreTitle`). This is
modelled as written.

## Model

| member | source | states |
|---|---|---|
| Strings.Strip | api_yamdb/users/serializers.py:24-25 | CharField's trimming: the input is the result with whitespace-only text before and after it, so the result is the input's content less its surrounding whitespace; it has no surrounding whitespace, is empty iff the input is all whitespace, and an unpadded input is kept |
| Strings.LowerAscii | api_yamdb/users/serializers.py:15-16 | `str.lower` on ASCII: the same length, no capital letter left, and each character kept or, if a capital, replaced by its lower-case letter |
| Strings.LowerIsMe | api_yamdb/users/serializers.py:15-16 | a string lowers to "me" iff it is "me", "ME", "Me" or "mE" |
| Models.ParseRole | api_yamdb/reviews/models.py:8-16 | a stored role string reads back as a role exactly when it is one of the three choice keys, and then it is that role's key |
| Models.RoleKeyRoundTrip | api_yamdb/reviews/models.py:12-16 | every role's key reads back as that role |
| Models.LongestKey | api_yamdb/reviews/models.py:25 | the result bounds the key length of every choice and is attained by one of them: it is the maximum |
| Models.RoleFieldWidth | api_yamdb/reviews/models.py:23-29 | the role column is 9 characters wide, and every role's key fits in it |
| Models.RolePredicates | api_yamdb/reviews/models.py:36-47 | is_admin iff the admin role or staff; is_moderator iff the moderator role; is_user iff the user role; a non-staff account satisfies exactly one of them; staff is always admin |
| Models.IsAdmin | api_yamdb/reviews/models.py:36-39 | true iff the stored role key is "admin" or the staff flag is set |
| Models.IsModerator | api_yamdb/reviews/models.py:41-43 | true iff the stored role key is "moderator" |
| Models.IsUser | api_yamdb/reviews/models.py:45-47 | true iff the stored role key is "user" |
| Models.MatchesSlugPattern | api_yamdb/reviews/models.py:56-58 | the regex `^[-a-zA-Z0-9_]+$` under Python's `$`: a string matches iff it is a non-empty run of slug characters, or such a run followed by one final newline |
| Models.SlugPatternOnStripped | api_yamdb/reviews/models.py:56-58 | on a stripped string, the slug regex accepts exactly the non-empty strings made of `[-a-zA-Z0-9_]` |
| Models.SlugPatternAcceptsFinalNewline | api_yamdb/reviews/models.py:56-58 | the custom regex alone, as Python runs it (`$` before a final newline), accepts "rock\n", which holds a character outside the class |
| Models.ValidSlug | api_yamdb/reviews/models.py:50-59 | the SlugField column, with its own `validate_slug` beside the custom regex, accepts exactly the strings of 1 to 50 characters from `[-a-zA-Z0-9_]` |
| Models.FinalNewlineSlugRefused | api_yamdb/reviews/models.py:52-58 | "rock\n" passes the custom regex but not the column, whose `validate_slug` anchors with `\Z` |
| Models.ModelYearValid | api_yamdb/reviews/models.py:83-91 | a year the column accepts lies between 0 and the year the module was loaded; while that year fits a positive small integer, that is the whole condition |
| Models.DefaultScoreValid | api_yamdb/reviews/models.py:166-173 | the default score 1 lies in the allowed range [1, 10] |
| Models.ValidScore | api_yamdb/reviews/models.py:166-171 | a score is valid iff it lies in 1..10, and every valid score fits the positive small integer column |
| Models.NewAccount | api_yamdb/reviews/models.py:19-34 | the row get_or_create inserts: the given email, the default plain user role with no admin, moderator or superuser rights, active, with a blank code, names and bio |
| Permissions.Refusal | api_yamdb/api/permissions.py:5 | a refused anonymous requester gets 401; an authenticated one gets 403 with the class's message |
| Permissions.OwnerAllows | api_yamdb/api/permissions.py:7-15 | has_permission and then has_object_permission together allow iff the method is safe, or the requester is authenticated and an admin, a moderator or the author |
| Permissions.OwnerHasPermission | api_yamdb/api/permissions.py:13-15 | passes iff the method is safe or the requester is authenticated |
| Permissions.OwnerHasObjectPermission | api_yamdb/api/permissions.py:7-11 | faults (no is_admin on an anonymous user) exactly for an unsafe anonymous request; allows iff the method is safe or the requester has a non-plain role, the staff flag, or wrote the object |
| Permissions.AdminHasPermission | api_yamdb/api/permissions.py:21-23 | passes iff authenticated and admin role, staff or superuser, whatever the method |
| Permissions.AdminOrReadOnlyHasPermission | api_yamdb/api/permissions.py:29-32 | passes iff the method is safe or IsAdmin would pass |
| Permissions.SafeMethodsAllowed | api_yamdb/api/permissions.py:7-15 | a safe method passes both has_permission and has_object_permission, whoever asks |
| Permissions.UnsafeNeedsAuthentication | api_yamdb/api/permissions.py:13-15 | an unsafe method passes has_permission iff the requester is authenticated |
| Permissions.UnsafeObjectDecision | api_yamdb/api/permissions.py:7-11 | for an authenticated requester and an unsafe method, the object check allows iff admin, moderator or author, and never raises |
| Permissions.PlainUserDeniedOthersObjects | api_yamdb/api/permissions.py:7-11 | a plain-role, non-staff user who is not the author is denied, and the combined check refuses them |
| Permissions.AnonymousNeverWrites | api_yamdb/api/permissions.py:7-15 | the combined check refuses every unsafe request from an anonymous requester, at has_permission |
| Permissions.ObjectCheckNeverFaultsAfterGate | api_yamdb/api/permissions.py:7-15 | once has_permission passed, has_object_permission never reads `is_admin` from AnonymousUser |
| Permissions.AdminDecision | api_yamdb/api/permissions.py:18-23 | IsAdmin allows iff authenticated and (admin or superuser), and the method makes no difference |
| Permissions.NonAdminDeniedEvenReads | api_yamdb/api/permissions.py:21-23 | a requester who is neither admin, staff nor superuser is refused even a GET |
| Permissions.AdminOrReadOnlyDecision | api_yamdb/api/permissions.py:26-32 | IsAdminOrReadOnly allows every safe method, and on unsafe methods decides exactly as IsAdmin |
| Permissions.AdminImpliesAdminOrReadOnly | api_yamdb/api/permissions.py:21-32 | whatever IsAdmin allows, IsAdminOrReadOnly allows |
| Permissions.SuperuserNotOwnerAdmin | api_yamdb/api/permissions.py:7-11 | a superuser with the plain role and no staff flag passes IsAdmin but may not change another author's review or comment |
| UserSerializers.CharFieldValue | api_yamdb/users/serializers.py:24-26 | a CharField yields a value iff the input is present and not all whitespace; the value is the stripped input, non-empty and unpadded |
| UserSerializers.BoundedCharField | api_yamdb/users/serializers.py:24-26 | accepts iff the input is present and its stripped form is non-blank, within max_length and free of NUL; the value is then that stripped form, non-empty and unpadded |
| UserSerializers.CleanValuePasses | api_yamdb/users/serializers.py:24-26 | a value that needs no stripping and meets the bounds passes unchanged |
| UserSerializers.ValidateUsername | api_yamdb/users/serializers.py:15-18 | refuses exactly "me", "ME", "Me" and "mE" with the reserved-name message; returns any other value unchanged |
| UserSerializers.SignUpUsername | api_yamdb/users/serializers.py:9-11 | the username field accepts exactly a stripped slug of 1 to 150 characters that no user holds and that is not "me" in any case |
| UserSerializers.AcceptedUsernameIsClean | api_yamdb/users/serializers.py:9-11 | a username the signup field accepts is non-blank, unpadded, at most 150 long and NUL-free |
| UserSerializers.SignUpEmail | api_yamdb/users/serializers.py:12-13 | the email field accepts exactly a non-blank, NUL-free, well-formed stripped address that no user holds |
| UserSerializers.ValidateSignUp | api_yamdb/users/serializers.py:8-21 | succeeds iff both fields accept; the data is then the stripped values, an acceptable username and an unused email; on failure the error names exactly the failing fields |
| UserSerializers.TakenUsernameRejected | api_yamdb/users/serializers.py:9-11 | a username some user holds is refused on the username field |
| UserSerializers.TakenEmailRejected | api_yamdb/users/serializers.py:12-13 | an email some user holds is refused on the email field |
| UserSerializers.BothTakenRejected | api_yamdb/users/serializers.py:8-13 | a username and an email both already held are refused on exactly those two fields |
| UserSerializers.ReservedUsernameRejected | api_yamdb/users/serializers.py:15-17 | "me" in any case, after stripping, is refused on the username field |
| UserSerializers.ValidateGetToken | api_yamdb/users/serializers.py:24-29 | succeeds iff username (at most 150) and code (at most 50) are both present and non-blank; the data is the stripped values; on failure the error names exactly the failing fields |
| UserSerializers.TokenFieldsRequired | api_yamdb/users/serializers.py:25-26 | a missing username or code is named in the error |
| UserViews.GetOrCreate | api_yamdb/users/views.py:20-23 | reuses the row with both values; otherwise fails with IntegrityError if either value is taken; otherwise creates a default row |
| UserViews.ValidatedSignUpCreates | api_yamdb/users/views.py:18-23 | after validation, get_or_create always creates: the reuse branch is dead |
| UserViews.Pending | api_yamdb/users/views.py:24-25 | the row becomes inactive and holds make_token of that inactive row; nothing else changes |
| UserViews.Register | api_yamdb/users/views.py:20-26 | the table gains exactly the new username, whose row holds the email, the default role, no staff or superuser flag, is inactive and holds the code make_token gives for it; every other row is unchanged |
| UserViews.AfterSignup | api_yamdb/users/views.py:16-26 | a refused signup leaves the table as it was; an accepted one adds exactly the stripped username, which was not taken, as an inactive row, and keeps every old row |
| UserViews.FailedSignupChangesNothing | api_yamdb/users/views.py:18-19 | a signup that fails validation leaves the user table unchanged |
| UserViews.SignupEffect | api_yamdb/users/views.py:20-26 | signup adds exactly the new username; the new row holds the email, is inactive, has the user role and holds make_token's code; every other row is unchanged |
| UserViews.SignupKeepsEmailsUnique | api_yamdb/users/views.py:20-26 | registering an unused email keeps email unique across users |
| UserViews.RepeatedSignupRejected | api_yamdb/users/views.py:16-26 | repeating a successful signup is refused on both fields and changes nothing, so a stored code is never replaced |
| UserViews.CreatePending | api_yamdb/users/views.py:20-26 | keeps the store valid; the table gains exactly the new pending row |
| UserViews.Signup | api_yamdb/users/views.py:16-33 | keeps the store valid; the table becomes AfterSignup; a failure returns the field errors and sends no mail; a success returns the data and mails the stored code to the email as sent |
| UserViews.Exchange | api_yamdb/users/views.py:42-50 | succeeds iff the user exists and the stored code equals the one sent; an unknown user gets NotFound; a wrong code gets 400 with the single generic message |
| UserViews.Activated | api_yamdb/users/views.py:49-50 | the user becomes active and every other row is unchanged |
| UserViews.AfterExchange | api_yamdb/users/views.py:42-50 | the usernames never change; a failed exchange changes nothing; a successful one makes exactly that user active and keeps every other row |
| UserViews.CheckCode | api_yamdb/users/views.py:36-50 | serializer errors come back as field errors; an unknown stripped username gets NotFound; for an existing user it succeeds iff the stored code equals the stripped code sent, and a mismatch gets 400 with the generic message |
| UserViews.AfterGetToken | api_yamdb/users/views.py:36-50 | the usernames never change; a refused request changes nothing; a successful one activates that user and keeps every other row |
| UserViews.GetToken | api_yamdb/users/views.py:36-53 | keeps the store valid; the table becomes AfterGetToken; the answer is CheckCode's error, or the token for_user gives for the now active user |
| UserViews.StaleCodeRejected | api_yamdb/users/views.py:43-48 | a code other than the stored one gets the generic 400 and changes nothing |
| UserViews.UnknownUserNotFound | api_yamdb/users/views.py:42 | an unknown username gets NotFound and changes nothing |
| UserViews.InvalidTokenRequestChangesNothing | api_yamdb/users/views.py:38-41 | a request the serializer refuses gets the field errors and changes nothing |
| UserViews.BlankStoredCodeNeverMatches | api_yamdb/users/views.py:43 | a user whose stored code is blank can never obtain a token |
| UserViews.ExchangeIdempotent | api_yamdb/users/views.py:49-53 | a second exchange leaves the table as the first did and gets the same answer |
| UserViews.GetTokenIdempotent | api_yamdb/users/views.py:36-53 | the same for a whole token request |
| UserViews.StoredCodeAccepted | api_yamdb/users/views.py:42-50 | sending the stored code with the username succeeds and activates the user |
| UserViews.SignupThenGetToken | api_yamdb/users/views.py:16-53 | after a successful signup, the username with the mailed code obtains a token and activates the user, provided make_token's code passes the code field unchanged |
| UserViews.RegisteredThenGetToken | api_yamdb/users/views.py:20-53 | the same round trip, stated on the validated signup data |
| Store.Consistent | api_yamdb/reviews/models.py:19-197 | the schema constraints on the tables; a consistent store has the id counter unused in titles, reviews and comments, and every comment's review exists and belongs to an existing title |
| Store.ReviewByAfterInsert | api_yamdb/api/serializers.py:52-53 | after a review is stored under a new id, the (title, author) pairs that `Review.objects.filter(title=..., author=...).exists()` finds are the old ones plus that review's own |
| Store.UniqueReviews | api_yamdb/reviews/models.py:178-183 | unique_review holds iff no stored review has a twin (same title and author) among the other reviews |
| Store.InsertKeepsUnique | api_yamdb/reviews/models.py:178-183 | adding a review for an unreviewed (title, author) pair keeps unique_review |
| Store.ReviewsKept | api_yamdb/reviews/models.py:140-144 | the reviews left are exactly those whose title and author both survive, each unchanged |
| Store.CommentsKept | api_yamdb/reviews/models.py:188-192 | the comments left are exactly those whose review and author both survive, each unchanged |
| Store.LinksWithoutTitle | api_yamdb/reviews/models.py:117-121 | the GenreTitle rows left are exactly those not belonging to the deleted title |
| Store.TitleLinks | api_yamdb/reviews/models.py:117-121 | the GenreTitle rows of a new title are exactly one (title, genre) pair per genre slug sent |
| Store.CategoryCleared | api_yamdb/reviews/models.py:96-103 | the same titles remain; none references the deleted category; those that did lose their category and nothing else |
| Store.TitleDeletionConsistent | api_yamdb/reviews/models.py:117-165 | deleting a title with its cascades keeps every schema constraint |
| Store.TitleInsertionConsistent | api_yamdb/reviews/models.py:81-121 | adding a title under the next id, with an existing category and links to existing genres, keeps every schema constraint |
| Store.UserDeletionConsistent | api_yamdb/reviews/models.py:140-144 | deleting a user with its cascades keeps every schema constraint |
| Store.Database.constructor | api_yamdb/reviews/models.py:19-197 | an empty database satisfies every constraint |
| Store.Database.SaveUser | api_yamdb/reviews/models.py:21 | keeps the store valid; saves iff no other user holds the email; otherwise the table is unchanged |
| Store.Database.InsertCategory | api_yamdb/reviews/models.py:52-59 | keeps the store valid; inserts iff the slug is unused |
| Store.Database.InsertGenre | api_yamdb/reviews/models.py:52-59 | keeps the store valid; inserts iff the slug is unused |
| Store.Database.InsertTitle | api_yamdb/reviews/models.py:81-103 | keeps the store valid; adds the title under a fresh id, with one GenreTitle row per genre |
| Store.Database.InsertReview | api_yamdb/reviews/models.py:178-183 | keeps the store valid; inserts under a fresh id iff the author has not reviewed the title; otherwise neither the reviews nor the id counter change |
| Store.Database.UpdateReview | api_yamdb/reviews/models.py:160-173 | keeps the store valid; only that review's text and score change |
| Store.Database.InsertComment | api_yamdb/reviews/models.py:187-192 | keeps the store valid; adds the comment under a fresh id |
| Store.Database.DeleteCategory | api_yamdb/reviews/models.py:96-103 | keeps the store valid; removes the category; referencing titles get a null category |
| Store.Database.DeleteGenre | api_yamdb/reviews/models.py:122-126 | keeps the store valid; removes the genre and its GenreTitle rows |
| Store.Database.DeleteTitle | api_yamdb/reviews/models.py:117-165 | keeps the store valid; removes the title, its GenreTitle rows, its reviews and their comments |
| Store.Database.DeleteReview | api_yamdb/reviews/models.py:188-192 | keeps the store valid; removes the review and its comments |
| Store.Database.DeleteComment | api_yamdb/reviews/models.py:187-197 | keeps the store valid; removes just that comment |
| Store.Database.DeleteUser | api_yamdb/reviews/models.py:140-144 | keeps the store valid; removes the user, their reviews, their comments and the comments on their reviews |
| ApiSerializers.ParseText | api_yamdb/api/serializers.py:13-44 | a required text field accepts iff present, not blank, NUL-free and within max_length after stripping, and yields the stripped value; a partial update may omit it |
| ApiSerializers.ParseBlankable | api_yamdb/api/serializers.py:102-116 | an optional blank-allowed field accepts blank as "" and otherwise the stripped value within max_length |
| ApiSerializers.ParseScore | api_yamdb/api/serializers.py:35-40 | the score is accepted iff present and in [1, 10], and is returned unchanged |
| ApiSerializers.ReviewFields | api_yamdb/api/serializers.py:25-44 | succeeds iff text and score pass; the data is the stripped text and the score; on failure the error names exactly the failing fields |
| ApiSerializers.ReviewReadOnlyFieldsIgnored | api_yamdb/api/serializers.py:26-34 | the author and title a client sends never affect validation |
| ApiSerializers.ValidateReview | api_yamdb/api/serializers.py:46-54 | other methods get their data back unchanged; POST succeeds iff the title exists and the requester has not reviewed it; a missing title is NotFound; a duplicate is the non-field error |
| ApiSerializers.ValidatedReviewKeepsUnique | api_yamdb/api/serializers.py:46-54 | a review that passed validate on POST can be stored without breaking unique_review |
| ApiSerializers.SecondReviewRefused | api_yamdb/api/serializers.py:52-53 | a stored review's author is refused a second review of that title, whatever its text |
| ApiSerializers.CommentFields | api_yamdb/api/serializers.py:13-22 | succeeds iff the text is present, non-blank and NUL-free, yielding the stripped text; otherwise only the text field is in error |
| ApiSerializers.ParseSlug | api_yamdb/api/serializers.py:57-66 | accepts exactly a stripped slug of 1 to 50 characters from `[-a-zA-Z0-9_]` that is not taken |
| ApiSerializers.CatalogFields | api_yamdb/api/serializers.py:57-66 | succeeds iff name (at most 256) and slug pass; on failure the error names exactly the failing fields |
| ApiSerializers.TakenSlugRefused | api_yamdb/api/serializers.py:57-66 | a slug already taken is refused on the slug field |
| ApiSerializers.ParseYearAsWritten | api_yamdb/api/serializers.py:95-99 | the year as built: absent is skipped, null raises, a number is accepted iff 0 <= y <= load year and y <= current year |
| ApiSerializers.ParseYear | api_yamdb/api/serializers.py:95-99 | the intended year rule: null accepted, a number accepted iff in the column's range and not after the current year, returned unchanged; never raises |
| ApiSerializers.YearRulesAgreeWithinLoadYear | api_yamdb/api/serializers.py:95-99 | while the process runs in the year it was started, both rules agree on every number |
| ApiSerializers.NullYearCrashes | api_yamdb/api/serializers.py:95-99 | an explicit null year raises in the code but is accepted by the corrected rule |
| ApiSerializers.StaleYearBoundRefusesCurrentYear | api_yamdb/reviews/models.py:85-88 | a process started in 2025 refuses the year 2026 in 2026, which the corrected rule accepts |
| ApiSerializers.ParseCategory | api_yamdb/api/serializers.py:86-88 | accepted iff the unstripped slug names a category; absent is skipped |
| ApiSerializers.ParseGenres | api_yamdb/api/serializers.py:83-85 | accepted iff every slug names a genre; the result is the set of the slugs sent |
| ApiSerializers.TitleErrors | api_yamdb/api/serializers.py:82-99 | a title field is in error iff its own rule refuses it |
| ApiSerializers.TitleFields | api_yamdb/api/serializers.py:82-99 | succeeds iff no field is in error; the data then has a name of at most 256, a valid year, a non-blank description, known genres and a known category; the year, genre set and category are those sent |
| ApiSerializers.ProfileErrors | api_yamdb/api/serializers.py:102-116 | a profile field is in error iff its own rule refuses it |
| ApiSerializers.ProfileFields | api_yamdb/api/serializers.py:115-116 | succeeds iff no field is in error; exactly the fields sent are patched, with stripped values within their bounds |
| ApiSerializers.ApplyProfile | api_yamdb/api/views.py:102 | the patched fields change and everything else stays, the role included |
| ApiSerializers.EmptyProfileChangesNothing | api_yamdb/api/views.py:88-103 | an empty body validates and leaves the row as it was |
| ApiSerializers.ProfileRoleIgnored | api_yamdb/api/serializers.py:115-116 | the role a client sends never affects validation or the saved row |
| ApiViews.TakeTitle | api_yamdb/api/views.py:71-72 | finds the title iff it exists, else NotFound |
| ApiViews.TakeReview | api_yamdb/api/views.py:57-58 | finds the review iff it exists, else NotFound |
| ApiViews.ListReviews | api_yamdb/api/views.py:74-75 | exactly the reviews of the URL's title; NotFound iff the title does not exist |
| ApiViews.ListedReviewsHaveDistinctAuthors | api_yamdb/api/views.py:74-75 | under unique_review, two listed reviews of one title have different authors |
| ApiViews.ListComments | api_yamdb/api/views.py:60-61 | exactly the comments of the URL's review; NotFound iff the review does not exist |
| ApiViews.CommentsIgnoreTitle | api_yamdb/api/views.py:57-61 | the title id in the URL does not affect the comment list |
| ApiViews.FindReview | api_yamdb/api/views.py:74-75 | a review is found iff it exists and belongs to the URL's title |
| ApiViews.FindComment | api_yamdb/api/views.py:60-61 | a comment is found iff it exists and belongs to the URL's review |
| ApiViews.ReviewToCreate | api_yamdb/api/views.py:67-78 | anonymous gets 401; field errors come next; then a missing title gets 404, a second review by the requester gets the duplicate non-field error, and otherwise it succeeds; the review stored has the requester as author, the URL's title, the stripped text and the valid score |
| ApiViews.ReviewAuthorAndTitleFromRequest | api_yamdb/api/views.py:77-78 | the author and title in the body never change the outcome |
| ApiViews.SecondReviewNeverCreated | api_yamdb/api/views.py:67-78 | once a review is stored, the same author's next POST for that title fails |
| ApiViews.CreateReview | api_yamdb/api/views.py:77-78 | keeps the store valid; stores ReviewToCreate's review under a fresh id, or changes nothing and returns the error |
| ApiViews.ReviewToUpdate | api_yamdb/api/views.py:67-75 | anonymous gets 401, an unknown review NotFound, a non-owner 403; a permitted request succeeds iff the fields pass and otherwise gets their field errors; a success changes only the text and the score sent |
| ApiViews.PlainUserCannotEditOthersReview | api_yamdb/api/permissions.py:7-11 | a plain, non-staff user's PUT or PATCH of someone else's review fails |
| ApiViews.UpdateReview | api_yamdb/api/views.py:67-75 | keeps the store valid; the answer is ReviewToUpdate; only that review changes, and only on success |
| ApiViews.ReviewToDestroy | api_yamdb/api/views.py:67-75 | succeeds iff authenticated, the review belongs to the title, and the requester is admin, moderator or author; a review not found under the title is NotFound; a found one the requester may not delete is 403 with the owner message |
| ApiViews.DestroyReview | api_yamdb/api/views.py:67-75 | keeps the store valid; on success the review and its comments are gone; otherwise nothing changes |
| ApiViews.CommentToCreate | api_yamdb/api/views.py:53-64 | anonymous gets 401; then text errors; then it succeeds iff the review exists; the comment stored has the requester as author, the URL's review and the stripped text |
| ApiViews.CommentAuthorAndReviewFromRequest | api_yamdb/api/serializers.py:13-22 | the author and review in the body never change the outcome |
| ApiViews.CreateComment | api_yamdb/api/views.py:63-64 | keeps the store valid; stores CommentToCreate's comment under a fresh id, or changes nothing and returns the error |
| ApiViews.CommentToDestroy | api_yamdb/api/views.py:53-61 | succeeds iff authenticated, the comment belongs to the review, and the requester is admin, moderator or author; a comment not found under the review is NotFound; a found one the requester may not delete is 403 with the owner message |
| ApiViews.DestroyComment | api_yamdb/api/views.py:53-61 | keeps the store valid; removes the comment on success; otherwise nothing changes |
| ApiViews.CatalogToCreate | api_yamdb/api/views.py:28-35 | succeeds iff the requester may write (IsAdminOrReadOnly) and the fields pass; a refused requester gets 401 or 403, a permitted one whose fields fail gets those fields' errors; the slug is then valid and unused |
| ApiViews.CatalogToDestroy | api_yamdb/api/views.py:28-35 | succeeds iff the requester may write and the slug exists; a permitted request for an unknown slug is NotFound |
| ApiViews.CreateCategory | api_yamdb/api/views.py:28-30 | keeps the store valid; inserts the category exactly on success |
| ApiViews.CreateGenre | api_yamdb/api/views.py:33-35 | keeps the store valid; inserts the genre exactly on success |
| ApiViews.DestroyCategory | api_yamdb/api/views.py:28-30 | keeps the store valid; on success removes the category and clears it from its titles |
| ApiViews.DestroyGenre | api_yamdb/api/views.py:33-35 | keeps the store valid; on success removes the genre and its links |
| ApiViews.TitleSerializerClass | api_yamdb/api/views.py:47-50 | list and retrieve use the read serializer; every other action uses the write serializer |
| ApiViews.TitleToCreate | api_yamdb/api/views.py:38-50 | succeeds iff the requester may write and the title fields pass under the corrected year rule; non-admins get 401 or 403, a permitted request whose fields fail gets those fields' errors |
| ApiViews.CreateTitle | api_yamdb/api/views.py:38-50 | keeps the store valid; on success adds the title and its genre links under a fresh id; otherwise nothing changes; the year rule is the corrected one |
| ApiViews.TitleToDestroy | api_yamdb/api/views.py:38-50 | succeeds iff the requester may write and the title exists; a permitted request for an unknown id is NotFound |
| ApiViews.DestroyTitle | api_yamdb/api/views.py:38-50 | keeps the store valid; on success the title, its GenreTitle rows, its reviews and their comments are gone; on failure none of these tables changes |
| ApiViews.ReviewCount | api_yamdb/api/views.py:39 | the count is the number of the title's reviews with an id below n, and so at most n |
| ApiViews.ScoreSum | api_yamdb/api/views.py:39 | a title without reviews has score sum 0; when every stored score is valid, the sum lies between the count and ten times the count |
| ApiViews.RatingInRange | api_yamdb/api/views.py:39 | the rating covers every review of the title; it is absent iff the title has none, and otherwise lies in [1, 10] |
| ApiViews.Rating | api_yamdb/api/views.py:39 | absent iff the title has no review; otherwise the largest integer q with q times the count at most the sum |
| ApiViews.RatingTruncatesMean | api_yamdb/api/serializers.py:72 | scores 3 and 4 show as rating 3: the integer field truncates the mean |
| ApiViews.ProfileUpdate | api_yamdb/api/views.py:88-103 | anonymous gets 401; succeeds iff the fields pass, and the row is then the requester's row with the sent fields applied; role, email, staff and superuser flags stay as they were |
| ApiViews.Me | api_yamdb/api/views.py:88-103 | keeps the store valid; on success only the requester's row changes, to ProfileUpdate's row |

## Left out

- Sending the mail (`send_mail`) is I/O. `Signup` returns the message it
  would send: the recipient and the code.
- `make_token`, `AccessToken.for_user` and Django's `EmailValidator` are
  parameters. users/tokens.py is not part of this model.
- Routing (api/urls.py, users/urls.py) and the viewset configuration in
  api/mixins.py are not modelled. Their effect is visible in the views as
  written: lookup by slug, IsAdminOrReadOnly on categories and genres,
  numeric ids.
- Filtering, search and ordering (`TitleFilter`, `SearchFilter`,
  `OrderingFilter`) and the `pub_date` ordering are not modelled. Lists are
  maps, not ordered sequences.
- Timestamps (`auto_now_add`) and the calendar year are parameters.
- Concurrent requests are out of scope. The model is sequential, and the race
  between two review creations is not represented.
- ApiViews.Rating: the float average `Avg` is modelled as the integer
  quotient of sum by count. The read serializer's IntegerField truncates it,
  and for positive scores that quotient is exactly the truncation.
- Operations not modelled:
  - `me` changing the username or the email: users are keyed by username,
    and the model's `me` patches first name, last name and bio.
  - The administrator's user endpoints (UserViewSet other than `me`).
  - Retrieve for reviews and comments, updating a comment, and updating a
    title.
  - Listing titles.
- Input coercion is not modelled: scores arrive as integers, not strings, and
  an explicit null category is not represented.
- Unicode behaviour is not modelled: lower-casing is ASCII only, and
  Django's UnicodeUsernameValidator on the user model is not applied.
  `validate_username` is exact: no non-ASCII character lowers to "m" or "e".
- ApiViews.TitleToCreate: built on the corrected year rule (`ParseYear`,
  see Findings), not the code's. The code answers 500 to an explicit null
  year, which this model accepts. It also refuses with 400 a year after the
  year the process started, which this model accepts up to the current
  year. The code's rule itself is `ApiSerializers.ParseYearAsWritten`.
- ApiViews.CreateTitle: stores what `TitleToCreate` accepts, so it shares the
  same corrected year rule.
- Ids: titles, reviews and comments draw their ids from one counter
  (`nextId`). Django keeps one sequence per table. Only freshness matters to
  the model, and the rating sums over ids below the counter.
- Store.Database.InsertTitle, InsertReview, InsertComment: foreign keys are
  preconditions, not IntegrityErrors. The views only insert rows whose
  references they have just looked up.

## Findings

| source | as written | input that shows it | evidently intended | confidence | as-written member | corrected member |
|---|---|---|---|---|---|---|
| api_yamdb/api/serializers.py:95-99 | the year column is nullable, so the generated field lets null through to `validate_year`, whose `None <= year` raises TypeError: a 500 | POST to titles with `"year": null` | a null year is stored as "no year" | medium, not executed | ApiSerializers.ParseYearAsWritten, ApiSerializers.NullYearCrashes | ApiSerializers.ParseYear, ApiSerializers.TitleFields |
| api_yamdb/reviews/models.py:85-88 | `MaxValueValidator(dt.date.today().year)` fixes the bound when the module is imported; the serializer copies it as the field's max_value, so after New Year the current year is refused until a restart | a process started in 2025, with a POST for year 2026 made in 2026 | the bound is the current year, as `validate_year` reads it | medium, not executed | ApiSerializers.ParseYearAsWritten, ApiSerializers.StaleYearBoundRefusesCurrentYear | ApiSerializers.ParseYear, ApiSerializers.YearRulesAgreeWithinLoadYear |
