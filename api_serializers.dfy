/**
 * The serializers of api/serializers.py, as the validation they perform on a
 * request body. Every field is run in turn and the errors of all fields are
 * collected; `validate()` runs only when every field passed. Fields declared
 * read-only (a review's author and title, a comment's author and review, a
 * user's role on `me`) are part of the input types below so that the model
 * can show they are discarded.
 */
module ApiSerializers {
  import opened Wrappers
  import opened Strings
  import opened Models
  import opened Responses
  import opened Store
  import opened Permissions
  import opened UserSerializers

  const DuplicateReviewMessage := "Данные не корректны"
  const PersonNameMaxLength: nat := 150   // first_name and last_name of Django's AbstractUser

  /**
   * What one field makes of its raw input: left out of a partial update,
   * a validated value, a ValidationError, or an exception other than a
   * ValidationError (which escapes the serializer as a 500 response).
   */
  datatype Parsed<+T> = Skipped | Parsed(value: T) | Rejected | Crashed

  /** The error entry of one field: the field when it failed, nothing otherwise. */
  function Flag(failed: bool, f: Field): (e: set<Field>)
    ensures f in e <==> failed
    ensures e <= {f}
  {
    if failed then {f} else {}
  }

  // ---------------------------------------------------------------- generic fields

  /**
   * A required CharField that refuses blank input (what ModelSerializer
   * builds for a TextField or CharField without `blank=True`), with an
   * optional `max_length`.
   */
  function ParseText(raw: Option<string>, maxLength: Option<nat>, partial: bool): (p: Parsed<string>)
    ensures p.Skipped? <==> raw.None? && partial
    ensures raw.None? && !partial ==> p.Rejected?
    ensures raw.Some? ==> (p.Parsed? <==>
      !AllSpace(raw.value) && '\0' !in Strip(raw.value) && (maxLength.Some? ==> |Strip(raw.value)| <= maxLength.value))
    ensures p.Parsed? ==> p.value == Strip(raw.value) && p.value != [] && Unpadded(p.value) && '\0' !in p.value
    ensures !p.Crashed?
  {
    if raw.None? then (if partial then Skipped else Rejected)
    else
      match CharFieldValue(raw)
      case None => Rejected
      case Some(s) => if '\0' !in s && (maxLength.None? || |s| <= maxLength.value) then Parsed(s) else Rejected
  }

  /** A CharField with `allow_blank=True` and `required=False`: blank input is accepted as the empty string. */
  function ParseBlankable(raw: Option<string>, maxLength: Option<nat>): (p: Parsed<string>)
    ensures p.Skipped? <==> raw.None?
    ensures raw.Some? ==> (p.Parsed? <==>
      '\0' !in Strip(raw.value) && (maxLength.Some? ==> |Strip(raw.value)| <= maxLength.value))
    ensures p.Parsed? ==> p.value == Strip(raw.value) && '\0' !in p.value
    ensures raw.Some? && AllSpace(raw.value) ==> p == Parsed([])
    ensures !p.Crashed?
  {
    if raw.None? then Skipped
    else
      var s := Strip(raw.value);
      if s == [] then Parsed([])
      else if '\0' !in s && (maxLength.None? || |s| <= maxLength.value) then Parsed(s)
      else Rejected
  }

  // ---------------------------------------------------------------- ReviewSerializer

  /** A review request body; `author` and `title` are read-only fields whatever the client puts there. */
  datatype ReviewInput = ReviewInput(text: Option<string>, score: Option<int>, author: Option<string>, title: Option<string>)

  /** The validated data of a review; `None` is a field a partial update leaves out. */
  datatype ReviewPatch = ReviewPatch(text: Option<string>, score: Option<int>)

  /** `IntegerField` with `MinValueValidator(1)` and `MaxValueValidator(10)`. */
  function ParseScore(raw: Option<int>, partial: bool): (p: Parsed<int>)
    ensures p.Skipped? <==> raw.None? && partial
    ensures p.Parsed? <==> raw.Some? && ValidScore(raw.value)
    ensures p.Parsed? ==> p.value == raw.value
    ensures !p.Crashed?
  {
    if raw.None? then (if partial then Skipped else Rejected)
    else if ScoreMin <= raw.value <= ScoreMax then Parsed(raw.value)
    else Rejected
  }

  /** The field stage of ReviewSerializer: `text` and `score`, both required unless the update is partial. */
  function ReviewFields(input: ReviewInput, partial: bool): (r: Result<ReviewPatch, set<Field>>)
    ensures r.Success? <==> !ParseText(input.text, None, partial).Rejected? && !ParseScore(input.score, partial).Rejected?
    ensures r.Success? ==>
      && (!partial ==> r.value.text.Some? && r.value.score.Some?)
      && (r.value.text.Some? <==> input.text.Some?)
      && (r.value.score.Some? <==> input.score.Some?)
      && (r.value.text.Some? ==> r.value.text.value == Strip(input.text.value) && r.value.text.value != [])
      && (r.value.score.Some? ==> r.value.score.value == input.score.value && ValidScore(r.value.score.value))
    ensures r.Failure? ==>
      && r.error != {} && r.error <= {TextField, ScoreField}
      && (TextField in r.error <==> ParseText(input.text, None, partial).Rejected?)
      && (ScoreField in r.error <==> ParseScore(input.score, partial).Rejected?)
  {
    var text := ParseText(input.text, None, partial);
    var score := ParseScore(input.score, partial);
    if text.Rejected? || score.Rejected? then
      Failure(Flag(text.Rejected?, TextField) + Flag(score.Rejected?, ScoreField))
    else
      Success(ReviewPatch(if text.Parsed? then Some(text.value) else None,
                          if score.Parsed? then Some(score.value) else None))
  }

  /** Whatever the client sends as `author` or `title` plays no part in validation. */
  lemma ReviewReadOnlyFieldsIgnored(input: ReviewInput, partial: bool, author: Option<string>, title: Option<string>)
    ensures ReviewFields(input.(author := author, title := title), partial) == ReviewFields(input, partial)
  {
  }

  /**
   * `ReviewSerializer.validate`: on POST, the title of the URL must exist
   * and the requester must not have reviewed it yet; any other method gets
   * its data back untouched.
   */
  function ValidateReview(m: Method, author: Username, titleId: TitleId, titles: map<TitleId, Title>,
                          reviews: map<ReviewId, Review>, data: ReviewPatch): (r: Result<ReviewPatch, Error>)
    ensures r.Success? ==> r.value == data
    ensures m != Post ==> r.Success?
    ensures m == Post ==> (r.Success? <==> titleId in titles && !HasReviewBy(reviews, titleId, author))
    ensures m == Post && titleId !in titles ==> r == Failure(NotFound)
    ensures r.Failure? && titleId in titles ==> r == Failure(NonFieldInvalid(DuplicateReviewMessage))
  {
    if m != Post then Success(data)
    else if titleId !in titles then Failure(NotFound)
    else if HasReviewBy(reviews, titleId, author) then Failure(NonFieldInvalid(DuplicateReviewMessage))
    else Success(data)
  }

  /** A review that passed `validate` on POST can be stored without breaking the `unique_review` constraint. */
  lemma ValidatedReviewKeepsUnique(reviews: map<ReviewId, Review>, titles: map<TitleId, Title>, data: ReviewPatch,
                                   id: ReviewId, r: Review)
    requires UniqueReviews(reviews) && id !in reviews
    requires ValidateReview(Post, r.author, r.title, titles, reviews, data).Success?
    ensures UniqueReviews(reviews[id := r])
  {
    InsertKeepsUnique(reviews, id, r);
  }

  /** A second review of one title by one author is refused on POST, whatever its text and score. */
  lemma SecondReviewRefused(reviews: map<ReviewId, Review>, titles: map<TitleId, Title>, data: ReviewPatch, id: ReviewId)
    requires id in reviews && reviews[id].title in titles
    ensures ValidateReview(Post, reviews[id].author, reviews[id].title, titles, reviews, data)
         == Failure(NonFieldInvalid(DuplicateReviewMessage))
  {
  }

  // ---------------------------------------------------------------- CommentSerializer

  /** A comment request body; `author` and `review` are read-only. */
  datatype CommentInput = CommentInput(text: Option<string>, author: Option<string>, review: Option<ReviewId>)

  /** The field stage of CommentSerializer: only `text` is writable, and it is required. */
  function CommentFields(input: CommentInput): (r: Result<string, set<Field>>)
    ensures r.Success? <==> input.text.Some? && !AllSpace(input.text.value) && '\0' !in Strip(input.text.value)
    ensures r.Success? ==> r.value == Strip(input.text.value) && r.value != []
    ensures r.Failure? ==> r.error == {TextField}
  {
    match ParseText(input.text, None, false)
    case Parsed(text) => Success(text)
    case _ => Failure({TextField})
  }

  // ---------------------------------------------------------------- CategorySerializer, GenreSerializer

  /** A category or genre request body. */
  datatype CatalogInput = CatalogInput(name: Option<string>, slug: Option<string>)
  datatype CatalogData = CatalogData(name: string, slug: Slug)

  /**
   * The slug column as a serializer field: stripped, at most 50
   * characters, the slug pattern, and `UniqueValidator` against the slugs
   * already taken.
   */
  function ParseSlug(raw: Option<string>, taken: set<Slug>): (p: Parsed<Slug>)
    ensures p.Parsed? <==> raw.Some? && var s := Strip(raw.value);
      0 < |s| <= SlugMaxLength && AllSlugChars(s) && s !in taken
    ensures p.Parsed? ==> p.value == Strip(raw.value) && ValidSlug(p.value)
    ensures !p.Skipped? && !p.Crashed?
  {
    match ParseText(raw, Some(SlugMaxLength), false)
    case Parsed(s) =>
      SlugPatternOnStripped(raw.value);
      if MatchesSlugPattern(s) && s !in taken then Parsed(s) else Rejected
    case _ => Rejected
  }

  /** CategorySerializer and GenreSerializer: `name` (at most 256 characters) and a fresh `slug`. */
  function CatalogFields(input: CatalogInput, taken: set<Slug>): (r: Result<CatalogData, set<Field>>)
    ensures r.Success? <==> ParseText(input.name, Some(NameMaxLength), false).Parsed? && ParseSlug(input.slug, taken).Parsed?
    ensures r.Success? ==>
      && r.value.name == Strip(input.name.value) && 0 < |r.value.name| <= NameMaxLength
      && r.value.slug == Strip(input.slug.value) && ValidSlug(r.value.slug) && r.value.slug !in taken
    ensures r.Failure? ==>
      && r.error != {} && r.error <= {NameField, SlugField}
      && (NameField in r.error <==> !ParseText(input.name, Some(NameMaxLength), false).Parsed?)
      && (SlugField in r.error <==> !ParseSlug(input.slug, taken).Parsed?)
  {
    var name := ParseText(input.name, Some(NameMaxLength), false);
    var slug := ParseSlug(input.slug, taken);
    if name.Parsed? && slug.Parsed? then Success(CatalogData(name.value, slug.value))
    else Failure(Flag(!name.Parsed?, NameField) + Flag(!slug.Parsed?, SlugField))
  }

  /** A slug already taken is refused, whatever its name. */
  lemma TakenSlugRefused(input: CatalogInput, taken: set<Slug>)
    requires input.slug.Some? && Strip(input.slug.value) in taken
    ensures CatalogFields(input, taken).Failure? && SlugField in CatalogFields(input, taken).error
  {
  }

  // ---------------------------------------------------------------- TitlePostSerializer

  /**
   * A title request body. `year` is absent (`None`), null (`Some(None)`) or
   * a number; `rating` is read-only.
   */
  datatype TitleInput = TitleInput(name: Option<string>, year: Option<Option<int>>, description: Option<string>,
                                   genre: Option<seq<string>>, category: Option<string>, rating: Option<int>)
  datatype TitleData = TitleData(name: string, year: Option<int>, description: string,
                                 genres: set<Slug>, category: Option<Slug>)

  /**
   * The year field as the code builds it. ModelSerializer copies the
   * column's bounds into the field: at least 0 (PositiveSmallIntegerField)
   * and at most `loadYear`, the year the models module was imported in.
   * The column is nullable, so a null reaches `validate_year`, whose
   * comparison `None <= year` raises TypeError. A number within the bounds
   * must also be at most `currentYear`, read when the request is validated.
   */
  function ParseYearAsWritten(raw: Option<Option<int>>, loadYear: int, currentYear: int): (p: Parsed<Option<int>>)
    ensures p.Skipped? <==> raw.None?
    ensures p.Crashed? <==> raw == Some(None)
    ensures p.Parsed? <==> raw.Some? && raw.value.Some? && 0 <= raw.value.value <= loadYear && raw.value.value <= currentYear
    ensures p.Parsed? ==> p.value == raw.value
  {
    match raw
    case None => Skipped
    case Some(None) => Crashed
    case Some(Some(y)) =>
      if !(0 <= y <= loadYear) then Rejected
      else if y <= currentYear then Parsed(Some(y))
      else Rejected
  }

  /**
   * The year field as it is evidently meant to behave: the column is
   * nullable, so null is accepted; a number must lie in the column's
   * range and be no later than the current year.
   */
  function ParseYear(raw: Option<Option<int>>, currentYear: int): (p: Parsed<Option<int>>)
    ensures p.Skipped? <==> raw.None?
    ensures raw == Some(None) ==> p == Parsed(None)
    ensures p.Parsed? ==> p.value == raw.value
    ensures p.Parsed? && p.value.Some? ==> ModelYearValid(p.value.value, currentYear)
    ensures raw.Some? && raw.value.Some? ==> (p.Parsed? <==> ModelYearValid(raw.value.value, currentYear))
    ensures !p.Crashed?
  {
    match raw
    case None => Skipped
    case Some(None) => Parsed(None)
    case Some(Some(y)) => if 0 <= y <= SmallPositiveMax && y <= currentYear then Parsed(Some(y)) else Rejected
  }

  /** The two agree on every number as long as the process was started in the current year. */
  lemma YearRulesAgreeWithinLoadYear(y: int, currentYear: int)
    requires currentYear <= SmallPositiveMax
    ensures ParseYearAsWritten(Some(Some(y)), currentYear, currentYear) == ParseYear(Some(Some(y)), currentYear)
  {
  }

  /** An explicit null year makes the code raise, where the nullable column would accept it. */
  lemma NullYearCrashes(loadYear: int, currentYear: int)
    ensures ParseYearAsWritten(Some(None), loadYear, currentYear) == Crashed
    ensures ParseYear(Some(None), currentYear) == Parsed(None)
  {
  }

  /**
   * A process started in 2025 and still running in 2026 refuses the year
   * 2026, which `validate_year` itself would accept.
   */
  lemma StaleYearBoundRefusesCurrentYear()
    ensures ParseYearAsWritten(Some(Some(2026)), 2025, 2026) == Rejected
    ensures ParseYear(Some(Some(2026)), 2026) == Parsed(Some(2026))
  {
  }

  /** `SlugRelatedField(slug_field="slug")` over the categories; its input is not stripped. */
  function ParseCategory(raw: Option<string>, categories: set<Slug>): (p: Parsed<Slug>)
    ensures p.Skipped? <==> raw.None?
    ensures p.Parsed? <==> raw.Some? && raw.value in categories
    ensures p.Parsed? ==> p.value == raw.value
    ensures !p.Crashed?
  {
    match raw
    case None => Skipped
    case Some(s) => if s in categories then Parsed(s) else Rejected
  }

  /** `SlugRelatedField(many=True)` over the genres: every slug must name a genre; repeats collapse. */
  function ParseGenres(raw: Option<seq<string>>, genres: set<Slug>): (p: Parsed<set<Slug>>)
    ensures p.Skipped? <==> raw.None?
    ensures p.Parsed? <==> raw.Some? && forall i :: 0 <= i < |raw.value| ==> raw.value[i] in genres
    ensures p.Parsed? ==> p.value <= genres && forall g :: g in p.value <==> g in raw.value
    ensures !p.Crashed?
  {
    match raw
    case None => Skipped
    case Some(gs) => if forall i :: 0 <= i < |gs| ==> gs[i] in genres then Parsed(set g | g in gs) else Rejected
  }

  /** The fields of a title request that fail, each with the rule that refuses it. */
  function TitleErrors(input: TitleInput, categories: set<Slug>, genres: set<Slug>, currentYear: int): (e: set<Field>)
    ensures e <= {NameField, YearField, DescriptionField, GenreField, CategoryField}
    ensures NameField in e <==> !ParseText(input.name, Some(NameMaxLength), false).Parsed?
    ensures YearField in e <==> ParseYear(input.year, currentYear).Rejected?
    ensures DescriptionField in e <==> !ParseText(input.description, None, false).Parsed?
    ensures GenreField in e <==> ParseGenres(input.genre, genres).Rejected?
    ensures CategoryField in e <==> ParseCategory(input.category, categories).Rejected?
  {
    TitleFlags(!ParseText(input.name, Some(NameMaxLength), false).Parsed?,
               ParseYear(input.year, currentYear).Rejected?,
               !ParseText(input.description, None, false).Parsed?,
               ParseGenres(input.genre, genres).Rejected?,
               ParseCategory(input.category, categories).Rejected?)
  }

  /** The title fields named by which of them failed. */
  function TitleFlags(name: bool, year: bool, description: bool, genre: bool, category: bool): (e: set<Field>)
    ensures e <= {NameField, YearField, DescriptionField, GenreField, CategoryField}
    ensures NameField in e <==> name
    ensures YearField in e <==> year
    ensures DescriptionField in e <==> description
    ensures GenreField in e <==> genre
    ensures CategoryField in e <==> category
  {
    Flag(name, NameField) + Flag(year, YearField) + Flag(description, DescriptionField)
    + Flag(genre, GenreField) + Flag(category, CategoryField)
  }

  /**
   * The field stage of TitlePostSerializer for a create: `name` (at most
   * 256 characters) and `description` required, `year`, `genre` and
   * `category` optional, the year under the rule of `ParseYear`.
   */
  function TitleFields(input: TitleInput, categories: set<Slug>, genres: set<Slug>, currentYear: int)
    : (r: Result<TitleData, set<Field>>)
    ensures r.Success? <==> TitleErrors(input, categories, genres, currentYear) == {}
    ensures r.Success? ==>
      && r.value.name == Strip(input.name.value) && 0 < |r.value.name| <= NameMaxLength
      && (r.value.year.Some? ==> ModelYearValid(r.value.year.value, currentYear))
      && r.value.description == Strip(input.description.value) && r.value.description != []
      && r.value.genres <= genres
      && (r.value.category.Some? ==> r.value.category.value in categories)
      && (input.category.None? ==> r.value.category.None?)
      && (input.genre.None? ==> r.value.genres == {})
    ensures r.Success? ==>
      && r.value.year == (if input.year.Some? then input.year.value else None)
      && (input.genre.Some? ==> forall g :: g in r.value.genres <==> g in input.genre.value)
      && (input.category.Some? ==> r.value.category == Some(input.category.value))
    ensures r.Failure? ==> r.error == TitleErrors(input, categories, genres, currentYear)
  {
    var errors := TitleErrors(input, categories, genres, currentYear);
    if errors != {} then Failure(errors)
    else
      assert NameField !in errors && YearField !in errors && DescriptionField !in errors;
      assert GenreField !in errors && CategoryField !in errors;
      var name := ParseText(input.name, Some(NameMaxLength), false);
      var year := ParseYear(input.year, currentYear);
      var description := ParseText(input.description, None, false);
      var genre := ParseGenres(input.genre, genres);
      var category := ParseCategory(input.category, categories);
      Success(TitleData(name.value,
                        if year.Parsed? then year.value else None,
                        description.value,
                        if genre.Parsed? then genre.value else {},
                        if category.Parsed? then Some(category.value) else None))
  }

  // ---------------------------------------------------------------- UserMeSerializer

  /** A `me` request body: the profile fields and `role`, which is read-only. */
  datatype ProfileInput = ProfileInput(firstName: Option<string>, lastName: Option<string>, bio: Option<string>,
                                       role: Option<string>)
  datatype ProfilePatch = ProfilePatch(firstName: Option<string>, lastName: Option<string>, bio: Option<string>)

  /** The fields of a `me` request that fail. */
  function ProfileErrors(input: ProfileInput): (e: set<Field>)
    ensures e <= {FirstNameField, LastNameField, BioField}
    ensures FirstNameField in e <==> ParseBlankable(input.firstName, Some(PersonNameMaxLength)).Rejected?
    ensures LastNameField in e <==> ParseBlankable(input.lastName, Some(PersonNameMaxLength)).Rejected?
    ensures BioField in e <==> ParseBlankable(input.bio, None).Rejected?
  {
    Flag(ParseBlankable(input.firstName, Some(PersonNameMaxLength)).Rejected?, FirstNameField)
    + Flag(ParseBlankable(input.lastName, Some(PersonNameMaxLength)).Rejected?, LastNameField)
    + Flag(ParseBlankable(input.bio, None).Rejected?, BioField)
  }

  /** The field stage of UserMeSerializer with `partial=True`: every field optional and allowed blank. */
  function ProfileFields(input: ProfileInput): (r: Result<ProfilePatch, set<Field>>)
    ensures r.Success? <==> ProfileErrors(input) == {}
    ensures r.Success? ==>
      && (r.value.firstName.Some? <==> input.firstName.Some?)
      && (r.value.lastName.Some? <==> input.lastName.Some?)
      && (r.value.bio.Some? <==> input.bio.Some?)
      && (r.value.firstName.Some? ==> r.value.firstName.value == Strip(input.firstName.value)
                                      && |r.value.firstName.value| <= PersonNameMaxLength)
      && (r.value.lastName.Some? ==> r.value.lastName.value == Strip(input.lastName.value)
                                     && |r.value.lastName.value| <= PersonNameMaxLength)
      && (r.value.bio.Some? ==> r.value.bio.value == Strip(input.bio.value))
    ensures r.Failure? ==> r.error == ProfileErrors(input)
  {
    var errors := ProfileErrors(input);
    if errors != {} then Failure(errors)
    else
      assert FirstNameField !in errors && LastNameField !in errors && BioField !in errors;
      var first := ParseBlankable(input.firstName, Some(PersonNameMaxLength));
      var last := ParseBlankable(input.lastName, Some(PersonNameMaxLength));
      var bio := ParseBlankable(input.bio, None);
      Success(ProfilePatch(if first.Parsed? then Some(first.value) else None,
                           if last.Parsed? then Some(last.value) else None,
                           if bio.Parsed? then Some(bio.value) else None))
  }

  /** `serializer.save(role=request.user.role)`: the patched fields change, the role is written back as it was. */
  function ApplyProfile(a: Account, p: ProfilePatch): (b: Account)
    ensures b.role == a.role && b.email == a.email && b.isStaff == a.isStaff && b.isSuperuser == a.isSuperuser
    ensures b.isActive == a.isActive && b.confirmationCode == a.confirmationCode
    ensures b.firstName == (if p.firstName.Some? then p.firstName.value else a.firstName)
    ensures b.lastName == (if p.lastName.Some? then p.lastName.value else a.lastName)
    ensures b.bio == (if p.bio.Some? then p.bio.value else a.bio)
  {
    a.(firstName := if p.firstName.Some? then p.firstName.value else a.firstName,
       lastName := if p.lastName.Some? then p.lastName.value else a.lastName,
       bio := if p.bio.Some? then p.bio.value else a.bio,
       role := a.role)
  }

  /** An empty body (what a GET carries) leaves the row exactly as it was. */
  lemma EmptyProfileChangesNothing(a: Account)
    ensures ProfileFields(ProfileInput(None, None, None, None)) == Success(ProfilePatch(None, None, None))
    ensures ApplyProfile(a, ProfilePatch(None, None, None)) == a
  {
  }

  /** The role a client sends to `me` never reaches the row. */
  lemma ProfileRoleIgnored(a: Account, input: ProfileInput, role: Option<string>)
    requires ProfileFields(input).Success?
    ensures ProfileFields(input.(role := role)) == ProfileFields(input)
    ensures ApplyProfile(a, ProfileFields(input.(role := role)).value).role == a.role
  {
  }
}
