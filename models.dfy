/**
 * The entities of reviews/models.py and the declarative rules on their
 * fields: the closed set of roles and the role predicates of User, the slug
 * pattern, the score bounds and the year bound.
 */
module Models {
  import opened Wrappers
  import opened Strings

  type Username = string
  type Slug = string
  type TitleId = nat
  type ReviewId = nat
  type CommentId = nat

  // ---------------------------------------------------------------- roles

  datatype Role = User | Moderator | Admin

  /** ROLE_CHOICES, in declaration order; the role field defaults to User. */
  const RoleChoices: seq<Role> := [User, Moderator, Admin]
  const DefaultRole: Role := User

  /** The string stored in the role column. */
  function RoleKey(r: Role): string
  {
    match r
    case User => "user"
    case Moderator => "moderator"
    case Admin => "admin"
  }

  /** Reading the role column back; anything but the three keys is no role. */
  function ParseRole(s: string): (r: Option<Role>)
    ensures r.Some? ==> RoleKey(r.value) == s
    ensures r.None? <==> forall role: Role :: RoleKey(role) != s
  {
    if s == "user" then Some(User)
    else if s == "moderator" then Some(Moderator)
    else if s == "admin" then Some(Admin)
    else None
  }

  lemma RoleKeyRoundTrip(r: Role)
    ensures ParseRole(RoleKey(r)) == Some(r)
  {
  }

  /** `max([len(item) for item, _ in ROLE_CHOICES])`. */
  function LongestKey(rs: seq<Role>): (n: nat)
    ensures forall i :: 0 <= i < |rs| ==> |RoleKey(rs[i])| <= n
    ensures rs != [] ==> exists i :: 0 <= i < |rs| && |RoleKey(rs[i])| == n
  {
    if rs == [] then 0
    else
      var rest := LongestKey(rs[1..]);
      assert forall i :: 1 <= i < |rs| ==> rs[i] == rs[1..][i - 1];
      if |RoleKey(rs[0])| >= rest then |RoleKey(rs[0])| else rest
  }

  /** The role column is nine characters wide, and every choice fits. */
  lemma RoleFieldWidth()
    ensures LongestKey(RoleChoices) == 9
    ensures forall r: Role :: |RoleKey(r)| <= LongestKey(RoleChoices)
  {
    assert RoleChoices[1] == Moderator;
  }

  // ---------------------------------------------------------------- users

  /** A row of the user table, keyed by its unique username. */
  datatype Account = Account(
    email: string,
    role: Role,
    isStaff: bool,
    isSuperuser: bool,
    isActive: bool,
    confirmationCode: string,
    firstName: string,
    lastName: string,
    bio: string)

  /** The row `get_or_create(username=..., email=...)` inserts: every other field at its default. */
  function NewAccount(email: string): (a: Account)
    ensures a.email == email && a.isActive && a.confirmationCode == ""
    ensures IsUser(a) && !IsAdmin(a) && !IsModerator(a) && !a.isSuperuser
    ensures a.firstName == "" && a.lastName == "" && a.bio == ""
  {
    Account(email, DefaultRole, false, false, true, "", "", "", "")
  }

  /** `User.is_admin`: the admin role, or Django's staff flag. */
  predicate IsAdmin(a: Account)
    ensures IsAdmin(a) <==> RoleKey(a.role) == "admin" || a.isStaff
  {
    a.role == Admin || a.isStaff
  }

  /** `User.is_moderator`. */
  predicate IsModerator(a: Account)
    ensures IsModerator(a) <==> RoleKey(a.role) == "moderator"
  {
    a.role == Moderator
  }

  /** `User.is_user`. */
  predicate IsUser(a: Account)
    ensures IsUser(a) <==> RoleKey(a.role) == "user"
  {
    a.role == User
  }

  /**
   * The three role predicates: is_moderator and is_user follow the role
   * alone, is_admin also holds for staff whatever their role, and a
   * non-staff account satisfies exactly one of them.
   */
  lemma RolePredicates(a: Account)
    ensures IsAdmin(a) <==> a.role == Admin || a.isStaff
    ensures IsModerator(a) <==> a.role == Moderator
    ensures IsUser(a) <==> a.role == User
    ensures !a.isStaff ==> (IsAdmin(a) || IsModerator(a) || IsUser(a))
    ensures !a.isStaff ==> !(IsAdmin(a) && IsModerator(a)) && !(IsAdmin(a) && IsUser(a)) && !(IsModerator(a) && IsUser(a))
    ensures a.isStaff ==> IsAdmin(a)
  {
  }

  // ---------------------------------------------------------------- catalog

  const NameMaxLength: nat := 256
  const SlugMaxLength: nat := 50

  predicate SlugChar(c: char)
  {
    c == '-' || c == '_' || 'a' <= c <= 'z' || 'A' <= c <= 'Z' || '0' <= c <= '9'
  }

  predicate AllSlugChars(s: string)
  {
    forall i :: 0 <= i < |s| ==> SlugChar(s[i])
  }

  /**
   * `re.search(r'^[-a-zA-Z0-9_]+$', s)`, the custom RegexValidator on the
   * slug column, as Python runs it: `$` also matches just before a final
   * newline, so this pattern alone lets one trailing '\n' through.
   */
  predicate MatchesSlugPattern(s: string)
    ensures MatchesSlugPattern(s) <==>
      (s != [] && AllSlugChars(s)) || (2 <= |s| && s[|s| - 1] == '\n' && AllSlugChars(s[..|s| - 1]))
  {
    var body := if s != [] && s[|s| - 1] == '\n' then s[..|s| - 1] else s;
    body != [] && AllSlugChars(body)
  }

  /**
   * The slug column: at most 50 characters, accepted both by SlugField's
   * own `validate_slug` (`^[-a-zA-Z0-9_]+\Z`, which refuses a final
   * newline) and by the custom pattern.
   */
  predicate ValidSlug(s: string)
    ensures ValidSlug(s) <==> 0 < |s| <= SlugMaxLength && AllSlugChars(s)
  {
    |s| <= SlugMaxLength && s != [] && AllSlugChars(s) && MatchesSlugPattern(s)
  }

  /** The slug the custom pattern lets through is still refused by the column. */
  lemma FinalNewlineSlugRefused()
    ensures MatchesSlugPattern("rock\n") && !ValidSlug("rock\n")
  {
    SlugPatternAcceptsFinalNewline();
  }

  /**
   * Every form field strips its input before the pattern is applied, and on
   * a stripped string the pattern is exactly "non-empty, slug characters only".
   */
  lemma SlugPatternOnStripped(s: string)
    ensures MatchesSlugPattern(Strip(s)) <==> Strip(s) != [] && AllSlugChars(Strip(s))
  {
    var t := Strip(s);
    if t != [] {
      assert !IsSpace(t[|t| - 1]);
    }
  }

  /** The trailing newline the pattern lets through, shown on a concrete slug. */
  lemma SlugPatternAcceptsFinalNewline()
    ensures MatchesSlugPattern("rock\n") && !AllSlugChars("rock\n")
  {
    assert "rock\n"[..4] == "rock";
    assert !SlugChar("rock\n"[4]);
  }

  datatype Category = Category(name: string)
  datatype Genre = Genre(name: string)

  /** A title; its category is a slug reference that deletion of the category clears. */
  datatype Title = Title(name: string, year: Option<int>, description: string, category: Option<Slug>)

  /** PositiveSmallIntegerField's range, which Django adds to the year column's validators. */
  const SmallPositiveMax := 32767

  /**
   * The year column's validators: the positive small integer range and
   * `MaxValueValidator(dt.date.today().year)`, whose bound is the year at
   * the moment the module was imported.
   */
  predicate ModelYearValid(year: int, loadYear: int)
    ensures ModelYearValid(year, loadYear) ==> 0 <= year <= loadYear
    ensures loadYear <= SmallPositiveMax ==> (ModelYearValid(year, loadYear) <==> 0 <= year <= loadYear)
  {
    0 <= year <= SmallPositiveMax && year <= loadYear
  }

  // ---------------------------------------------------------------- reviews and comments

  const ScoreMin := 1
  const ScoreMax := 10
  const DefaultScore := 1

  predicate ValidScore(score: int)
    ensures ValidScore(score) <==> 0 < score <= ScoreMax
    ensures ValidScore(score) ==> score <= SmallPositiveMax
  {
    ScoreMin <= score <= ScoreMax
  }

  lemma DefaultScoreValid()
    ensures ValidScore(DefaultScore)
  {
  }

  /** `pubDate` is the creation timestamp `auto_now_add` fills in, given as a number. */
  datatype Review = Review(title: TitleId, author: Username, text: string, score: int, pubDate: int)

  datatype Comment = Comment(review: ReviewId, author: Username, text: string, pubDate: int)
}
