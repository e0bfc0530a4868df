/** The user record, its field rules and its account manager (users/models.py). */
module Models {
  import opened Wrappers

  // ---------------------------------------------------------------------------
  // Roles
  // ---------------------------------------------------------------------------

  /** The three entries of CustomUser.ROLE_CHOICES. */
  datatype Role = Admin | Manager | Employee

  /** The string a role is stored and compared as. */
  function RoleName(r: Role): string {
    match r
    case Admin => "Admin"
    case Manager => "Manager"
    case Employee => "Employee"
  }

  /** The choice a stored role string names; None for a string outside ROLE_CHOICES. */
  function ParseRole(s: string): (r: Option<Role>)
    ensures forall x :: r == Some(x) <==> s == RoleName(x)
  {
    if s == "Admin" then Some(Admin)
    else if s == "Manager" then Some(Manager)
    else if s == "Employee" then Some(Employee)
    else None
  }

  /** The role stored when none is given: create_user's default and the field default. */
  const DefaultRole: string := "Employee"

  const MaxRoleLength: nat := 20
  const MaxUsernameLength: nat := 150

  /** The role field's rule: one of the choices. Every choice fits the field's max_length. */
  predicate ValidRole(s: string)
    ensures ValidRole(s) <==> s in {"Admin", "Manager", "Employee"}
    ensures ValidRole(s) ==> |s| <= MaxRoleLength
  {
    ParseRole(s).Some?
  }

  // ---------------------------------------------------------------------------
  // Usernames
  // ---------------------------------------------------------------------------

  predicate IsAsciiLetter(c: char) {
    'A' <= c <= 'Z' || 'a' <= c <= 'z'
  }

  predicate AllLetters(s: string) {
    forall i :: 0 <= i < |s| ==> IsAsciiLetter(s[i])
  }

  /** The whole string matches `[A-Za-z]+`: one letter, then `[A-Za-z]*`. */
  predicate MatchesLetters(s: string)
    decreases |s|
  {
    |s| > 0 && IsAsciiLetter(s[0]) && (|s| == 1 || MatchesLetters(s[1..]))
  }

  /** The regular expression accepts exactly the non-empty strings of ASCII letters. */
  lemma {:induction false} MatchesLettersIsNonEmptyLetters(s: string)
    ensures MatchesLetters(s) <==> |s| > 0 && AllLetters(s)
    decreases |s|
  {
    if |s| > 1 {
      MatchesLettersIsNonEmptyLetters(s[1..]);
      assert AllLetters(s) <==> IsAsciiLetter(s[0]) && AllLetters(s[1..]) by {
        if IsAsciiLetter(s[0]) && AllLetters(s[1..]) {
          forall i | 0 <= i < |s| ensures IsAsciiLetter(s[i]) {
            if i > 0 { assert s[i] == s[1..][i - 1]; }
          }
        }
        if AllLetters(s) {
          forall i | 0 <= i < |s| - 1 ensures IsAsciiLetter(s[1..][i]) {
            assert s[1..][i] == s[i + 1];
          }
        }
      }
    }
  }

  /**
   * What `RegexValidator(r"^[A-Za-z]+$")` accepts as written: Python's `search`
   * with `$` matching at the end of the string or just before a final newline.
   */
  predicate RegexAcceptsAsWritten(s: string) {
    MatchesLetters(s) || (|s| > 1 && s[|s| - 1] == '\n' && MatchesLetters(s[..|s| - 1]))
  }

  /** The username field's rules: letters only (anchored at both ends), at most 150 characters. */
  predicate ValidUsername(s: string) {
    MatchesLetters(s) && |s| <= MaxUsernameLength
  }

  /** A valid username is non-empty, at most 150 characters and made of ASCII letters only. */
  lemma ValidUsernameMeaning(s: string)
    ensures ValidUsername(s) <==> 0 < |s| <= MaxUsernameLength && AllLetters(s)
  {
    MatchesLettersIsNonEmptyLetters(s);
  }

  /** The validator as written lets a letters-only name with a trailing newline through. */
  lemma TrailingNewlinePassesAsWritten()
    ensures RegexAcceptsAsWritten("alice\n")
    ensures !ValidUsername("alice\n")
  {
    var s := "alice\n";
    assert s[..|s| - 1] == "alice";
    assert MatchesLetters("e");
    assert MatchesLetters("ce"[1..]);
    assert MatchesLetters("ice"[1..]);
    assert MatchesLetters("lice"[1..]);
    assert MatchesLetters("alice"[1..]);
    MatchesLettersIsNonEmptyLetters(s);
    assert !IsAsciiLetter(s[5]);
  }

  /** The validator as written and the intended pattern disagree exactly on letters followed by one newline. */
  lemma AsWrittenDiffersOnlyByTrailingNewline(s: string)
    ensures RegexAcceptsAsWritten(s) != MatchesLetters(s) <==>
      |s| > 1 && s[|s| - 1] == '\n' && MatchesLetters(s[..|s| - 1])
  {
    if |s| > 1 && s[|s| - 1] == '\n' {
      MatchesLettersIsNonEmptyLetters(s);
      assert !IsAsciiLetter(s[|s| - 1]);
    }
  }

  // ---------------------------------------------------------------------------
  // Field validation of a record (the model's declared validators)
  // ---------------------------------------------------------------------------

  /** A rule of CustomUser's fields that a value breaks. */
  datatype FieldError =
    | UsernameBlank
    | UsernameTooLong
    | UsernameNotLetters
    | UsernameNotUnique
    | RoleNotAChoice
  {
    /** The message the model itself declares for this rule, where it declares one. */
    function DeclaredMessage(): Option<string> {
      match this
      case UsernameNotLetters => Some(LettersMessage)
      case UsernameNotUnique => Some(UniqueMessage)
      case _ => None
    }
  }

  const LettersMessage: string := "Username must contain only letters (A-Z, a-z)."
  const UniqueMessage: string := "A user with this username already exists."

  /**
   * The first rule a username breaks, in the order Django runs them: the blank
   * check, then the field's own validators (the letters pattern), then the
   * max_length validator CharField appends after them.
   */
  function UsernameFieldError(s: string): (r: Option<FieldError>)
    ensures r.None? <==> ValidUsername(s)
    ensures r.Some? ==> r.value in {UsernameBlank, UsernameTooLong, UsernameNotLetters}
    ensures r == Some(UsernameBlank) <==> s == ""
    ensures r == Some(UsernameNotLetters) <==> s != "" && !MatchesLetters(s)
    ensures r == Some(UsernameTooLong) <==> MatchesLetters(s) && |s| > MaxUsernameLength
  {
    if s == "" then Some(UsernameBlank)
    else if !MatchesLetters(s) then Some(UsernameNotLetters)
    else if |s| > MaxUsernameLength then Some(UsernameTooLong)
    else None
  }

  // ---------------------------------------------------------------------------
  // The record and the table of records
  // ---------------------------------------------------------------------------

  /** What set_password stores: a derived digest, or the unusable marker for a None password. */
  datatype Credential = Hashed(digest: string) | Unusable

  /** A CustomUser row; `role` holds the stored string, which the manager does not check against the choices. */
  datatype User = User(
    id: nat,
    username: string,
    email: string,
    password: Credential,
    role: string,
    isStaff: bool,
    isSuperuser: bool)

  /** The users table, keyed by primary key. */
  type UserTable = map<nat, User>

  /** Some row already carries this username. */
  predicate UsernameTaken(users: UserTable, name: string) {
    exists k | k in users :: users[k].username == name
  }

  /** Some row other than `id` carries this username. */
  predicate UsernameTakenByOther(users: UserTable, name: string, id: nat)
    ensures UsernameTakenByOther(users, name, id) ==> UsernameTaken(users, name)
  {
    exists k | k in users :: k != id && users[k].username == name
  }

  /** `unique=True` on username: no two rows share one. */
  ghost predicate UniqueUsernames(users: UserTable) {
    forall a, b | a in users && b in users && users[a].username == users[b].username :: a == b
  }

  /** Every row sits under its own primary key. */
  ghost predicate KeyedById(users: UserTable) {
    forall k | k in users :: users[k].id == k
  }

  /** Adding a row whose username is free keeps usernames unique. */
  lemma InsertFreeUsernameKeepsUnique(users: UserTable, u: User)
    requires UniqueUsernames(users) && !UsernameTaken(users, u.username)
    ensures UniqueUsernames(users[u.id := u])
  {
  }

  /** Replacing one row by a row whose username no other row carries keeps usernames unique. */
  lemma ReplaceKeepsUnique(users: UserTable, u: User)
    requires UniqueUsernames(users) && u.id in users && !UsernameTakenByOther(users, u.username, u.id)
    ensures UniqueUsernames(users[u.id := u])
  {
  }

  // ---------------------------------------------------------------------------
  // CustomUserManager
  // ---------------------------------------------------------------------------

  /**
   * The ValueErrors the manager raises, and the database's refusal of a second
   * row with a taken username at the save.
   */
  datatype CreateError = UsernameNotSet | UsernameExists | StaffNotTrue | SuperuserNotTrue {
    /**
     * The manager's own message; None for the save's refusal, which carries the
     * database's integrity-error text rather than a message of the model.
     */
    function Message(): Option<string> {
      match this
      case UsernameNotSet => Some("The Username must be set")
      case UsernameExists => None
      case StaffNotTrue => Some("Superuser must have is_staff=True.")
      case SuperuserNotTrue => Some("Superuser must have is_superuser=True.")
    }
  }

  /**
   * create_superuser's flag handling: both flags default to True, and each must
   * then be exactly True, is_staff checked first.
   */
  function SuperuserFlagError(isStaff: Option<bool>, isSuperuser: Option<bool>): (r: Option<CreateError>)
    ensures r.None? <==> isStaff != Some(false) && isSuperuser != Some(false)
    ensures r == Some(StaffNotTrue) <==> isStaff == Some(false)
    ensures r == Some(SuperuserNotTrue) <==> isStaff != Some(false) && isSuperuser == Some(false)
  {
    var staff := isStaff.GetOr(true);
    var superuser := isSuperuser.GetOr(true);
    if staff != true then Some(StaffNotTrue)
    else if superuser != true then Some(SuperuserNotTrue)
    else None
  }

  /** The users table together with the manager that creates rows in it. */
  class UserStore {
    var users: UserTable
    /** The primary key the next saved row receives. */
    var nextId: nat
    /** BaseUserManager.normalize_email, a total function supplied by the framework. */
    const normalizeEmail: Option<string> -> string
    /** The one-way derivation set_password applies to a raw password. */
    const hashPassword: string -> string

    ghost predicate Valid()
      reads this
    {
      && KeyedById(users)
      && (forall k | k in users :: k < nextId)
      && UniqueUsernames(users)
    }

    constructor (normalizeEmail: Option<string> -> string, hashPassword: string -> string)
      ensures Valid()
      ensures users == map[] && nextId == 1
      ensures this.normalizeEmail == normalizeEmail && this.hashPassword == hashPassword
    {
      users := map[];
      nextId := 1;
      this.normalizeEmail := normalizeEmail;
      this.hashPassword := hashPassword;
    }

    /** set_password's effect on the stored credential. */
    function Credentials(password: Option<string>): Credential
      reads this
    {
      match password
      case Some(p) => Hashed(hashPassword(p))
      case None => Unusable
    }

    /**
     * create_user: reject an empty username, build the row with the given (or
     * default) role and extra flags, and save it; the save fails on a username
     * the table already holds.
     */
    method CreateUser(username: string, email: Option<string>, password: Option<string>,
                      role: Option<string>, isStaff: Option<bool>, isSuperuser: Option<bool>)
      returns (r: Result<User, CreateError>)
      requires Valid()
      modifies this
      ensures Valid()
      ensures r.Success? <==> username != "" && !UsernameTaken(old(users), username)
      ensures username == "" ==> r == Failure(UsernameNotSet)
      ensures username != "" && UsernameTaken(old(users), username) ==> r == Failure(UsernameExists)
      ensures r.Failure? ==> users == old(users) && nextId == old(nextId)
      ensures r.Success? ==>
        && r.value == User(old(nextId), username, normalizeEmail(email), Credentials(password),
                           role.GetOr(DefaultRole), isStaff.GetOr(false), isSuperuser.GetOr(false))
        && old(nextId) !in old(users)
        && users == old(users)[old(nextId) := r.value]
        && nextId == old(nextId) + 1
    {
      if username == "" {
        return Failure(UsernameNotSet);
      }
      var normalized := normalizeEmail(email);
      var user := User(nextId, username, normalized, Unusable, role.GetOr(DefaultRole),
                       isStaff.GetOr(false), isSuperuser.GetOr(false));
      user := user.(password := Credentials(password));
      if UsernameTaken(users, username) {
        return Failure(UsernameExists);
      }
      InsertFreeUsernameKeepsUnique(users, user);
      users := users[nextId := user];
      nextId := nextId + 1;
      r := Success(user);
    }

    /**
     * create_superuser: default both flags to True, refuse anything else, and
     * create the row with the role forced to Admin.
     */
    method CreateSuperuser(username: string, email: Option<string>, password: Option<string>,
                           isStaff: Option<bool>, isSuperuser: Option<bool>)
      returns (r: Result<User, CreateError>)
      requires Valid()
      modifies this
      ensures Valid()
      ensures isStaff == Some(false) ==> r == Failure(StaffNotTrue)
      ensures isStaff != Some(false) && isSuperuser == Some(false) ==> r == Failure(SuperuserNotTrue)
      ensures isStaff != Some(false) && isSuperuser != Some(false) ==>
        (r.Success? <==> username != "" && !UsernameTaken(old(users), username))
      ensures isStaff != Some(false) && isSuperuser != Some(false) && username == "" ==>
        r == Failure(UsernameNotSet)
      ensures isStaff != Some(false) && isSuperuser != Some(false) ==>
        username != "" && UsernameTaken(old(users), username) ==> r == Failure(UsernameExists)
      ensures r.Failure? ==> users == old(users) && nextId == old(nextId)
      ensures r.Success? ==>
        && r.value.role == RoleName(Admin) && r.value.isStaff && r.value.isSuperuser
        && r.value == User(old(nextId), username, normalizeEmail(email), Credentials(password),
                           RoleName(Admin), true, true)
        && users == old(users)[old(nextId) := r.value]
        && nextId == old(nextId) + 1
    {
      var staff := isStaff.GetOr(true);
      var superuser := isSuperuser.GetOr(true);
      var flagError := SuperuserFlagError(isStaff, isSuperuser);
      if flagError.Some? {
        return Failure(flagError.value);
      }
      r := CreateUser(username, email, password, Some(RoleName(Admin)), Some(staff), Some(superuser));
    }
  }
}
