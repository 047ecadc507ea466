/**
 * The user document (src/models/user.js): its fields, the setters and
 * defaults Mongoose applies when a document is built, and the validators it
 * runs on save. The library predicates `validator.isEmail`,
 * `isStrongPassword` and `isURL` are not modelled; their verdicts are inputs.
 */
module UserSchema {
  import opened Common
  import opened JsString

  /** `role`: enum ["admin", "user"]. */
  datatype Role = AdminRole | UserRole

  /** `gender`: enum ["male", "female", "other"]. */
  datatype Gender = Male | Female | Other

  /**
   * A stored user. `token` is the session token the authentication gate
   * compares with the cookie; the schema as written declares no such path
   * (see `AuthGate`).
   */
  datatype User = User(
    firstName: string,
    lastName: Option<string>,
    emailId: string,
    password: string,
    age: Option<int>,
    isPremium: bool,
    membershipType: Option<string>,
    gender: Option<Gender>,
    photoUrl: string,
    about: string,
    skills: seq<string>,
    blockedBy: seq<Id>,
    blockedTo: seq<Id>,
    role: Role,
    isDeactivated: bool,
    token: Option<string>)

  const MIN_FIRST_NAME: nat := 4
  const MAX_FIRST_NAME: nat := 20
  const MIN_AGE: int := 18
  const DEFAULT_PHOTO_URL: string := "https://www.pnrao.com/wp-content/uploads/2023/06/dummy-user-male.jpg"
  /** `about` is declared twice; the later declaration, with this default, is the one in force. */
  const DEFAULT_ABOUT: string := "This is a default value of user"

  /** The fields of `new User({...})` as they arrive, absent ones as `None`. */
  datatype UserInput = UserInput(
    firstName: Option<string>,
    lastName: Option<string>,
    emailId: Option<string>,
    password: Option<string>,
    age: Option<int>,
    isPremium: Option<bool>,
    gender: Option<string>,
    photoUrl: Option<string>,
    about: Option<string>,
    skills: seq<string>,
    role: Option<string>,
    isDeactivated: Option<bool>)

  /** What the `validator` library answers for the values it is asked about. */
  datatype LibraryVerdicts = LibraryVerdicts(isEmail: bool, isStrongPassword: bool, isUrl: bool)

  /** `lowercase: true, trim: true` on `emailId`. */
  function NormalizeEmail(s: string): string
  {
    Lower(Trim(s))
  }

  /** The enum check on `gender`. */
  function ParseGender(s: string): Option<Gender>
  {
    if s == "male" then Some(Male)
    else if s == "female" then Some(Female)
    else if s == "other" then Some(Other)
    else None
  }

  /** The enum check on `role`. */
  function ParseRole(s: string): Option<Role>
  {
    if s == "admin" then Some(AdminRole)
    else if s == "user" then Some(UserRole)
    else None
  }

  /** A required string path fails on undefined and on "". */
  predicate Present(o: Option<string>)
  {
    o.Some? && o.value != ""
  }

  /** Every schema rule the input passes, with the library verdicts. */
  predicate Acceptable(input: UserInput, verdicts: LibraryVerdicts)
  {
    && input.firstName.Some?
    && MIN_FIRST_NAME <= |input.firstName.value| <= MAX_FIRST_NAME
    && input.emailId.Some? && NormalizeEmail(input.emailId.value) != "" && verdicts.isEmail
    && Present(input.password) && verdicts.isStrongPassword
    && (input.age.Some? ==> input.age.value >= MIN_AGE)
    && (input.gender.Some? ==> ParseGender(input.gender.value).Some?)
    && (input.role.Some? ==> ParseRole(input.role.value).Some?)
    && verdicts.isUrl
  }

  /**
   * `new User(input)` followed by `save()`: setters and defaults applied,
   * then validated; `None` is a ValidationError and nothing is stored.
   */
  function NewUser(input: UserInput, verdicts: LibraryVerdicts): (r: Option<User>)
    ensures r.Some? <==> Acceptable(input, verdicts)
    ensures r.Some? ==> MIN_FIRST_NAME <= |r.value.firstName| <= MAX_FIRST_NAME
    ensures r.Some? ==> r.value.emailId == NormalizeEmail(input.emailId.value)
    ensures r.Some? ==> (r.value.age.Some? ==> r.value.age.value >= MIN_AGE)
    ensures r.Some? && input.role.None? ==> r.value.role == UserRole
    ensures r.Some? && input.about.None? ==> r.value.about == DEFAULT_ABOUT
    ensures r.Some? && input.photoUrl.None? ==> r.value.photoUrl == DEFAULT_PHOTO_URL
    ensures r.Some? && input.isPremium.None? ==> !r.value.isPremium
    ensures r.Some? && input.isDeactivated.None? ==> !r.value.isDeactivated
    ensures r.Some? ==> r.value.blockedBy == [] && r.value.blockedTo == []
  {
    if !Acceptable(input, verdicts) then None
    else
      Some(User(
        firstName := input.firstName.value,
        lastName := input.lastName,
        emailId := NormalizeEmail(input.emailId.value),
        password := input.password.value,
        age := input.age,
        isPremium := if input.isPremium.Some? then input.isPremium.value else false,
        membershipType := None,
        gender := if input.gender.Some? then ParseGender(input.gender.value) else None,
        photoUrl := if input.photoUrl.Some? then input.photoUrl.value else DEFAULT_PHOTO_URL,
        about := if input.about.Some? then input.about.value else DEFAULT_ABOUT,
        skills := input.skills,
        blockedBy := [],
        blockedTo := [],
        role := if input.role.Some? then ParseRole(input.role.value).value else UserRole,
        isDeactivated := if input.isDeactivated.Some? then input.isDeactivated.value else false,
        token := None))
  }

  /** The form the `emailId` setters leave: no surrounding whitespace and no upper-case letter. */
  predicate IsNormalEmail(e: string)
  {
    IsTrimmed(e) && forall i :: 0 <= i < |e| ==> !('A' <= e[i] <= 'Z')
  }

  /** An email in normal form is a fixed point of the setters, so re-saving a user keeps it. */
  lemma NormalEmailIsFixed(e: string)
    requires IsNormalEmail(e)
    ensures NormalizeEmail(e) == e
  {
    TrimOfTrimmed(e);
    assert Lower(e) == e;
  }

  /** The rules a stored user satisfies (the library verdicts aside). */
  predicate ValidUser(u: User)
  {
    && MIN_FIRST_NAME <= |u.firstName| <= MAX_FIRST_NAME
    && u.emailId != "" && IsNormalEmail(u.emailId)
    && u.password != ""
    && (u.age.Some? ==> u.age.value >= MIN_AGE)
  }

  /** The stored email is in normal form: lower case, no surrounding whitespace. */
  lemma NormalizeEmailIsNormal(s: string)
    ensures NormalizeEmail(NormalizeEmail(s)) == NormalizeEmail(s)
    ensures IsTrimmed(NormalizeEmail(s))
    ensures forall i :: 0 <= i < |NormalizeEmail(s)| ==> !('A' <= NormalizeEmail(s)[i] <= 'Z')
  {
    var t := Trim(s);
    TrimLowerCommute(t);
    TrimIdempotent(s);
    LowerSpec(t);
    TrimSpec(Lower(t));
  }

  /** Every document `NewUser` accepts is a valid stored user. */
  lemma NewUserIsValid(input: UserInput, verdicts: LibraryVerdicts)
    requires NewUser(input, verdicts).Some?
    ensures ValidUser(NewUser(input, verdicts).value)
  {
    NormalizeEmailIsNormal(input.emailId.value);
  }

  /** `trim` drops the one space on each side of " Ann@X.io ". */
  lemma TrimExample()
    ensures Trim(" Ann@X.io ") == "Ann@X.io"
  {
    var inner := "Ann@X.io";
    assert " Ann@X.io " == [' '] + inner + [' '];
    assert IsTrimmed(inner);
    TrimPadded(' ', inner, ' ');
  }

  /** `toLowerCase` of "Ann@X.io" touches only the two capitals. */
  lemma LowerExample()
    ensures Lower("Ann@X.io") == "ann@x.io"
  {
    var lowered := Lower("Ann@X.io");
    assert |lowered| == 8;
    assert lowered[0] == 'a' && lowered[1] == 'n' && lowered[2] == 'n' && lowered[3] == '@';
    assert lowered[4] == 'x' && lowered[5] == '.' && lowered[6] == 'i' && lowered[7] == 'o';
  }

  /** Mixed-case, padded input is stored lower-cased and trimmed. */
  lemma EmailNormalizationExample()
    ensures NormalizeEmail(" Ann@X.io ") == "ann@x.io"
  {
    TrimExample();
    LowerExample();
  }

  /** A first name of 3 characters and one of 21 characters are both refused. */
  lemma FirstNameBounds(verdicts: LibraryVerdicts, input: UserInput)
    requires input.firstName == Some("Ann") || input.firstName == Some("Abcdefghijklmnopqrstu")
    ensures NewUser(input, verdicts).None?
  {
  }
}
