/**
 * The user schema: the fields a user document has, the setters and defaults
 * applied when one is built, and the validators run before it is saved.
 * Uniqueness of username and email is enforced by database indexes and the
 * timestamps by the store's clock; neither is part of this module.
 */
module UserModel {
  import opened Base
  import opened Text

  const UsernameMinLength := 3
  const PasswordMinLength := 6
  const BioMaxLength := 500
  const DefaultProfileImage := "defaultImage.png"
  const DefaultBio := "All about me...."

  /** The fields handed to `new User(...)`; `None` is a field left out. */
  datatype UserInput = UserInput(
    username: Option<string>,
    email: Option<string>,
    password: Option<string>,
    admin: Option<bool>,
    profileImage: Option<string>,
    bio: Option<string>,
    stories: Option<seq<ObjectId>>,
    favouriteStories: Option<seq<ObjectId>>)

  /**
   * A user document. The required fields stay optional here because a document
   * may be built without them; validation then refuses it.
   */
  datatype User = User(
    username: Option<string>,
    email: Option<string>,
    password: Option<string>,
    admin: bool,
    profileImage: string,
    bio: string,
    stories: seq<ObjectId>,
    favouriteStories: seq<ObjectId>)

  /** Applies the `trim` setter (and, for the email, `lowercase`) to a given string. */
  function MapText(given: Option<string>, lower: bool): Option<string> {
    if given.None? then None
    else if lower then Some(LowerCase(Trim(given.value)))
    else Some(Trim(given.value))
  }

  /**
   * `new User(input)`: setters on the given fields, defaults on the missing ones.
   */
  function NewUser(input: UserInput): (u: User)
    // username and email are stored trimmed; the email also lower-cased
    ensures u.username.Some? <==> input.username.Some?
    ensures u.username.Some? ==> u.username.value == Trim(input.username.value) && Trimmed(u.username.value)
    ensures u.email.Some? <==> input.email.Some?
    ensures u.email.Some? ==> u.email.value == LowerCase(Trim(input.email.value))
    ensures u.email.Some? ==> Trimmed(u.email.value)
    ensures u.email.Some? ==> forall i :: 0 <= i < |u.email.value| ==> !IsAsciiUpper(u.email.value[i])
    // the password is stored as given
    ensures u.password == input.password
    // the other fields: as given, or their defaults when left out
    ensures input.admin.Some? ==> u.admin == input.admin.value
    ensures input.admin.None? ==> !u.admin
    ensures input.profileImage.Some? ==> u.profileImage == input.profileImage.value
    ensures input.profileImage.None? ==> u.profileImage == DefaultProfileImage
    ensures input.bio.Some? ==> u.bio == input.bio.value
    ensures input.bio.None? ==> u.bio == DefaultBio
    ensures input.stories.Some? ==> u.stories == input.stories.value
    ensures input.stories.None? ==> u.stories == []
    ensures input.favouriteStories.Some? ==> u.favouriteStories == input.favouriteStories.value
    ensures input.favouriteStories.None? ==> u.favouriteStories == []
  {
    var u := User(
      MapText(input.username, false),
      MapText(input.email, true),
      input.password,
      OrDefault(input.admin, false),
      OrDefault(input.profileImage, DefaultProfileImage),
      OrDefault(input.bio, DefaultBio),
      OrDefault(input.stories, []),
      OrDefault(input.favouriteStories, []));
    if u.email.Some? then
      LowerCaseKeepsTrimmed(Trim(input.email.value));
      u
    else
      u
  }

  lemma LowerCaseKeepsTrimmed(s: string)
    requires Trimmed(s)
    ensures Trimmed(LowerCase(s))
  {
    if s != [] {
      assert IsSpace(LowerCase(s)[0]) <==> IsSpace(s[0]);
      assert IsSpace(LowerCase(s)[|s| - 1]) <==> IsSpace(s[|s| - 1]);
    }
  }

  /** A stored user read back as input: every field given. */
  function UserAsInput(u: User): UserInput {
    UserInput(u.username, u.email, u.password, Some(u.admin), Some(u.profileImage),
              Some(u.bio), Some(u.stories), Some(u.favouriteStories))
  }

  /**
   * The setters are idempotent and the defaults only fill gaps: building a user
   * from a stored one gives it back unchanged.
   */
  lemma NewUserRoundTrip(input: UserInput)
    ensures NewUser(UserAsInput(NewUser(input))) == NewUser(input)
  {
    var u := NewUser(input);
    if input.username.Some? {
      TrimIdempotent(input.username.value);
    }
    if input.email.Some? {
      var e := u.email.value;
      TrimOfTrimmed(e);
      LowerCaseIdempotent(Trim(input.email.value));
    }
  }

  /** One failed validator, named by the schema path it guards. */
  datatype Violation = Required(path: string) | TooShort(path: string, min: nat) | TooLong(path: string, max: nat)

  /**
   * The first failing validator of a string path, in Mongoose's order: `required`
   * (a missing or empty string fails it) before `minlength` / `maxlength`.
   */
  function CheckText(path: string, value: Option<string>, required: bool, min: nat, max: Option<nat>): (v: Option<Violation>)
    ensures v.None? <==> (required ==> value.Some? && value.value != "")
                         && (value.Some? ==> min <= |value.value|)
                         && (value.Some? && max.Some? ==> |value.value| <= max.value)
  {
    if required && (value.None? || value.value == "") then Some(Required(path))
    else if value.Some? && |value.value| < min then Some(TooShort(path, min))
    else if value.Some? && max.Some? && |value.value| > max.value then Some(TooLong(path, max.value))
    else None
  }

  function Listed(v: Option<Violation>): seq<Violation> {
    if v.Some? then [v.value] else []
  }

  /** The validation errors of a document, one per failing path, in schema order. */
  function Violations(u: User): seq<Violation> {
    Listed(CheckText("username", u.username, true, UsernameMinLength, None))
    + Listed(CheckText("email", u.email, true, 0, None))
    + Listed(CheckText("password", u.password, true, PasswordMinLength, None))
    + Listed(CheckText("bio", Some(u.bio), false, 0, Some(BioMaxLength)))
  }

  predicate Valid(u: User) {
    Violations(u) == []
  }

  /** What validation demands of a stored document, field by field. */
  lemma ValidIff(u: User)
    ensures Valid(u) <==>
      && u.username.Some? && |u.username.value| >= UsernameMinLength
      && u.email.Some? && u.email.value != ""
      && u.password.Some? && |u.password.value| >= PasswordMinLength
      && |u.bio| <= BioMaxLength
  {
  }

  /**
   * A user built from `input` passes validation exactly when the username is at
   * least 3 characters once trimmed, the email is not blank, the password has at
   * least 6 characters and a given bio has at most 500.
   */
  lemma NewUserValidIff(input: UserInput)
    ensures Valid(NewUser(input)) <==>
      && input.username.Some? && |Trim(input.username.value)| >= UsernameMinLength
      && input.email.Some? && Trim(input.email.value) != ""
      && input.password.Some? && |input.password.value| >= PasswordMinLength
      && (input.bio.Some? ==> |input.bio.value| <= BioMaxLength)
  {
    ValidIff(NewUser(input));
  }

  /** A user built from the three registration fields takes every default. */
  lemma RegisteredUserDefaults(username: string, email: string, password: string)
    ensures var u := NewUser(UserInput(Some(username), Some(email), Some(password), None, None, None, None, None));
            && !u.admin && u.profileImage == DefaultProfileImage && u.bio == DefaultBio
            && u.stories == [] && u.favouriteStories == []
            && Valid(u) == (|Trim(username)| >= UsernameMinLength && Trim(email) != "" && |password| >= PasswordMinLength)
  {
    NewUserValidIff(UserInput(Some(username), Some(email), Some(password), None, None, None, None, None));
  }
}
