/** The account routes of src/routes/auth.py: the email-format check,
    registration, login, logout, the current user and the profile update. */
module Auth {
  import opened Common
  import opened Models
  import opened Database

  // ---------------------------------------------------------------------
  // validate_email
  // ---------------------------------------------------------------------

  /** `[a-zA-Z0-9._%+-]` */
  predicate LocalChar(c: char) {
    IsAsciiLetter(c) || IsAsciiDigit(c) || c == '.' || c == '_' || c == '%' || c == '+' || c == '-'
  }

  /** `[a-zA-Z0-9.-]` */
  predicate DomainChar(c: char) {
    IsAsciiLetter(c) || IsAsciiDigit(c) || c == '.' || c == '-'
  }

  /** `s` is `local@domain.tld` with the `@` at `i` and the final dot at `j`:
      a non-empty local part over the local characters, a non-empty domain
      over the domain characters and a top-level domain of two or more ASCII
      letters. */
  predicate ShapeAt(s: string, i: int, j: int) {
    && 0 < i && i + 1 < j && j + 2 < |s|
    && s[i] == '@' && s[j] == '.'
    && (forall k :: 0 <= k < i ==> LocalChar(s[k]))
    && (forall k :: i < k < j ==> DomainChar(s[k]))
    && (forall k :: j < k < |s| ==> IsAsciiLetter(s[k]))
  }

  /** The whole of `s` matches `[local]+@[domain]+\.[a-zA-Z]{2,}`. */
  ghost predicate FullMatch(s: string) {
    exists i, j :: ShapeAt(s, i, j)
  }

  /** `re.match(pattern, s)` with the pattern anchored by `^` and `$`: since
      `$` also matches before a final newline, one trailing `\n` is allowed. */
  ghost predicate EmailPattern(s: string) {
    FullMatch(s) || (|s| > 0 && s[|s| - 1] == '\n' && FullMatch(s[..|s| - 1]))
  }

  /** The shape test without backtracking: the `@` must be the first one and
      the dot the last one. */
  predicate Shaped(s: string) {
    match IndexOf(s, '@')
    case None => false
    case Some(i) =>
      match LastIndexOf(s, '.')
      case None => false
      case Some(j) => ShapeAt(s, i, j)
  }

  lemma {:induction false} ShapedIff(s: string)
    ensures Shaped(s) <==> FullMatch(s)
  {
    if FullMatch(s) {
      var i, j :| ShapeAt(s, i, j);
      var i0 := IndexOf(s, '@');
      var j0 := LastIndexOf(s, '.');
      assert s[i] == '@' && s[j] == '.';
      assert i0.Some? && i0.value == i;
      assert j0.Some? && j0.value == j;
    }
  }

  /** `validate_email`: accepts exactly the strings the regular expression
      matches. */
  predicate ValidateEmail(s: string): (b: bool)
    ensures b <==> EmailPattern(s)
  {
    ShapedIff(s);
    if |s| == 0 then Shaped(s)
    else
      ShapedIff(s[..|s| - 1]);
      Shaped(s) || (s[|s| - 1] == '\n' && Shaped(s[..|s| - 1]))
  }

  // ---------------------------------------------------------------------
  // POST /register
  // ---------------------------------------------------------------------

  /** The JSON body; `None` is an absent key. */
  datatype RegisterInput = RegisterInput(
    username: Option<string>, email: Option<string>, password: Option<string>,
    role: Option<string>, city: Option<string>, bio: Option<string>, phone: Option<string>)

  datatype RegisterOutcome = MissingFields | InvalidEmail | ShortPassword | EmailTaken | UsernameTaken | Registered {
    function Code(): int {
      if this == Registered then 201 else 400
    }
  }

  const MIN_PASSWORD := 6

  /** The checks of `register`, in order: the three mandatory fields, the
      email format, the password length, an existing email, an existing
      username. */
  function RegisterCheck(users: seq<User>, input: RegisterInput): (o: RegisterOutcome)
    ensures o == MissingFields <==> !Truthy(input.username) || !Truthy(input.email) || !Truthy(input.password)
    ensures o != MissingFields ==> (o == InvalidEmail <==> !ValidateEmail(input.email.value))
    ensures o != MissingFields && o != InvalidEmail ==>
      (o == ShortPassword <==> |input.password.value| < MIN_PASSWORD)
    ensures o != MissingFields && o != InvalidEmail && o != ShortPassword ==>
      (o == EmailTaken <==> FindUserByEmail(users, input.email.value).Some?)
    ensures o != MissingFields && o != InvalidEmail && o != ShortPassword && o != EmailTaken ==>
      (o == UsernameTaken <==> FindUserByUsername(users, input.username.value).Some?)
    ensures o == Registered <==>
      && Truthy(input.username) && Truthy(input.email) && Truthy(input.password)
      && ValidateEmail(input.email.value) && |input.password.value| >= MIN_PASSWORD
      && (forall k :: 0 <= k < |users| ==> users[k].email != input.email.value)
      && (forall k :: 0 <= k < |users| ==> users[k].username != input.username.value)
  {
    if !Truthy(input.username) || !Truthy(input.email) || !Truthy(input.password) then MissingFields
    else if !ValidateEmail(input.email.value) then InvalidEmail
    else if |input.password.value| < MIN_PASSWORD then ShortPassword
    else if FindUserByEmail(users, input.email.value).Some? then EmailTaken
    else if FindUserByUsername(users, input.username.value).Some? then UsernameTaken
    else Registered
  }

  /** The user `register` inserts: the given role (any string, `client` when
      absent), city, bio and phone defaulting to `''`, the password stored
      only as its hash, status active. */
  function RegisteredUser(id: int, input: RegisterInput, salt: string, now: int): (u: User)
    requires Truthy(input.username) && Truthy(input.email) && Truthy(input.password)
    ensures u.id == id && u.username == input.username.value && u.email == input.email.value
    ensures u.role == input.role.GetOr(CLIENT) && u.status == ACTIVE
    ensures u.city == Some(input.city.GetOr("")) && u.bio == Some(input.bio.GetOr("")) && u.phone == Some(input.phone.GetOr(""))
    ensures CheckPassword(u.passwordHash, input.password.value)
    ensures u.createdAt == now && u.verifiedAt.None?
  {
    CheckPasswordIff(salt, input.password.value, input.password.value);
    NewUser(id, input.username.value, input.email.value, HashPassword(salt, input.password.value), now)
      .(role := input.role.GetOr(CLIENT),
        city := Some(input.city.GetOr("")), bio := Some(input.bio.GetOr("")), phone := Some(input.phone.GetOr("")))
  }

  /** `register`. On success exactly one user is appended and the session is
      logged in as that user with its role; otherwise nothing changes. The
      password salt is a parameter; the welcome email is not modelled. */
  method Register(store: Store, session: Session, input: RegisterInput, salt: string, now: int)
    returns (outcome: RegisterOutcome)
    requires store.Valid()
    modifies store`users, store`nextUserId, session
    ensures store.Valid()
    ensures outcome == RegisterCheck(old(store.users), input)
    ensures outcome != Registered ==>
      && store.users == old(store.users) && store.nextUserId == old(store.nextUserId)
      && session.userId == old(session.userId) && session.userRole == old(session.userRole)
    ensures outcome == Registered ==>
      var u := RegisteredUser(old(store.nextUserId), input, salt, now);
      && store.users == old(store.users) + [u]
      && store.nextUserId == old(store.nextUserId) + 1
      && session.userId == Some(u.id) && session.userRole == Some(u.role)
  {
    outcome := RegisterCheck(store.users, input);
    if outcome != Registered {
      return;
    }
    var u := RegisteredUser(store.nextUserId, input, salt, now);
    AppendUserKeepsTables(store.users, store.requests, store.quotes, store.nextUserId, store.nextRequestId,
                          store.nextQuoteId, u);
    store.users := store.users + [u];
    store.nextUserId := store.nextUserId + 1;
    session.userId := Some(u.id);
    session.userRole := Some(u.role);
  }

  // ---------------------------------------------------------------------
  // POST /login, POST /logout, GET /me
  // ---------------------------------------------------------------------

  datatype LoginOutcome = LoginMissing | BadCredentials | Suspended | LoggedIn(index: nat) {
    function Code(): int {
      match this
      case LoginMissing => 400
      case BadCredentials => 401
      case Suspended => 403
      case LoggedIn(_) => 200
    }
  }

  /** The checks of `login`, in order: both fields present; a known email
      whose stored hash accepts the password (an unknown email and a wrong
      password are the same answer); then, and only then, a suspended
      account is refused. */
  function LoginDecision(users: seq<User>, email: Option<string>, password: Option<string>): (o: LoginOutcome)
    ensures o == LoginMissing <==> !Truthy(email) || !Truthy(password)
    ensures o == BadCredentials <==>
      Truthy(email) && Truthy(password)
      && (FindUserByEmail(users, email.value).None?
          || !CheckPassword(users[FindUserByEmail(users, email.value).value].passwordHash, password.value))
    ensures o == Suspended || o.LoggedIn? ==>
      Truthy(email) && Truthy(password) && FindUserByEmail(users, email.value).Some?
      && CheckPassword(users[FindUserByEmail(users, email.value).value].passwordHash, password.value)
    ensures o == Suspended <==>
      o != LoginMissing && o != BadCredentials && users[FindUserByEmail(users, email.value).value].status == SUSPENDED
    ensures o.LoggedIn? ==> o == LoggedIn(FindUserByEmail(users, email.value).value) && users[o.index].status != SUSPENDED
  {
    if !Truthy(email) || !Truthy(password) then LoginMissing
    else match FindUserByEmail(users, email.value)
      case None => BadCredentials
      case Some(k) =>
        if !CheckPassword(users[k].passwordHash, password.value) then BadCredentials
        else if users[k].status == SUSPENDED then Suspended
        else LoggedIn(k)
  }

  /** `login`: on success the session holds the user's id and role; on any
      refusal the session is unchanged. */
  method Login(store: Store, session: Session, email: Option<string>, password: Option<string>)
    returns (outcome: LoginOutcome)
    modifies session
    ensures outcome == LoginDecision(store.users, email, password)
    ensures !outcome.LoggedIn? ==> session.userId == old(session.userId) && session.userRole == old(session.userRole)
    ensures outcome.LoggedIn? ==>
      session.userId == Some(store.users[outcome.index].id) && session.userRole == Some(store.users[outcome.index].role)
  {
    outcome := LoginDecision(store.users, email, password);
    if outcome.LoggedIn? {
      session.userId := Some(store.users[outcome.index].id);
      session.userRole := Some(store.users[outcome.index].role);
    }
  }

  /** A user who has just registered can log in with the same email and
      password. */
  lemma {:induction false} RegisterThenLogin(users: seq<User>, input: RegisterInput, id: int, salt: string, now: int)
    requires RegisterCheck(users, input) == Registered
    ensures LoginDecision(users + [RegisteredUser(id, input, salt, now)], input.email, input.password)
      == LoggedIn(|users|)
  {
    var u := RegisteredUser(id, input, salt, now);
    var us := users + [u];
    var f := FindUserByEmail(us, input.email.value);
    assert us[|users|].email == input.email.value;
    assert f.Some? && f.value == |users|;
  }

  /** `logout`: the session is emptied. */
  method Logout(session: Session) returns (code: int)
    modifies session
    ensures code == 200 && session.userId.None? && session.userRole.None?
  {
    session.Clear();
    code := 200;
  }

  /** `get_current_user`: 401 without a session user id; when that user no
      longer exists the session is cleared and the answer is 404; otherwise
      200 with the user's projection. */
  method GetCurrentUser(store: Store, session: Session) returns (code: int, body: Option<map<string, Json>>)
    modifies session
    ensures old(session.userId).None? ==> code == 401 && body.None? && session.userId.None? && session.userRole == old(session.userRole)
    ensures old(session.userId).Some? && FindUser(store.users, old(session.userId).value).None? ==>
      code == 404 && body.None? && session.userId.None? && session.userRole.None?
    ensures old(session.userId).Some? && FindUser(store.users, old(session.userId).value).Some? ==>
      && code == 200 && body == Some(UserToDict(store.users[FindUser(store.users, old(session.userId).value).value]))
      && session.userId == old(session.userId) && session.userRole == old(session.userRole)
  {
    if session.userId.None? {
      return 401, None;
    }
    match FindUser(store.users, session.userId.value)
    case None =>
      session.Clear();
      code, body := 404, None;
    case Some(k) =>
      code, body := 200, Some(UserToDict(store.users[k]));
  }

  // ---------------------------------------------------------------------
  // PUT /profile
  // ---------------------------------------------------------------------

  /** The JSON body; `None` is an absent key. */
  datatype ProfileInput = ProfileInput(
    username: Option<string>, city: Option<string>, bio: Option<string>, phone: Option<string>, role: Option<string>)

  /** The status `update_profile` answers with: 401 without a session user
      id, 404 when that user does not exist, 400 when the requested username
      belongs to a different user, otherwise 200. */
  function ProfileDecision(users: seq<User>, uid: Option<int>, input: ProfileInput): (code: int)
    ensures code == 401 <==> uid.None?
    ensures code == 404 <==> uid.Some? && FindUser(users, uid.value).None?
    ensures code == 400 <==>
      && uid.Some? && FindUser(users, uid.value).Some? && input.username.Some?
      && FindUserByUsername(users, input.username.value).Some?
      && users[FindUserByUsername(users, input.username.value).value].id != uid.value
    ensures code == 200 ==> uid.Some? && FindUser(users, uid.value).Some?
    ensures code == 200 && input.username.Some? && FindUserByUsername(users, input.username.value).Some? ==>
      users[FindUserByUsername(users, input.username.value).value].id == uid.value
    ensures code == 401 || code == 404 || code == 400 || code == 200
  {
    if uid.None? then 401
    else if FindUser(users, uid.value).None? then 404
    else if input.username.Some? && FindUserByUsername(users, input.username.value).Some?
            && users[FindUserByUsername(users, input.username.value).value].id != uid.value then 400
    else 200
  }

  /** The roles a user may give themself. */
  predicate SelfAssignable(role: string) {
    role == CLIENT || role == REPAIRER
  }

  /** The user after the profile update: username, city, bio and phone only
      when present; the role only to client or repairer, other values being
      ignored; email, status, password and every other column untouched. */
  function Profiled(u: User, input: ProfileInput): (v: User)
    ensures v.username == input.username.GetOr(u.username)
    ensures v.city == (if input.city.Some? then input.city else u.city)
    ensures v.bio == (if input.bio.Some? then input.bio else u.bio)
    ensures v.phone == (if input.phone.Some? then input.phone else u.phone)
    ensures v.role == if input.role.Some? && SelfAssignable(input.role.value) then input.role.value else u.role
    ensures v.(username := u.username, city := u.city, bio := u.bio, phone := u.phone, role := u.role) == u
  {
    u.(username := input.username.GetOr(u.username),
       city := if input.city.Some? then input.city else u.city,
       bio := if input.bio.Some? then input.bio else u.bio,
       phone := if input.phone.Some? then input.phone else u.phone,
       role := if input.role.Some? && SelfAssignable(input.role.value) then input.role.value else u.role)
  }

  /** A profile update never makes an admin: the role after it is admin only
      if it was admin before. */
  lemma ProfileGrantsNoAdmin(u: User, input: ProfileInput)
    ensures Profiled(u, input).role == ADMIN ==> u.role == ADMIN
  {
  }

  /** An accepted update keeps usernames unique: the new username is held by
      no other user. */
  lemma {:induction false} ProfileKeepsUsernamesUnique(users: seq<User>, uid: int, input: ProfileInput)
    requires UniqueUsers(users)
    requires ProfileDecision(users, Some(uid), input) == 200
    ensures var k := FindUser(users, uid).value;
      forall m :: 0 <= m < |users| && m != k ==> users[m].username != Profiled(users[k], input).username
  {
    var k := FindUser(users, uid).value;
    forall m | 0 <= m < |users| && m != k
      ensures users[m].username != Profiled(users[k], input).username
    {
      if m < k { assert users[m].id != users[k].id && users[m].username != users[k].username; }
      else { assert users[k].id != users[m].id && users[k].username != users[m].username; }
    }
  }

  /** `update_profile`. On 200 the session user's row is rewritten by
      `Profiled`; on any other status nothing changes. */
  method UpdateProfile(store: Store, session: Session, input: ProfileInput) returns (code: int)
    requires store.Valid()
    modifies store`users
    ensures store.Valid()
    ensures code == ProfileDecision(old(store.users), session.userId, input)
    ensures code != 200 ==> store.users == old(store.users)
    ensures code == 200 ==>
      var k := FindUser(old(store.users), session.userId.value).value;
      store.users == old(store.users)[k := Profiled(old(store.users)[k], input)]
  {
    code := ProfileDecision(store.users, session.userId, input);
    if code != 200 {
      return;
    }
    var k := FindUser(store.users, session.userId.value).value;
    var v := Profiled(store.users[k], input);
    ProfileKeepsUsernamesUnique(store.users, session.userId.value, input);
    ReplaceUserKeepsTables(store.users, store.requests, store.quotes, store.nextUserId, store.nextRequestId,
                           store.nextQuoteId, k, v);
    store.users := store.users[k := v];
  }
}
