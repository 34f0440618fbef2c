/** The login mutation: look a user up by username or email, check the
    password against the stored hash, and issue tokens for an identity
    snapshot of the user. The password check and the token generator are
    foreign calls and come in as parameters, as does the predicate by which
    the repository's query decides that a user answers to an identifier. */
module JwtResolver {
  import opened Wrappers
  import opened UserModel
  import UserMutationResolver

  datatype LoginUserInput = LoginUserInput(usernameOrEmail: string, password: string)

  /** The identity the token generator signs. */
  datatype JwtUserIdentity = JwtUserIdentity(
    id: UserId,
    username: string,
    password: Hash,
    role: string,
    isActive: bool,
    email: string,
    firstName: Option<string>,
    lastName: Option<string>)

  /** The access/refresh pair issued by the token generator. */
  datatype Tokens = Tokens(accessToken: string, refreshToken: string)

  datatype AuthPayload = AuthPayload(user: User, tokens: Tokens)

  /** The repository's findByUsernameOrAndEmail: some stored user that
      answers to `identifier`, or none when no stored user does. */
  ghost function FindByUsernameOrEmail(users: map<UserId, User>, identifier: string,
                                       answersTo: (User, string) -> bool): (r: Option<User>)
    ensures r.Some? ==> r.value in users.Values && answersTo(r.value, identifier)
    ensures r.None? <==> forall u :: u in users.Values ==> !answersTo(u, identifier)
  {
    if exists u :: u in users.Values && answersTo(u, identifier) then
      var u :| u in users.Values && answersTo(u, identifier);
      Some(u)
    else
      None
  }

  /** The snapshot of `u` the tokens are issued for: the scalar fields as
      stored (the password is the hash), the name parts only when the user
      has a profile, and nothing of the auth bundle or the full name. */
  function Snapshot(u: User): (s: JwtUserIdentity)
    ensures s.id == u.id && s.username == u.username && s.password == u.password
    ensures s.role == u.role && s.isActive == u.isActive && s.email == u.email
    ensures s.firstName.Some? <==> u.profile.Some?
    ensures s.lastName.Some? <==> u.profile.Some?
    ensures u.profile.Some? ==> s.firstName == Some(u.profile.value.firstName)
    ensures u.profile.Some? ==> s.lastName == Some(u.profile.value.lastName)
  {
    JwtUserIdentity(
      u.id, u.username, u.password, u.role, u.isActive, u.email,
      if u.profile.None? then None else Some(u.profile.value.firstName),
      if u.profile.None? then None else Some(u.profile.value.lastName))
  }

  /** login, over the stored users (which it only reads): UserNotFound when
      no user answers to the identifier, PasswordInvalid when the found
      user's hash does not match, and otherwise that user with the tokens
      issued for its snapshot. */
  ghost function Login(users: map<UserId, User>, input: LoginUserInput,
                       answersTo: (User, string) -> bool,
                       matches: (string, Hash) -> bool,
                       generateTokens: JwtUserIdentity -> Tokens): (r: Result<AuthPayload, UserError>)
    ensures r == Failure(UserNotFound(None)) <==>
              forall u :: u in users.Values ==> !answersTo(u, input.usernameOrEmail)
    ensures r == Failure(PasswordInvalid) <==>
              var found := FindByUsernameOrEmail(users, input.usernameOrEmail, answersTo);
              found.Some? && !matches(input.password, found.value.password)
    ensures r.Failure? ==> r.error == UserNotFound(None) || r.error == PasswordInvalid
    ensures r.Success? ==>
              && Some(r.value.user) == FindByUsernameOrEmail(users, input.usernameOrEmail, answersTo)
              && r.value.user in users.Values
              && answersTo(r.value.user, input.usernameOrEmail)
              && matches(input.password, r.value.user.password)
              && r.value.tokens == generateTokens(Snapshot(r.value.user))
  {
    var found := FindByUsernameOrEmail(users, input.usernameOrEmail, answersTo);
    if found.None? then
      Failure(UserNotFound(None))
    else
      var user := found.value;
      if !matches(input.password, user.password) then
        Failure(PasswordInvalid)
      else
        Success(AuthPayload(user, generateTokens(Snapshot(user))))
  }

  /** An unknown identifier fails with UserNotFound whatever the password
      check and the token generator would say: neither is consulted. */
  lemma LoginUnknownIdentifierConsultsNothing(
    users: map<UserId, User>, input: LoginUserInput, answersTo: (User, string) -> bool,
    matches: (string, Hash) -> bool, generateTokens: JwtUserIdentity -> Tokens,
    matches': (string, Hash) -> bool, generateTokens': JwtUserIdentity -> Tokens)
    requires forall u :: u in users.Values ==> !answersTo(u, input.usernameOrEmail)
    ensures Login(users, input, answersTo, matches, generateTokens) == Failure(UserNotFound(None))
    ensures Login(users, input, answersTo, matches', generateTokens') == Failure(UserNotFound(None))
  {
  }

  /** A wrong password fails with PasswordInvalid whatever the token
      generator would say: no tokens are generated. */
  lemma LoginWrongPasswordIssuesNoTokens(
    users: map<UserId, User>, input: LoginUserInput, answersTo: (User, string) -> bool,
    matches: (string, Hash) -> bool,
    generateTokens: JwtUserIdentity -> Tokens, generateTokens': JwtUserIdentity -> Tokens)
    requires var found := FindByUsernameOrEmail(users, input.usernameOrEmail, answersTo);
             found.Some? && !matches(input.password, found.value.password)
    ensures Login(users, input, answersTo, matches, generateTokens) == Failure(PasswordInvalid)
    ensures Login(users, input, answersTo, matches, generateTokens') == Failure(PasswordInvalid)
  {
  }

  /** The snapshot loses only the auth bundle and the stored full name: two
      users whose full names are consistent, with the same bundle and the
      same snapshot, are the same user. */
  lemma SnapshotDeterminesUserUpToAuth(u: User, v: User)
    requires Snapshot(u) == Snapshot(v)
    requires u.auth == v.auth
    requires ProfileOk(u.profile) && ProfileOk(v.profile)
    ensures u == v
  {
  }

  /** A user saved by addUser logs in with the password it was added with,
      provided the encoder's hash of that password matches it. */
  lemma AddedUserLogsIn(
    users: map<UserId, User>, input: AddUserInput, id: UserId, encode: string -> Hash,
    identifier: string, answersTo: (User, string) -> bool,
    matches: (string, Hash) -> bool, generateTokens: JwtUserIdentity -> Tokens)
    requires FindByUsernameOrEmail(users, identifier, answersTo) ==
             Some(UserMutationResolver.NewUser(input, id, encode))
    requires matches(input.password, encode(input.password))
    ensures var u := UserMutationResolver.NewUser(input, id, encode);
            Login(users, LoginUserInput(identifier, input.password), answersTo, matches, generateTokens)
            == Success(AuthPayload(u, generateTokens(Snapshot(u))))
  {
  }

  /** After editUser supplies a new password, the edited user logs in with
      it, provided the encoder's hash of that password matches it. */
  lemma EditedPasswordLogsIn(
    users: map<UserId, User>, stored: User, input: EditUserInput, encode: string -> Hash,
    identifier: string, answersTo: (User, string) -> bool,
    matches: (string, Hash) -> bool, generateTokens: JwtUserIdentity -> Tokens)
    requires input.password.Some?
    requires FindByUsernameOrEmail(users, identifier, answersTo) ==
             Some(UserMutationResolver.EditedUser(stored, input, encode))
    requires matches(input.password.value, encode(input.password.value))
    ensures var u := UserMutationResolver.EditedUser(stored, input, encode);
            Login(users, LoginUserInput(identifier, input.password.value), answersTo, matches, generateTokens)
            == Success(AuthPayload(u, generateTokens(Snapshot(u))))
  {
  }
}
