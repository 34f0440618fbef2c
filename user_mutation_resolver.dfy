/** The account mutations addUser, editUser and deleteUser over a user store
    (the repository's rows plus the publisher's event log), and the two
    builders they share: a UserProfile from a ProfileInput and a UserAuth
    from an AuthInput. */
module UserMutationResolver {
  import opened Wrappers
  import opened UserModel

  // ---------------------------------------------------------------------
  // Profiles

  /** A profile built from input: missing name parts default to "", and the
      full name is derived from the two parts. */
  function ProfileFrom(input: ProfileInput): (r: UserProfile)
    ensures r.firstName == input.firstName.GetOr("")
    ensures r.lastName == input.lastName.GetOr("")
    ensures FullNameConsistent(r)
  {
    NewProfile(input.firstName.GetOr(""), input.lastName.GetOr(""))
  }

  /** An existing profile patched by input: only the supplied name parts
      change, and the full name is recomputed in every case. */
  function PatchProfile(p: UserProfile, input: ProfileInput): (r: UserProfile)
    ensures r.firstName == input.firstName.GetOr(p.firstName)
    ensures r.lastName == input.lastName.GetOr(p.lastName)
    ensures FullNameConsistent(r)
  {
    var p := if input.firstName.Some? then p.(firstName := input.firstName.value) else p;
    var p := if input.lastName.Some? then p.(lastName := input.lastName.value) else p;
    p.(fullName := p.firstName + " " + p.lastName)
  }

  // ---------------------------------------------------------------------
  // Federated-auth bundles

  /** Every sub-identity supplied in `a` is set in `r`, copied from the input. */
  predicate InstallsSupplied(a: AuthInput, r: UserAuth) {
    && (a.certificate.Some? ==> r.certificate == Some(CertificateFrom(a.certificate.value)))
    && (a.facebook.Some? ==> r.facebook == Some(FacebookFrom(a.facebook.value)))
    && (a.linkedin.Some? ==> r.linkedin == Some(LinkedInFrom(a.linkedin.value)))
    && (a.google.Some? ==> r.google == Some(GoogleFrom(a.google.value)))
    && (a.github.Some? ==> r.github == Some(GithubFrom(a.github.value)))
  }

  /** Every sub-identity not supplied in `a` is in `r` as it was in `before`. */
  predicate KeepsUnsupplied(before: UserAuth, a: AuthInput, r: UserAuth) {
    && (a.certificate.None? ==> r.certificate == before.certificate)
    && (a.facebook.None? ==> r.facebook == before.facebook)
    && (a.linkedin.None? ==> r.linkedin == before.linkedin)
    && (a.google.None? ==> r.google == before.google)
    && (a.github.None? ==> r.github == before.github)
  }

  /** A bundle built from input with the builder: exactly the supplied
      sub-identities are set, and the others are absent. */
  function AuthFrom(a: AuthInput): (r: UserAuth)
    ensures InstallsSupplied(a, r)
    ensures KeepsUnsupplied(NoAuth, a, r)
  {
    var b := NoAuth;
    var b := if a.certificate.Some? then b.(certificate := Some(CertificateFrom(a.certificate.value))) else b;
    var b := if a.facebook.Some? then b.(facebook := Some(FacebookFrom(a.facebook.value))) else b;
    var b := if a.github.Some? then b.(github := Some(GithubFrom(a.github.value))) else b;
    var b := if a.google.Some? then b.(google := Some(GoogleFrom(a.google.value))) else b;
    if a.linkedin.Some? then b.(linkedin := Some(LinkedInFrom(a.linkedin.value))) else b
  }

  /** An existing bundle patched by input: the supplied sub-identities are
      replaced, and the others are left as they were. */
  function PatchAuth(existing: UserAuth, a: AuthInput): (r: UserAuth)
    ensures InstallsSupplied(a, r)
    ensures KeepsUnsupplied(existing, a, r)
  {
    var b := existing;
    var b := if a.certificate.Some? then b.(certificate := Some(CertificateFrom(a.certificate.value))) else b;
    var b := if a.facebook.Some? then b.(facebook := Some(FacebookFrom(a.facebook.value))) else b;
    var b := if a.linkedin.Some? then b.(linkedin := Some(LinkedInFrom(a.linkedin.value))) else b;
    var b := if a.google.Some? then b.(google := Some(GoogleFrom(a.google.value))) else b;
    if a.github.Some? then b.(github := Some(GithubFrom(a.github.value))) else b
  }

  // ---------------------------------------------------------------------
  // Users

  /** The user that addUser saves, once the repository has given it `id`. */
  function NewUser(input: AddUserInput, id: UserId, encode: string -> Hash): (r: User)
    ensures r.id == id
    ensures r.username == input.username && r.role == input.role
    ensures r.isActive == input.isActive && r.email == input.email
    ensures r.password == encode(input.password)
    ensures r.profile.Some? <==> input.profile.Some?
    ensures input.profile.Some? ==> r.profile == Some(ProfileFrom(input.profile.value))
    ensures r.auth.Some? <==> input.auth.Some?
    ensures input.auth.Some? ==> r.auth == Some(AuthFrom(input.auth.value))
    ensures ProfileOk(r.profile)
  {
    var user := User(id, input.username, encode(input.password), input.role, input.isActive, input.email, None, None);
    var user := if input.profile.Some? then user.(profile := Some(ProfileFrom(input.profile.value))) else user;
    if input.auth.Some? then user.(auth := Some(AuthFrom(input.auth.value))) else user
  }

  /** The user that editUser saves when `u` is the stored user with the
      input's id: username, role and email are always overwritten; the
      active flag and the password only when supplied; the profile and the
      bundle are patched when they exist and created when they do not. */
  function EditedUser(u: User, input: EditUserInput, encode: string -> Hash): (r: User)
    ensures r.id == u.id
    ensures r.username == input.username && r.role == input.role && r.email == input.email
    ensures r.isActive == input.isActive.GetOr(u.isActive)
    ensures input.password.Some? ==> r.password == encode(input.password.value)
    ensures input.password.None? ==> r.password == u.password
    ensures input.profile.None? ==> r.profile == u.profile
    ensures input.profile.Some? && u.profile.Some? ==>
              r.profile == Some(PatchProfile(u.profile.value, input.profile.value))
    ensures input.profile.Some? && u.profile.None? ==>
              r.profile == Some(ProfileFrom(input.profile.value))
    ensures input.auth.None? ==> r.auth == u.auth
    ensures input.auth.Some? && u.auth.Some? ==> r.auth == Some(PatchAuth(u.auth.value, input.auth.value))
    ensures input.auth.Some? && u.auth.None? ==> r.auth == Some(AuthFrom(input.auth.value))
    ensures ProfileOk(u.profile) ==> ProfileOk(r.profile)
  {
    var profile :=
      if input.profile.None? then u.profile
      else if u.profile.Some? then Some(PatchProfile(u.profile.value, input.profile.value))
      else Some(ProfileFrom(input.profile.value));
    var auth :=
      if input.auth.None? then u.auth
      else if u.auth.Some? then Some(PatchAuth(u.auth.value, input.auth.value))
      else Some(AuthFrom(input.auth.value));
    u.(username := input.username, role := input.role, email := input.email,
       isActive := input.isActive.GetOr(u.isActive),
       password := if input.password.Some? then encode(input.password.value) else u.password,
       profile := profile, auth := auth)
  }

  /** The setters editUser calls on an existing profile when the input has
      one: each supplied name part, then the recomputed full name. */
  method ApplyProfileInput(existing: UserProfile, input: ProfileInput) returns (p: UserProfile)
    ensures p == PatchProfile(existing, input)
  {
    p := existing;
    if input.firstName.Some? {
      p := p.(firstName := input.firstName.value);
    }
    if input.lastName.Some? {
      p := p.(lastName := input.lastName.value);
    }
    p := p.(fullName := p.firstName + " " + p.lastName);
  }

  /** The setters editUser calls on an existing bundle when the input has
      one: one per supplied sub-identity, in the source's order. */
  method ApplyAuthInput(existing: UserAuth, a: AuthInput) returns (b: UserAuth)
    ensures b == PatchAuth(existing, a)
  {
    b := existing;
    if a.certificate.Some? {
      b := b.(certificate := Some(CertificateFrom(a.certificate.value)));
    }
    if a.facebook.Some? {
      b := b.(facebook := Some(FacebookFrom(a.facebook.value)));
    }
    if a.linkedin.Some? {
      b := b.(linkedin := Some(LinkedInFrom(a.linkedin.value)));
    }
    if a.google.Some? {
      b := b.(google := Some(GoogleFrom(a.google.value)));
    }
    if a.github.Some? {
      b := b.(github := Some(GithubFrom(a.github.value)));
    }
  }

  // ---------------------------------------------------------------------
  // Events

  datatype Mutation = AddUserMutation | EditUserMutation | DeleteUserMutation

  /** What the publisher is given after a successful mutation. */
  datatype UserUpdatedEvent = UserUpdatedEvent(mutation: Mutation, user: User)

  /** The effect an event records, applied to a map of users. */
  function ApplyEvent(m: map<UserId, User>, e: UserUpdatedEvent): map<UserId, User> {
    match e.mutation
    case AddUserMutation => m[e.user.id := e.user]
    case EditUserMutation => m[e.user.id := e.user]
    case DeleteUserMutation => m - {e.user.id}
  }

  /** The users a subscriber obtains by applying `log`, oldest first, to `m`. */
  function Replay(m: map<UserId, User>, log: seq<UserUpdatedEvent>): map<UserId, User>
    decreases |log|
  {
    if log == [] then m else Replay(ApplyEvent(m, log[0]), log[1..])
  }

  /** Replaying one more event is applying it to the replay of the rest. */
  lemma {:induction false} ReplayAppend(m: map<UserId, User>, log: seq<UserUpdatedEvent>, e: UserUpdatedEvent)
    ensures Replay(m, log + [e]) == ApplyEvent(Replay(m, log), e)
    decreases |log|
  {
    if log == [] {
      assert [e][1..] == [];
    } else {
      assert (log + [e])[0] == log[0];
      assert (log + [e])[1..] == log[1..] + [e];
      ReplayAppend(ApplyEvent(m, log[0]), log[1..], e);
    }
  }

  // ---------------------------------------------------------------------
  // The store

  /** Every user is stored under its own id. */
  ghost predicate IdsMatchKeys(m: map<UserId, User>) {
    forall k :: k in m ==> m[k].id == k
  }

  /** Every stored profile has its full name derived from its name parts. */
  ghost predicate ProfilesOk(m: map<UserId, User>) {
    forall k :: k in m ==> ProfileOk(m[k].profile)
  }

  /** Saving a user whose full name is consistent, and publishing an
      ADD_USER or EDIT_USER event carrying it, keeps the store invariant. */
  lemma SaveKeepsInvariant(seed: map<UserId, User>, users: map<UserId, User>,
                           events: seq<UserUpdatedEvent>, e: UserUpdatedEvent)
    requires IdsMatchKeys(users) && ProfilesOk(users) && Replay(seed, events) == users
    requires e.mutation != DeleteUserMutation && ProfileOk(e.user.profile)
    ensures IdsMatchKeys(users[e.user.id := e.user])
    ensures ProfilesOk(users[e.user.id := e.user])
    ensures Replay(seed, events + [e]) == users[e.user.id := e.user]
  {
    ReplayAppend(seed, events, e);
  }

  /** An integer above every element of `s`, so one that `s` does not hold. */
  ghost function Bound(s: set<UserId>): (b: UserId)
    ensures forall x :: x in s ==> x < b
    decreases s
  {
    if exists y :: y in s then
      var y :| y in s;
      var rest := Bound(s - {y});
      assert forall x :: x in s ==> x == y || x in s - {y};
      if y < rest then rest else y + 1
    else 0
  }

  /** The repository's rows and the publisher's log, as one unit of work per
      mutation, with the password encoder the resolver is given. */
  class UserStore {
    /** The stored users, by id. */
    var users: map<UserId, User>
    /** Every event published so far, oldest first. */
    var events: seq<UserUpdatedEvent>
    /** The password encoder. */
    const encode: string -> Hash
    /** The users stored before the first event. */
    ghost const seed: map<UserId, User>

    ghost predicate Valid()
      reads this
    {
      && IdsMatchKeys(users)
      && ProfilesOk(users)
      && Replay(seed, events) == users
    }

    constructor (encode: string -> Hash, seed: map<UserId, User>)
      requires IdsMatchKeys(seed) && ProfilesOk(seed)
      ensures Valid()
      ensures this.encode == encode && this.seed == seed
      ensures users == seed && events == []
    {
      this.encode := encode;
      this.seed := seed;
      users := seed;
      events := [];
    }

    /** addUser: builds the user, saves it under an id the store does not
        hold yet, and publishes ADD_USER with it. */
    method AddUser(input: AddUserInput) returns (r: UserPayload)
      requires Valid()
      modifies this
      ensures Valid()
      ensures r.user.id !in old(users)
      ensures r.user == NewUser(input, r.user.id, encode)
      ensures users == old(users)[r.user.id := r.user]
      ensures events == old(events) + [UserUpdatedEvent(AddUserMutation, r.user)]
    {
      assert Bound(users.Keys) !in users;
      var id :| id !in users;
      var user := User(id, input.username, encode(input.password), input.role, input.isActive, input.email, None, None);
      if input.profile.Some? {
        var p := input.profile.value;
        user := user.(profile := Some(NewProfile(p.firstName.GetOr(""), p.lastName.GetOr(""))));
      }
      if input.auth.Some? {
        user := user.(auth := Some(AuthFrom(input.auth.value)));
      }
      var e := UserUpdatedEvent(AddUserMutation, user);
      SaveKeepsInvariant(seed, users, events, e);
      users := users[id := user];
      events := events + [e];
      r := UserPayload(user);
    }

    /** editUser: fails with UserNotFound, changing nothing, when no user has
        the input's id; otherwise patches that user, saves it and publishes
        EDIT_USER with it. */
    method EditUser(input: EditUserInput) returns (r: Result<UserPayload, UserError>)
      requires Valid()
      modifies this
      ensures Valid()
      ensures input.id !in old(users) ==>
                && r == Failure(UserNotFound(Some(input.id)))
                && users == old(users) && events == old(events)
      ensures input.id in old(users) ==>
                var u := EditedUser(old(users)[input.id], input, encode);
                && r == Success(UserPayload(u))
                && users == old(users)[input.id := u]
                && events == old(events) + [UserUpdatedEvent(EditUserMutation, u)]
    {
      if input.id !in users {
        return Failure(UserNotFound(Some(input.id)));
      }
      var user := ApplyEdit(users[input.id], input);
      var e := UserUpdatedEvent(EditUserMutation, user);
      SaveKeepsInvariant(seed, users, events, e);
      users := users[user.id := user];
      events := events + [e];
      r := Success(UserPayload(user));
    }

    /** The update step of editUser: the setters it calls on the stored
        user, in order. */
    method ApplyEdit(user: User, input: EditUserInput) returns (edited: User)
      ensures edited == EditedUser(user, input, encode)
    {
      edited := user;
      edited := edited.(username := input.username);
      edited := edited.(role := input.role);
      edited := edited.(email := input.email);
      if input.isActive.Some? {
        edited := edited.(isActive := input.isActive.value);
      }
      if input.password.Some? {
        edited := edited.(password := encode(input.password.value));
      }

      assert edited == user.(username := input.username, role := input.role, email := input.email,
                             isActive := input.isActive.GetOr(user.isActive),
                             password := if input.password.Some? then encode(input.password.value) else user.password);

      if edited.profile.Some? {
        if input.profile.Some? {
          var p := ApplyProfileInput(edited.profile.value, input.profile.value);
          edited := edited.(profile := Some(p));
        }
      } else if input.profile.Some? {
        edited := edited.(profile := Some(ProfileFrom(input.profile.value)));
      }

      ghost var profile :=
        if input.profile.None? then user.profile
        else if user.profile.Some? then Some(PatchProfile(user.profile.value, input.profile.value))
        else Some(ProfileFrom(input.profile.value));
      assert edited == user.(username := input.username, role := input.role, email := input.email,
                             isActive := input.isActive.GetOr(user.isActive),
                             password := if input.password.Some? then encode(input.password.value) else user.password,
                             profile := profile);

      if edited.auth.Some? {
        if input.auth.Some? {
          var b := ApplyAuthInput(edited.auth.value, input.auth.value);
          edited := edited.(auth := Some(b));
        }
      } else if input.auth.Some? {
        edited := edited.(auth := Some(AuthFrom(input.auth.value)));
      }
    }

    /** deleteUser: fails with UserNotFound, changing nothing, when no user
        has `id`; otherwise removes that user only, publishes DELETE_USER with
        it and returns it. */
    method DeleteUser(id: UserId) returns (r: Result<UserPayload, UserError>)
      requires Valid()
      modifies this
      ensures Valid()
      ensures id !in old(users) ==>
                && r == Failure(UserNotFound(Some(id)))
                && users == old(users) && events == old(events)
      ensures id in old(users) ==>
                && r == Success(UserPayload(old(users)[id]))
                && users == old(users) - {id}
                && id !in users
                && events == old(events) + [UserUpdatedEvent(DeleteUserMutation, old(users)[id])]
    {
      if id !in users {
        return Failure(UserNotFound(Some(id)));
      }
      var user := users[id];
      users := users - {user.id};
      var e := UserUpdatedEvent(DeleteUserMutation, user);
      ReplayAppend(seed, events, e);
      events := events + [e];
      r := Success(UserPayload(user));
    }
  }

  // ---------------------------------------------------------------------
  // Properties of the builders and of editing

  /** Creating a profile from input is patching a profile whose two name
      parts are empty: both paths of editUser agree. */
  lemma ProfileFromIsPatchOfBlank(input: ProfileInput)
    ensures ProfileFrom(input) == PatchProfile(NewProfile("", ""), input)
  {
  }

  /** Building a bundle from input is patching the empty bundle: both paths
      of editUser agree. */
  lemma AuthFromIsPatchOfEmpty(a: AuthInput)
    ensures AuthFrom(a) == PatchAuth(NoAuth, a)
  {
  }

  /** With all five sub-identities supplied, the edited user has all five
      set from the input, whether or not it had a bundle before. */
  lemma EditWithAllFiveSetsAllFive(u: User, input: EditUserInput, encode: string -> Hash)
    requires input.auth.Some?
    requires var a := input.auth.value;
             a.certificate.Some? && a.facebook.Some? && a.linkedin.Some? && a.google.Some? && a.github.Some?
    ensures var a := input.auth.value;
            var r := EditedUser(u, input, encode).auth;
            && r.Some?
            && r.value.certificate == Some(CertificateAuth(a.certificate.value.serial))
            && r.value.facebook == Some(FacebookAuth(a.facebook.value.fbId, a.facebook.value.displayName))
            && r.value.linkedin == Some(LinkedInAuth(a.linkedin.value.lnId, a.linkedin.value.displayName))
            && r.value.google == Some(GoogleAuth(a.google.value.googleId, a.google.value.displayName))
            && r.value.github == Some(GithubAuth(a.github.value.ghId, a.github.value.displayName))
  {
  }

  /** Applying an edit to a user it has already been applied to saves what
      that edit alone would save. The two runs may hash with different
      encoders (a salting encoder gives a different hash on every call):
      everything but the password is idempotent, and a supplied password is
      the hash from the later run. */
  lemma RepeatedEditIsLastEdit(u: User, input: EditUserInput,
                               encode: string -> Hash, encode': string -> Hash)
    ensures EditedUser(EditedUser(u, input, encode), input, encode') == EditedUser(u, input, encode')
  {
  }

  /** An edit that restates the scalars and supplies none of the optional
      parts leaves the user as it was. */
  lemma EditSupplyingNothingKeepsUser(u: User, input: EditUserInput, encode: string -> Hash)
    requires input.username == u.username && input.role == u.role && input.email == u.email
    requires input.isActive.None? && input.password.None?
    requires input.profile.None? && input.auth.None?
    ensures EditedUser(u, input, encode) == u
  {
  }
}
