# User-account mutations and login, modelled in Dafny

This project models the account side of a GraphQL user service: the
`addUser`, `editUser` and `deleteUser` mutations of `UserMutationResolver`
and the `login` mutation of `JwtResolver`.

- `wrappers.dfy` (module `Wrappers`): `Option` for Java's `Optional` and nullable
  references, and `Result` for a mutation's payload or the exception it throws.
- `user_model.dfy` (module `UserModel`): the `User` aggregate. It has an optional
  `UserProfile` and an optional `UserAuth` bundle. The bundle holds five optional
  sub-identities: certificate, Facebook, LinkedIn, Google and GitHub. The module
  also holds the GraphQL inputs `AddUserInput`, `EditUserInput`, `ProfileInput`
  and `AuthInput`, and the two exceptions `UserNotFound` and `PasswordInvalid`.
- `user_mutation_resolver.dfy` (module `UserMutationResolver`): the two private
  `from` builders (`ProfileFrom`, `AuthFrom`) and the two in-place patches of
  `editUser` (`PatchProfile`, `PatchAuth`), all as functions. `NewUser` and
  `EditedUser` say which user each mutation saves. The class `UserStore` holds the
  repository's rows (`users`, a map from id to `User`) and the publisher's log
  (`events`, a sequence that only grows). Its methods `AddUser`, `EditUser` and
  `DeleteUser` each run one mutation as a single atomic step.
  `EditUser` runs `editUser`'s setters one statement at a time, through
  `ApplyEdit`, `ApplyProfileInput` and `ApplyAuthInput`. The store's
  invariant `Valid()` says three things. Every user is stored under its own id.
  Every stored profile's full name is its first name, a space and its last name.
  Replaying the event log over the initial rows gives the current rows.
  The full-name part is an assumption about the initial rows: the constructor
  requires every profile it is given to be consistent. The source never checks
  this for a row it reads, and a stale full name stays stale when an edit
  supplies no profile. Every profile the mutations build or patch is
  consistent, and no mutation's result depends on this assumption.
- `jwt_resolver.dfy` (module `JwtResolver`): the username-or-email lookup, the
  identity snapshot that tokens are issued for, and `Login`.

The password encoder, the password check and the token generator are foreign
calls. They are parameters: `encode` (a constant of `UserStore`, as the
resolver's injected `PasswordEncoder` is), `matches` and `generateTokens`.
Being Dafny functions, they are deterministic: the same argument always gives
the same result. That is an assumption of the model (see "## Left out"). Apart
from it, nothing is assumed about them beyond what each lemma states in its
`requires`. A lemma that compares two runs of a mutation takes a separate
encoder for each run.

## Model

| member | source | states |
|---|---|---|
| UserMutationResolver.ProfileFrom | modules/user/server-java/src/main/java/com/sysgears/user/resolvers/UserMutationResolver.java:140-145 | A profile built from input has the supplied first and last names and "" for a missing one. Its full name is first + " " + last. |
| UserMutationResolver.PatchProfile | modules/user/server-java/src/main/java/com/sysgears/user/resolvers/UserMutationResolver.java:72-82 | Patching an existing profile changes only the supplied name parts and keeps the others. The full name is then recomputed as first + " " + last. |
| UserMutationResolver.AuthFrom | modules/user/server-java/src/main/java/com/sysgears/user/resolvers/UserMutationResolver.java:125-138 | A bundle built from input sets each supplied sub-identity, copying its id and display name (the certificate's serial). Every sub-identity the input lacks is absent. |
| UserMutationResolver.PatchAuth | modules/user/server-java/src/main/java/com/sysgears/user/resolvers/UserMutationResolver.java:87-99 | Patching an existing bundle replaces exactly the supplied sub-identities, copying ids and display names. Every other sub-identity is left as it was. |
| UserMutationResolver.NewUser | modules/user/server-java/src/main/java/com/sysgears/user/resolvers/UserMutationResolver.java:35-51 | The added user has the input's username, role, active flag and email, and its password is encode(input password). It has a profile exactly when the input has one, built as by ProfileFrom. It has a bundle exactly when the input has one, built as by AuthFrom, so auth stays absent when none is given. Its full name is consistent. |
| UserMutationResolver.EditedUser | modules/user/server-java/src/main/java/com/sysgears/user/resolvers/UserMutationResolver.java:65-102 | The edited user keeps its id. Username, role and email are always overwritten. The active flag is overwritten only when supplied, and so is the password, stored as encode(p). With no profile input the profile is untouched. With profile input, an existing profile is patched (PatchProfile) and a missing one is created (ProfileFrom). The bundle follows the same rule with PatchAuth and AuthFrom. A consistent full name stays consistent. |
| UserMutationResolver.UserStore.AddUser | modules/user/server-java/src/main/java/com/sysgears/user/resolvers/UserMutationResolver.java:33-57 | Saves NewUser(input) under an id the store did not hold and changes no other row. Appends exactly one ADD_USER event carrying that user and returns it. Keeps the store invariant. |
| UserMutationResolver.UserStore.EditUser | modules/user/server-java/src/main/java/com/sysgears/user/resolvers/UserMutationResolver.java:59-110 | An id with no stored user fails with UserNotFound(id), with no save and no event. Otherwise it stores EditedUser(stored user, input) under that id, appends one EDIT_USER event carrying it, returns it and keeps the store invariant. |
| UserMutationResolver.UserStore.ApplyEdit | modules/user/server-java/src/main/java/com/sysgears/user/resolvers/UserMutationResolver.java:65-102 | The setter sequence editUser runs on the stored user produces exactly EditedUser(user, input). |
| UserMutationResolver.ApplyProfileInput | modules/user/server-java/src/main/java/com/sysgears/user/resolvers/UserMutationResolver.java:73-82 | The setters run on an existing profile (each supplied name part, then the full name) produce exactly PatchProfile(profile, input). |
| UserMutationResolver.ApplyAuthInput | modules/user/server-java/src/main/java/com/sysgears/user/resolvers/UserMutationResolver.java:88-99 | The setters run on an existing bundle (one per supplied sub-identity) produce exactly PatchAuth(bundle, input). |
| UserMutationResolver.UserStore.DeleteUser | modules/user/server-java/src/main/java/com/sysgears/user/resolvers/UserMutationResolver.java:112-123 | An id with no stored user fails with UserNotFound(id), with no delete and no event. Otherwise it removes that id and only that id, appends one DELETE_USER event carrying the removed user, returns it and keeps the store invariant. |
| UserMutationResolver.ReplayAppend | modules/user/server-java/src/main/java/com/sysgears/user/resolvers/UserMutationResolver.java:52-56 | Replaying a log with one more published event equals applying that event to the replay of the log. This is why each mutation keeps "the event log reproduces the store". |
| UserMutationResolver.ProfileFromIsPatchOfBlank | modules/user/server-java/src/main/java/com/sysgears/user/resolvers/UserMutationResolver.java:140-145 | Creating a profile from input equals patching a profile whose names are both "". editUser's create path and patch path agree. |
| UserMutationResolver.AuthFromIsPatchOfEmpty | modules/user/server-java/src/main/java/com/sysgears/user/resolvers/UserMutationResolver.java:125-138 | Building a bundle from input equals patching the empty bundle. editUser's create path and patch path agree. |
| UserMutationResolver.EditWithAllFiveSetsAllFive | modules/user/server-java/src/test/java/com/sysgears/user/UserMutationTest.java:121-131 | When all five sub-identities are supplied, the edited user's bundle has all five set to the given ids and display names, whether or not it had a bundle before. |
| UserMutationResolver.RepeatedEditIsLastEdit | modules/user/server-java/src/main/java/com/sysgears/user/resolvers/UserMutationResolver.java:65-102 | Applying an edit to a user it was already applied to saves exactly what that edit alone saves, even when the two runs hash with different encoders: every field but the password is idempotent, and a supplied password ends up as the later run's hash. |
| UserMutationResolver.EditSupplyingNothingKeepsUser | modules/user/server-java/src/main/java/com/sysgears/user/resolvers/UserMutationResolver.java:65-102 | An edit that repeats the stored username, role and email and supplies no optional part leaves the user unchanged. |
| JwtResolver.FindByUsernameOrEmail | modules/user/server-java/src/main/java/com/sysgears/user/resolvers/password/JwtResolver.java:39 | The lookup returns a stored user that answers to the identifier. It returns none exactly when no stored user does. |
| JwtResolver.Snapshot | modules/user/server-java/src/main/java/com/sysgears/user/resolvers/password/JwtResolver.java:51-60 | The identity snapshot copies id, username, stored hash, role, active flag and email unchanged. Its first and last names are absent when the user has no profile and equal the profile's names otherwise. |
| JwtResolver.Login | modules/user/server-java/src/main/java/com/sysgears/user/resolvers/password/JwtResolver.java:36-66 | Login fails with UserNotFound exactly when no stored user answers to the identifier. It fails with PasswordInvalid exactly when the found user's hash does not match. Otherwise it returns the found user with generateTokens(Snapshot(user)). It is a function of the stored users, so it leaves them unchanged. |
| JwtResolver.LoginUnknownIdentifierConsultsNothing | modules/user/server-java/src/main/java/com/sysgears/user/resolvers/password/JwtResolver.java:39-42 | With an unknown identifier the result is UserNotFound whatever the password check and the token generator are, so neither is consulted. |
| JwtResolver.LoginWrongPasswordIssuesNoTokens | modules/user/server-java/src/main/java/com/sysgears/user/resolvers/password/JwtResolver.java:44-49 | With a found user whose hash does not match, the result is PasswordInvalid whatever the token generator is, so no tokens are generated. |
| JwtResolver.SnapshotDeterminesUserUpToAuth | modules/user/server-java/src/main/java/com/sysgears/user/resolvers/password/JwtResolver.java:51-60 | The snapshot drops only the auth bundle and the stored full name. Two users with consistent profiles, equal bundles and equal snapshots are equal. |
| JwtResolver.AddedUserLogsIn | modules/user/server-java/src/main/java/com/sysgears/user/resolvers/password/JwtResolver.java:44-64 | A user saved by addUser, once found, logs in with the password it was added with, provided matches(p, encode(p)). The result is that user with the tokens for its snapshot. |
| JwtResolver.EditedPasswordLogsIn | modules/user/server-java/src/main/java/com/sysgears/user/resolvers/password/JwtResolver.java:44-64 | A user whose password editUser set to p, once found, logs in with p, provided matches(p, encode(p)). The result is that edited user with the tokens for its snapshot. |

## Left out

- Asynchrony and transactions (`CompletableFuture`, `thenApplyAsync`, `supplyAsync`, `@Transactional`) are left out. Each mutation is one sequential, atomic method on `UserStore`.
- Password hashing (BCrypt / `PasswordEncoder`) and `JwtGenerator.generateTokens` are foreign calls, passed in as functions with no axioms about them.
- UserMutationResolver.UserStore.encode and the `generateTokens` parameter of JwtResolver.Login are modelled as deterministic functions. The real BCrypt encoder draws a fresh salt on every call, and a token generator may stamp the time, so two calls with the same argument can give different results. The model captures only one call per mutation. No lemma equates the results of two separate calls of one encoder: `UserMutationResolver.RepeatedEditIsLastEdit` takes a different encoder for each run.
- The security-context write in `login` (`SecurityContextHolder...setAuthentication`) is ambient framework state and is not modelled.
- Repository internals are not modelled. The query behind `findByUsernameOrAndEmail` is a parameter `answersTo`. When several users answer to an identifier, the model picks some one of them, so `JwtResolver.FindByUsernameOrEmail` and `JwtResolver.Login` are ghost functions.
- Id assignment is not modelled: `addUser` never sets an id, and the repository assigns it on save. `AddUser` picks some id that no stored user has, and that is all it promises about the id.
- The `UserProfile(firstName, lastName)` constructor is not part of this model. `UserModel.NewProfile` assumes it sets the full name to first + " " + last, which is what the add-user test expects (`modules/user/server-java/src/test/java/com/sysgears/user/UserMutationTest.java:63`).
- Object identity and aliasing are not modelled, because users, profiles and bundles are values. In the source, the saved user, the published event and the returned payload share one mutable object. Here they are equal values.
- Null values in the inputs' required fields (username, role, email) are not modelled; those fields are always present strings.
- `forgotPassword`, `resetPassword` and `register` only return null and are not modelled.
- The React routing file `modules/pagination/client-react/index.jsx` is UI and is not part of this model.
