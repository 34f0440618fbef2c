/** The user aggregate (User, UserProfile, UserAuth and its five federated
    identities), the GraphQL input objects of the account mutations, and the
    exceptions they throw. */
module UserModel {
  import opened Wrappers

  type UserId = int

  /** A stored password hash, as produced by the password encoder. */
  type Hash = string

  datatype UserProfile = UserProfile(firstName: string, lastName: string, fullName: string)

  /** The full name is the first name, one space, and the last name. */
  predicate FullNameConsistent(p: UserProfile) {
    p.fullName == p.firstName + " " + p.lastName
  }

  /** An absent profile is consistent; a present one must keep its full name. */
  predicate ProfileOk(p: Option<UserProfile>) {
    p.Some? ==> FullNameConsistent(p.value)
  }

  /** The UserProfile(firstName, lastName) constructor, which derives the full name. */
  function NewProfile(firstName: string, lastName: string): UserProfile {
    UserProfile(firstName, lastName, firstName + " " + lastName)
  }

  datatype CertificateAuth = CertificateAuth(serial: string)
  datatype FacebookAuth = FacebookAuth(fbId: string, displayName: string)
  datatype LinkedInAuth = LinkedInAuth(lnId: string, displayName: string)
  datatype GoogleAuth = GoogleAuth(googleId: string, displayName: string)
  datatype GithubAuth = GithubAuth(ghId: string, displayName: string)

  /** The federated-auth bundle: five independently optional sub-identities. */
  datatype UserAuth = UserAuth(
    certificate: Option<CertificateAuth>,
    facebook: Option<FacebookAuth>,
    linkedin: Option<LinkedInAuth>,
    google: Option<GoogleAuth>,
    github: Option<GithubAuth>)

  /** The bundle that UserAuth.builder().build() gives when nothing is set. */
  const NoAuth := UserAuth(None, None, None, None, None)

  datatype User = User(
    id: UserId,
    username: string,
    password: Hash,
    role: string,
    isActive: bool,
    email: string,
    profile: Option<UserProfile>,
    auth: Option<UserAuth>)

  datatype ProfileInput = ProfileInput(firstName: Option<string>, lastName: Option<string>)

  datatype CertificateInput = CertificateInput(serial: string)
  datatype FacebookInput = FacebookInput(fbId: string, displayName: string)
  datatype LinkedInInput = LinkedInInput(lnId: string, displayName: string)
  datatype GoogleInput = GoogleInput(googleId: string, displayName: string)
  datatype GithubInput = GithubInput(ghId: string, displayName: string)

  datatype AuthInput = AuthInput(
    certificate: Option<CertificateInput>,
    facebook: Option<FacebookInput>,
    linkedin: Option<LinkedInInput>,
    google: Option<GoogleInput>,
    github: Option<GithubInput>)

  datatype AddUserInput = AddUserInput(
    username: string,
    password: string,
    role: string,
    isActive: bool,
    email: string,
    profile: Option<ProfileInput>,
    auth: Option<AuthInput>)

  datatype EditUserInput = EditUserInput(
    id: UserId,
    username: string,
    role: string,
    email: string,
    isActive: Option<bool>,
    password: Option<string>,
    profile: Option<ProfileInput>,
    auth: Option<AuthInput>)

  /** UserNotFoundException carries the id when the lookup was by id;
      PasswordInvalidException carries nothing. */
  datatype UserError = UserNotFound(id: Option<UserId>) | PasswordInvalid

  /** Response wrapper pairing a mutation with the affected user. */
  datatype UserPayload = UserPayload(user: User)

  // Copies of one input sub-identity into the entity it becomes
  // (new CertificateAuth(cert.getSerial()), new FacebookAuth(fb.getFbId(), ...), ...).

  function CertificateFrom(c: CertificateInput): CertificateAuth { CertificateAuth(c.serial) }
  function FacebookFrom(f: FacebookInput): FacebookAuth { FacebookAuth(f.fbId, f.displayName) }
  function LinkedInFrom(l: LinkedInInput): LinkedInAuth { LinkedInAuth(l.lnId, l.displayName) }
  function GoogleFrom(g: GoogleInput): GoogleAuth { GoogleAuth(g.googleId, g.displayName) }
  function GithubFrom(g: GithubInput): GithubAuth { GithubAuth(g.ghId, g.displayName) }
}
