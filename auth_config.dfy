/**
 * The credentials provider and the two callbacks of src/server/auth/config.ts.
 *
 * `authorize` is a chain of guards that either rejects with `null` or returns
 * the identity of a stored user.  The user table, the failure of the query and
 * the password check (bcrypt, or MD5 in test mode) are parameters.  The `jwt`
 * callback updates the token object in place (a class here); the `session`
 * callback builds a new session value from the token.
 */
module AuthConfig {
  import opened Wrappers
  import opened JsString

  /** A row of the users table, as far as signing in reads it. */
  datatype DbUser = DbUser(id: string, email: string, firstName: Option<string>, lastName: Option<string>,
                           password: Option<string>, isSuperuser: bool)

  /** The credentials submitted with the sign-in form; either field may be missing. */
  datatype Credentials = Credentials(email: Option<string>, password: Option<string>)

  /** The identity `authorize` hands to the session machinery (`None` fields are `undefined`). */
  datatype AuthorizedUser = AuthorizedUser(id: string, email: string, name: string,
                                           firstName: Option<string>, lastName: Option<string>, isSuperuser: bool)

  /** A JavaScript string value that is truthy: present and non-empty. */
  predicate Filled(v: Option<string>) {
    v.Some? && v.value != []
  }

  /** `select ... where email = $email limit 1`. */
  function FindByEmail(users: seq<DbUser>, email: string): (r: Option<DbUser>)
    ensures r.Some? ==> r.value in users && r.value.email == email
    ensures r.None? <==> forall u :: u in users ==> u.email != email
  {
    if users == [] then None
    else if users[0].email == email then Some(users[0])
    else FindByEmail(users[1..], email)
  }

  /**
   * The display name: first and last name joined by a space, trimmed, missing
   * parts empty.  It never starts or ends with whitespace, and it is empty when
   * both names are missing.
   */
  function DisplayName(firstName: Option<string>, lastName: Option<string>): (r: string)
    ensures r == [] || (!IsWhitespace(r[0]) && !IsWhitespace(r[|r| - 1]))
    ensures firstName.None? && lastName.None? ==> r == []
  {
    var joined := firstName.GetOr("") + " " + lastName.GetOr("");
    assert firstName.None? && lastName.None? ==> joined == " ";
    TrimOfBlank(" ");
    Trim(joined)
  }

  /**
   * `authorize(credentials)`: `users` is the table, `lookupFails` makes the query
   * throw, and `verify(password, hash)` is the password check, `None` when it throws.
   */
  function Authorize(credentials: Option<Credentials>, users: seq<DbUser>, lookupFails: bool,
                     verify: (string, string) -> Option<bool>): (r: Option<AuthorizedUser>)
    ensures r.Some? <==>
      && credentials.Some? && Filled(credentials.value.email) && Filled(credentials.value.password)
      && !lookupFails
      && FindByEmail(users, credentials.value.email.value).Some?
      && Filled(FindByEmail(users, credentials.value.email.value).value.password)
      && verify(credentials.value.password.value, FindByEmail(users, credentials.value.email.value).value.password.value) == Some(true)
    ensures r.Some? ==>
      var u := FindByEmail(users, credentials.value.email.value).value;
      && r.value.id == u.id && r.value.email == u.email == credentials.value.email.value
      && r.value.isSuperuser == u.isSuperuser
      && r.value.firstName == u.firstName && r.value.lastName == u.lastName
      && r.value.name == DisplayName(u.firstName, u.lastName)
  {
    if credentials.None? || !Filled(credentials.value.email) || !Filled(credentials.value.password) then None
    else
      var email := credentials.value.email.value;
      var password := credentials.value.password.value;
      if lookupFails then None
      else
        match FindByEmail(users, email)
        case None => None
        case Some(found) =>
          if !Filled(found.password) then None
          else
            match verify(password, found.password.value)
            case None => None
            case Some(valid) =>
              if !valid then None
              else Some(AuthorizedUser(found.id, found.email, DisplayName(found.firstName, found.lastName),
                                       found.firstName, found.lastName, found.isSuperuser))
  }

  predicate NoEdgeWhitespace(s: string) {
    s == [] || (!IsWhitespace(s[0]) && !IsWhitespace(s[|s| - 1]))
  }

  /** With both names present and already trimmed, the display name is "first last". */
  lemma DisplayNameOfFullName(first: string, last: string)
    requires first != [] && last != [] && NoEdgeWhitespace(first) && NoEdgeWhitespace(last)
    ensures DisplayName(Some(first), Some(last)) == first + " " + last
  {
    var s := first + " " + last;
    assert s[0] == first[0] && s[|s| - 1] == last[|last| - 1];
    TrimOfTrimmed(s);
  }

  /** With one name missing, the display name is the other name alone, without the separating space. */
  lemma DisplayNameOfOneName(name: string)
    requires NoEdgeWhitespace(name)
    ensures DisplayName(Some(name), None) == name
    ensures DisplayName(None, Some(name)) == name
  {
    var s1 := name + " " + "";
    assert TrimEnd(s1) == name by {
      assert s1[..|s1| - 1] == name;
    }
    var s2 := "" + " " + name;
    assert TrimStart(s2) == name by {
      assert s2[1..] == name;
    }
  }

  /** Every failure looks the same: a missing field, an unknown email, a missing hash, a wrong password or a thrown error all give `null`. */
  lemma FailuresAreIndistinguishable(credentials: Option<Credentials>, users: seq<DbUser>, lookupFails: bool,
                                     verify: (string, string) -> Option<bool>)
    requires credentials.Some? && Filled(credentials.value.email) && Filled(credentials.value.password)
    requires FindByEmail(users, credentials.value.email.value).None?
             || lookupFails
             || !Filled(FindByEmail(users, credentials.value.email.value).value.password)
             || verify(credentials.value.password.value, FindByEmail(users, credentials.value.email.value).value.password.value) != Some(true)
    ensures Authorize(credentials, users, lookupFails, verify) == None
  {
  }

  // ---------------------------------------------------------------------------
  // The jwt callback
  // ---------------------------------------------------------------------------

  /** The `user` argument of the jwt callback: present only on sign-in. */
  datatype JwtUser = JwtUser(id: Option<string>, firstName: Option<string>, lastName: Option<string>, isSuperuser: Option<bool>)

  /** The user the jwt callback receives after `authorize` returned `a`. */
  function SignInUser(a: AuthorizedUser): JwtUser {
    JwtUser(Some(a.id), a.firstName, a.lastName, Some(a.isSuperuser))
  }

  /** The token's identity claims, with NextAuth's own claims (name, email, sub, ...) by name. */
  datatype TokenClaims = TokenClaims(id: Option<string>, firstName: Option<string>, lastName: Option<string>,
                                     isSuperuser: Option<bool>, standard: map<string, string>)

  /** `user?.id` is truthy. */
  predicate HasId(user: Option<JwtUser>) {
    user.Some? && Filled(user.value.id)
  }

  /** The claims after the jwt callback: the user's four fields overwrite the token's when the user has an id. */
  function JwtClaims(c: TokenClaims, user: Option<JwtUser>): (r: TokenClaims)
    ensures r.standard == c.standard
    ensures HasId(user) ==>
      r.id == user.value.id && r.firstName == user.value.firstName
      && r.lastName == user.value.lastName && r.isSuperuser == user.value.isSuperuser
    ensures !HasId(user) ==> r == c
  {
    if HasId(user) then c.(id := user.value.id, firstName := user.value.firstName,
                           lastName := user.value.lastName, isSuperuser := user.value.isSuperuser)
    else c
  }

  /** Applying the callback again with the same user changes nothing more. */
  lemma JwtClaimsIdempotent(c: TokenClaims, user: Option<JwtUser>)
    ensures JwtClaims(JwtClaims(c, user), user) == JwtClaims(c, user)
  {
  }

  /** The token object the jwt callback receives and updates in place. */
  class Token {
    var id: Option<string>
    var firstName: Option<string>
    var lastName: Option<string>
    var isSuperuser: Option<bool>
    var standard: map<string, string>

    function Claims(): TokenClaims
      reads this
    {
      TokenClaims(id, firstName, lastName, isSuperuser, standard)
    }

    constructor (standard: map<string, string>)
      ensures Claims() == TokenClaims(None, None, None, None, standard)
    {
      id, firstName, lastName, isSuperuser := None, None, None, None;
      this.standard := standard;
    }

    /** `callbacks.jwt({ token: this, user })`: returns this same token object. */
    method Jwt(user: Option<JwtUser>) returns (t: Token)
      modifies this
      ensures t == this
      ensures Claims() == JwtClaims(old(Claims()), user)
    {
      if HasId(user) {
        id := user.value.id;
        firstName := user.value.firstName;
        lastName := user.value.lastName;
        isSuperuser := user.value.isSuperuser;
      }
      t := this;
    }
  }

  // ---------------------------------------------------------------------------
  // The session callback
  // ---------------------------------------------------------------------------

  /** The session's user: NextAuth's name, email and image plus the fields the token supplies. */
  datatype SessionUser = SessionUser(id: Option<string>, name: Option<string>, email: Option<string>, image: Option<string>,
                                     firstName: Option<string>, lastName: Option<string>, isSuperuser: Option<bool>)

  datatype Session = Session(user: Option<SessionUser>, expires: string)

  /** `callbacks.session({ session, token })`. */
  function SessionCallback(session: Session, token: TokenClaims): (r: Session)
    ensures r.expires == session.expires && r.user.Some?
    ensures r.user.value.id == token.id && r.user.value.firstName == token.firstName
    ensures r.user.value.lastName == token.lastName && r.user.value.isSuperuser == token.isSuperuser
    ensures session.user.Some? ==>
      r.user.value.name == session.user.value.name && r.user.value.email == session.user.value.email
      && r.user.value.image == session.user.value.image
    ensures session.user.None? ==> r.user.value.name == None && r.user.value.email == None && r.user.value.image == None
  {
    var base := session.user.GetOr(SessionUser(None, None, None, None, None, None, None));
    session.(user := Some(base.(id := token.id, firstName := token.firstName,
                                lastName := token.lastName, isSuperuser := token.isSuperuser)))
  }

  /**
   * After a successful sign-in, the session built from the token carries the
   * stored user's id, names and superuser flag; NextAuth's later calls of the jwt
   * callback (without a user) keep them.
   */
  lemma {:induction false} SignInSession(credentials: Option<Credentials>, users: seq<DbUser>, lookupFails: bool,
                                         verify: (string, string) -> Option<bool>, a: AuthorizedUser,
                                         token: TokenClaims, session: Session, refreshes: nat)
    requires Authorize(credentials, users, lookupFails, verify) == Some(a)
    requires a.id != []
    ensures var u := FindByEmail(users, credentials.value.email.value).value;
      var s := SessionCallback(session, Refreshed(JwtClaims(token, Some(SignInUser(a))), refreshes));
      && s.user.value.id == Some(u.id)
      && s.user.value.firstName == u.firstName && s.user.value.lastName == u.lastName
      && s.user.value.isSuperuser == Some(u.isSuperuser)
  {
  }

  /** The claims after `n` further jwt callbacks without a user: the claims they started from. */
  function Refreshed(c: TokenClaims, n: nat): (r: TokenClaims)
    ensures r == c
  {
    if n == 0 then c else Refreshed(JwtClaims(c, None), n - 1)
  }
}
