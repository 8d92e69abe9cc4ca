/**
 * Sign-in with a single admin account whose username and password come
 * from the environment, and the two session callbacks that carry the
 * user's id from the sign-in into the token and from the token into the
 * session.
 */
module Auth {
  import opened Wrappers

  /** The submitted form; either field may be missing. */
  datatype Credentials = Credentials(username: Option<string>, password: Option<string>)

  datatype User = User(id: string, name: string, email: string)

  /** The one account `authorize` ever returns. */
  const Admin := User("1", "Goldie Tran", "goldietran@example.com")

  /** JavaScript truthiness of an optional string. */
  predicate Truthy(v: Option<string>) {
    v.Some? && v.value != ""
  }

  /**
   * `authorize`: the submitted username and password must be strictly equal
   * to the configured ones (a missing value only equals a missing value),
   * and both configured values must be set and non-empty.
   */
  function Authorize(credentials: Option<Credentials>, adminUsername: Option<string>, adminPassword: Option<string>): (u: Option<User>)
    ensures u.Some? ==> u.value == Admin
  {
    var username := if credentials.Some? then credentials.value.username else None;
    var password := if credentials.Some? then credentials.value.password else None;
    if username == adminUsername && password == adminPassword && Truthy(adminUsername) && Truthy(adminPassword)
    then Some(Admin)
    else None
  }

  /** Sign-in succeeds exactly for the configured pair, and only when both are set. */
  lemma AuthorizeExactly(credentials: Option<Credentials>, adminUsername: Option<string>, adminPassword: Option<string>)
    ensures Authorize(credentials, adminUsername, adminPassword).Some? <==>
      && Truthy(adminUsername) && Truthy(adminPassword)
      && credentials == Some(Credentials(adminUsername, adminPassword))
  {
  }

  /** With either configured value unset or empty, nothing signs in, not even an empty form. */
  lemma UnconfiguredRejectsAll(credentials: Option<Credentials>, adminUsername: Option<string>, adminPassword: Option<string>)
    requires !Truthy(adminUsername) || !Truthy(adminPassword)
    ensures Authorize(credentials, adminUsername, adminPassword) == None
  {
  }

  /** The session token; of its fields only the user id is modelled. */
  class Token {
    var id: Option<string>

    constructor (id: Option<string>)
      ensures this.id == id
    {
      this.id := id;
    }
  }

  /** `jwt`: on sign-in the user's id is copied into the token; otherwise the token is returned as it is. */
  method Jwt(token: Token, user: Option<User>) returns (r: Token)
    modifies token
    ensures r == token
    ensures token.id == if user.Some? then Some(user.value.id) else old(token.id)
  {
    if user.Some? {
      token.id := Some(user.value.id);
    }
    r := token;
  }

  class SessionUser {
    var id: Option<string>

    constructor (id: Option<string>)
      ensures this.id == id
    {
      this.id := id;
    }
  }

  class Session {
    var user: Option<SessionUser>

    constructor (user: Option<SessionUser>)
      ensures this.user == user
    {
      this.user := user;
    }
  }

  /** `session`: when the session has a user, its id becomes the token's id; nothing else changes. */
  method SessionCallback(session: Session, token: Token) returns (r: Session)
    modifies if session.user.Some? then {session.user.value} else {}
    ensures r == session && session.user == old(session.user)
    ensures session.user.Some? ==> session.user.value.id == token.id
  {
    if session.user.Some? {
      session.user.value.id := token.id;
    }
    r := session;
  }

  /** Sign-in as NextAuth runs it: `authorize`, then `jwt`, then `session`; an accepted login shows id "1" in the session. */
  method SignInFlow(token: Token, session: Session, credentials: Option<Credentials>,
                    adminUsername: Option<string>, adminPassword: Option<string>) returns (r: Session)
    requires session.user.Some?
    modifies token, session.user.value
    ensures r == session && r.user == old(session.user)
    ensures Authorize(credentials, adminUsername, adminPassword).Some? ==> r.user.value.id == Some("1")
  {
    var user := Authorize(credentials, adminUsername, adminPassword);
    var t := Jwt(token, user);
    r := SessionCallback(session, t);
  }
}
