/** The auth service's user and session tables and the controllers that write
    them: registration with unique emails, login capped at three unexpired
    sessions per user, and logout of one session or of all of a user's sessions.
    Hashing, token signing, token generation and the clock are inputs. */
module AuthControllers {
  import opened Values

  /** The bcrypt cost the service hashes with. */
  const SaltRounds := 10
  /** bcrypt reads only this many characters of a password. */
  const BcryptMaxLength := 72
  /** Unexpired sessions a user may hold before login is refused. */
  const MaxSessions := 3
  /** Refresh-token lifetime: seven days, in milliseconds. */
  const SessionLifetime := 7 * 24 * 60 * 60 * 1000

  /** A bcrypt hash, reduced to what decides a comparison: the cost and the part
      of the password bcrypt reads. The random salt is not modelled. */
  datatype PasswordHash = Bcrypt(cost: int, key: string)

  function Hash(password: string, cost: int): (h: PasswordHash)
    ensures h.cost == cost && |h.key| <= BcryptMaxLength
    ensures |password| <= BcryptMaxLength ==> h.key == password
  {
    Bcrypt(cost, if |password| <= BcryptMaxLength then password else password[..BcryptMaxLength])
  }

  /** `bcrypt.compare`. */
  predicate HashMatches(password: string, h: PasswordHash)
  {
    Hash(password, h.cost).key == h.key
  }

  datatype User = User(name: string, email: string, password: PasswordHash, role: string)

  datatype Session = Session(
    userId: int, refreshToken: string, userAgent: string, ipAddress: string, expiresAt: int, createdAt: int)

  /** A field of a JSON request body: absent (or `null`), a string, or some
      other JSON value (a number, a boolean, an object), of which only its
      truthiness matters. The controllers hand such a value on to the database
      client or to bcrypt, which reject anything but a string. */
  datatype Field = Absent | Text(value: string) | Other(truthy: bool)

  /** `!field` is false: a non-empty string or a truthy non-string. */
  predicate Given(f: Field)
  {
    (f.Text? && f.value != "") || (f.Other? && f.truthy)
  }

  /** The claims of a signed access token. */
  datatype Claims = Claims(userId: int, role: string)

  datatype Body =
    | Note(message: string)
    | Tokens(access: Claims, refreshToken: string)
    | Fault

  datatype Reply = Reply(status: int, body: Body)

  /** The ids of the user's sessions that have not expired at `now`. */
  function Active(sessions: map<int, Session>, userId: int, now: int): (r: set<int>)
    ensures forall id :: id in r <==> id in sessions && sessions[id].userId == userId && sessions[id].expiresAt > now
  {
    set id | id in sessions && sessions[id].userId == userId && sessions[id].expiresAt > now
  }

  /** Adding a session with a new id adds it to its user's unexpired sessions
      when it has not expired, and changes no other user's. */
  lemma ActiveAfterInsert(sessions: map<int, Session>, id: int, s: Session, userId: int, now: int)
    requires id !in sessions
    ensures Active(sessions[id := s], userId, now)
         == Active(sessions, userId, now) + (if s.userId == userId && s.expiresAt > now then {id} else {})
    ensures |Active(sessions[id := s], userId, now)|
         == |Active(sessions, userId, now)| + (if s.userId == userId && s.expiresAt > now then 1 else 0)
  {
    assert id !in Active(sessions, userId, now);
  }

  /** Removing a session removes it from its user's unexpired sessions, if it was
      one of them. */
  lemma ActiveAfterRemove(sessions: map<int, Session>, id: int, userId: int, now: int)
    ensures Active(sessions - {id}, userId, now) == Active(sessions, userId, now) - {id}
    ensures |Active(sessions - {id}, userId, now)|
         == |Active(sessions, userId, now)| - (if id in Active(sessions, userId, now) then 1 else 0)
  {
    assert Active(sessions - {id}, userId, now) == Active(sessions, userId, now) - {id};
  }

  class AuthStore {
    var users: map<int, User>
    var sessions: map<int, Session>
    var nextUserId: int
    var nextSessionId: int

    ghost predicate Valid()
      reads this
    {
      && 1 <= nextUserId && 1 <= nextSessionId
      && (forall id :: id in users ==> 1 <= id < nextUserId)
      && (forall id :: id in sessions ==> 1 <= id < nextSessionId)
      && (forall a, b :: a in users && b in users && users[a].email == users[b].email ==> a == b)
      && (forall a, b :: a in sessions && b in sessions && sessions[a].refreshToken == sessions[b].refreshToken ==> a == b)
      && (forall id :: id in sessions ==> sessions[id].userId in users)
    }

    /** Whether some session carries this refresh token. */
    predicate TokenInUse(token: string)
      reads this
    {
      exists id :: id in sessions && sessions[id].refreshToken == token
    }

    /** Whether some user registered with this email. */
    predicate EmailTaken(email: string)
      reads this
    {
      exists id :: id in users && users[id].email == email
    }

    constructor ()
      ensures Valid() && users == map[] && sessions == map[]
    {
      users := map[];
      sessions := map[];
      nextUserId := 1;
      nextSessionId := 1;
    }

    /** `session.delete`. */
    method DeleteSession(id: int)
      requires Valid() && id in sessions
      modifies this
      ensures Valid() && sessions == old(sessions) - {id}
      ensures users == old(users) && nextUserId == old(nextUserId) && nextSessionId == old(nextSessionId)
    {
      sessions := sessions - {id};
    }

    /** `session.create`, with the next id. */
    method CreateSession(s: Session) returns (id: int)
      requires Valid() && s.userId in users && !TokenInUse(s.refreshToken)
      modifies this
      ensures Valid() && id == old(nextSessionId) && id !in old(sessions)
      ensures sessions == old(sessions)[id := s] && nextSessionId == id + 1
      ensures users == old(users) && nextUserId == old(nextUserId)
    {
      id := nextSessionId;
      sessions := sessions[id := s];
      nextSessionId := id + 1;
    }

    /** `register`: every field must be given (400); a non-string email is
        refused by the database client (500); the email must be new (409); a
        non-string password, name or role is refused by bcrypt or the database
        client (500); the user is stored with the bcrypt hash of the password, never the
        password itself. The role is stored as given. */
    method Register(name: Field, email: Field, password: Field, role: Field) returns (reply: Reply)
      requires Valid()
      modifies this
      ensures Valid() && sessions == old(sessions)
      ensures !(Given(name) && Given(email) && Given(password) && Given(role)) ==>
        reply == Reply(400, Note("Please provide all fields.")) && unchanged(this)
      ensures Given(name) && Given(email) && Given(password) && Given(role) && !email.Text? ==>
        reply == Reply(500, Fault) && unchanged(this)
      ensures Given(name) && Given(email) && Given(password) && Given(role) && email.Text?
              && old(EmailTaken(email.value)) ==>
        reply == Reply(409, Note("Email already registered.")) && unchanged(this)
      ensures Given(name) && Given(email) && Given(password) && Given(role) && email.Text?
              && !old(EmailTaken(email.value)) && !(name.Text? && password.Text? && role.Text?) ==>
        reply == Reply(500, Fault) && unchanged(this)
      ensures Given(name) && Given(email) && Given(password) && Given(role)
              && name.Text? && email.Text? && password.Text? && role.Text? && !old(EmailTaken(email.value)) ==>
        var id := old(nextUserId);
        && id !in old(users)
        && users == old(users)[id := User(name.value, email.value, Hash(password.value, SaltRounds), role.value)]
        && HashMatches(password.value, users[id].password)
        && reply == Reply(201, Note("User registered successfully"))
    {
      if !(Given(name) && Given(email) && Given(password) && Given(role)) {
        return Reply(400, Note("Please provide all fields."));
      }
      if !email.Text? {
        // the database client refuses a non-string email
        return Reply(500, Fault);
      }
      if EmailTaken(email.value) {
        return Reply(409, Note("Email already registered."));
      }
      if !(name.Text? && password.Text? && role.Text?) {
        // bcrypt refuses a non-string password, the database client a non-string name or role
        return Reply(500, Fault);
      }
      var id := nextUserId;
      users := users[id := User(name.value, email.value, Hash(password.value, SaltRounds), role.value)];
      nextUserId := nextUserId + 1;
      reply := Reply(201, Note("User registered successfully"));
    }

    /** `login`: 401 for a missing field, an unknown email or a wrong password;
        500 for a non-string email, or a non-string password of a known email;
        403 when the user already holds three unexpired sessions; otherwise one
        new session with the fresh token `token`, expiring seven days after
        `now`. The token generator is taken to produce a token no session has. */
    method Login(email: Field, password: Field, now: int, token: string, userAgent: string, ipAddress: string)
      returns (reply: Reply)
      requires Valid() && !TokenInUse(token)
      modifies this
      ensures Valid() && users == old(users)
      ensures !(Given(email) && Given(password)) ==> reply == Reply(401, Note("Provide all fields.")) && unchanged(this)
      ensures Given(email) && Given(password) && !email.Text? ==> reply == Reply(500, Fault) && unchanged(this)
      ensures Given(email) && Given(password) && email.Text? && !old(EmailTaken(email.value)) ==>
        reply == Reply(401, Note("Email not registered.")) && unchanged(this)
      ensures Given(email) && Given(password) && email.Text? && old(EmailTaken(email.value)) && !password.Text? ==>
        reply == Reply(500, Fault) && unchanged(this)
      ensures reply.status == 401 || reply.status == 403 || reply.status == 500 <==> unchanged(this)
      ensures reply.status == 200 ==>
        email.Text? && password.Text?
        && (exists u :: u in users && users[u].email == email.value && HashMatches(password.value, users[u].password)
              && old(|Active(sessions, u, now)|) < MaxSessions
              && sessions == old(sessions)[old(nextSessionId) := Session(u, token, userAgent, ipAddress, now + SessionLifetime, now)]
              && |Active(sessions, u, now)| == old(|Active(sessions, u, now)|) + 1 <= MaxSessions
              && reply == Reply(200, Tokens(Claims(u, users[u].role), token)))
      ensures reply.status in {200, 401, 403, 500}
      ensures Given(email) && Given(password) && email.Text? && password.Text? && old(EmailTaken(email.value)) ==>
        var u :| u in users && users[u].email == email.value;
        && (!HashMatches(password.value, users[u].password) ==> reply == Reply(401, Note("Invalid credentials.")))
        && (HashMatches(password.value, users[u].password) && old(|Active(sessions, u, now)|) >= MaxSessions ==>
              reply.status == 403)
        && (HashMatches(password.value, users[u].password) && old(|Active(sessions, u, now)|) < MaxSessions ==>
              reply.status == 200)
    {
      if !(Given(email) && Given(password)) {
        return Reply(401, Note("Provide all fields."));
      }
      if !email.Text? {
        return Reply(500, Fault);
      }
      if !EmailTaken(email.value) {
        return Reply(401, Note("Email not registered."));
      }
      if !password.Text? {
        // bcrypt refuses to compare a non-string password
        return Reply(500, Fault);
      }
      var u :| u in users && users[u].email == email.value;
      if !HashMatches(password.value, users[u].password) {
        return Reply(401, Note("Invalid credentials."));
      }
      if |Active(sessions, u, now)| >= MaxSessions {
        return Reply(403, Note("Session limit reached. Please logout from another device to continue."));
      }
      var s := Session(u, token, userAgent, ipAddress, now + SessionLifetime, now);
      ActiveAfterInsert(sessions, nextSessionId, s, u, now);
      var _ := CreateSession(s);
      reply := Reply(200, Tokens(Claims(u, users[u].role), token));
    }

    /** `logout`: 400 without a token, 500 for a non-string token, 404 when no
        session carries it (expired or not); otherwise exactly that session is deleted. */
    method Logout(token: Field) returns (reply: Reply)
      requires Valid()
      modifies this
      ensures Valid() && users == old(users)
      ensures !Given(token) ==> reply == Reply(400, Note("Missing refresh token")) && unchanged(this)
      ensures Given(token) && !token.Text? ==> reply == Reply(500, Fault) && unchanged(this)
      ensures Given(token) && token.Text? && !old(TokenInUse(token.value)) ==>
        reply == Reply(404, Note("Session not found")) && unchanged(this)
      ensures Given(token) && token.Text? && old(TokenInUse(token.value)) ==>
        && reply == Reply(200, Note("Logged out successfully"))
        && exists id :: id in old(sessions) && old(sessions)[id].refreshToken == token.value
             && sessions == old(sessions) - {id}
    {
      if !Given(token) {
        return Reply(400, Note("Missing refresh token"));
      }
      if !token.Text? {
        // the database client refuses a non-string token
        return Reply(500, Fault);
      }
      if !TokenInUse(token.value) {
        return Reply(404, Note("Session not found"));
      }
      var id :| id in sessions && sessions[id].refreshToken == token.value;
      sessions := sessions - {id};
      reply := Reply(200, Note("Logged out successfully"));
    }

    /** `logoutAll`: 400 for a falsy user id; a user id the database client
        refuses as an integer makes the delete throw (500); otherwise every
        session of that user is deleted and no other. */
    method LogoutAll(userId: Value) returns (reply: Reply)
      requires Valid()
      modifies this
      ensures Valid() && users == old(users)
      ensures !Truthy(userId) ==> reply == Reply(400, Note("Missing userId")) && unchanged(this)
      ensures Truthy(userId) && AsInt(userId).None? ==> reply == Reply(500, Fault) && unchanged(this)
      ensures Truthy(userId) && AsInt(userId).Some? ==>
        var u := AsInt(userId).value;
        && reply == Reply(200, Note("Logged out from all devices"))
        && (forall id :: id in sessions <==> id in old(sessions) && old(sessions)[id].userId != u)
        && (forall id :: id in sessions ==> sessions[id] == old(sessions)[id])
    {
      if !Truthy(userId) {
        return Reply(400, Note("Missing userId"));
      }
      if AsInt(userId).None? {
        return Reply(500, Fault);
      }
      var u := AsInt(userId).value;
      sessions := map id | id in sessions && sessions[id].userId != u :: sessions[id];
      reply := Reply(200, Note("Logged out from all devices"));
    }
  }

  /** bcrypt reads only the first 72 characters: two passwords that agree on them
      match the same hash. */
  lemma LongPasswordsShareHash(p: string, q: string, cost: int)
    requires |p| >= BcryptMaxLength && |q| >= BcryptMaxLength && p[..BcryptMaxLength] == q[..BcryptMaxLength]
    ensures HashMatches(q, Hash(p, cost))
  {
  }

  /** A password matches its own hash, and a password of at most 72 characters
      matches no hash of a different password of at most 72 characters. */
  lemma HashIdentifiesShortPasswords(p: string, q: string, cost: int)
    requires |p| <= BcryptMaxLength && |q| <= BcryptMaxLength
    ensures HashMatches(p, Hash(p, cost))
    ensures HashMatches(q, Hash(p, cost)) <==> p == q
  {
  }
}
