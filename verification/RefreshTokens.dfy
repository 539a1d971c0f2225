/**
 * Session families of refresh tokens: internal/httpapi/refresh.go, logout.go and the session opening of auth_handlers.go.
 * A token stands for its keyed hash. Random tokens and ids never repeat: each is a serial number.
 */
module RefreshTokens {
  import opened Common

  datatype Role = Requestor | HRReviewer | Recruiter | Cvera | UnknownRole(name: string)

  /** A `domain_users` row, by identity. Users are never deleted. */
  datatype User = User(active: bool, role: Role)

  /** An `auth_sessions` row. */
  datatype Session = Session(user: string, revoked: bool)

  /** A `refresh_tokens` row. */
  datatype Token = Token(session: nat, current: bool, revoked: bool, expiresAt: Time)

  datatype Store = Store(users: map<string, User>, sessions: map<nat, Session>, tokens: map<nat, Token>)

  const REFRESH_LIFETIME: int := 30 * 24 * 3600 * 1_000_000_000

  datatype Outcome =
    | InvalidToken
    | ExpiredOrRevoked
    | Reused
    | AccountInactive
    | InvalidRole
    | ServerError
    | MissingIdentity
    | LoggedOut
    | Issued(token: nat)

  /** What a transaction does to the rows of the session it has locked. */
  datatype Effect = NoChange | RevokeFamily | Rotate(spent: nat, next: nat, expiresAt: Time)

  /** `UPDATE ... SET revoked_at, is_current = FALSE WHERE session_id = $1 AND revoked_at IS NULL`, on both tables. */
  function Revoked(s: Store, session: nat): Store {
    Store(s.users,
          if session in s.sessions then s.sessions[session := s.sessions[session].(revoked := true)] else s.sessions,
          map h | h in s.tokens ::
            if s.tokens[h].session == session && !s.tokens[h].revoked then s.tokens[h].(revoked := true, current := false)
            else s.tokens[h])
  }

  function Perform(s: Store, session: nat, effect: Effect): Store {
    match effect
    case NoChange => s
    case RevokeFamily => Revoked(s, session)
    case Rotate(spent, next, expiresAt) =>
      var retired := if spent in s.tokens then s.tokens[spent := s.tokens[spent].(current := false)] else s.tokens;
      s.(tokens := retired[next := Token(session, true, false, expiresAt)])
  }

  /** The session a refresh may lock: that of the presented token, if it is not revoked. */
  predicate Refreshable(s: Store, token: nat) {
    token in s.tokens && s.tokens[token].session in s.sessions && !s.sessions[s.tokens[token].session].revoked
  }

  /** What a refresh decides once it holds the session, in the order of the checks. */
  function Decide(s: Store, token: nat, now: Time, next: nat): (Effect, Outcome)
    requires Refreshable(s, token)
  {
    var t := s.tokens[token];
    var identity := s.sessions[t.session].user;
    if t.revoked || now > t.expiresAt then (NoChange, ExpiredOrRevoked)
    else if !t.current then (RevokeFamily, Reused)
    else if identity !in s.users then (NoChange, ServerError)
    else if !s.users[identity].active then (RevokeFamily, AccountInactive)
    else if s.users[identity].role.UnknownRole? then (NoChange, InvalidRole)
    else (Rotate(token, next, now + REFRESH_LIFETIME), Issued(next))
  }

  /** `HandleAuthRefresh` as one transaction. */
  function Refresh(s: Store, token: nat, now: Time, next: nat): (Store, Outcome) {
    if !Refreshable(s, token) then (s, InvalidToken)
    else
      var decided := Decide(s, token, now, next);
      (Perform(s, s.tokens[token].session, decided.0), decided.1)
  }

  /** `HandleAuthLogout` as one transaction; it succeeds for an unknown token too. */
  function Logout(s: Store, token: nat): Store {
    if token !in s.tokens || s.tokens[token].session !in s.sessions then s else Revoked(s, s.tokens[token].session)
  }

  /** `issueAuthExchangeResponseForKratosIdentity`: the user is created when missing, and a session with its first token opened. */
  function Exchange(s: Store, identity: string, now: Time, session: nat, next: nat): (Store, Outcome) {
    if identity == "" then (s, MissingIdentity)
    else
      var users := if identity in s.users then s.users else s.users[identity := User(true, Requestor)];
      if !users[identity].active then (s, AccountInactive)
      else if users[identity].role.UnknownRole? then (s, InvalidRole)
      else
        (Store(users, s.sessions[session := Session(identity, false)],
               s.tokens[next := Token(session, true, false, now + REFRESH_LIFETIME)]),
         Issued(next))
  }

  /** The three tables, and the requests that change them. */
  class AuthServer {
    var users: map<string, User>
    var sessions: map<nat, Session>
    var tokens: map<nat, Token>

    function Now(): Store
      reads this
    {
      Store(users, sessions, tokens)
    }

    constructor ()
      ensures Now() == Store(map[], map[], map[])
    {
      users, sessions, tokens := map[], map[], map[];
    }

    method RevokeTokens(session: nat)
      modifies `tokens
      ensures tokens == Revoked(old(Now()), session).tokens
    {
      var rows := tokens.Keys;
      var left := rows;
      while left != {}
        invariant left <= rows && tokens.Keys == rows
        invariant forall h :: h in left ==> tokens[h] == old(tokens)[h]
        invariant forall h :: h in rows && h !in left ==> tokens[h] == Revoked(old(Now()), session).tokens[h]
        decreases |left|
      {
        var h :| h in left;
        if tokens[h].session == session && !tokens[h].revoked {
          tokens := tokens[h := tokens[h].(revoked := true, current := false)];
        }
        left := left - {h};
      }
    }

    method RevokeSession(session: nat)
      modifies this
      ensures Now() == Revoked(old(Now()), session)
    {
      RevokeTokens(session);
      if session in sessions && !sessions[session].revoked {
        sessions := sessions[session := sessions[session].(revoked := true)];
      }
    }

    method HandleAuthRefresh(token: nat, now: Time, next: nat) returns (outcome: Outcome)
      modifies this
      ensures (Now(), outcome) == Refresh(old(Now()), token, now, next)
    {
      if token !in tokens {
        return InvalidToken;
      }
      var row := tokens[token];
      if row.session !in sessions || sessions[row.session].revoked {
        return InvalidToken;
      }
      if row.revoked || now > row.expiresAt {
        return ExpiredOrRevoked;
      }
      if !row.current {
        RevokeSession(row.session);
        return Reused;
      }
      var identity := sessions[row.session].user;
      if identity !in users {
        return ServerError;
      }
      if !users[identity].active {
        RevokeSession(row.session);
        return AccountInactive;
      }
      if users[identity].role.UnknownRole? {
        return InvalidRole;
      }
      tokens := tokens[token := row.(current := false)];
      tokens := tokens[next := Token(row.session, true, false, now + REFRESH_LIFETIME)];
      return Issued(next);
    }

    method HandleAuthLogout(token: nat) returns (outcome: Outcome)
      modifies this
      ensures outcome == LoggedOut && Now() == Logout(old(Now()), token)
    {
      if token !in tokens || tokens[token].session !in sessions {
        return LoggedOut;
      }
      RevokeSession(tokens[token].session);
      return LoggedOut;
    }

    method IssueExchange(identity: string, now: Time, session: nat, next: nat) returns (outcome: Outcome)
      modifies this
      ensures (Now(), outcome) == Exchange(old(Now()), identity, now, session, next)
    {
      if identity == "" {
        return MissingIdentity;
      }
      var user := if identity in users then users[identity] else User(true, Requestor);
      if !user.active {
        return AccountInactive;
      }
      if user.role.UnknownRole? {
        return InvalidRole;
      }
      if identity !in users {
        users := users[identity := user];
      }
      sessions := sessions[session := Session(identity, false)];
      tokens := tokens[next := Token(session, true, false, now + REFRESH_LIFETIME)];
      return Issued(next);
    }
  }
}
