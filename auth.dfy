/** `AuthService`: registration, login with its failed-attempt counter, and
    refresh-token rotation. The counter lives in the cache under the user's
    email; refresh tokens live in the refresh-token table, one row per user.
    Password hashing and comparison, token creation and token verification
    belong to other components and reach the model as parameters. */
module Auth {
  import opened Common
  import opened Users

  /** Login is refused once this many failed attempts are counted. */
  const MAX_ATTEMPTS: int := 5

  /** A refresh token stays valid for 24 hours, in seconds. */
  const REFRESH_LIFETIME: int := 24 * 60 * 60

  datatype Tokens = Tokens(access: string, refresh: string)

  /** A row of the refresh-token table. */
  datatype TokenRow = TokenRow(token: string, expiresAt: int)

  /** What `verify_token` says of a refresh token. */
  datatype Verdict = Verified(userId: int) | Expired | Rejected

  /** The failed-attempt counters by email and the refresh-token rows by user id. */
  class SessionStore {
    var attempts: map<string, int>
    var tokens: map<int, TokenRow>

    constructor ()
      ensures attempts == map[] && tokens == map[]
    {
      attempts := map[];
      tokens := map[];
    }

    /** `get_from_cache(...).unwrap_or(0)`: a missing entry, or one the cache
        cannot give back (`lost`), reads as zero. */
    method ReadAttempts(email: string, lost: bool) returns (n: int)
      ensures n == Counted(attempts, email, lost)
    {
      if !lost && email in attempts {
        n := attempts[email];
      } else {
        n := 0;
      }
    }

    /** `set_to_cache` of the counter. */
    method SetAttempts(email: string, n: int)
      modifies this`attempts
      ensures attempts == old(attempts)[email := n]
    {
      attempts := attempts[email := n];
    }

    /** `delete_from_cache` of the counter. */
    method ClearAttempts(email: string)
      modifies this`attempts
      ensures attempts == old(attempts) - {email}
    {
      attempts := attempts - {email};
    }

    /** `refresh_command.delete_token`: every row holding `token` is removed. */
    method DeleteToken(token: string, fail: bool) returns (ok: bool)
      modifies this`tokens
      ensures ok == !fail
      ensures tokens == if fail then old(tokens) else Without(old(tokens), token)
    {
      ok := !fail;
      if ok {
        tokens := Without(tokens, token);
      }
    }

    /** `refresh_command.update`: the user's row takes the new token and expiry. */
    method StoreToken(userId: int, row: TokenRow, fail: bool) returns (ok: bool)
      modifies this`tokens
      ensures ok == !fail
      ensures tokens == if fail then old(tokens) else old(tokens)[userId := row]
    {
      ok := !fail;
      if ok {
        tokens := tokens[userId := row];
      }
    }
  }

  /** The failed attempts counted for `email`. */
  function Counted(attempts: map<string, int>, email: string, lost: bool): int {
    if !lost && email in attempts then attempts[email] else 0
  }

  /** The refresh-token rows without those holding `token`. */
  function Without(tokens: map<int, TokenRow>, token: string): (r: map<int, TokenRow>)
    ensures forall u :: u in r <==> u in tokens && tokens[u].token != token
    ensures forall u :: u in r ==> r[u] == tokens[u]
  {
    map u | u in tokens && tokens[u].token != token :: tokens[u]
  }

  // ---- register_user ----------------------------------------------------------

  /** `register_user`: a user the cache holds as registered under this email
      (`cached`) is returned at once; otherwise the user is enrolled, a lookup,
      creation or role failure being reported as a repository error. */
  function RegisterOutcome(d: Directory, nextId: int, cached: Option<int>, firstname: string, lastname: string,
                           email: string, hashed: string, fails: set<EnrolCall>): Users.Outcome
  {
    if cached.Some? then Users.Outcome(d, Ok(cached.value))
    else EnrolOutcome(d, nextId, firstname, lastname, email, hashed, RepoError, RepoError, fails)
  }

  method Register(store: UserStore, cached: Option<int>, firstname: string, lastname: string, email: string,
                  hashed: string, fails: set<EnrolCall>)
    returns (r: Result<int>)
    requires store.Valid()
    modifies store
    ensures store.Valid()
    ensures Users.Outcome(store.View(), r) ==
            RegisterOutcome(old(store.View()), old(store.nextId), cached, firstname, lastname, email, hashed, fails)
  {
    if cached.Some? {
      return Ok(cached.value);
    }
    r := Enrol(store, firstname, lastname, email, hashed, RepoError, RepoError, fails);
  }

  /** Registering an email some user already has fails with "Email already
      registered" and creates no user, unless the cache answers first. */
  lemma RegisterRejectsTakenEmail(d: Directory, nextId: int, firstname: string, lastname: string,
                                  email: string, hashed: string, fails: set<EnrolCall>)
    requires IdsBelow(d.users, nextId) && Taken(d.users, email) && FindByEmail !in fails
    ensures RegisterOutcome(d, nextId, None, firstname, lastname, email, hashed, fails) ==
            Users.Outcome(d, Err(EmailAlreadyRegistered))
  {
    EnrolRejectsTakenEmail(d, nextId, firstname, lastname, email, hashed, RepoError, RepoError, fails);
  }

  /** Without the ROLE_ADMIN role no user is created; with it, a successful
      registration gives the new user exactly that role. */
  lemma RegisterAssignsDefaultRole(d: Directory, nextId: int, firstname: string, lastname: string,
                                   email: string, hashed: string, fails: set<EnrolCall>)
    requires IdsBelow(d.users, nextId)
    ensures ROLE_ADMIN !in d.roles ==>
              RegisterOutcome(d, nextId, None, firstname, lastname, email, hashed, fails).after == d
    ensures var o := RegisterOutcome(d, nextId, None, firstname, lastname, email, hashed, fails);
            o.result.Ok? ==>
              ROLE_ADMIN in d.roles && o.result.value == nextId && nextId !in d.users && nextId in o.after.users &&
              o.after.grants == d.grants + {Grant(nextId, d.roles[ROLE_ADMIN])}
  {
    EnrolSucceeds(d, nextId, firstname, lastname, email, hashed, RepoError, RepoError, fails);
  }

  // ---- login_user -------------------------------------------------------------

  /** The cache and repository calls of `login_user`, and the token creations. */
  datatype LoginCall = ReadCounter | FindAccount | CreateAccess | CreateRefresh

  datatype AttemptsOutcome = AttemptsOutcome(attempts: map<string, int>, result: Result<Tokens>)

  /** What `login_user` leaves and returns: at `MAX_ATTEMPTS` counted failures
      it refuses at once; an unknown email or a wrong password counts one more
      failure; a repository error counts none; a correct password clears the
      counter before the tokens are made. `matches(hash, password)` is the
      hasher's comparison. */
  function LoginOutcome(attempts: map<string, int>, d: Directory, nextId: int, email: string, password: string,
                        matches: (string, string) -> bool, access: string, refresh: string,
                        fails: set<LoginCall>): AttemptsOutcome
  {
    var current := Counted(attempts, email, ReadCounter in fails);
    if current >= MAX_ATTEMPTS then AttemptsOutcome(attempts, Err(TooManyAttempts))
    else if FindAccount in fails then AttemptsOutcome(attempts, Err(RepoError))
    else
      var owner := Owner(d.users, nextId, email);
      if owner.None? then AttemptsOutcome(attempts[email := current + 1], Err(UserNotFound))
      else if !matches(d.users[owner.value].password, password) then
        AttemptsOutcome(attempts[email := current + 1], Err(InvalidCredentials))
      else if CreateAccess in fails || CreateRefresh in fails then AttemptsOutcome(attempts - {email}, Err(TokenFailed))
      else AttemptsOutcome(attempts - {email}, Ok(Tokens(access, refresh)))
  }

  method Login(sessions: SessionStore, store: UserStore, email: string, password: string,
                   matches: (string, string) -> bool, access: string, refresh: string, fails: set<LoginCall>)
    returns (r: Result<Tokens>)
    modifies sessions`attempts
    ensures AttemptsOutcome(sessions.attempts, r) ==
            LoginOutcome(old(sessions.attempts), store.View(), store.nextId, email, password, matches, access, refresh, fails)
  {
    var current := sessions.ReadAttempts(email, ReadCounter in fails);
    if current >= MAX_ATTEMPTS {
      return Err(TooManyAttempts);
    }
    var user := store.FindByEmail(email, FindAccount in fails);
    if user.None? {
      return Err(RepoError);
    }
    if user.value.None? {
      sessions.SetAttempts(email, current + 1);
      return Err(UserNotFound);
    }
    if !matches(store.users[user.value.value].password, password) {
      sessions.SetAttempts(email, current + 1);
      return Err(InvalidCredentials);
    }
    sessions.ClearAttempts(email);
    if CreateAccess in fails {
      return Err(TokenFailed);
    }
    if CreateRefresh in fails {
      return Err(TokenFailed);
    }
    r := Ok(Tokens(access, refresh));
  }

  /** At `MAX_ATTEMPTS` counted failures login is refused before the user is
      looked up, whatever the password, and the counter stays as it was. */
  lemma LoginRateLimited(attempts: map<string, int>, d: Directory, nextId: int, email: string, password: string,
                         matches: (string, string) -> bool, access: string, refresh: string, fails: set<LoginCall>)
    requires ReadCounter !in fails && email in attempts && attempts[email] >= MAX_ATTEMPTS
    ensures LoginOutcome(attempts, d, nextId, email, password, matches, access, refresh, fails) ==
            AttemptsOutcome(attempts, Err(TooManyAttempts))
  {
  }

  /** A failed login counts exactly one more failure for that email and
      changes no other counter; a repository error counts nothing. */
  lemma LoginCountsFailures(attempts: map<string, int>, d: Directory, nextId: int, email: string, password: string,
                            matches: (string, string) -> bool, access: string, refresh: string,
                            fails: set<LoginCall>)
    requires IdsBelow(d.users, nextId)
    ensures var o := LoginOutcome(attempts, d, nextId, email, password, matches, access, refresh, fails);
            var current := Counted(attempts, email, ReadCounter in fails);
            (o.result == Err(UserNotFound) <==> current < MAX_ATTEMPTS && FindAccount !in fails && !Taken(d.users, email)) &&
            (o.result in {Err(UserNotFound), Err(InvalidCredentials)} ==>
               o.attempts == attempts[email := current + 1] && current + 1 <= MAX_ATTEMPTS) &&
            (o.result == Err(RepoError) ==> o.attempts == attempts)
  {
    OwnerFindsTaken(d.users, nextId, email);
  }

  /** When the password of the user the lookup finds (`id`) does not match,
      the login is reported as invalid credentials and counts one failure. */
  lemma LoginRejectsWrongPassword(attempts: map<string, int>, d: Directory, nextId: int, email: string,
                                  password: string, matches: (string, string) -> bool, access: string,
                                  refresh: string, fails: set<LoginCall>, id: int)
    requires IdsBelow(d.users, nextId) && Counted(attempts, email, ReadCounter in fails) < MAX_ATTEMPTS
    requires FindAccount !in fails && Owner(d.users, nextId, email) == Some(id)
    requires !matches(d.users[id].password, password)
    ensures var o := LoginOutcome(attempts, d, nextId, email, password, matches, access, refresh, fails);
            o == AttemptsOutcome(attempts[email := Counted(attempts, email, ReadCounter in fails) + 1],
                              Err(InvalidCredentials))
  {
  }

  /** Login succeeds exactly when fewer than `MAX_ATTEMPTS` failures are
      counted, the email's user is found, the password matches and both
      tokens are made; the counter is cleared as soon as the password matches. */
  lemma LoginSucceeds(attempts: map<string, int>, d: Directory, nextId: int, email: string, password: string,
                      matches: (string, string) -> bool, access: string, refresh: string, fails: set<LoginCall>)
    requires IdsBelow(d.users, nextId)
    ensures var o := LoginOutcome(attempts, d, nextId, email, password, matches, access, refresh, fails);
            var owner := Owner(d.users, nextId, email);
            o.result.Ok? <==>
              Counted(attempts, email, ReadCounter in fails) < MAX_ATTEMPTS && FindAccount !in fails &&
              owner.Some? && matches(d.users[owner.value].password, password) &&
              CreateAccess !in fails && CreateRefresh !in fails
    ensures var o := LoginOutcome(attempts, d, nextId, email, password, matches, access, refresh, fails);
            (o.result.Ok? || o.result == Err(TokenFailed)) ==>
              email !in o.attempts && Taken(d.users, email) &&
              (forall e :: e in attempts && e != email ==> e in o.attempts && o.attempts[e] == attempts[e])
    ensures var o := LoginOutcome(attempts, d, nextId, email, password, matches, access, refresh, fails);
            o.result.Ok? ==> o.result.value == Tokens(access, refresh)
  {
    OwnerFindsTaken(d.users, nextId, email);
  }

  /** Five logins in a row with an email no user holds, from a fresh counter,
      lock that email out: the sixth attempt is refused whatever password is
      given. */
  lemma FiveFailuresLockOut(attempts: map<string, int>, d: Directory, nextId: int, email: string,
                             wrong: string, right: string, matches: (string, string) -> bool,
                             access: string, refresh: string)
    requires IdsBelow(d.users, nextId) && email !in attempts && !Taken(d.users, email)
    ensures var after := FailRepeatedly(attempts, d, nextId, email, wrong, matches, access, refresh, 5);
            after[email] == MAX_ATTEMPTS &&
            LoginOutcome(after, d, nextId, email, right, matches, access, refresh, {}) ==
            AttemptsOutcome(after, Err(TooManyAttempts))
  {
    OwnerFindsTaken(d.users, nextId, email);
    FailRepeatedlyCounts(attempts, d, nextId, email, wrong, matches, access, refresh, 5);
  }

  /** Five wrong passwords in a row for an existing user, from a fresh
      counter, lock the email out: the sixth attempt is refused even with the
      password that matches. */
  lemma WrongPasswordsLockOut(attempts: map<string, int>, d: Directory, nextId: int, email: string,
                              wrong: string, right: string, matches: (string, string) -> bool,
                              access: string, refresh: string)
    requires IdsBelow(d.users, nextId) && email !in attempts && Owner(d.users, nextId, email).Some?
    requires !matches(d.users[Owner(d.users, nextId, email).value].password, wrong)
    requires matches(d.users[Owner(d.users, nextId, email).value].password, right)
    ensures var after := FailRepeatedly(attempts, d, nextId, email, wrong, matches, access, refresh, 5);
            after[email] == MAX_ATTEMPTS &&
            LoginOutcome(after, d, nextId, email, right, matches, access, refresh, {}) ==
            AttemptsOutcome(after, Err(TooManyAttempts))
  {
    FailRepeatedlyCounts(attempts, d, nextId, email, wrong, matches, access, refresh, 5);
  }

  /** The counters after `n` logins with `password` in a row. */
  function FailRepeatedly(attempts: map<string, int>, d: Directory, nextId: int, email: string, password: string,
                          matches: (string, string) -> bool, access: string, refresh: string, n: nat)
    : map<string, int>
  {
    if n == 0 then attempts
    else LoginOutcome(FailRepeatedly(attempts, d, nextId, email, password, matches, access, refresh, n - 1),
               d, nextId, email, password, matches, access, refresh, {}).attempts
  }

  /** `n` logins in a row that each fail at the lookup or the password
      check, from a fresh counter, leave the counter at exactly `n`. */
  lemma {:induction false} FailRepeatedlyCounts(attempts: map<string, int>, d: Directory, nextId: int, email: string,
                                                password: string, matches: (string, string) -> bool, access: string,
                                                refresh: string, n: nat)
    requires IdsBelow(d.users, nextId) && email !in attempts && n <= MAX_ATTEMPTS
    requires var owner := Owner(d.users, nextId, email);
             owner.None? || !matches(d.users[owner.value].password, password)
    ensures var after := FailRepeatedly(attempts, d, nextId, email, password, matches, access, refresh, n);
            (n == 0 ==> email !in after) && (n > 0 ==> email in after && after[email] == n)
  {
    if n > 0 {
      FailRepeatedlyCounts(attempts, d, nextId, email, password, matches, access, refresh, n - 1);
    }
  }

  // ---- refresh_token ----------------------------------------------------------

  /** The repository calls of `refresh_token`, and the token creations. */
  datatype RefreshCall = DeleteOld | MakeAccess | MakeRefresh | StoreNew

  datatype TokensOutcome = TokensOutcome(tokens: map<int, TokenRow>, result: Result<Tokens>)

  /** What `refresh_token` leaves and returns at time `now`: an expired token
      is deleted (a failure of that delete is ignored) and refused; a token
      that does not verify is refused; a valid one is deleted, then a new pair
      is made and the new refresh token stored for its user, expiring after
      `REFRESH_LIFETIME`. */
  function RefreshOutcome(tokens: map<int, TokenRow>, token: string, verdict: Verdict, now: int,
                          access: string, refresh: string, fails: set<RefreshCall>): TokensOutcome
  {
    match verdict
    case Expired =>
      TokensOutcome(if DeleteOld in fails then tokens else Without(tokens, token), Err(TokenExpired))
    case Rejected => TokensOutcome(tokens, Err(InvalidToken))
    case Verified(userId) =>
      if DeleteOld in fails then TokensOutcome(tokens, Err(RepoError))
      else
        var deleted := Without(tokens, token);
        if MakeAccess in fails || MakeRefresh in fails then TokensOutcome(deleted, Err(TokenFailed))
        else if StoreNew in fails then TokensOutcome(deleted, Err(WriteFailed(Entity.RefreshToken)))
        else TokensOutcome(deleted[userId := TokenRow(refresh, now + REFRESH_LIFETIME)], Ok(Tokens(access, refresh)))
  }

  method Refresh(sessions: SessionStore, token: string, verdict: Verdict, now: int,
                      access: string, refresh: string, fails: set<RefreshCall>)
    returns (r: Result<Tokens>)
    modifies sessions`tokens
    ensures TokensOutcome(sessions.tokens, r) ==
            RefreshOutcome(old(sessions.tokens), token, verdict, now, access, refresh, fails)
  {
    match verdict
    case Expired => {
      var _ := sessions.DeleteToken(token, DeleteOld in fails);
      return Err(TokenExpired);
    }
    case Rejected => {
      return Err(InvalidToken);
    }
    case Verified(userId) => {
      var deleted := sessions.DeleteToken(token, DeleteOld in fails);
      if !deleted {
        return Err(RepoError);
      }
      if MakeAccess in fails {
        return Err(TokenFailed);
      }
      if MakeRefresh in fails {
        return Err(TokenFailed);
      }
      var stored := sessions.StoreToken(userId, TokenRow(refresh, now + REFRESH_LIFETIME), StoreNew in fails);
      if !stored {
        return Err(WriteFailed(Entity.RefreshToken));
      }
      r := Ok(Tokens(access, refresh));
    }
  }

  /** An expired token is refused, and once its delete goes through no row holds it. */
  lemma RefreshDeletesExpired(tokens: map<int, TokenRow>, token: string, now: int, access: string, refresh: string,
                              fails: set<RefreshCall>)
    ensures var o := RefreshOutcome(tokens, token, Expired, now, access, refresh, fails);
            o.result == Err(TokenExpired) &&
            (DeleteOld !in fails ==> forall u :: u in o.tokens ==> o.tokens[u].token != token)
  {
  }

  /** Once a verified token's delete goes through it is gone, whatever fails
      next; a successful refresh stores the new token for the token's user with
      a 24-hour expiry and leaves every other row without the old token as it was. */
  lemma RefreshRotates(tokens: map<int, TokenRow>, token: string, userId: int, now: int, access: string,
                       refresh: string, fails: set<RefreshCall>)
    ensures var o := RefreshOutcome(tokens, token, Verified(userId), now, access, refresh, fails);
            o.result != Err(RepoError) ==>
              DeleteOld !in fails &&
              (forall u :: u in o.tokens && u != userId ==> o.tokens[u].token != token) &&
              (o.result.Ok? || userId !in o.tokens || o.tokens[userId].token != token)
    ensures var o := RefreshOutcome(tokens, token, Verified(userId), now, access, refresh, fails);
            o.result.Ok? <==> fails == {}
    ensures var o := RefreshOutcome(tokens, token, Verified(userId), now, access, refresh, fails);
            o.result.Ok? ==>
              o.result.value == Tokens(access, refresh) &&
              o.tokens[userId] == TokenRow(refresh, now + 86400) &&
              (forall u :: u in tokens && u != userId && tokens[u].token != token ==>
                 u in o.tokens && o.tokens[u] == tokens[u])
  {
    var o := RefreshOutcome(tokens, token, Verified(userId), now, access, refresh, fails);
    if o.result.Ok? && fails != {} {
      var c :| c in fails;
      match c
      case DeleteOld =>
      case MakeAccess =>
      case MakeRefresh =>
      case StoreNew =>
    }
  }

  /** A token that does not verify changes nothing. */
  lemma RefreshRejectsInvalid(tokens: map<int, TokenRow>, token: string, now: int, access: string, refresh: string,
                              fails: set<RefreshCall>)
    ensures RefreshOutcome(tokens, token, Rejected, now, access, refresh, fails) == TokensOutcome(tokens, Err(InvalidToken))
  {
  }
}
