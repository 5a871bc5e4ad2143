/** The authentication service and its repository over a session, one request at a time. Each request is
    proved to be one turn of the serial machine, and to leave the committed tables alone when it raises. */
module AuthServices {
  import opened Wrappers
  import opened Sessions
  import opened RefreshTokens
  import opened RotationMachine
  import opened SerialRotation

  class UserRepository {
    const session: Session<Tables>
    const lower: string -> string

    constructor (session: Session<Tables>, lower: string -> string)
      ensures this.session == session && this.lower == lower
    {
      this.session, this.lower := session, lower;
    }

    method GetByEmail(email: string) returns (found: Option<UserId>)
      ensures found.None? ==> !EmailTaken(session.working, lower(email))
      ensures found.Some? ==> found.value in session.working.users
                              && session.working.users[found.value].email == lower(email)
    {
      var users := session.working.users;
      var todo := users.Keys;
      while todo != {}
        invariant todo <= users.Keys
        invariant forall u | u in users.Keys - todo :: users[u].email != lower(email)
      {
        var u :| u in todo;
        if users[u].email == lower(email) {
          return Some(u);
        }
        todo := todo - {u};
      }
      return None;
    }

    /** Adds the user and flushes; a refused flush raises. */
    method CreateUser(id: UserId, email: string, passwordHash: string) returns (r: Result<UserId, Error>)
      modifies session`working
      ensures var flushed := InsertUser(old(session.working), id, lower(email), passwordHash);
              if flushed.Success? then r == Success(id) && session.working == flushed.value
              else r == Failure(flushed.error) && session.working == old(session.working)
    {
      var folded := lower(email);
      if id in session.working.users || EmailTaken(session.working, folded) {
        return Failure(UniqueViolation);
      }
      session.working := session.working.(users := session.working.users[id := User(folded, passwordHash, true)]);
      return Success(id);
    }

    method CreateRefreshToken(owner: UserId, h: Hash, expiresAt: int) returns (r: Result<Token, Error>)
      modifies session`working
      ensures var flushed := InsertToken(old(session.working), owner, h, expiresAt);
              if flushed.Success? then r == Success(flushed.value.tokens[h]) && session.working == flushed.value
              else r == Failure(flushed.error) && session.working == old(session.working)
    {
      if h in session.working.tokens {
        return Failure(UniqueViolation);
      }
      var row := Token(owner, expiresAt, None, None, true);
      session.working := session.working.(tokens := session.working.tokens[h := row]);
      return Success(row);
    }

    method GetRefreshToken(h: Hash) returns (found: Option<Token>)
      ensures found == if h in session.working.tokens then Some(session.working.tokens[h]) else None
    {
      found := if h in session.working.tokens then Some(session.working.tokens[h]) else None;
    }

    /** Assigns the three columns of a row that this session loaded, and flushes. */
    method RevokeRefreshToken(h: Hash, revokedAt: int, replacedBy: Option<Hash>)
      requires h in session.working.tokens
      modifies session`working
      ensures session.working ==
              RevokeRow(old(session.working), h, old(session.working).tokens[h], revokedAt, replacedBy)
    {
      var row := session.working.tokens[h];
      row := row.(isActive := false);
      row := row.(revokedAt := Some(revokedAt));
      row := row.(replacedBy := replacedBy);
      session.working := session.working.(tokens := session.working.tokens[h := row]);
    }
  }

  datatype TokenPair = TokenPair(user: UserId, refreshToken: string)

  class AuthService {
    const session: Session<Tables>
    const users: UserRepository
    const hash: string -> Hash
    const hashPassword: string -> string
    const verifyPassword: (string, string) -> bool
    const life: nat

    ghost predicate Valid() {
      users.session == session
    }

    constructor (session: Session<Tables>, users: UserRepository, hash: string -> Hash,
                 hashPassword: string -> string, verifyPassword: (string, string) -> bool, life: nat)
      requires users.session == session
      ensures Valid() && this.session == session && this.users == users && this.hash == hash
      ensures this.hashPassword == hashPassword && this.verifyPassword == verifyPassword && this.life == life
    {
      this.session, this.users, this.hash := session, users, hash;
      this.hashPassword, this.verifyPassword, this.life := hashPassword, verifyPassword, life;
    }

    /** The client can present the token of `pair`: its digest is a live row of its user, until `until`. */
    ghost predicate Redeemable(pair: TokenPair, until: int)
      reads session
    {
      hash(pair.refreshToken) in session.committed.tokens
      && session.committed.tokens[hash(pair.refreshToken)] == Token(pair.user, until, None, None, true)
    }

    /** The committed tables after one turn of the serial machine that reads the clock at `now`. */
    ghost function AfterTurn(before: Tables, now: int, turn: Turn): Tables {
      Take(State(before, now, map[], Empty), turn, life).tables
    }

    method IssueTokenPair(user: UserId, newRaw: string, later: int) returns (r: Result<TokenPair, Error>)
      requires Valid()
      modifies session`working
      ensures var flushed := InsertToken(old(session.working), user, hash(newRaw), later + life);
              if flushed.Success? then r == Success(TokenPair(user, newRaw)) && session.working == flushed.value
              else r == Failure(flushed.error) && session.working == old(session.working)
    {
      var row :- users.CreateRefreshToken(user, hash(newRaw), later + life);
      return Success(TokenPair(user, newRaw));
    }

    method Register(email: string, password: string, id: UserId, newRaw: string, now: int, delay: nat)
      returns (r: Result<TokenPair, Error>)
      requires Valid()
      modifies session
      ensures session.committed == AfterTurn(old(session.committed), now,
        Serve(RotationMachine.Register(users.lower(email), hashPassword(password)), id, hash(newRaw), delay))
      ensures var t, folded := old(session.committed), users.lower(email);
        r == if exists u | u in t.users :: t.users[u].email == folded then Failure(EmailAlreadyRegistered)
             else if id in t.users || hash(newRaw) in t.tokens then Failure(UniqueViolation)
             else Success(TokenPair(id, newRaw))
      ensures r.Failure? ==> session.committed == old(session.committed)
      ensures r.Success? ==> Redeemable(r.value, now + delay + life)
      ensures r.Success? ==>
        session.committed == Tables(
          old(session.committed).users[id := User(users.lower(email), hashPassword(password), true)],
          old(session.committed).tokens[hash(newRaw) := Token(id, now + delay + life, None, None, true)])
    {
      session.Begin();
      var existing := users.GetByEmail(email);
      if existing.Some? {
        return Failure(EmailAlreadyRegistered);
      }
      var user :- users.CreateUser(id, email, hashPassword(password));
      var tokens :- IssueTokenPair(user, newRaw, now + delay);
      session.Commit();
      return Success(tokens);
    }

    method Login(email: string, password: string, newRaw: string, now: int, delay: nat)
      returns (r: Result<TokenPair, Error>)
      requires Valid()
      requires forall u, v | u in session.committed.users && v in session.committed.users
                 && session.committed.users[u].email == session.committed.users[v].email :: u == v
      modifies session
      ensures r.Failure? ==> session.committed == old(session.committed)
      ensures r.Success? ==> Redeemable(r.value, now + delay + life)
      ensures r.Success? ==>
        var u := r.value.user;
        && u in old(session.committed).users
        && old(session.committed).users[u].email == users.lower(email)
        && old(session.committed).users[u].isActive
        && verifyPassword(password, old(session.committed).users[u].passwordHash)
        && session.committed ==
             AfterTurn(old(session.committed), now, Serve(RotationMachine.Login(u), 0, hash(newRaw), delay))
        && session.committed == old(session.committed).(tokens := old(session.committed).tokens[
             hash(newRaw) := Token(u, now + delay + life, None, None, true)])
      ensures (forall u | u in old(session.committed).users
                          && old(session.committed).users[u].email == users.lower(email) ::
                 !verifyPassword(password, old(session.committed).users[u].passwordHash)) ==>
              r == Failure(InvalidCredentials)
      ensures forall u | u in old(session.committed).users
                         && old(session.committed).users[u].email == users.lower(email)
                         && verifyPassword(password, old(session.committed).users[u].passwordHash) ::
                r == if !old(session.committed).users[u].isActive then Failure(InactiveUser)
                     else if hash(newRaw) in old(session.committed).tokens then Failure(UniqueViolation)
                     else Success(TokenPair(u, newRaw))
    {
      session.Begin();
      var found := users.GetByEmail(email);
      if found.None? || !verifyPassword(password, session.working.users[found.value].passwordHash) {
        return Failure(InvalidCredentials);
      }
      if !session.working.users[found.value].isActive {
        return Failure(InactiveUser);
      }
      var tokens :- IssueTokenPair(found.value, newRaw, now + delay);
      session.Commit();
      return Success(tokens);
    }

    /** `now` is the first reading of the clock, and `now + delay` the second, for the new expiry. */
    method Refresh(raw: string, newRaw: string, now: int, delay: nat) returns (r: Result<TokenPair, Error>)
      requires Valid()
      modifies session
      ensures session.committed ==
        AfterTurn(old(session.committed), now, Serve(RotationMachine.Refresh(hash(raw)), 0, hash(newRaw), delay))
      ensures var t, h, n := old(session.committed), hash(raw), hash(newRaw);
        var good := h in t.tokens && t.tokens[h].isActive && t.tokens[h].revokedAt.None? && now < t.tokens[h].expiresAt;
        var allowed := good && t.tokens[h].owner in t.users && t.users[t.tokens[h].owner].isActive;
        && (r == Failure(InvalidRefreshToken) <==> !good)
        && (r == Failure(InactiveUser) <==> good && !allowed)
        && (r == Failure(UniqueViolation) <==> allowed && n in t.tokens)
        && (r.Success? <==> allowed && n !in t.tokens)
        && (r.Success? ==> r.value == TokenPair(t.tokens[h].owner, newRaw))
      ensures r.Failure? ==> session.committed == old(session.committed)
      ensures r.Success? ==> Redeemable(r.value, now + delay + life)
      ensures r.Success? ==>
        var t, h, n := old(session.committed).tokens, hash(raw), hash(newRaw);
        && h in t && h != n
        && session.committed.tokens ==
             t[h := Token(t[h].owner, t[h].expiresAt, Some(now), Some(n), false)]
              [n := Token(t[h].owner, now + delay + life, None, None, true)]
        && session.committed.users == old(session.committed).users
    {
      session.Begin();
      var h := hash(raw);
      var stored := users.GetRefreshToken(h);
      if stored.None? || !stored.value.isActive || stored.value.revokedAt.Some? || stored.value.expiresAt <= now {
        return Failure(InvalidRefreshToken);
      }
      var owner := stored.value.owner;
      if owner !in session.working.users || !session.working.users[owner].isActive {
        return Failure(InactiveUser);
      }
      users.RevokeRefreshToken(h, now, Some(hash(newRaw)));
      var created :- users.CreateRefreshToken(owner, hash(newRaw), now + delay + life);
      session.Commit();
      return Success(TokenPair(owner, newRaw));
    }

    method Logout(raw: string, now: int)
      requires Valid()
      modifies session
      ensures session.committed ==
        AfterTurn(old(session.committed), now, Serve(RotationMachine.Logout(hash(raw)), 0, 0, 0))
      ensures hash(raw) !in old(session.committed).tokens ==> session.committed == old(session.committed)
      ensures hash(raw) in old(session.committed).tokens ==>
        session.committed == old(session.committed).(tokens := old(session.committed).tokens[hash(raw) :=
          old(session.committed).tokens[hash(raw)].(isActive := false, revokedAt := Some(now), replacedBy := None)])
    {
      session.Begin();
      var stored := users.GetRefreshToken(hash(raw));
      if stored.None? {
        return;
      }
      users.RevokeRefreshToken(hash(raw), now, None);
      session.Commit();
    }

    method GetUser(id: UserId) returns (r: Option<User>)
      requires Valid()
      ensures r.Some? <==> id in session.working.users && session.working.users[id].isActive
      ensures r.Some? ==> r.value == session.working.users[id]
    {
      if id in session.working.users && session.working.users[id].isActive {
        return Some(session.working.users[id]);
      }
      return None;
    }
  }

  /** The pair that `Register`, `Login` or `Refresh` hands out works, and once only: while the user is active
      and the clock is before the expiry, presenting its refresh token gives a new pair, and presenting it
      again is refused at any time. */
  method RefreshTwice(
    auth: AuthService, pair: TokenPair, ghost until: int, nextRaw: string, otherRaw: string,
    now: int, delay: nat, now2: int, delay2: nat)
    returns (first: Result<TokenPair, Error>, second: Result<TokenPair, Error>)
    requires auth.Valid() && auth.Redeemable(pair, until) && now < until
    requires pair.user in auth.session.committed.users && auth.session.committed.users[pair.user].isActive
    requires auth.hash(nextRaw) !in auth.session.committed.tokens
    modifies auth.session
    ensures first == Success(TokenPair(pair.user, nextRaw)) && auth.Redeemable(first.value, now + delay + auth.life)
    ensures second == Failure(InvalidRefreshToken)
  {
    first := auth.Refresh(pair.refreshToken, nextRaw, now, delay);
    second := auth.Refresh(pair.refreshToken, otherRaw, now2, delay2);
  }
}
