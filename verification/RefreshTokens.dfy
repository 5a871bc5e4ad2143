/** The rows that authentication works on, and what each repository call does to them. */
module RefreshTokens {
  import opened Wrappers

  type UserId = nat

  /** A SHA-256 digest, read as a number. */
  type Hash = nat

  datatype User = User(email: string, passwordHash: string, isActive: bool)

  datatype Token = Token(
    owner: UserId,
    expiresAt: int,
    revokedAt: Option<int>,
    replacedBy: Option<Hash>,
    isActive: bool)

  datatype Tables = Tables(users: map<UserId, User>, tokens: map<Hash, Token>)

  datatype Error =
    | EmailAlreadyRegistered
    | InvalidCredentials
    | InactiveUser
    | InvalidRefreshToken
    | UniqueViolation

  predicate EmailTaken(t: Tables, email: string) {
    exists u | u in t.users :: t.users[u].email == email
  }

  /** Inserting a token row; the UNIQUE constraint on the hash may refuse it. */
  function InsertToken(t: Tables, owner: UserId, h: Hash, expiresAt: int): Result<Tables, Error> {
    if h in t.tokens then
      Failure(UniqueViolation)
    else
      Success(t.(tokens := t.tokens[h := Token(owner, expiresAt, None, None, true)]))
  }

  /** Inserting a user row; the primary key and the UNIQUE email may refuse it. */
  function InsertUser(t: Tables, id: UserId, email: string, passwordHash: string): Result<Tables, Error> {
    if id in t.users || EmailTaken(t, email) then
      Failure(UniqueViolation)
    else
      Success(t.(users := t.users[id := User(email, passwordHash, true)]))
  }

  /** `refresh` up to its first write: the row it read, or the error it raises. */
  function CheckRefresh(t: Tables, h: Hash, now: int): Result<Token, Error> {
    if h !in t.tokens then
      Failure(InvalidRefreshToken)
    else
      var row := t.tokens[h];
      if !row.isActive || row.revokedAt.Some? || row.expiresAt <= now then
        Failure(InvalidRefreshToken)
      else if row.owner !in t.users || !t.users[row.owner].isActive then
        Failure(InactiveUser)
      else
        Success(row)
  }

  /** The UPDATE that the ORM emits when a row read as `loaded` is revoked: only the columns whose
      assigned value differs from the one that was read are sent. `row` is the row as it is now,
      which another request may have changed since. */
  function WriteRevocation(row: Token, loaded: Token, at: int, link: Option<Hash>): Token {
    row.(
      isActive := if loaded.isActive then false else row.isActive,
      revokedAt := if loaded.revokedAt != Some(at) then Some(at) else row.revokedAt,
      replacedBy := if loaded.replacedBy != link then link else row.replacedBy)
  }

  function RevokeRow(t: Tables, h: Hash, loaded: Token, at: int, link: Option<Hash>): Tables
    requires h in t.tokens
  {
    t.(tokens := t.tokens[h := WriteRevocation(t.tokens[h], loaded, at, link)])
  }

  /** `register` from its first write to its commit. */
  function CommitRegister(t: Tables, id: UserId, email: string, passwordHash: string, h: Hash, expiresAt: int)
    : Result<Tables, Error>
  {
    var withUser :- InsertUser(t, id, email, passwordHash);
    InsertToken(withUser, id, h, expiresAt)
  }

  /** `refresh` from its first write to its commit. */
  function CommitRefresh(t: Tables, h: Hash, loaded: Token, readAt: int, newHash: Hash, expiresAt: int)
    : Result<Tables, Error>
    requires h in t.tokens
  {
    InsertToken(RevokeRow(t, h, loaded, readAt, Some(newHash)), loaded.owner, newHash, expiresAt)
  }
}
