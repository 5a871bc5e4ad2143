/** Register, login, refresh and logout as a state machine in which every request is two steps, a
    read and a commit, and any number of other steps may run between the two. */
module RotationMachine {
  import opened Wrappers
  import opened RefreshTokens

  /** What the commits did, oldest first. `hitLive` says whether the row written was still live. */
  datatype Event =
    | Issued(hash: Hash, at: int)
    | Rotated(source: Hash, target: Hash, hitLive: bool, at: int)
    | LoggedOut(hash: Hash, hitLive: bool)

  datatype History = Empty | Then(prev: History, last: Event)

  datatype Request =
    | Register(email: string, passwordHash: string)
    | Login(user: UserId)
    | Refresh(hash: Hash)
    | Logout(hash: Hash)

  /** A request between its read and its commit, with everything it remembers from the read. */
  datatype Pending =
    | Registering(email: string, passwordHash: string)
    | LoggingIn(user: UserId)
    | Refreshing(hash: Hash, loaded: Token, readAt: int)
    | LoggingOut(hash: Hash, loaded: Token, readAt: int)

  datatype State = State(tables: Tables, clock: int, pending: map<nat, Pending>, history: History)

  datatype Action =
    | Tick(elapsed: nat)
    | SetUserActive(user: UserId, active: bool)
    | Read(id: nat, request: Request)
    | Commit(id: nat, newUser: UserId, newHash: Hash)

  function Initial(clock: int): State {
    State(Tables(map[], map[]), clock, map[], Empty)
  }

  /** The read half of a request; None when the request ends there, with or without an error. A login
      reaches its commit only for an active user whose password was verified. */
  function ReadHalf(t: Tables, now: int, r: Request): Option<Pending> {
    match r
    case Register(email, pw) =>
      if EmailTaken(t, email) then None else Some(Registering(email, pw))
    case Login(u) =>
      if u in t.users && t.users[u].isActive then Some(LoggingIn(u)) else None
    case Refresh(h) =>
      var checked := CheckRefresh(t, h, now);
      if checked.Success? then Some(Refreshing(h, checked.value, now)) else None
    case Logout(h) =>
      if h in t.tokens then Some(LoggingOut(h, t.tokens[h], now)) else None
  }

  /** A commit that worked: the new tables and the event it leaves; a refused one changes nothing. */
  function Landed(s: State, tables: Result<Tables, Error>, e: Event): State {
    if tables.Success? then s.(tables := tables.value, history := Then(s.history, e)) else s
  }

  function IsLive(t: Tables, h: Hash): bool {
    h in t.tokens && t.tokens[h].isActive
  }

  /** The write half of a request, up to and with its commit. `newUser` and `newHash` are the random
      choices of the request, and `life` is how long a refresh token lives. */
  function CommitHalf(s: State, p: Pending, newUser: UserId, newHash: Hash, life: nat): State {
    var expiresAt := s.clock + life;
    match p
    case Registering(email, pw) =>
      Landed(s, CommitRegister(s.tables, newUser, email, pw, newHash, expiresAt), Issued(newHash, s.clock))
    case LoggingIn(u) =>
      Landed(s, InsertToken(s.tables, u, newHash, expiresAt), Issued(newHash, s.clock))
    case Refreshing(h, loaded, readAt) =>
      if h !in s.tables.tokens then s else
      Landed(s, CommitRefresh(s.tables, h, loaded, readAt, newHash, expiresAt),
             Rotated(h, newHash, IsLive(s.tables, h), readAt))
    case LoggingOut(h, loaded, readAt) =>
      if h !in s.tables.tokens then s else
      Landed(s, Success(RevokeRow(s.tables, h, loaded, readAt, None)), LoggedOut(h, IsLive(s.tables, h)))
  }

  function Step(s: State, a: Action, life: nat): State {
    match a
    case Tick(dt) => s.(clock := s.clock + dt)
    case SetUserActive(u, b) =>
      if u !in s.tables.users then s else
      s.(tables := s.tables.(users := s.tables.users[u := s.tables.users[u].(isActive := b)]))
    case Read(id, r) =>
      var p := ReadHalf(s.tables, s.clock, r);
      if id in s.pending || p.None? then s else s.(pending := s.pending[id := p.value])
    case Commit(id, u, h) =>
      if id !in s.pending then s else
      CommitHalf(s.(pending := s.pending - {id}), s.pending[id], u, h, life)
  }

  /** The state after any finite sequence of steps. */
  function Run(s: State, actions: seq<Action>, life: nat): State {
    if actions == [] then s else
    Step(Run(s, actions[..|actions| - 1], life), actions[|actions| - 1], life)
  }

  /** Position of the event that created the token, or -1. */
  function Birth(g: History, h: Hash): (b: int)
    ensures -1 <= b < Length(g)
  {
    match g
    case Empty => -1
    case Then(prev, e) => if Creates(e, h) then Length(prev) else Birth(prev, h)
  }

  function Length(g: History): nat {
    if g.Empty? then 0 else Length(g.prev) + 1
  }

  predicate Creates(e: Event, h: Hash) {
    match e
    case Issued(x, _) => x == h
    case Rotated(_, n, _, _) => n == h
    case LoggedOut(_, _) => false
  }

  /** The login or registration token that a token descends from by refreshes. Links in the table may
      have been overwritten or erased; the history has not. */
  function Family(g: History, h: Hash): Hash {
    match g
    case Empty => h
    case Then(prev, e) =>
      if !Creates(e, h) then Family(prev, h)
      else if e.Rotated? then Family(prev, e.source)
      else h
  }

  predicate WasIssued(g: History, h: Hash) {
    g.Then? && ((g.last.Issued? && g.last.hash == h) || WasIssued(g.prev, h))
  }
}
