/** What every step of the interleaved machine keeps, and what that says about chains of links. */
module RotationInvariants {
  import opened Wrappers
  import opened RefreshTokens
  import opened RotationMachine

  /** One row: the two ways of saying "revoked" agree, and only revoked rows carry a link. */
  ghost predicate RowOk(r: Token) {
    (r.isActive <==> r.revokedAt.None?) && (r.isActive ==> r.replacedBy.None?)
  }

  ghost predicate LinkOk(t: Tables, g: History, h: Hash, n: Hash)
    requires h in t.tokens
  {
    && n in t.tokens
    && t.tokens[n].owner == t.tokens[h].owner
    && Birth(g, h) < Birth(g, n)
    && Family(g, h) == Family(g, n)
  }

  ghost predicate Linked(t: Tables, h: Hash, n: Hash) {
    h in t.tokens && t.tokens[h].replacedBy == Some(n)
  }

  ghost predicate TablesOk(t: Tables, g: History) {
    && (forall h | h in t.tokens :: RowOk(t.tokens[h]) && t.tokens[h].owner in t.users)
    && (forall h :: h in t.tokens <==> Birth(g, h) >= 0)
    && (forall h, n | Linked(t, h, n) :: LinkOk(t, g, h, n))
    && (forall h1, h2, n | Linked(t, h1, n) && Linked(t, h2, n) :: h1 == h2)
    && (forall u1, u2 | u1 in t.users && u2 in t.users && t.users[u1].email == t.users[u2].email :: u1 == u2)
  }

  /** What a request remembers is still true of the parts of the row that no request changes back. */
  ghost predicate PendingOk(t: Tables, p: Pending) {
    match p
    case Registering(_, _) => true
    case LoggingIn(u) => u in t.users
    case Refreshing(h, loaded, readAt) =>
      && h in t.tokens && RowOk(loaded) && loaded.isActive
      && loaded.owner == t.tokens[h].owner
      && readAt < loaded.expiresAt == t.tokens[h].expiresAt
    case LoggingOut(h, loaded, _) =>
      && h in t.tokens && RowOk(loaded)
      && (!loaded.isActive ==> !t.tokens[h].isActive)
  }

  ghost predicate Inv(s: State) {
    && TablesOk(s.tables, s.history)
    && forall id | id in s.pending :: PendingOk(s.tables, s.pending[id])
  }

  lemma InsertUserKeeps(t: Tables, g: History, id: UserId, email: string, pw: string)
    requires TablesOk(t, g) && InsertUser(t, id, email, pw).Success?
    ensures TablesOk(InsertUser(t, id, email, pw).value, g)
  {
    var t' := InsertUser(t, id, email, pw).value;
    forall h, n | Linked(t', h, n) ensures LinkOk(t', g, h, n) {
      assert Linked(t, h, n);
    }
    forall h1, h2, n | Linked(t', h1, n) && Linked(t', h2, n) ensures h1 == h2 {
      assert Linked(t, h1, n) && Linked(t, h2, n);
    }
  }

  lemma IssueKeeps(t: Tables, g: History, owner: UserId, h: Hash, expiresAt: int, at: int)
    requires TablesOk(t, g) && owner in t.users && InsertToken(t, owner, h, expiresAt).Success?
    ensures TablesOk(InsertToken(t, owner, h, expiresAt).value, Then(g, Issued(h, at)))
  {
    var t', g' := InsertToken(t, owner, h, expiresAt).value, Then(g, Issued(h, at));
    forall a, n | Linked(t', a, n) ensures LinkOk(t', g', a, n) {
      assert Linked(t, a, n);
    }
    forall h1, h2, n | Linked(t', h1, n) && Linked(t', h2, n) ensures h1 == h2 {
      assert Linked(t, h1, n) && Linked(t, h2, n);
    }
  }

  lemma LogoutKeeps(t: Tables, g: History, h: Hash, loaded: Token, at: int, live: bool)
    requires TablesOk(t, g) && PendingOk(t, LoggingOut(h, loaded, at))
    ensures TablesOk(RevokeRow(t, h, loaded, at, None), Then(g, LoggedOut(h, live)))
  {
    var t', g' := RevokeRow(t, h, loaded, at, None), Then(g, LoggedOut(h, live));
    forall a, n | Linked(t', a, n) ensures LinkOk(t', g', a, n) {
      assert Linked(t, a, n);
    }
    forall h1, h2, n | Linked(t', h1, n) && Linked(t', h2, n) ensures h1 == h2 {
      assert Linked(t, h1, n) && Linked(t, h2, n);
    }
  }

  /** What a refresh commit does to the table, given what its request remembers. */
  ghost predicate Rotates(t: Tables, t': Tables, h: Hash, n: Hash) {
    && h in t.tokens && n !in t.tokens && t'.users == t.users
    && t'.tokens.Keys == t.tokens.Keys + {n}
    && (forall x | x in t.tokens && x != h :: t'.tokens[x] == t.tokens[x])
    && t'.tokens[h].owner == t'.tokens[n].owner == t.tokens[h].owner
    && t'.tokens[h].replacedBy == Some(n) && t'.tokens[h].revokedAt.Some? && !t'.tokens[h].isActive
    && t'.tokens[n].replacedBy == None && t'.tokens[n].revokedAt == None && t'.tokens[n].isActive
  }

  lemma RefreshRotates(t: Tables, h: Hash, loaded: Token, readAt: int, n: Hash, expiresAt: int)
    requires PendingOk(t, Refreshing(h, loaded, readAt))
    requires CommitRefresh(t, h, loaded, readAt, n, expiresAt).Success?
    ensures Rotates(t, CommitRefresh(t, h, loaded, readAt, n, expiresAt).value, h, n)
  {
  }

  lemma RotationKeeps(t: Tables, g: History, t': Tables, h: Hash, n: Hash, live: bool, at: int)
    requires TablesOk(t, g) && Rotates(t, t', h, n)
    ensures TablesOk(t', Then(g, Rotated(h, n, live, at)))
  {
    var g' := Then(g, Rotated(h, n, live, at));
    assert forall a :: !Linked(t, a, n);
    assert forall a, b | a != h && Linked(t', a, b) :: Linked(t, a, b);
    forall a, b | Linked(t', a, b) ensures LinkOk(t', g', a, b) {
    }
  }

  lemma RefreshKeeps(t: Tables, g: History, h: Hash, loaded: Token, readAt: int, n: Hash, expiresAt: int, live: bool)
    requires TablesOk(t, g) && PendingOk(t, Refreshing(h, loaded, readAt))
    requires CommitRefresh(t, h, loaded, readAt, n, expiresAt).Success?
    ensures TablesOk(CommitRefresh(t, h, loaded, readAt, n, expiresAt).value, Then(g, Rotated(h, n, live, readAt)))
  {
    RefreshRotates(t, h, loaded, readAt, n, expiresAt);
    RotationKeeps(t, g, CommitRefresh(t, h, loaded, readAt, n, expiresAt).value, h, n, live, readAt);
  }

  /** Rows never disappear, revocation is permanent, owner and expiry are fixed. */
  ghost predicate Later(t: Tables, t': Tables) {
    && t.users.Keys <= t'.users.Keys
    && forall h | h in t.tokens ::
         && h in t'.tokens
         && t'.tokens[h].owner == t.tokens[h].owner
         && t'.tokens[h].expiresAt == t.tokens[h].expiresAt
         && (!t.tokens[h].isActive ==> !t'.tokens[h].isActive)
  }

  lemma PendingStays(t: Tables, t': Tables, p: Pending)
    requires Later(t, t') && PendingOk(t, p)
    ensures PendingOk(t', p)
  {
  }

  lemma RegisterKeeps(t: Tables, g: History, id: UserId, email: string, pw: string, h: Hash, expiresAt: int, at: int)
    requires TablesOk(t, g) && CommitRegister(t, id, email, pw, h, expiresAt).Success?
    ensures TablesOk(CommitRegister(t, id, email, pw, h, expiresAt).value, Then(g, Issued(h, at)))
  {
    InsertUserKeeps(t, g, id, email, pw);
    IssueKeeps(InsertUser(t, id, email, pw).value, g, id, h, expiresAt, at);
  }

  lemma CommitKeepsTables(s: State, p: Pending, newUser: UserId, newHash: Hash, life: nat)
    requires Inv(s) && PendingOk(s.tables, p)
    ensures var s' := CommitHalf(s, p, newUser, newHash, life); TablesOk(s'.tables, s'.history)
  {
    var t, g, expiresAt := s.tables, s.history, s.clock + life;
    match p
    case Registering(email, pw) =>
      if CommitRegister(t, newUser, email, pw, newHash, expiresAt).Success? {
        RegisterKeeps(t, g, newUser, email, pw, newHash, expiresAt, s.clock);
      }
    case LoggingIn(u) =>
      if InsertToken(t, u, newHash, expiresAt).Success? {
        IssueKeeps(t, g, u, newHash, expiresAt, s.clock);
      }
    case Refreshing(h, loaded, readAt) =>
      if CommitRefresh(t, h, loaded, readAt, newHash, expiresAt).Success? {
        RefreshKeeps(t, g, h, loaded, readAt, newHash, expiresAt, IsLive(t, h));
      }
    case LoggingOut(h, loaded, readAt) =>
      LogoutKeeps(t, g, h, loaded, readAt, IsLive(t, h));
  }

  lemma CommitMovesForward(s: State, p: Pending, newUser: UserId, newHash: Hash, life: nat)
    ensures Later(s.tables, CommitHalf(s, p, newUser, newHash, life).tables)
  {
  }

  lemma ToggleKeeps(t: Tables, g: History, u: UserId, b: bool)
    requires TablesOk(t, g) && u in t.users
    ensures TablesOk(t.(users := t.users[u := t.users[u].(isActive := b)]), g)
  {
    var t' := t.(users := t.users[u := t.users[u].(isActive := b)]);
    forall h, n | Linked(t', h, n) ensures LinkOk(t', g, h, n) {
      assert Linked(t, h, n);
    }
    forall h1, h2, n | Linked(t', h1, n) && Linked(t', h2, n) ensures h1 == h2 {
      assert Linked(t, h1, n) && Linked(t, h2, n);
    }
  }

  lemma ReadRemembers(t: Tables, g: History, now: int, r: Request)
    requires TablesOk(t, g) && ReadHalf(t, now, r).Some?
    ensures PendingOk(t, ReadHalf(t, now, r).value)
  {
  }

  lemma CommitStepKeeps(s: State, id: nat, u: UserId, h: Hash, life: nat)
    requires Inv(s) && id in s.pending
    ensures Inv(Step(s, Commit(id, u, h), life))
    ensures Later(s.tables, Step(s, Commit(id, u, h), life).tables)
  {
    var rest := s.(pending := s.pending - {id});
    CommitKeepsTables(rest, s.pending[id], u, h, life);
    CommitMovesForward(rest, s.pending[id], u, h, life);
    var s' := CommitHalf(rest, s.pending[id], u, h, life);
    forall i | i in rest.pending ensures PendingOk(s'.tables, s'.pending[i]) {
      PendingStays(s.tables, s'.tables, s.pending[i]);
    }
  }

  /** Every step keeps the invariant, and only moves the tables forward. */
  lemma StepKeeps(s: State, a: Action, life: nat)
    requires Inv(s)
    ensures Inv(Step(s, a, life))
    ensures Later(s.tables, Step(s, a, life).tables)
  {
    match a
    case Tick(_) =>
    case SetUserActive(u, b) =>
      if u in s.tables.users {
        ToggleKeeps(s.tables, s.history, u, b);
      }
    case Read(id, r) =>
      if ReadHalf(s.tables, s.clock, r).Some? {
        ReadRemembers(s.tables, s.history, s.clock, r);
      }
    case Commit(id, u, h) =>
      if id in s.pending {
        CommitStepKeeps(s, id, u, h, life);
      }
  }

  /** Every reachable state of the interleaved machine satisfies the invariant. */
  lemma {:induction false} RunKeeps(s: State, actions: seq<Action>, life: nat)
    requires Inv(s)
    ensures Inv(Run(s, actions, life))
    ensures Later(s.tables, Run(s, actions, life).tables)
  {
    if actions != [] {
      var before := actions[..|actions| - 1];
      RunKeeps(s, before, life);
      StepKeeps(Run(s, before, life), actions[|actions| - 1], life);
    }
  }
}
