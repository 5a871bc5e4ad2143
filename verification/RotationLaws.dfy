/** The steps of the interleaved machine, read off the rows: which reads go on to a commit, and what each
    commit leaves behind. */
module RotationLaws {
  import opened Wrappers
  import opened RefreshTokens
  import opened RotationMachine
  import opened RotationInvariants
  import opened RotationChains
  import opened RotationAccounting
  import opened SerialRotation
  import opened SingleUse

  // Reads

  /** A refresh goes on to its commit exactly for a live, unexpired token of an active user, and then
      remembers the row and the time. */
  lemma RefreshRead(s: State, id: nat, h: Hash, life: nat)
    ensures var t := s.tables;
            Step(s, Read(id, Refresh(h)), life) ==
              if id !in s.pending && h in t.tokens && t.tokens[h].isActive && t.tokens[h].revokedAt.None?
                 && s.clock < t.tokens[h].expiresAt
                 && t.tokens[h].owner in t.users && t.users[t.tokens[h].owner].isActive
              then s.(pending := s.pending[id := Refreshing(h, t.tokens[h], s.clock)]) else s
  {
  }

  /** The other requests: a login for an active user, a logout for any token there is, and a registration
      for an email address that no user has. */
  lemma OtherReads(s: State, id: nat, u: UserId, h: Hash, email: string, pw: string, life: nat)
    requires id !in s.pending
    ensures var t := s.tables;
      && Step(s, Read(id, Login(u)), life) ==
           (if u in t.users && t.users[u].isActive then s.(pending := s.pending[id := LoggingIn(u)]) else s)
      && Step(s, Read(id, Logout(h)), life) ==
           (if h in t.tokens then s.(pending := s.pending[id := LoggingOut(h, t.tokens[h], s.clock)]) else s)
      && Step(s, Read(id, Register(email, pw)), life) ==
           (if exists v | v in t.users :: t.users[v].email == email then s
            else s.(pending := s.pending[id := Registering(email, pw)]))
  {
  }

  /** Waiting only moves the clock, and an administrator only changes the flag of one user. */
  lemma OtherSteps(s: State, elapsed: nat, u: UserId, active: bool, life: nat)
    ensures Step(s, Tick(elapsed), life) == State(s.tables, s.clock + elapsed, s.pending, s.history)
    ensures var users := s.tables.users;
            Step(s, SetUserActive(u, active), life) ==
              if u !in users then s else
              State(Tables(users[u := User(users[u].email, users[u].passwordHash, active)], s.tables.tokens),
                    s.clock, s.pending, s.history)
  {
  }

  /** In every reachable state a refresh goes on to its commit exactly when its token exists, no refresh has
      spent it, no logout has revoked it, it has not expired, and its user is active. */
  lemma ReachableRefreshReads(clock: int, actions: seq<Action>, life: nat, id: nat, h: Hash)
    requires id !in Run(Initial(clock), actions, life).pending
    ensures var s := Run(Initial(clock), actions, life);
      id in Step(s, Read(id, Refresh(h)), life).pending <==>
        && h in s.tables.tokens
        && TimesSpent(s.history, h) == 0 && !WasLoggedOut(s.history, h)
        && s.clock < s.tables.tokens[h].expiresAt
        && var u := s.tables.tokens[h].owner; u in s.tables.users && s.tables.users[u].isActive
  {
    LiveMeansUnused(clock, actions, life, h);
    ReachableLinksAreInjective(clock, actions, life);
    RefreshRead(Run(Initial(clock), actions, life), id, h, life);
  }

  // Commits

  /** A refresh commit, whatever happened to the old row since it was read: that row is revoked at the time of
      the read and linked to the new one, which lives from the commit on; only a taken digest stops it. */
  lemma RefreshCommit(s: State, id: nat, u: UserId, n: Hash, life: nat)
    requires Inv(s) && id in s.pending && s.pending[id].Refreshing?
    ensures var t, h, readAt := s.tables, s.pending[id].hash, s.pending[id].readAt;
      && h in t.tokens
      && Step(s, Commit(id, u, n), life) ==
           if n in t.tokens then s.(pending := s.pending - {id}) else
           State(Tables(t.users,
                        t.tokens[h := Token(t.tokens[h].owner, t.tokens[h].expiresAt, Some(readAt), Some(n), false)]
                                [n := Token(t.tokens[h].owner, s.clock + life, None, None, true)]),
                 s.clock, s.pending - {id}, Then(s.history, Rotated(h, n, t.tokens[h].isActive, readAt)))
  {
    assert PendingOk(s.tables, s.pending[id]);
  }

  /** A logout commit revokes its row. The time and the erased link are written only where they differ from
      what the request had loaded. */
  lemma LogoutCommit(s: State, id: nat, u: UserId, n: Hash, life: nat)
    requires Inv(s) && id in s.pending && s.pending[id].LoggingOut?
    ensures var t, h, loaded, readAt := s.tables, s.pending[id].hash, s.pending[id].loaded, s.pending[id].readAt;
      && h in t.tokens
      && var row := t.tokens[h];
         Step(s, Commit(id, u, n), life) ==
           State(t.(tokens := t.tokens[h :=
                   Token(row.owner, row.expiresAt,
                         if loaded.revokedAt == Some(readAt) then row.revokedAt else Some(readAt),
                         if loaded.replacedBy.None? then row.replacedBy else None,
                         false)]),
                 s.clock, s.pending - {id}, Then(s.history, LoggedOut(h, row.isActive)))
  {
    assert PendingOk(s.tables, s.pending[id]);
  }

  /** A login commit adds one live token of its user; only a taken digest stops it. */
  lemma LoginCommit(s: State, id: nat, u: UserId, n: Hash, life: nat)
    requires id in s.pending && s.pending[id].LoggingIn?
    ensures Step(s, Commit(id, u, n), life) ==
      if n in s.tables.tokens then s.(pending := s.pending - {id}) else
      State(s.tables.(tokens := s.tables.tokens[n := Token(s.pending[id].user, s.clock + life, None, None, true)]),
            s.clock, s.pending - {id}, Then(s.history, Issued(n, s.clock)))
  {
  }

  /** A registration commit adds an active user and its first token, or neither: a taken id, digest or email
      address stops it, also when another registration took the address after this one had read. */
  lemma RegisterCommit(s: State, id: nat, u: UserId, n: Hash, life: nat)
    requires id in s.pending && s.pending[id].Registering?
    ensures var t, p := s.tables, s.pending[id];
      Step(s, Commit(id, u, n), life) ==
        if u in t.users || n in t.tokens || exists v | v in t.users :: t.users[v].email == p.email
        then s.(pending := s.pending - {id}) else
        State(Tables(t.users[u := User(p.email, p.passwordHash, true)],
                     t.tokens[n := Token(u, s.clock + life, None, None, true)]),
              s.clock, s.pending - {id}, Then(s.history, Issued(n, s.clock)))
  {
    var t, p := s.tables, s.pending[id];
    assert EmailTaken(t, p.email) <==> exists v | v in t.users :: t.users[v].email == p.email;
  }

  /** The history: a token that was issued heads its own family, a rotation adds its new token to the family
      of the old one, and no other token ever changes family. */
  lemma Families(g: History, h: Hash, n: Hash, live: bool, at: int, x: Hash)
    ensures Family(Then(g, Issued(n, at)), x) == if x == n then n else Family(g, x)
    ensures Family(Then(g, Rotated(h, n, live, at)), x) == if x == n then Family(g, h) else Family(g, x)
    ensures Family(Then(g, LoggedOut(h, live)), x) == Family(g, x)
    ensures WasIssued(Then(g, Issued(n, at)), x) <==> x == n || WasIssued(g, x)
    ensures WasIssued(Then(g, Rotated(h, n, live, at)), x) <==> WasIssued(g, x)
    ensures WasIssued(Then(g, LoggedOut(h, live)), x) <==> WasIssued(g, x)
    ensures TimesSpent(Then(g, Rotated(h, n, live, at)), x) == TimesSpent(g, x) + if x == h then 1 else 0
    ensures RotationTimes(Then(g, Rotated(h, n, live, at)), x) ==
            RotationTimes(g, x) + if Family(g, h) == x then [at] else []
    ensures IssueTime(Then(g, Issued(n, at)), n) == at
  {
  }

  /** In every reachable state the family of each token is that of a token some login or registration issued;
      so the counts over families speak of every token there is. */
  lemma ReachableFamiliesWereIssued(clock: int, actions: seq<Action>, life: nat, h: Hash)
    requires h in Run(Initial(clock), actions, life).tables.tokens
    ensures var s := Run(Initial(clock), actions, life);
            WasIssued(s.history, Family(s.history, h)) && Family(s.history, h) in s.tables.tokens
  {
    InitialInv(clock);
    InitialAccounted(clock);
    RunAccounts(Initial(clock), actions, life);
    var s := Run(Initial(clock), actions, life);
    FamilyWasIssued(s.history, h);
    IssuedWasBorn(s.history, Family(s.history, h));
  }

  // Inactive users

  /** No request of `u` is past its read. */
  ghost predicate NothingPending(s: State, u: UserId) {
    forall id | id in s.pending :: s.pending[id] != LoggingIn(u)
      && (s.pending[id].Refreshing? ==> s.pending[id].loaded.owner != u)
  }

  /** `u` is there and inactive, and its tokens are among those of `before`, live ones among the live. */
  ghost predicate ShutOut(before: map<Hash, Token>, s: State, u: UserId) {
    && u in s.tables.users && !s.tables.users[u].isActive
    && NothingPending(s, u)
    && forall h | h in s.tables.tokens && s.tables.tokens[h].owner == u ::
         h in before && (s.tables.tokens[h].isActive ==> before[h].isActive)
  }

  lemma CommitShutsOut(before: map<Hash, Token>, s: State, u: UserId, id: nat, newUser: UserId, n: Hash, life: nat)
    requires Inv(s) && ShutOut(before, s, u) && id in s.pending
    ensures ShutOut(before, Step(s, Commit(id, newUser, n), life), u)
  {
    assert PendingOk(s.tables, s.pending[id]);
    match s.pending[id]
    case Registering(_, _) => RegisterCommit(s, id, newUser, n, life);
    case LoggingIn(_) => LoginCommit(s, id, newUser, n, life);
    case Refreshing(_, _, _) => RefreshCommit(s, id, newUser, n, life);
    case LoggingOut(_, _, _) => LogoutCommit(s, id, newUser, n, life);
  }

  lemma StepShutsOut(before: map<Hash, Token>, s: State, u: UserId, a: Action, life: nat)
    requires Inv(s) && ShutOut(before, s, u) && a != SetUserActive(u, true)
    ensures ShutOut(before, Step(s, a, life), u)
  {
    if a.Commit? && a.id in s.pending {
      CommitShutsOut(before, s, u, a.id, a.newUser, a.newHash, life);
    }
  }

  /** While a user is inactive, under any interleaving: no login and no refresh of that user gets past its
      read, the user gets no new token, and no revoked one comes back. */
  lemma {:induction false} InactiveUsersGetNoToken(s: State, actions: seq<Action>, life: nat, u: UserId)
    requires Inv(s) && u in s.tables.users && !s.tables.users[u].isActive && NothingPending(s, u)
    requires SetUserActive(u, true) !in actions
    ensures ShutOut(s.tables.tokens, Run(s, actions, life), u)
  {
    if actions != [] {
      var front, last := actions[..|actions| - 1], actions[|actions| - 1];
      InactiveUsersGetNoToken(s, front, life, u);
      RunKeeps(s, front, life);
      StepShutsOut(s.tables.tokens, Run(s, front, life), u, last, life);
    }
  }

  /** One request at a time: a login of an inactive user, or a refresh of one of its tokens, changes nothing. */
  lemma InactiveUsersAreRefused(s: State, u: UserId, h: Hash, newUser: UserId, n: Hash, delay: nat, life: nat)
    requires u in s.tables.users ==> !s.tables.users[u].isActive
    ensures Take(s, Serve(Login(u), newUser, n, delay), life) == s.(clock := s.clock + delay)
    ensures h in s.tables.tokens && s.tables.tokens[h].owner == u ==>
              Take(s, Serve(Refresh(h), newUser, n, delay), life) == s.(clock := s.clock + delay)
  {
  }
}
