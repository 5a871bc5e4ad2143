/** Exact count of the live tokens of a login family under any interleaving. */
module RotationAccounting {
  import opened Wrappers
  import opened RefreshTokens
  import opened RotationMachine
  import opened RotationInvariants
  import opened RotationChains

  /** Refresh commits in the family of `r` that hit a row already revoked. */
  function RacedRefreshes(g: History, r: Hash): nat {
    match g
    case Empty => 0
    case Then(prev, e) =>
      RacedRefreshes(prev, r) +
      if e.Rotated? && !e.hitLive && Family(prev, e.source) == r then 1 else 0
  }

  /** Logouts in the family of `r` that hit a live row. */
  function LiveLogouts(g: History, r: Hash): nat {
    match g
    case Empty => 0
    case Then(prev, e) =>
      LiveLogouts(prev, r) +
      if e.LoggedOut? && e.hitLive && Family(prev, e.hash) == r then 1 else 0
  }

  /** Refresh commits that spent the token `h`. */
  function TimesSpent(g: History, h: Hash): nat {
    match g
    case Empty => 0
    case Then(prev, e) => TimesSpent(prev, h) + if e.Rotated? && e.source == h then 1 else 0
  }

  /** Those of them that hit the row while it was live. */
  function TimesSpentLive(g: History, h: Hash): nat {
    match g
    case Empty => 0
    case Then(prev, e) => TimesSpentLive(prev, h) + if e.Rotated? && e.hitLive && e.source == h then 1 else 0
  }

  ghost function LiveIn(t: Tables, g: History, r: Hash): set<Hash> {
    set h | h in t.tokens && t.tokens[h].isActive && Family(g, h) == r
  }

  /** Events mention tokens that exist, and create tokens that do not. */
  ghost predicate HistoryOk(g: History) {
    match g
    case Empty => true
    case Then(prev, e) =>
      && HistoryOk(prev)
      && match e
         case Issued(h, _) => Birth(prev, h) < 0
         case Rotated(h, n, _, _) => Birth(prev, h) >= 0 && Birth(prev, n) < 0
         case LoggedOut(h, _) => Birth(prev, h) >= 0
  }

  lemma {:induction false} FamilyWasIssued(g: History, h: Hash)
    requires HistoryOk(g) && Birth(g, h) >= 0
    ensures WasIssued(g, Family(g, h))
  {
    if !Creates(g.last, h) {
      FamilyWasIssued(g.prev, h);
    } else if g.last.Rotated? {
      FamilyWasIssued(g.prev, g.last.source);
    }
  }

  lemma {:induction false} IssuedWasBorn(g: History, r: Hash)
    requires HistoryOk(g) && WasIssued(g, r)
    ensures Birth(g, r) >= 0
  {
    if !Creates(g.last, r) {
      IssuedWasBorn(g.prev, r);
    }
  }

  lemma {:induction false} NothingBeforeIssue(g: History, r: Hash)
    requires HistoryOk(g) && !WasIssued(g, r)
    ensures RacedRefreshes(g, r) == 0 && LiveLogouts(g, r) == 0
  {
    if g.Then? {
      NothingBeforeIssue(g.prev, r);
      match g.last
      case Issued(_, _) =>
      case Rotated(h, _, _, _) => FamilyWasIssued(g.prev, h);
      case LoggedOut(h, _) => FamilyWasIssued(g.prev, h);
    }
  }

  lemma {:induction false} NeverSpentUnborn(g: History, h: Hash)
    requires HistoryOk(g) && Birth(g, h) < 0
    ensures TimesSpent(g, h) == 0 && TimesSpentLive(g, h) == 0
  {
    if g.Then? {
      NeverSpentUnborn(g.prev, h);
    }
  }

  ghost predicate Balanced(t: Tables, g: History, r: Hash) {
    |LiveIn(t, g, r)| + LiveLogouts(g, r) == 1 + RacedRefreshes(g, r)
  }

  ghost predicate Accounted(t: Tables, g: History) {
    && HistoryOk(g)
    && (forall r | WasIssued(g, r) :: Balanced(t, g, r))
    && (forall h | h in t.tokens :: TimesSpentLive(g, h) + (if t.tokens[h].isActive then 1 else 0) <= 1)
  }

  lemma IssueBalances(t: Tables, g: History, owner: UserId, h: Hash, expiresAt: int, at: int, r: Hash)
    requires TablesOk(t, g) && Accounted(t, g) && InsertToken(t, owner, h, expiresAt).Success?
    requires WasIssued(Then(g, Issued(h, at)), r)
    ensures Balanced(InsertToken(t, owner, h, expiresAt).value, Then(g, Issued(h, at)), r)
  {
    var t', g' := InsertToken(t, owner, h, expiresAt).value, Then(g, Issued(h, at));
    assert forall x | x in t.tokens :: x != h && Family(g', x) == Family(g, x);
    if r == h {
      if WasIssued(g, h) {
        IssuedWasBorn(g, h);
        assert false;
      }
      NothingBeforeIssue(g, h);
      forall x | x in t.tokens ensures Family(g, x) != h {
        FamilyWasIssued(g, x);
      }
      assert LiveIn(t', g', h) == {h};
    } else {
      assert LiveIn(t', g', r) == LiveIn(t, g, r);
      assert Balanced(t, g, r);
    }
  }

  lemma IssueAccounts(t: Tables, g: History, owner: UserId, h: Hash, expiresAt: int, at: int)
    requires TablesOk(t, g) && Accounted(t, g) && InsertToken(t, owner, h, expiresAt).Success?
    ensures Accounted(InsertToken(t, owner, h, expiresAt).value, Then(g, Issued(h, at)))
  {
    var t', g' := InsertToken(t, owner, h, expiresAt).value, Then(g, Issued(h, at));
    NeverSpentUnborn(g, h);
    forall r | WasIssued(g', r) ensures Balanced(t', g', r) {
      IssueBalances(t, g, owner, h, expiresAt, at, r);
    }
  }

  lemma LogoutBalances(t: Tables, g: History, h: Hash, loaded: Token, at: int, r: Hash)
    requires TablesOk(t, g) && Balanced(t, g, r) && PendingOk(t, LoggingOut(h, loaded, at))
    ensures Balanced(RevokeRow(t, h, loaded, at, None), Then(g, LoggedOut(h, IsLive(t, h))), r)
  {
    var t', g' := RevokeRow(t, h, loaded, at, None), Then(g, LoggedOut(h, IsLive(t, h)));
    assert !t'.tokens[h].isActive;
    assert forall x :: Family(g', x) == Family(g, x);
    assert LiveIn(t', g', r) == LiveIn(t, g, r) - {h};
    assert h in LiveIn(t, g, r) <==> Family(g, h) == r && IsLive(t, h);
  }

  lemma LogoutAccounts(t: Tables, g: History, h: Hash, loaded: Token, at: int)
    requires TablesOk(t, g) && Accounted(t, g) && PendingOk(t, LoggingOut(h, loaded, at))
    ensures Accounted(RevokeRow(t, h, loaded, at, None), Then(g, LoggedOut(h, IsLive(t, h))))
  {
    var t', g' := RevokeRow(t, h, loaded, at, None), Then(g, LoggedOut(h, IsLive(t, h)));
    forall r | WasIssued(g', r) ensures Balanced(t', g', r) {
      LogoutBalances(t, g, h, loaded, at, r);
    }
  }

  lemma RotationMovesLife(t: Tables, g: History, t': Tables, h: Hash, n: Hash, live: bool, at: int, r: Hash)
    requires TablesOk(t, g) && Rotates(t, t', h, n)
    ensures var g' := Then(g, Rotated(h, n, live, at));
            LiveIn(t', g', r) == if Family(g, h) == r then LiveIn(t, g, r) - {h} + {n} else LiveIn(t, g, r)
  {
    var g' := Then(g, Rotated(h, n, live, at));
    forall x ensures x in LiveIn(t', g', r) <==>
        x in (if Family(g, h) == r then LiveIn(t, g, r) - {h} + {n} else LiveIn(t, g, r)) {
      if x != n && x in t.tokens {
        assert Family(g', x) == Family(g, x);
      }
    }
  }

  lemma SwapOne(hs: set<Hash>, h: Hash, n: Hash)
    requires n !in hs && n != h
    ensures |hs - {h} + {n}| == |hs| + if h in hs then 0 else 1
  {
    assert h !in hs ==> hs - {h} == hs;
  }

  lemma RotationBalances(t: Tables, g: History, t': Tables, h: Hash, n: Hash, at: int, r: Hash)
    requires TablesOk(t, g) && Balanced(t, g, r) && Rotates(t, t', h, n)
    ensures Balanced(t', Then(g, Rotated(h, n, IsLive(t, h), at)), r)
  {
    RotationMovesLife(t, g, t', h, n, IsLive(t, h), at, r);
    var before := LiveIn(t, g, r);
    SwapOne(before, h, n);
    assert h in before <==> Family(g, h) == r && IsLive(t, h);
  }

  lemma RefreshBalances(t: Tables, g: History, h: Hash, loaded: Token, readAt: int, n: Hash, expiresAt: int, r: Hash)
    requires TablesOk(t, g) && Balanced(t, g, r) && PendingOk(t, Refreshing(h, loaded, readAt))
    requires CommitRefresh(t, h, loaded, readAt, n, expiresAt).Success?
    ensures Balanced(CommitRefresh(t, h, loaded, readAt, n, expiresAt).value,
                     Then(g, Rotated(h, n, IsLive(t, h), readAt)), r)
  {
    RefreshRotates(t, h, loaded, readAt, n, expiresAt);
    RotationBalances(t, g, CommitRefresh(t, h, loaded, readAt, n, expiresAt).value, h, n, readAt, r);
  }

  lemma RefreshAccounts(t: Tables, g: History, h: Hash, loaded: Token, readAt: int, n: Hash, expiresAt: int)
    requires TablesOk(t, g) && Accounted(t, g) && PendingOk(t, Refreshing(h, loaded, readAt))
    requires CommitRefresh(t, h, loaded, readAt, n, expiresAt).Success?
    ensures Accounted(CommitRefresh(t, h, loaded, readAt, n, expiresAt).value,
                      Then(g, Rotated(h, n, IsLive(t, h), readAt)))
  {
    var t' := CommitRefresh(t, h, loaded, readAt, n, expiresAt).value;
    var g' := Then(g, Rotated(h, n, IsLive(t, h), readAt));
    NeverSpentUnborn(g, n);
    forall r | WasIssued(g', r) ensures Balanced(t', g', r) {
      assert Balanced(t, g, r);
      RefreshBalances(t, g, h, loaded, readAt, n, expiresAt, r);
    }
  }

  lemma CommitAccounts(s: State, p: Pending, newUser: UserId, newHash: Hash, life: nat)
    requires Inv(s) && PendingOk(s.tables, p) && Accounted(s.tables, s.history)
    ensures var s' := CommitHalf(s, p, newUser, newHash, life); Accounted(s'.tables, s'.history)
  {
    var t, g, expiresAt := s.tables, s.history, s.clock + life;
    match p
    case Registering(email, pw) =>
      if CommitRegister(t, newUser, email, pw, newHash, expiresAt).Success? {
        var withUser := InsertUser(t, newUser, email, pw).value;
        InsertUserKeeps(t, g, newUser, email, pw);
        assert forall r :: LiveIn(withUser, g, r) == LiveIn(t, g, r);
        assert forall r | WasIssued(g, r) :: Balanced(t, g, r) ==> Balanced(withUser, g, r);
        IssueAccounts(withUser, g, newUser, newHash, expiresAt, s.clock);
      }
    case LoggingIn(u) =>
      if InsertToken(t, u, newHash, expiresAt).Success? {
        IssueAccounts(t, g, u, newHash, expiresAt, s.clock);
      }
    case Refreshing(h, loaded, readAt) =>
      if CommitRefresh(t, h, loaded, readAt, newHash, expiresAt).Success? {
        RefreshAccounts(t, g, h, loaded, readAt, newHash, expiresAt);
      }
    case LoggingOut(h, loaded, readAt) =>
      LogoutAccounts(t, g, h, loaded, readAt);
  }

  lemma StepAccounts(s: State, a: Action, life: nat)
    requires Inv(s) && Accounted(s.tables, s.history)
    ensures var s' := Step(s, a, life); Accounted(s'.tables, s'.history)
  {
    match a
    case Tick(_) =>
    case SetUserActive(u, b) =>
      var t' := Step(s, a, life).tables;
      assert forall r :: LiveIn(t', s.history, r) == LiveIn(s.tables, s.history, r);
      assert forall r | WasIssued(s.history, r) :: Balanced(s.tables, s.history, r) ==> Balanced(t', s.history, r);
    case Read(id, r) =>
    case Commit(id, u, h) =>
      if id in s.pending {
        CommitAccounts(s.(pending := s.pending - {id}), s.pending[id], u, h, life);
      }
  }

  lemma {:induction false} RunAccounts(s: State, actions: seq<Action>, life: nat)
    requires Inv(s) && Accounted(s.tables, s.history)
    ensures var s' := Run(s, actions, life); Inv(s') && Accounted(s'.tables, s'.history)
  {
    RunKeeps(s, actions, life);
    if actions != [] {
      var before := actions[..|actions| - 1];
      RunAccounts(s, before, life);
      StepAccounts(Run(s, before, life), actions[|actions| - 1], life);
    }
  }

  lemma InitialAccounted(clock: int)
    ensures Accounted(Initial(clock).tables, Initial(clock).history)
  {
  }

  /** The exact count, in every reachable state of the interleaved machine and for every login. */
  lemma LiveTokensOfAFamily(clock: int, actions: seq<Action>, life: nat, r: Hash)
    ensures var s := Run(Initial(clock), actions, life);
            WasIssued(s.history, r) ==>
              |LiveIn(s.tables, s.history, r)| == 1 + RacedRefreshes(s.history, r) - LiveLogouts(s.history, r)
  {
    InitialInv(clock);
    InitialAccounted(clock);
    RunAccounts(Initial(clock), actions, life);
  }

  /** A token is spent at most once while its row is live. */
  lemma SpentLiveAtMostOnce(clock: int, actions: seq<Action>, life: nat, h: Hash)
    ensures var s := Run(Initial(clock), actions, life);
            && TimesSpentLive(s.history, h) <= 1
            && (IsLive(s.tables, h) ==> TimesSpentLive(s.history, h) == 0)
  {
    InitialInv(clock);
    InitialAccounted(clock);
    RunAccounts(Initial(clock), actions, life);
    var s := Run(Initial(clock), actions, life);
    if h !in s.tables.tokens {
      NeverSpentUnborn(s.history, h);
    }
  }

  /** One refresh commit leaves its family with one more live token exactly when the row it wrote had
      been revoked since the request read it, which the code does not look at again. */
  lemma RefreshCommitGrowsFamilyIff(clock: int, actions: seq<Action>, life: nat, id: nat, u: UserId, n: Hash)
    requires var s := Run(Initial(clock), actions, life);
             id in s.pending && s.pending[id].Refreshing? && n !in s.tables.tokens
    ensures var s := Run(Initial(clock), actions, life);
            var s' := Step(s, Commit(id, u, n), life);
            var h := s.pending[id].hash;
            var r := Family(s.history, h);
            |LiveIn(s'.tables, s'.history, r)| ==
              |LiveIn(s.tables, s.history, r)| + (if IsLive(s.tables, h) then 0 else 1)
  {
    InitialInv(clock);
    InitialAccounted(clock);
    RunAccounts(Initial(clock), actions, life);
    var s := Run(Initial(clock), actions, life);
    var s' := Step(s, Commit(id, u, n), life);
    StepAccounts(s, Commit(id, u, n), life);
    var h := s.pending[id].hash;
    assert PendingOk(s.tables, s.pending[id]);
    FamilyWasIssued(s.history, h);
    assert Balanced(s.tables, s.history, Family(s.history, h)) && Balanced(s'.tables, s'.history, Family(s.history, h));
  }

  /** Two refreshes of one token that both read before either commits both succeed: the token is spent
      twice, the family has two live tokens, and the link to the first successor is overwritten. */
  lemma TwoRacingRefreshesBothSucceed(life: nat)
    requires life > 0
    ensures var s := Run(Initial(0),
              [Read(0, Register("a", "p"))] + [Commit(0, 7, 1)] + [Read(1, Refresh(1))] + [Read(2, Refresh(1))]
              + [Commit(1, 0, 2)] + [Commit(2, 0, 3)], life);
            && TimesSpent(s.history, 1) == 2
            && s.tables.tokens == map[
                 1 := Token(7, life, Some(0), Some(3), false),
                 2 := Token(7, life, None, None, true),
                 3 := Token(7, life, None, None, true)]
            && Family(s.history, 2) == Family(s.history, 3) == 1
  {
    var row := Token(7, life, None, None, true);
    var users := map[7 := User("a", "p", true)];
    var g1 := Then(Empty, Issued(1, 0));
    var g2 := Then(g1, Rotated(1, 2, true, 0));
    var g3 := Then(g2, Rotated(1, 3, false, 0));
    var a1 := [Read(0, Register("a", "p"))];
    var a2 := a1 + [Commit(0, 7, 1)];
    var a3 := a2 + [Read(1, Refresh(1))];
    var a4 := a3 + [Read(2, Refresh(1))];
    var a5 := a4 + [Commit(1, 0, 2)];
    assert a1 == [] + a1;
    RunThen(Initial(0), [], a1[0], life);
    assert Run(Initial(0), a1, life) == State(Tables(map[], map[]), 0, map[0 := Registering("a", "p")], Empty);
    RunThen(Initial(0), a1, Commit(0, 7, 1), life);
    assert Run(Initial(0), a2, life) == State(Tables(users, map[1 := row]), 0, map[], g1);
    RunThen(Initial(0), a2, Read(1, Refresh(1)), life);
    assert Run(Initial(0), a3, life) == State(Tables(users, map[1 := row]), 0, map[1 := Refreshing(1, row, 0)], g1);
    RunThen(Initial(0), a3, Read(2, Refresh(1)), life);
    assert Run(Initial(0), a4, life) ==
      State(Tables(users, map[1 := row]), 0, map[1 := Refreshing(1, row, 0), 2 := Refreshing(1, row, 0)], g1);
    RunThen(Initial(0), a4, Commit(1, 0, 2), life);
    assert Run(Initial(0), a5, life) ==
      State(Tables(users, map[1 := Token(7, life, Some(0), Some(2), false), 2 := row]), 0,
            map[2 := Refreshing(1, row, 0)], g2);
    RunThen(Initial(0), a5, Commit(2, 0, 3), life);
    assert Run(Initial(0), a5 + [Commit(2, 0, 3)], life) ==
      State(Tables(users, map[1 := Token(7, life, Some(0), Some(3), false), 2 := row, 3 := row]), 0, map[], g3);
  }
}
