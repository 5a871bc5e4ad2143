/** Exactly when the interleaved machine lets a refresh token be spent a second time. */
module SingleUse {
  import opened Wrappers
  import opened RefreshTokens
  import opened RotationMachine
  import opened RotationInvariants
  import opened RotationChains
  import opened RotationAccounting
  import Runs

  /** Some earlier refresh commit spent `h`. */
  predicate WasRotated(g: History, h: Hash) {
    g.Then? && ((g.last.Rotated? && g.last.source == h) || WasRotated(g.prev, h))
  }

  /** Some earlier logout commit revoked `h`. */
  predicate WasLoggedOut(g: History, h: Hash) {
    g.Then? && ((g.last.LoggedOut? && g.last.hash == h) || WasLoggedOut(g.prev, h))
  }

  lemma {:induction false} RotatedMeansSpent(g: History, h: Hash)
    ensures WasRotated(g, h) <==> TimesSpent(g, h) > 0
  {
    if g.Then? {
      RotatedMeansSpent(g.prev, h);
    }
  }

  /** What a row tells about the uses of its token: a live one has had none, and a link shows a rotation
      unless a logout erased it. */
  ghost predicate UsesOk(t: Tables, g: History, h: Hash) {
    if h in t.tokens then
      && (t.tokens[h].isActive <==> !WasRotated(g, h) && !WasLoggedOut(g, h))
      && (t.tokens[h].replacedBy.Some? ==> WasRotated(g, h))
      && (WasRotated(g, h) && !WasLoggedOut(g, h) ==> t.tokens[h].replacedBy.Some?)
    else
      !WasRotated(g, h) && !WasLoggedOut(g, h)
  }

  ghost predicate AllUsesOk(t: Tables, g: History) {
    forall h :: UsesOk(t, g, h)
  }

  lemma IssueKeepsUses(t: Tables, g: History, owner: UserId, h: Hash, expiresAt: int, at: int)
    requires AllUsesOk(t, g) && InsertToken(t, owner, h, expiresAt).Success?
    ensures AllUsesOk(InsertToken(t, owner, h, expiresAt).value, Then(g, Issued(h, at)))
  {
    var t', g' := InsertToken(t, owner, h, expiresAt).value, Then(g, Issued(h, at));
    forall x ensures UsesOk(t', g', x) {
      assert UsesOk(t, g, x);
    }
  }

  lemma RotationKeepsUses(t: Tables, g: History, t': Tables, h: Hash, n: Hash, live: bool, at: int)
    requires AllUsesOk(t, g) && Rotates(t, t', h, n)
    ensures AllUsesOk(t', Then(g, Rotated(h, n, live, at)))
  {
    forall x ensures UsesOk(t', Then(g, Rotated(h, n, live, at)), x) {
      assert UsesOk(t, g, x);
    }
  }

  lemma LogoutKeepsUses(t: Tables, g: History, h: Hash, loaded: Token, at: int, live: bool)
    requires AllUsesOk(t, g) && PendingOk(t, LoggingOut(h, loaded, at))
    ensures AllUsesOk(RevokeRow(t, h, loaded, at, None), Then(g, LoggedOut(h, live)))
  {
    var t', g' := RevokeRow(t, h, loaded, at, None), Then(g, LoggedOut(h, live));
    forall x ensures UsesOk(t', g', x) {
      assert UsesOk(t, g, x);
    }
  }

  lemma UsersDoNotSpend(t: Tables, users: map<UserId, User>, g: History)
    requires AllUsesOk(t, g)
    ensures AllUsesOk(t.(users := users), g)
  {
    forall x ensures UsesOk(t.(users := users), g, x) {
      assert UsesOk(t, g, x);
    }
  }

  lemma CommitKeepsUses(s: State, p: Pending, newUser: UserId, newHash: Hash, life: nat)
    requires PendingOk(s.tables, p) && AllUsesOk(s.tables, s.history)
    ensures var s' := CommitHalf(s, p, newUser, newHash, life); AllUsesOk(s'.tables, s'.history)
  {
    var t, g, expiresAt := s.tables, s.history, s.clock + life;
    match p
    case Registering(email, pw) =>
      if CommitRegister(t, newUser, email, pw, newHash, expiresAt).Success? {
        var withUser := InsertUser(t, newUser, email, pw).value;
        UsersDoNotSpend(t, withUser.users, g);
        IssueKeepsUses(withUser, g, newUser, newHash, expiresAt, s.clock);
      }
    case LoggingIn(u) =>
      if InsertToken(t, u, newHash, expiresAt).Success? {
        IssueKeepsUses(t, g, u, newHash, expiresAt, s.clock);
      }
    case Refreshing(h, loaded, readAt) =>
      var done := CommitRefresh(t, h, loaded, readAt, newHash, expiresAt);
      if done.Success? {
        RefreshRotates(t, h, loaded, readAt, newHash, expiresAt);
        RotationKeepsUses(t, g, done.value, h, newHash, IsLive(t, h), readAt);
      }
    case LoggingOut(h, loaded, readAt) =>
      LogoutKeepsUses(t, g, h, loaded, readAt, IsLive(t, h));
  }

  lemma StepKeepsUses(s: State, a: Action, life: nat)
    requires Inv(s) && AllUsesOk(s.tables, s.history)
    ensures var s' := Step(s, a, life); AllUsesOk(s'.tables, s'.history)
  {
    match a
    case Tick(_) =>
    case SetUserActive(u, b) =>
      UsersDoNotSpend(s.tables, Step(s, a, life).tables.users, s.history);
    case Read(_, _) =>
    case Commit(id, u, h) =>
      if id in s.pending {
        CommitKeepsUses(s.(pending := s.pending - {id}), s.pending[id], u, h, life);
      }
  }

  lemma {:induction false} RunKeepsUses(s: State, actions: seq<Action>, life: nat)
    requires Inv(s) && AllUsesOk(s.tables, s.history)
    ensures var s' := Run(s, actions, life); Inv(s') && AllUsesOk(s'.tables, s'.history)
  {
    RunKeeps(s, actions, life);
    if actions != [] {
      var before := actions[..|actions| - 1];
      RunKeepsUses(s, before, life);
      StepKeepsUses(Run(s, before, life), actions[|actions| - 1], life);
    }
  }

  lemma ReachableUses(clock: int, actions: seq<Action>, life: nat)
    ensures var s := Run(Initial(clock), actions, life); Inv(s) && AllUsesOk(s.tables, s.history)
  {
    InitialInv(clock);
    RunKeepsUses(Initial(clock), actions, life);
  }

  /** In every reachable state of the interleaved machine a token is live exactly when it exists and no
      refresh has spent it and no logout has revoked it. */
  lemma LiveMeansUnused(clock: int, actions: seq<Action>, life: nat, h: Hash)
    ensures var s := Run(Initial(clock), actions, life);
            IsLive(s.tables, h) <==>
              h in s.tables.tokens && TimesSpent(s.history, h) == 0 && !WasLoggedOut(s.history, h)
  {
    ReachableUses(clock, actions, life);
    var s := Run(Initial(clock), actions, life);
    assert UsesOk(s.tables, s.history, h);
    RotatedMeansSpent(s.history, h);
  }

  /** A step that spends a token which an earlier refresh commit has spent. */
  predicate SpendsAgain(s: State, a: Action) {
    && a.Commit? && a.id in s.pending && s.pending[a.id].Refreshing?
    && a.newHash !in s.tables.tokens
    && WasRotated(s.history, s.pending[a.id].hash)
  }

  /** The same, told from the row that the commit is about to write. */
  predicate SpendsLinkedRow(s: State, a: Action) {
    && a.Commit? && a.id in s.pending && s.pending[a.id].Refreshing?
    && a.newHash !in s.tables.tokens
    && HasLink(s.tables, s.pending[a.id].hash)
  }

  predicate HasLink(t: Tables, h: Hash) {
    h in t.tokens && t.tokens[h].replacedBy.Some?
  }

  /** Every pending refresh that commits with a fresh hash spends its token; that is a second time exactly
      when an earlier refresh commit spent it. While no logout of the token has committed, that is exactly
      when the row carries a link, which the code does not look at again. */
  lemma RefreshSpendsAgainIff(clock: int, actions: seq<Action>, life: nat, id: nat, u: UserId, n: Hash)
    requires var s := Run(Initial(clock), actions, life);
             id in s.pending && s.pending[id].Refreshing? && n !in s.tables.tokens
    ensures var s := Run(Initial(clock), actions, life);
            var s' := Step(s, Commit(id, u, n), life);
            var h := s.pending[id].hash;
            && TimesSpent(s'.history, h) == TimesSpent(s.history, h) + 1
            && (TimesSpent(s'.history, h) >= 2 <==> WasRotated(s.history, h))
            && (!WasLoggedOut(s.history, h) ==> (TimesSpent(s'.history, h) >= 2 <==> HasLink(s.tables, h)))
  {
    ReachableUses(clock, actions, life);
    var s := Run(Initial(clock), actions, life);
    var h := s.pending[id].hash;
    assert PendingOk(s.tables, s.pending[id]) && UsesOk(s.tables, s.history, h);
    RotatedMeansSpent(s.history, h);
  }

  ghost predicate AllSingleUse(g: History) {
    forall h :: TimesSpent(g, h) <= 1
  }

  lemma StepKeepsSingleUseIff(s: State, a: Action, life: nat)
    requires Inv(s) && AllSingleUse(s.history)
    ensures AllSingleUse(Step(s, a, life).history) <==> !SpendsAgain(s, a)
  {
    var g' := Step(s, a, life).history;
    if a.Commit? && a.id in s.pending && s.pending[a.id].Refreshing? && a.newHash !in s.tables.tokens {
      assert PendingOk(s.tables, s.pending[a.id]);
      var h := s.pending[a.id].hash;
      RotatedMeansSpent(s.history, h);
      assert TimesSpent(g', h) == TimesSpent(s.history, h) + 1;
      assert forall x | x != h :: TimesSpent(g', x) == TimesSpent(s.history, x);
    } else {
      assert forall x :: TimesSpent(g', x) == TimesSpent(s.history, x);
    }
  }

  ghost predicate SingleUseAfter(s: State, actions: seq<Action>, life: nat, i: nat)
    requires i <= |actions|
  {
    AllSingleUse(Run(s, actions[..i], life).history)
  }

  ghost predicate SingleUseThroughout(s: State, actions: seq<Action>, life: nat) {
    forall i: nat | i <= |actions| :: SingleUseAfter(s, actions, life, i)
  }

  ghost predicate SpendsAgainAt(s: State, actions: seq<Action>, life: nat, i: nat)
    requires i < |actions|
  {
    SpendsAgain(Run(s, actions[..i], life), actions[i])
  }

  ghost predicate SpendsLinkedRowAt(s: State, actions: seq<Action>, life: nat, i: nat)
    requires i < |actions|
  {
    SpendsLinkedRow(Run(s, actions[..i], life), actions[i])
  }

  /** Under any interleaving every token is single-use throughout a run exactly when no step of it spends a
      token again. */
  lemma RunsAreSingleUseIff(clock: int, actions: seq<Action>, life: nat)
    ensures SingleUseThroughout(Initial(clock), actions, life) <==>
            forall i: nat | i < |actions| :: !SpendsAgainAt(Initial(clock), actions, life, i)
  {
    var s := Initial(clock);
    var good := (i: nat) => i <= |actions| && SingleUseAfter(s, actions, life, i);
    var bad := (i: nat) => i < |actions| && SpendsAgainAt(s, actions, life, i);
    InitialInv(clock);
    assert actions[..0] == [];
    forall i: nat | i < |actions| && good(i) ensures good(i + 1) <==> !bad(i) {
      RunKeeps(s, actions[..i], life);
      StepKeepsSingleUseIff(Run(s, actions[..i], life), actions[i], life);
      RunPrefix(s, actions, i, life);
    }
    Runs.ThroughoutIff(good, bad, |actions|);
    forall i: nat | i <= |actions| ensures good(i) <==> SingleUseAfter(s, actions, life, i) {
    }
    forall i: nat | i < |actions| ensures bad(i) <==> SpendsAgainAt(s, actions, life, i) {
    }
  }

  predicate NobodyLogsOut(actions: seq<Action>) {
    forall i | 0 <= i < |actions| :: !(actions[i].Read? && actions[i].request.Logout?)
  }

  ghost predicate NoLogouts(s: State) {
    && (forall id | id in s.pending :: !s.pending[id].LoggingOut?)
    && forall h :: !WasLoggedOut(s.history, h)
  }

  lemma {:induction false} RunHasNoLogouts(clock: int, actions: seq<Action>, life: nat)
    requires NobodyLogsOut(actions)
    ensures NoLogouts(Run(Initial(clock), actions, life))
  {
    if actions != [] {
      RunHasNoLogouts(clock, actions[..|actions| - 1], life);
    }
  }

  /** Without logouts the table alone tells: such a run is single-use throughout exactly when no refresh
      commit finds a link in the row it writes. */
  lemma RunsWithoutLogoutsAreSingleUseIff(clock: int, actions: seq<Action>, life: nat)
    requires NobodyLogsOut(actions)
    ensures SingleUseThroughout(Initial(clock), actions, life) <==>
            forall i: nat | i < |actions| :: !SpendsLinkedRowAt(Initial(clock), actions, life, i)
  {
    var s := Initial(clock);
    RunsAreSingleUseIff(clock, actions, life);
    forall i: nat | i < |actions|
      ensures SpendsAgainAt(s, actions, life, i) <==> SpendsLinkedRowAt(s, actions, life, i)
    {
      var now := Run(s, actions[..i], life);
      ReachableUses(clock, actions[..i], life);
      RunHasNoLogouts(clock, actions[..i], life);
      if actions[i].Commit? && actions[i].id in now.pending && now.pending[actions[i].id].Refreshing? {
        var h := now.pending[actions[i].id].hash;
        assert PendingOk(now.tables, now.pending[actions[i].id]) && UsesOk(now.tables, now.history, h);
      }
    }
  }

  function RegisterThenRead(): seq<Action> {
    [Read(0, Register("a", "p"))] + [Commit(0, 7, 1)] + [Read(2, Refresh(1))]
  }

  function RefreshThenLogout(): seq<Action> {
    RegisterThenRead() + [Read(1, Refresh(1))] + [Commit(1, 0, 2)] + [Read(3, Logout(1))] + [Commit(3, 0, 0)]
  }

  function LoginThenLogout(): seq<Action> {
    RegisterThenRead() + [Read(1, Login(7))] + [Commit(1, 0, 2)] + [Read(3, Logout(1))] + [Commit(3, 0, 0)]
  }

  /** The tables and the pending refresh that both runs end with. */
  function StaleRefresh(life: nat, g: History): State {
    var row := Token(7, life, None, None, true);
    State(Tables(map[7 := User("a", "p", true)], map[1 := row.(isActive := false, revokedAt := Some(0)), 2 := row]),
          0, map[2 := Refreshing(1, row, 0)], g)
  }

  lemma RegisteredAndRead(life: nat)
    requires life > 0
    ensures var row := Token(7, life, None, None, true);
            Run(Initial(0), RegisterThenRead(), life) ==
            State(Tables(map[7 := User("a", "p", true)], map[1 := row]), 0, map[2 := Refreshing(1, row, 0)],
                  Then(Empty, Issued(1, 0)))
  {
    var a1 := [Read(0, Register("a", "p"))];
    assert a1 == [] + a1;
    RunThen(Initial(0), [], a1[0], life);
    assert Run(Initial(0), a1, life) == State(Tables(map[], map[]), 0, map[0 := Registering("a", "p")], Empty);
    RunThen(Initial(0), a1, Commit(0, 7, 1), life);
    var s2 := Run(Initial(0), a1 + [Commit(0, 7, 1)], life);
    assert s2 == State(Tables(map[7 := User("a", "p", true)], map[1 := Token(7, life, None, None, true)]), 0, map[],
                       Then(Empty, Issued(1, 0)));
    RunThen(Initial(0), a1 + [Commit(0, 7, 1)], Read(2, Refresh(1)), life);
  }

  lemma RefreshThenLogoutState(life: nat)
    requires life > 0
    ensures Run(Initial(0), RefreshThenLogout(), life) ==
            StaleRefresh(life, Then(Then(Then(Empty, Issued(1, 0)), Rotated(1, 2, true, 0)), LoggedOut(1, false)))
  {
    var row := Token(7, life, None, None, true);
    var spent := Token(7, life, Some(0), Some(2), false);
    var a3 := RegisterThenRead();
    var a4 := a3 + [Read(1, Refresh(1))];
    var a5 := a4 + [Commit(1, 0, 2)];
    var a6 := a5 + [Read(3, Logout(1))];
    RegisteredAndRead(life);
    RunThen(Initial(0), a3, Read(1, Refresh(1)), life);
    RunThen(Initial(0), a4, Commit(1, 0, 2), life);
    assert Run(Initial(0), a5, life).tables.tokens == map[1 := spent, 2 := row];
    assert Run(Initial(0), a5, life).pending == map[2 := Refreshing(1, row, 0)];
    RunThen(Initial(0), a5, Read(3, Logout(1)), life);
    assert Run(Initial(0), a6, life).pending == map[2 := Refreshing(1, row, 0), 3 := LoggingOut(1, spent, 0)];
    RunThen(Initial(0), a6, Commit(3, 0, 0), life);
    var s7 := Run(Initial(0), a6 + [Commit(3, 0, 0)], life);
    assert s7.tables.tokens == map[1 := spent.(replacedBy := None), 2 := row];
    assert s7.pending == map[2 := Refreshing(1, row, 0)];
  }

  lemma LoginThenLogoutState(life: nat)
    requires life > 0
    ensures Run(Initial(0), LoginThenLogout(), life) ==
            StaleRefresh(life, Then(Then(Then(Empty, Issued(1, 0)), Issued(2, 0)), LoggedOut(1, true)))
  {
    var row := Token(7, life, None, None, true);
    var a3 := RegisterThenRead();
    var a4 := a3 + [Read(1, Login(7))];
    var a5 := a4 + [Commit(1, 0, 2)];
    var a6 := a5 + [Read(3, Logout(1))];
    RegisteredAndRead(life);
    RunThen(Initial(0), a3, Read(1, Login(7)), life);
    RunThen(Initial(0), a4, Commit(1, 0, 2), life);
    assert Run(Initial(0), a5, life).tables.tokens == map[1 := row, 2 := row];
    assert Run(Initial(0), a5, life).pending == map[2 := Refreshing(1, row, 0)];
    RunThen(Initial(0), a5, Read(3, Logout(1)), life);
    assert Run(Initial(0), a6, life).pending == map[2 := Refreshing(1, row, 0), 3 := LoggingOut(1, row, 0)];
    RunThen(Initial(0), a6, Commit(3, 0, 0), life);
    var s7 := Run(Initial(0), a6 + [Commit(3, 0, 0)], life);
    assert s7.tables.tokens == map[1 := row.(isActive := false, revokedAt := Some(0)), 2 := row];
    assert s7.pending == map[2 := Refreshing(1, row, 0)];
  }

  /** With logouts no look at the tables could tell: two reachable states agree on everything but the past,
      and the same commit spends the token a second time in one and the first time in the other. */
  lemma TablesCannotTellASecondUse(life: nat)
    requires life > 0
    ensures var s := Run(Initial(0), RefreshThenLogout(), life);
            var r := Run(Initial(0), LoginThenLogout(), life);
            && s.tables == r.tables && s.pending == r.pending && s.clock == r.clock
            && TimesSpent(Step(s, Commit(2, 0, 3), life).history, 1) == 2
            && TimesSpent(Step(r, Commit(2, 0, 3), life).history, 1) == 1
  {
    RefreshThenLogoutState(life);
    LoginThenLogoutState(life);
  }
}
