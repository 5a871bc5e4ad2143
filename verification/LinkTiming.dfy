/** Exactly when the interleaved machine keeps every link timely: made before the old token expires, to a
    token that expires no earlier. */
module LinkTiming {
  import opened Wrappers
  import opened RefreshTokens
  import opened RotationMachine
  import opened RotationInvariants
  import opened RotationChains
  import opened RotationAccounting
  import opened SerialRotation
  import Runs

  ghost predicate LinksTimely(t: Tables) {
    forall h, n | Linked(t, h, n) :: n in t.tokens && LinkTimely(t, h, n)
  }

  /** A commit of a logout that loaded its row without a link, finds it with one, and writes a revocation
      time at or past the expiry; the link stays, because the logout did not change that column. */
  predicate LateLogout(s: State, a: Action) {
    && a.Commit? && a.id in s.pending && s.pending[a.id].LoggingOut?
    && var p := s.pending[a.id];
    && p.hash in s.tables.tokens
    && p.loaded.replacedBy.None? && s.tables.tokens[p.hash].replacedBy.Some?
    && p.loaded.revokedAt != Some(p.readAt)
    && s.tables.tokens[p.hash].expiresAt <= p.readAt
  }

  ghost predicate ExpiriesBounded(s: State, life: nat) {
    forall h | h in s.tables.tokens :: s.tables.tokens[h].expiresAt <= s.clock + life
  }

  lemma StepKeepsExpiriesBounded(s: State, a: Action, life: nat)
    requires ExpiriesBounded(s, life)
    ensures ExpiriesBounded(Step(s, a, life), life)
  {
  }

  lemma {:induction false} RunKeepsExpiriesBounded(s: State, actions: seq<Action>, life: nat)
    requires ExpiriesBounded(s, life)
    ensures ExpiriesBounded(Run(s, actions, life), life)
  {
    if actions != [] {
      RunKeepsExpiriesBounded(s, actions[..|actions| - 1], life);
      StepKeepsExpiriesBounded(Run(s, actions[..|actions| - 1], life), actions[|actions| - 1], life);
    }
  }

  /** Rows that only lose links or gain no new ones, with the same times, keep their links timely. */
  lemma SameRowsTimely(t: Tables, t': Tables)
    requires LinksTimely(t)
    requires forall h | h in t.tokens :: h in t'.tokens && t'.tokens[h].expiresAt == t.tokens[h].expiresAt
    requires forall h, n | Linked(t', h, n) :: Linked(t, h, n) && t'.tokens[h].revokedAt == t.tokens[h].revokedAt
    ensures LinksTimely(t')
  {
    forall h, n | Linked(t', h, n) ensures n in t'.tokens && LinkTimely(t', h, n) {
      assert Linked(t, h, n) && LinkTimely(t, h, n);
    }
  }

  lemma RefreshLinksTimely(s: State, h: Hash, loaded: Token, readAt: int, n: Hash, life: nat)
    requires Inv(s) && ExpiriesBounded(s, life) && LinksTimely(s.tables)
    requires PendingOk(s.tables, Refreshing(h, loaded, readAt))
    requires CommitRefresh(s.tables, h, loaded, readAt, n, s.clock + life).Success?
    ensures LinksTimely(CommitRefresh(s.tables, h, loaded, readAt, n, s.clock + life).value)
  {
    var t' := CommitRefresh(s.tables, h, loaded, readAt, n, s.clock + life).value;
    forall x, m | Linked(t', x, m) ensures m in t'.tokens && LinkTimely(t', x, m) {
      if x != h {
        assert Linked(s.tables, x, m) && LinkTimely(s.tables, x, m);
      }
    }
  }

  /** The row the logout writes keeps its link timely exactly when the logout is not late. */
  lemma LogoutLinksTimelyIff(s: State, id: nat, u: UserId, n: Hash)
    requires Inv(s) && LinksTimely(s.tables) && id in s.pending && s.pending[id].LoggingOut?
    ensures var p := s.pending[id];
            LinksTimely(RevokeRow(s.tables, p.hash, p.loaded, p.readAt, None)) <==> !LateLogout(s, Commit(id, u, n))
  {
    var p := s.pending[id];
    assert PendingOk(s.tables, p);
    var t, t', h := s.tables, RevokeRow(s.tables, p.hash, p.loaded, p.readAt, None), p.hash;
    forall x, m | x != h && Linked(t', x, m) ensures m in t'.tokens && LinkTimely(t', x, m) {
      assert Linked(t, x, m) && LinkTimely(t, x, m);
    }
    if t'.tokens[h].replacedBy.Some? {
      var m := t'.tokens[h].replacedBy.value;
      assert Linked(t, h, m) && LinkTimely(t, h, m);
      assert Linked(t', h, m);
      assert LinkTimely(t', h, m) <==> !LateLogout(s, Commit(id, u, n));
    } else {
      assert forall m :: !Linked(t', h, m);
    }
  }

  /** One step of the interleaved machine keeps the links timely exactly when it is not a late logout. */
  lemma StepKeepsLinksTimelyIff(s: State, a: Action, life: nat)
    requires Inv(s) && ExpiriesBounded(s, life) && LinksTimely(s.tables)
    ensures LinksTimely(Step(s, a, life).tables) <==> !LateLogout(s, a)
  {
    var t' := Step(s, a, life).tables;
    if a.Commit? && a.id in s.pending {
      var p := s.pending[a.id];
      assert PendingOk(s.tables, p);
      if p.LoggingOut? {
        LogoutLinksTimelyIff(s, a.id, a.newUser, a.newHash);
      } else if p.Refreshing? {
        if a.newHash !in s.tables.tokens {
          RefreshLinksTimely(s, p.hash, p.loaded, p.readAt, a.newHash, life);
        }
      } else {
        SameRowsTimely(s.tables, t');
      }
    } else {
      SameRowsTimely(s.tables, t');
    }
  }

  ghost predicate LinksTimelyAfter(s: State, actions: seq<Action>, life: nat, i: nat)
    requires i <= |actions|
  {
    LinksTimely(Run(s, actions[..i], life).tables)
  }

  ghost predicate LinksTimelyThroughout(s: State, actions: seq<Action>, life: nat) {
    forall i: nat | i <= |actions| :: LinksTimelyAfter(s, actions, life, i)
  }

  ghost predicate LateLogoutAt(s: State, actions: seq<Action>, life: nat, i: nat)
    requires i < |actions|
  {
    LateLogout(Run(s, actions[..i], life), actions[i])
  }

  ghost predicate NoLateLogout(s: State, actions: seq<Action>, life: nat) {
    forall i: nat | i < |actions| :: !LateLogoutAt(s, actions, life, i)
  }

  /** Under any interleaving the links are timely at every moment of a run exactly when no step of it is a
      late logout. */
  lemma RunsKeepLinksTimelyIff(clock: int, actions: seq<Action>, life: nat)
    ensures LinksTimelyThroughout(Initial(clock), actions, life) <==> NoLateLogout(Initial(clock), actions, life)
  {
    var s := Initial(clock);
    var good := (i: nat) => i <= |actions| && LinksTimelyAfter(s, actions, life, i);
    var bad := (i: nat) => i < |actions| && LateLogoutAt(s, actions, life, i);
    InitialInv(clock);
    assert actions[..0] == [];
    forall i: nat | i < |actions| && good(i) ensures good(i + 1) <==> !bad(i) {
      RunKeeps(s, actions[..i], life);
      RunKeepsExpiriesBounded(s, actions[..i], life);
      StepKeepsLinksTimelyIff(Run(s, actions[..i], life), actions[i], life);
      RunPrefix(s, actions, i, life);
    }
    Runs.ThroughoutIff(good, bad, |actions|);
    forall i: nat | i <= |actions| ensures good(i) <==> LinksTimelyAfter(s, actions, life, i) {
    }
    forall i: nat | i < |actions| ensures bad(i) <==> LateLogoutAt(s, actions, life, i) {
    }
  }

  lemma RefreshWaitsWhileTokenExpires(life: nat)
    requires life > 0
    ensures Run(Initial(0),
              [Read(0, Register("a", "p"))] + [Commit(0, 7, 1)] + [Read(1, Refresh(1))] + [Tick(life + 1)], life)
            == State(Tables(map[7 := User("a", "p", true)], map[1 := Token(7, life, None, None, true)]), life + 1,
                     map[1 := Refreshing(1, Token(7, life, None, None, true), 0)], Then(Empty, Issued(1, 0)))
  {
    var row := Token(7, life, None, None, true);
    var users := map[7 := User("a", "p", true)];
    var a1 := [Read(0, Register("a", "p"))];
    var a2 := a1 + [Commit(0, 7, 1)];
    var a3 := a2 + [Read(1, Refresh(1))];
    assert a1 == [] + a1;
    RunThen(Initial(0), [], a1[0], life);
    assert Run(Initial(0), a1, life) == State(Tables(map[], map[]), 0, map[0 := Registering("a", "p")], Empty);
    RunThen(Initial(0), a1, Commit(0, 7, 1), life);
    assert Run(Initial(0), a2, life) == State(Tables(users, map[1 := row]), 0, map[], Then(Empty, Issued(1, 0)));
    RunThen(Initial(0), a2, Read(1, Refresh(1)), life);
    RunThen(Initial(0), a3, Tick(life + 1), life);
  }

  /** Late logouts happen: one that read the row while it was live, but after it expired, and commits after
      a refresh, moves the revocation past the expiry and leaves the link, because the ORM sends no column
      whose value the logout did not change. */
  lemma LateLogoutKeepsLink(life: nat)
    requires life > 0
    ensures var s := Run(Initial(0),
              [Read(0, Register("a", "p"))] + [Commit(0, 7, 1)] + [Read(1, Refresh(1))] + [Tick(life + 1)]
              + [Read(2, Logout(1))] + [Commit(1, 0, 2)] + [Commit(2, 0, 0)], life);
            Linked(s.tables, 1, 2) && 2 in s.tables.tokens && !LinkTimely(s.tables, 1, 2)
  {
    var row := Token(7, life, None, None, true);
    var next := Token(7, life + 1 + life, None, None, true);
    var a4 := [Read(0, Register("a", "p"))] + [Commit(0, 7, 1)] + [Read(1, Refresh(1))] + [Tick(life + 1)];
    var a5 := a4 + [Read(2, Logout(1))];
    var a6 := a5 + [Commit(1, 0, 2)];
    RefreshWaitsWhileTokenExpires(life);
    RunThen(Initial(0), a4, Read(2, Logout(1)), life);
    RunThen(Initial(0), a5, Commit(1, 0, 2), life);
    var s6 := Run(Initial(0), a6, life);
    assert s6.tables.tokens == map[1 := Token(7, life, Some(0), Some(2), false), 2 := next];
    assert s6.pending == map[2 := LoggingOut(1, row, life + 1)];
    RunThen(Initial(0), a6, Commit(2, 0, 0), life);
    assert Run(Initial(0), a6 + [Commit(2, 0, 0)], life).tables.tokens ==
      map[1 := Token(7, life, Some(life + 1), Some(2), false), 2 := next];
  }
}
