/** Runs in which each request finishes before the next one starts. They are runs of the interleaved
    machine, so what holds there holds here; without races, rotation is also single-use and timely. */
module SerialRotation {
  import opened Wrappers
  import opened RefreshTokens
  import opened RotationMachine
  import opened RotationInvariants
  import opened RotationChains
  import opened RotationAccounting

  /** One request with its random choices, and the time between its two readings of the clock. */
  datatype Turn =
    | Serve(request: Request, newUser: UserId, newHash: Hash, delay: nat)
    | Wait(elapsed: nat)
    | Toggle(user: UserId, active: bool)

  function Actions(turn: Turn): seq<Action> {
    match turn
    case Serve(r, u, h, delay) => [Read(0, r), Tick(delay), Commit(0, u, h)]
    case Wait(dt) => [Tick(dt)]
    case Toggle(u, b) => [SetUserActive(u, b)]
  }

  function AllActions(turns: seq<Turn>): seq<Action> {
    if turns == [] then [] else AllActions(turns[..|turns| - 1]) + Actions(turns[|turns| - 1])
  }

  /** One turn after the other, each run to its end. */
  function ServeAll(s: State, turns: seq<Turn>, life: nat): State {
    if turns == [] then s else
    Run(ServeAll(s, turns[..|turns| - 1], life), Actions(turns[|turns| - 1]), life)
  }

  predicate DelaysWithin(turns: seq<Turn>, d: nat) {
    forall i | 0 <= i < |turns| :: turns[i].Serve? ==> turns[i].delay <= d
  }

  lemma {:induction false} RunAppend(s: State, a: seq<Action>, b: seq<Action>, life: nat)
    ensures Run(s, a + b, life) == Run(Run(s, a, life), b, life)
    decreases |b|
  {
    if b == [] {
      assert a + b == a;
    } else {
      var c := b[..|b| - 1];
      assert (a + b)[..|a + b| - 1] == a + c;
      RunAppend(s, a, c, life);
    }
  }

  /** A turn taken with nothing pending is its read followed by its commit. */
  function Take(s: State, turn: Turn, life: nat): State {
    match turn
    case Wait(dt) => s.(clock := s.clock + dt)
    case Toggle(u, b) => Step(s, SetUserActive(u, b), life)
    case Serve(r, u, h, delay) =>
      var p := ReadHalf(s.tables, s.clock, r);
      var later := s.(clock := s.clock + delay);
      if p.None? then later else CommitHalf(later, p.value, u, h, life)
  }

  lemma TurnIsRun(s: State, turn: Turn, life: nat)
    requires s.pending == map[]
    ensures Run(s, Actions(turn), life) == Take(s, turn, life)
    ensures Take(s, turn, life).pending == map[]
  {
    match turn
    case Wait(dt) =>
      assert [Tick(dt)][..0] == [];
    case Toggle(u, b) =>
      assert [SetUserActive(u, b)][..0] == [];
    case Serve(r, u, h, delay) =>
      var a := [Read(0, r), Tick(delay), Commit(0, u, h)];
      assert a[..2] == [Read(0, r), Tick(delay)] && a[..2][..1] == [Read(0, r)] && a[..2][..1][..0] == [];
      var s1 := Step(s, a[0], life);
      assert Run(s, a[..2][..1], life) == s1;
      var s2 := Step(s1, a[1], life);
      assert Run(s, a[..2], life) == s2;
      assert s2.pending - {0} == map[];
  }

  /** Serial runs are runs of the interleaved machine. */
  lemma {:induction false} SerialRunsAreRuns(s: State, turns: seq<Turn>, life: nat)
    ensures ServeAll(s, turns, life) == Run(s, AllActions(turns), life)
  {
    if turns != [] {
      var front, last := turns[..|turns| - 1], turns[|turns| - 1];
      SerialRunsAreRuns(s, front, life);
      RunAppend(s, AllActions(front), Actions(last), life);
    }
  }

  lemma {:induction false} ServeAllAppend(s: State, a: seq<Turn>, b: seq<Turn>, life: nat)
    ensures ServeAll(s, a + b, life) == ServeAll(ServeAll(s, a, life), b, life)
    decreases |b|
  {
    if b == [] {
      assert a + b == a;
    } else {
      var c := b[..|b| - 1];
      assert (a + b)[..|a + b| - 1] == a + c;
      ServeAllAppend(s, a, c, life);
    }
  }

  /** Times at which the tokens of a family were rotated, oldest first. */
  function RotationTimes(g: History, r: Hash): seq<int> {
    match g
    case Empty => []
    case Then(prev, e) =>
      RotationTimes(prev, r) + if e.Rotated? && Family(prev, e.source) == r then [e.at] else []
  }

  /** When the login or registration that issued `r` read the clock. */
  function IssueTime(g: History, r: Hash): int {
    match g
    case Empty => 0
    case Then(prev, e) => if e.Issued? && e.hash == r then e.at else IssueTime(prev, r)
  }

  /** How long after issue the latest possible token of a family, rotated `k` times, expires. */
  function Deadline(k: nat, life: nat, d: nat): nat {
    if k == 0 then life else Deadline(k - 1, life, d) + d + life
  }

  lemma {:induction false} DeadlineClosedForm(k: nat, life: nat, d: nat)
    ensures Deadline(k, life, d) == (k + 1) * life + k * d
  {
    if k > 0 {
      DeadlineClosedForm(k - 1, life, d);
      assert (k + 1) * life == (k - 1 + 1) * life + life;
      assert k * d == (k - 1) * d + d;
    }
  }

  ghost predicate RaceFree(g: History) {
    g.Then? ==> RaceFree(g.prev) && (g.last.Rotated? ==> g.last.hitLive)
  }

  ghost predicate Punctual(g: History, r: Hash, life: nat, d: nat) {
    var times := RotationTimes(g, r);
    forall i | 0 <= i < |times| :: times[i] < IssueTime(g, r) + Deadline(i, life, d)
  }

  ghost predicate LinkTimely(t: Tables, h: Hash, n: Hash)
    requires h in t.tokens && n in t.tokens
  {
    && t.tokens[h].revokedAt.Some?
    && t.tokens[h].revokedAt.value < t.tokens[h].expiresAt <= t.tokens[n].expiresAt
  }

  ghost predicate LiveTimely(t: Tables, g: History, h: Hash, life: nat, d: nat)
    requires h in t.tokens
  {
    var r := Family(g, h);
    t.tokens[h].expiresAt <= IssueTime(g, r) + Deadline(|RotationTimes(g, r)|, life, d)
  }

  ghost predicate Timely(s: State, life: nat, d: nat) {
    var t, g := s.tables, s.history;
    && (forall h | h in t.tokens :: t.tokens[h].expiresAt <= s.clock + life)
    && (forall h, n | Linked(t, h, n) :: n in t.tokens && LinkTimely(t, h, n))
    && (forall h | IsLive(t, h) :: LiveTimely(t, g, h, life, d))
    && (forall r | WasIssued(g, r) :: Punctual(g, r, life, d))
  }

  ghost predicate SerialInv(s: State, life: nat, d: nat) {
    && Inv(s) && Accounted(s.tables, s.history)
    && s.pending == map[]
    && RaceFree(s.history)
    && Timely(s, life, d)
  }

  lemma {:induction false} RaceFreeCounts(g: History, r: Hash)
    requires RaceFree(g)
    ensures RacedRefreshes(g, r) == 0 && TimesSpent(g, r) == TimesSpentLive(g, r)
  {
    if g.Then? {
      RaceFreeCounts(g.prev, r);
    }
  }

  lemma {:induction false} NoRotationsBeforeIssue(g: History, r: Hash)
    requires HistoryOk(g) && !WasIssued(g, r)
    ensures RotationTimes(g, r) == []
  {
    if g.Then? {
      NoRotationsBeforeIssue(g.prev, r);
      if g.last.Rotated? {
        FamilyWasIssued(g.prev, g.last.source);
      }
    }
  }

  lemma UnissuedBecauseUnborn(g: History, h: Hash)
    requires HistoryOk(g) && Birth(g, h) < 0
    ensures !WasIssued(g, h)
  {
    if WasIssued(g, h) {
      IssuedWasBorn(g, h);
    }
  }

  lemma IssueTimely(s: State, owner: UserId, h: Hash, life: nat, d: nat)
    requires Inv(s) && Accounted(s.tables, s.history) && Timely(s, life, d)
    requires InsertToken(s.tables, owner, h, s.clock + life).Success?
    ensures Timely(Landed(s, InsertToken(s.tables, owner, h, s.clock + life), Issued(h, s.clock)), life, d)
  {
    var s' := Landed(s, InsertToken(s.tables, owner, h, s.clock + life), Issued(h, s.clock));
    var t, g, t', g' := s.tables, s.history, s'.tables, s'.history;
    UnissuedBecauseUnborn(g, h);
    NoRotationsBeforeIssue(g, h);
    assert forall x, n | Linked(t', x, n) :: Linked(t, x, n);
    forall x | IsLive(t', x) ensures LiveTimely(t', g', x, life, d) {
      if x != h {
        assert IsLive(t, x) && LiveTimely(t, g, x, life, d);
        FamilyWasIssued(g, x);
      }
    }
    forall r | WasIssued(g', r) ensures Punctual(g', r, life, d) {
      if r != h {
        assert Punctual(g, r, life, d);
      }
    }
  }

  lemma LogoutTimely(s: State, h: Hash, at: int, life: nat, d: nat)
    requires Inv(s) && Timely(s, life, d) && h in s.tables.tokens
    ensures Timely(Landed(s, Success(RevokeRow(s.tables, h, s.tables.tokens[h], at, None)),
                          LoggedOut(h, IsLive(s.tables, h))), life, d)
  {
    var t, g := s.tables, s.history;
    var s' := Landed(s, Success(RevokeRow(t, h, t.tokens[h], at, None)), LoggedOut(h, IsLive(t, h)));
    var t', g' := s'.tables, s'.history;
    assert forall x, n | Linked(t', x, n) :: x != h && Linked(t, x, n);
    assert forall x | IsLive(t', x) :: IsLive(t, x) && LiveTimely(t, g, x, life, d);
    assert forall r | WasIssued(g', r) :: WasIssued(g, r) && Punctual(g, r, life, d);
  }

  lemma AtMostOne(hs: set<Hash>, x: Hash, y: Hash)
    requires |hs| <= 1 && x in hs && y in hs
    ensures x == y
  {
    assert |hs - {x}| == 0;
    assert y !in hs - {x};
  }

  /** Timing and accounting do not depend on the user rows. */
  lemma UsersDoNotMatter(s: State, users: map<UserId, User>, life: nat, d: nat)
    ensures Timely(s, life, d) ==> Timely(s.(tables := s.tables.(users := users)), life, d)
    ensures Accounted(s.tables, s.history) ==> Accounted(s.tables.(users := users), s.history)
  {
    var t, t', g := s.tables, s.tables.(users := users), s.history;
    assert forall x, n | Linked(t', x, n) :: Linked(t, x, n);
    assert forall x | IsLive(t', x) :: IsLive(t, x) && (LiveTimely(t, g, x, life, d) ==> LiveTimely(t', g, x, life, d));
    assert forall r :: LiveIn(t', g, r) == LiveIn(t, g, r);
    assert forall r :: Balanced(t, g, r) ==> Balanced(t', g, r);
  }

  lemma RegisterTimely(s: State, u: UserId, email: string, pw: string, h: Hash, life: nat, d: nat)
    requires Inv(s) && Accounted(s.tables, s.history) && Timely(s, life, d) && s.pending == map[]
    ensures Timely(CommitHalf(s, Registering(email, pw), u, h, life), life, d)
  {
    var withUser := InsertUser(s.tables, u, email, pw);
    if withUser.Success? {
      InsertUserKeeps(s.tables, s.history, u, email, pw);
      UsersDoNotMatter(s, withUser.value.users, life, d);
      var s1 := s.(tables := withUser.value);
      assert Inv(s1);
      if h !in s.tables.tokens {
        IssueTimely(s1, u, h, life, d);
      }
    }
  }

  lemma OnlyLiveOfItsFamily(s: State, life: nat, d: nat, h: Hash, x: Hash)
    requires SerialInv(s, life, d) && IsLive(s.tables, h) && IsLive(s.tables, x)
    requires Family(s.history, x) == Family(s.history, h)
    ensures x == h
  {
    var r := Family(s.history, h);
    FamilyWasIssued(s.history, h);
    RaceFreeCounts(s.history, r);
    assert Balanced(s.tables, s.history, r);
    AtMostOne(LiveIn(s.tables, s.history, r), x, h);
  }

  lemma RotationLinksTimely(s: State, t': Tables, h: Hash, n: Hash, life: nat, d: nat)
    requires SerialInv(s, life, d) && Rotates(s.tables, t', h, n)
    requires t'.tokens[h].expiresAt == s.tables.tokens[h].expiresAt
    requires t'.tokens[h].revokedAt.value < t'.tokens[h].expiresAt <= t'.tokens[n].expiresAt
    ensures forall x, m | Linked(t', x, m) :: m in t'.tokens && LinkTimely(t', x, m)
  {
    forall x, m | Linked(t', x, m) ensures m in t'.tokens && LinkTimely(t', x, m) {
      if x != h {
        assert Linked(s.tables, x, m) && LinkTimely(s.tables, x, m);
      }
    }
  }

  /** The (k+1)-th rotation of a family happens before its current token expires, and gives the next
      token its life from at most `d` later. */
  lemma RotationLiveTimely(s: State, t': Tables, h: Hash, n: Hash, delay: nat, life: nat, d: nat)
    requires SerialInv(s, life, d) && delay <= d && IsLive(s.tables, h) && s.clock < s.tables.tokens[h].expiresAt
    requires Rotates(s.tables, t', h, n) && t'.tokens[n].expiresAt == s.clock + delay + life
    ensures var g' := Then(s.history, Rotated(h, n, true, s.clock));
      && (forall x | IsLive(t', x) :: LiveTimely(t', g', x, life, d))
      && (forall r | WasIssued(g', r) :: Punctual(g', r, life, d))
  {
    var t, g := s.tables, s.history;
    var g' := Then(g, Rotated(h, n, true, s.clock));
    assert LiveTimely(t, g, h, life, d);
    forall x | IsLive(t', x) ensures LiveTimely(t', g', x, life, d) {
      if x != n {
        assert IsLive(t, x) && LiveTimely(t, g, x, life, d);
        if Family(g, x) == Family(g, h) {
          OnlyLiveOfItsFamily(s, life, d, h, x);
        }
      }
    }
    forall r | WasIssued(g', r) ensures Punctual(g', r, life, d) {
      assert Punctual(g, r, life, d);
    }
  }

  lemma RefreshTimely(s: State, h: Hash, delay: nat, n: Hash, life: nat, d: nat)
    requires SerialInv(s, life, d) && delay <= d
    requires CheckRefresh(s.tables, h, s.clock).Success? && n !in s.tables.tokens
    ensures var later := s.(clock := s.clock + delay);
            Timely(CommitHalf(later, Refreshing(h, s.tables.tokens[h], s.clock), 0, n, life), life, d)
  {
    var s' := CommitHalf(s.(clock := s.clock + delay), Refreshing(h, s.tables.tokens[h], s.clock), 0, n, life);
    RefreshRotates(s.tables, h, s.tables.tokens[h], s.clock, n, s.clock + delay + life);
    RotationLinksTimely(s, s'.tables, h, n, life, d);
    RotationLiveTimely(s, s'.tables, h, n, delay, life, d);
  }

  lemma CommitTimely(s: State, p: Pending, u: UserId, h: Hash, life: nat, d: nat)
    requires Inv(s) && Accounted(s.tables, s.history) && Timely(s, life, d) && s.pending == map[]
    requires PendingOk(s.tables, p) && !p.Refreshing?
    requires p.LoggingOut? ==> p.loaded == s.tables.tokens[p.hash]
    ensures Timely(CommitHalf(s, p, u, h, life), life, d)
  {
    match p
    case Registering(email, pw) =>
      RegisterTimely(s, u, email, pw, h, life, d);
    case LoggingIn(user) =>
      if h !in s.tables.tokens {
        IssueTimely(s, user, h, life, d);
      }
    case LoggingOut(gone, _, at) =>
      LogoutTimely(s, gone, at, life, d);
  }

  lemma ServeRefreshTimely(s: State, spent: Hash, u: UserId, n: Hash, delay: nat, life: nat, d: nat)
    requires SerialInv(s, life, d) && delay <= d
    requires CheckRefresh(s.tables, spent, s.clock).Success?
    ensures Timely(Take(s, Serve(Refresh(spent), u, n, delay), life), life, d)
  {
    if n !in s.tables.tokens {
      RefreshTimely(s, spent, delay, n, life, d);
    }
  }

  lemma ServeTimely(s: State, req: Request, u: UserId, h: Hash, delay: nat, life: nat, d: nat)
    requires SerialInv(s, life, d) && delay <= d
    ensures Timely(Take(s, Serve(req, u, h, delay), life), life, d)
  {
    var p := ReadHalf(s.tables, s.clock, req);
    var later := s.(clock := s.clock + delay);
    assert Timely(later, life, d);
    if p.Some? {
      if req.Refresh? {
        ServeRefreshTimely(s, req.hash, u, h, delay, life, d);
      } else {
        ReadRemembers(s.tables, s.history, s.clock, req);
        CommitTimely(later, p.value, u, h, life, d);
      }
    }
  }

  lemma TakeRaceFree(s: State, turn: Turn, life: nat)
    requires RaceFree(s.history)
    ensures RaceFree(Take(s, turn, life).history)
  {
  }

  lemma TakeKeeps(s: State, turn: Turn, life: nat, d: nat)
    requires SerialInv(s, life, d) && (turn.Serve? ==> turn.delay <= d)
    ensures SerialInv(Take(s, turn, life), life, d)
  {
    TurnIsRun(s, turn, life);
    RunAccounts(s, Actions(turn), life);
    TakeRaceFree(s, turn, life);
    match turn
    case Wait(_) =>
    case Toggle(u, b) =>
      if u in s.tables.users {
        UsersDoNotMatter(s, s.tables.users[u := s.tables.users[u].(isActive := b)], life, d);
      }
    case Serve(req, u, h, delay) => ServeTimely(s, req, u, h, delay, life, d);
  }

  lemma {:induction false} ServeAllKeeps(s: State, turns: seq<Turn>, life: nat, d: nat)
    requires SerialInv(s, life, d) && DelaysWithin(turns, d)
    ensures SerialInv(ServeAll(s, turns, life), life, d)
  {
    if turns != [] {
      var before, turn := turns[..|turns| - 1], turns[|turns| - 1];
      ServeAllKeeps(s, before, life, d);
      TurnIsRun(ServeAll(s, before, life), turn, life);
      TakeKeeps(ServeAll(s, before, life), turn, life, d);
    }
  }

  lemma InitialSerial(clock: int, life: nat, d: nat)
    ensures SerialInv(Initial(clock), life, d)
  {
  }

  lemma {:induction false} AllDelaysBounded(turns: seq<Turn>) returns (d: nat)
    ensures DelaysWithin(turns, d)
  {
    d := 0;
    if turns != [] {
      var before := AllDelaysBounded(turns[..|turns| - 1]);
      var turn := turns[|turns| - 1];
      d := if turn.Serve? && turn.delay > before then turn.delay else before;
      forall i | 0 <= i < |turns| && turns[i].Serve? ensures turns[i].delay <= d {
        if i < |turns| - 1 {
          assert turns[i] == turns[..|turns| - 1][i];
        }
      }
    }
  }

  lemma ReachableSerially(clock: int, turns: seq<Turn>, life: nat) returns (d: nat)
    ensures SerialInv(ServeAll(Initial(clock), turns, life), life, d)
  {
    d := AllDelaysBounded(turns);
    InitialSerial(clock, life, d);
    ServeAllKeeps(Initial(clock), turns, life, d);
  }

  /** Serially, a login family has one live token until it is logged out and none after. */
  lemma SerialFamilyHasAtMostOneLiveToken(clock: int, turns: seq<Turn>, life: nat, r: Hash)
    ensures var s := ServeAll(Initial(clock), turns, life);
            WasIssued(s.history, r) ==>
              && |LiveIn(s.tables, s.history, r)| == 1 - LiveLogouts(s.history, r)
              && LiveLogouts(s.history, r) <= 1
  {
    var d := ReachableSerially(clock, turns, life);
    var s := ServeAll(Initial(clock), turns, life);
    RaceFreeCounts(s.history, r);
    if WasIssued(s.history, r) {
      assert Balanced(s.tables, s.history, r);
    }
  }

  /** Serially, a token is accepted by refresh at most once, and never once it was spent or revoked. */
  lemma SerialTokensAreSingleUse(clock: int, turns: seq<Turn>, life: nat, h: Hash, now: int)
    ensures var s := ServeAll(Initial(clock), turns, life);
            && TimesSpent(s.history, h) <= 1
            && (TimesSpent(s.history, h) == 1 ==> CheckRefresh(s.tables, h, now) == Failure(InvalidRefreshToken))
  {
    var d := ReachableSerially(clock, turns, life);
    var s := ServeAll(Initial(clock), turns, life);
    RaceFreeCounts(s.history, h);
    if h !in s.tables.tokens {
      NeverSpentUnborn(s.history, h);
    }
  }

  lemma CountsOnlyGrow(s: State, a: Action, life: nat, r: Hash)
    ensures LiveLogouts(s.history, r) <= LiveLogouts(Step(s, a, life).history, r)
    ensures WasIssued(s.history, r) ==> WasIssued(Step(s, a, life).history, r)
  {
  }

  lemma {:induction false} CountsOnlyGrowAlongRuns(s: State, actions: seq<Action>, life: nat, r: Hash)
    ensures LiveLogouts(s.history, r) <= LiveLogouts(Run(s, actions, life).history, r)
    ensures WasIssued(s.history, r) ==> WasIssued(Run(s, actions, life).history, r)
  {
    if actions != [] {
      CountsOnlyGrowAlongRuns(s, actions[..|actions| - 1], life, r);
      CountsOnlyGrow(Run(s, actions[..|actions| - 1], life), actions[|actions| - 1], life, r);
    }
  }

  /** Serially, a family whose last live token is gone stays dead whatever follows. */
  lemma SerialDeadFamiliesStayDead(clock: int, earlier: seq<Turn>, later: seq<Turn>, life: nat, r: Hash)
    requires var s := ServeAll(Initial(clock), earlier, life);
             WasIssued(s.history, r) && LiveIn(s.tables, s.history, r) == {}
    ensures var s' := ServeAll(Initial(clock), earlier + later, life);
            && LiveIn(s'.tables, s'.history, r) == {}
            && forall h, now | h in s'.tables.tokens && Family(s'.history, h) == r ::
                 CheckRefresh(s'.tables, h, now) == Failure(InvalidRefreshToken)
  {
    var s := ServeAll(Initial(clock), earlier, life);
    var s' := ServeAll(Initial(clock), earlier + later, life);
    ServeAllAppend(Initial(clock), earlier, later, life);
    SerialRunsAreRuns(s, later, life);
    CountsOnlyGrowAlongRuns(s, AllActions(later), life, r);
    SerialFamilyHasAtMostOneLiveToken(clock, earlier, life, r);
    SerialFamilyHasAtMostOneLiveToken(clock, earlier + later, life, r);
    forall h | h in s'.tables.tokens && Family(s'.history, h) == r ensures !IsLive(s'.tables, h) {
      assert h !in LiveIn(s'.tables, s'.history, r);
    }
  }

  /** Serially, when no request takes more than `d` between its two clock readings: every remaining
      link is made before the old token expires, the new one expires no earlier, and the
      (i+1)-th rotation of a family comes before its issue time + (i + 1) * life + i * d. */
  lemma SerialRotationTiming(clock: int, turns: seq<Turn>, life: nat, d: nat)
    requires DelaysWithin(turns, d)
    ensures var s := ServeAll(Initial(clock), turns, life);
      && (forall h, n | Linked(s.tables, h, n) :: n in s.tables.tokens && LinkTimely(s.tables, h, n))
      && (forall r, i | WasIssued(s.history, r) && 0 <= i < |RotationTimes(s.history, r)| ::
            RotationTimes(s.history, r)[i] < IssueTime(s.history, r) + (i + 1) * life + i * d)
  {
    InitialSerial(clock, life, d);
    ServeAllKeeps(Initial(clock), turns, life, d);
    var s := ServeAll(Initial(clock), turns, life);
    forall r, i | WasIssued(s.history, r) && 0 <= i < |RotationTimes(s.history, r)|
      ensures RotationTimes(s.history, r)[i] < IssueTime(s.history, r) + (i + 1) * life + i * d
    {
      assert Punctual(s.history, r, life, d);
      DeadlineClosedForm(i, life, d);
    }
  }
}
