/** The links of any reachable table form disjoint chains that end. */
module RotationChains {
  import opened Wrappers
  import opened RefreshTokens
  import opened RotationMachine
  import opened RotationInvariants

  /** The token reached after `k` links. */
  function Follow(t: Tables, h: Hash, k: nat): Option<Hash>
    decreases k
  {
    if h !in t.tokens then None
    else if k == 0 then Some(h)
    else if t.tokens[h].replacedBy.None? then None
    else Follow(t, t.tokens[h].replacedBy.value, k - 1)
  }

  lemma {:induction false} FollowMovesForward(t: Tables, g: History, h: Hash, k: nat)
    requires TablesOk(t, g) && Follow(t, h, k).Some?
    ensures var x := Follow(t, h, k).value;
            && x in t.tokens
            && Birth(g, h) + k <= Birth(g, x)
            && t.tokens[x].owner == t.tokens[h].owner
            && Family(g, x) == Family(g, h)
    decreases k
  {
    if k > 0 {
      var n := t.tokens[h].replacedBy.value;
      assert Linked(t, h, n);
      FollowMovesForward(t, g, n, k - 1);
    }
  }

  lemma {:induction false} FollowLastLink(t: Tables, h: Hash, k: nat) returns (y: Hash)
    requires Follow(t, h, k + 1).Some?
    ensures Follow(t, h, k) == Some(y) && Linked(t, y, Follow(t, h, k + 1).value)
    decreases k
  {
    if k == 0 {
      y := h;
    } else {
      y := FollowLastLink(t, t.tokens[h].replacedBy.value, k - 1);
    }
  }

  lemma {:induction false} ChainsMergeOnlyByContainment(t: Tables, g: History, a: Hash, i: nat, b: Hash, j: nat)
    requires TablesOk(t, g) && i <= j
    requires Follow(t, a, i).Some? && Follow(t, a, i) == Follow(t, b, j)
    ensures Follow(t, b, j - i) == Some(a)
  {
    if i > 0 {
      var y := FollowLastLink(t, a, i - 1);
      var z := FollowLastLink(t, b, j - 1);
      assert y == z;
      ChainsMergeOnlyByContainment(t, g, a, i - 1, b, j - 1);
    }
  }

  lemma RunPrefix(s: State, actions: seq<Action>, i: nat, life: nat)
    requires i < |actions|
    ensures Run(s, actions[..i + 1], life) == Step(Run(s, actions[..i], life), actions[i], life)
  {
    assert actions[..i + 1][..i] == actions[..i];
  }

  lemma RunThen(s: State, actions: seq<Action>, a: Action, life: nat)
    ensures Run(s, actions + [a], life) == Step(Run(s, actions, life), a, life)
  {
    assert (actions + [a])[..|actions|] == actions;
  }

  lemma InitialInv(clock: int)
    ensures Inv(Initial(clock))
  {
  }

  /** In every reachable state, whatever the interleaving: a link leads from a revoked row to a row of the
      same owner, and no two links lead to the same row. */
  lemma ReachableLinksAreInjective(clock: int, actions: seq<Action>, life: nat)
    ensures var t := Run(Initial(clock), actions, life).tables;
      && (forall h | h in t.tokens :: t.tokens[h].isActive <==> t.tokens[h].revokedAt.None?)
      && (forall h, n | Linked(t, h, n) ::
            n in t.tokens && t.tokens[n].owner == t.tokens[h].owner && !t.tokens[h].isActive)
      && (forall h1, h2, n | Linked(t, h1, n) && Linked(t, h2, n) :: h1 == h2)
  {
    InitialInv(clock);
    RunKeeps(Initial(clock), actions, life);
    var s := Run(Initial(clock), actions, life);
    assert forall h, n | Linked(s.tables, h, n) :: LinkOk(s.tables, s.history, h, n) && RowOk(s.tables.tokens[h]);
  }

  /** In every reachable state every token belongs to a user, and no two users share an email address, even
      when registrations race. */
  lemma ReachableUsersAreDistinct(clock: int, actions: seq<Action>, life: nat)
    ensures var t := Run(Initial(clock), actions, life).tables;
      && (forall h | h in t.tokens :: t.tokens[h].owner in t.users)
      && (forall u, v | u in t.users && v in t.users && t.users[u].email == t.users[v].email :: u == v)
  {
    InitialInv(clock);
    RunKeeps(Initial(clock), actions, life);
  }

  /** In every reachable state, whatever the interleaving: a walk along the links never returns to
      where it began, ends within as many links as there have been commits, and stays with one owner
      and in one login family; and two walks that meet are parts of one chain. */
  lemma ReachableLinksFormChains(clock: int, actions: seq<Action>, life: nat)
    ensures var s := Run(Initial(clock), actions, life);
      && (forall h: Hash, k: nat | k > 0 && h in s.tables.tokens :: Follow(s.tables, h, k) != Some(h))
      && (forall h: Hash :: Follow(s.tables, h, Length(s.history)).None?)
      && (forall h: Hash, k: nat | Follow(s.tables, h, k).Some? ::
            var x := Follow(s.tables, h, k).value;
            && x in s.tables.tokens
            && s.tables.tokens[x].owner == s.tables.tokens[h].owner
            && Family(s.history, x) == Family(s.history, h))
      && (forall a: Hash, b: Hash, i: nat, j: nat
            | i <= j && Follow(s.tables, a, i).Some? && Follow(s.tables, a, i) == Follow(s.tables, b, j) ::
            Follow(s.tables, b, j - i) == Some(a))
  {
    InitialInv(clock);
    RunKeeps(Initial(clock), actions, life);
    var s := Run(Initial(clock), actions, life);
    var t, g := s.tables, s.history;
    forall h: Hash, k: nat | Follow(t, h, k).Some?
      ensures var x := Follow(t, h, k).value;
        && x in t.tokens && Birth(g, h) + k <= Birth(g, x)
        && t.tokens[x].owner == t.tokens[h].owner && Family(g, x) == Family(g, h)
    {
      FollowMovesForward(t, g, h, k);
    }
    forall a: Hash, b: Hash, i: nat, j: nat | i <= j && Follow(t, a, i).Some? && Follow(t, a, i) == Follow(t, b, j)
      ensures Follow(t, b, j - i) == Some(a)
    {
      ChainsMergeOnlyByContainment(t, g, a, i, b, j);
    }
  }

  /** Revocation is permanent across any further steps, in any interleaving, and so are the owner and
      the expiry of a row; "revoked" is recorded the same way in both columns. */
  lemma RevocationIsPermanent(clock: int, earlier: seq<Action>, later: seq<Action>, life: nat, h: Hash)
    requires h in Run(Initial(clock), earlier, life).tables.tokens
    ensures var row := Run(Initial(clock), earlier, life).tables.tokens[h];
            var t' := Run(Run(Initial(clock), earlier, life), later, life).tables;
            && h in t'.tokens
            && t'.tokens[h].owner == row.owner && t'.tokens[h].expiresAt == row.expiresAt
            && (!row.isActive ==> !t'.tokens[h].isActive)
            && (row.isActive <==> row.revokedAt.None?)
            && (t'.tokens[h].isActive <==> t'.tokens[h].revokedAt.None?)
  {
    InitialInv(clock);
    RunKeeps(Initial(clock), earlier, life);
    RunKeeps(Run(Initial(clock), earlier, life), later, life);
  }
}
