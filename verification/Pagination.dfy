/** Reading a fixed table page by page, when every page is a query of its own and the database may break
    ties differently in each. */
module Pagination {
  import opened Ordering

  function Min(a: nat, b: nat): nat {
    if a < b then a else b
  }

  /** LIMIT and OFFSET. */
  function Page<T>(s: seq<T>, limit: nat, offset: nat): seq<T> {
    s[Min(offset, |s|)..Min(offset + limit, |s|)]
  }

  /** The pages at `offset`, `offset + limit`, ..., put together; `orders[i]` is the order in which the
      database listed the rows for the i-th of these queries. */
  function Walk<T>(orders: seq<seq<T>>, limit: nat, offset: nat): seq<T> {
    if orders == [] then [] else
    Page(orders[0], limit, offset) + Walk(orders[1..], limit, offset + limit)
  }

  ghost predicate AllOrder<T>(orders: seq<seq<T>>, rows: set<T>, key: T -> real) {
    forall i | 0 <= i < |orders| :: Orders(orders[i], rows, key)
  }

  /** The offset after `count` pages. */
  function End(count: nat, limit: nat, offset: nat): (e: nat)
    ensures offset <= e
    decreases count
  {
    if count == 0 then offset else End(count - 1, limit, offset + limit)
  }

  lemma {:induction false} EndClosedForm(count: nat, limit: nat, offset: nat)
    ensures End(count, limit, offset) == offset + count * limit
    decreases count
  {
    if count > 0 {
      EndClosedForm(count - 1, limit, offset + limit);
      assert count * limit == (count - 1) * limit + limit;
    }
  }

  /** The keys of a walk are those of one full listing, whatever the tie-breaks. */
  lemma {:induction false} WalkKeys<T>(
    orders: seq<seq<T>>, full: seq<T>, rows: set<T>, key: T -> real, limit: nat, offset: nat)
    requires AllOrder(orders, rows, key) && Orders(full, rows, key)
    ensures Keys(Walk(orders, limit, offset), key) ==
            Keys(full, key)[Min(offset, |full|)..Min(End(|orders|, limit, offset), |full|)]
    decreases |orders|
  {
    if orders != [] {
      var page, rest := Page(orders[0], limit, offset), Walk(orders[1..], limit, offset + limit);
      AllOrderTail(orders, rows, key);
      WalkKeys(orders[1..], full, rows, key, limit, offset + limit);
      SameKeys(orders[0], full, rows, key);
      var lo, mid, hi := Min(offset, |full|), Min(offset + limit, |full|), Min(End(|orders|, limit, offset), |full|);
      KeysOfSlice(orders[0], key, lo, mid);
      KeysOfConcat(page, rest, key);
      JoinSlices(Keys(full, key), lo, mid, hi);
    }
  }

  lemma AllOrderTail<T>(orders: seq<seq<T>>, rows: set<T>, key: T -> real)
    requires AllOrder(orders, rows, key) && orders != []
    ensures Orders(orders[0], rows, key) && AllOrder(orders[1..], rows, key)
  {
  }

  lemma KeysOfConcat<T>(a: seq<T>, b: seq<T>, key: T -> real)
    ensures Keys(a + b, key) == Keys(a, key) + Keys(b, key)
  {
  }

  lemma KeysOfSlice<T>(s: seq<T>, key: T -> real, lo: nat, hi: nat)
    requires lo <= hi <= |s|
    ensures Keys(s[lo..hi], key) == Keys(s, key)[lo..hi]
  {
  }

  lemma JoinSlices<T>(s: seq<T>, lo: nat, mid: nat, hi: nat)
    requires lo <= mid <= hi <= |s|
    ensures s[lo..mid] + s[mid..hi] == s[lo..hi]
  {
  }

  /** No tie is cut by a page boundary. */
  ghost predicate BoundariesStrict<T>(full: seq<T>, key: T -> real, limit: nat, offset: nat, count: nat) {
    forall i | 0 <= i < count :: CutStrict(full, key, End(i, limit, offset))
  }

  lemma NextBoundaries<T>(full: seq<T>, key: T -> real, limit: nat, offset: nat, count: nat)
    requires count > 0 && BoundariesStrict(full, key, limit, offset, count)
    ensures CutStrict(full, key, offset)
    ensures BoundariesStrict(full, key, limit, offset + limit, count - 1)
  {
    assert End(0, limit, offset) == offset;
    var next := offset + limit;
    forall i: nat | i < count - 1 ensures CutStrict(full, key, End(i, limit, next)) {
      assert End(i + 1, limit, offset) == End(i, limit, next);
    }
  }

  ghost predicate CutStrict<T>(full: seq<T>, key: T -> real, b: nat) {
    0 < b < |full| ==> key(full[b - 1]) < key(full[b])
  }

  lemma SamePrefix<T>(a: seq<T>, full: seq<T>, rows: set<T>, key: T -> real, b: nat)
    requires Orders(a, rows, key) && Orders(full, rows, key) && CutStrict(full, key, b)
    ensures ToSet(a[..Min(b, |a|)]) == ToSet(full[..Min(b, |full|)])
  {
    SameKeys(a, full, rows, key);
    if b < |a| {
      PrefixWithin(a, full, rows, key, b);
      assert CutStrict(a, key, b) by {
        assert b > 0 ==> Keys(a, key)[b - 1] == Keys(full, key)[b - 1];
        assert Keys(a, key)[b] == Keys(full, key)[b];
      }
      PrefixWithin(full, a, rows, key, b);
    } else {
      assert a[..|a|] == a && full[..|full|] == full;
    }
  }

  lemma PrefixWithin<T>(a: seq<T>, full: seq<T>, rows: set<T>, key: T -> real, b: nat)
    requires Orders(a, rows, key) && Orders(full, rows, key) && CutStrict(full, key, b)
    requires b < |a| == |full| && Keys(a, key) == Keys(full, key)
    ensures ToSet(a[..b]) <= ToSet(full[..b])
  {
    forall i | 0 <= i < b ensures a[i] in full[..b] {
      assert a[i] in rows;
      var j :| 0 <= j < |full| && full[j] == a[i];
      assert Keys(a, key)[i] == Keys(full, key)[i];
      assert key(full[i]) <= key(full[b - 1]) < key(full[b]);
      assert j < b;
      assert full[..b][j] == a[i];
    }
  }

  lemma SliceSet<T>(s: seq<T>, lo: nat, hi: nat)
    requires NoRepeats(s) && lo <= hi <= |s|
    ensures ToSet(s[lo..hi]) == ToSet(s[..hi]) - ToSet(s[..lo])
  {
  }

  lemma PageSet<T>(a: seq<T>, full: seq<T>, rows: set<T>, key: T -> real, limit: nat, offset: nat)
    requires Orders(a, rows, key) && Orders(full, rows, key)
    requires CutStrict(full, key, offset) && CutStrict(full, key, offset + limit)
    ensures |a| == |full| && ToSet(Page(a, limit, offset)) == ToSet(Page(full, limit, offset))
  {
    SameKeys(a, full, rows, key);
    SamePrefix(a, full, rows, key, offset);
    SamePrefix(a, full, rows, key, offset + limit);
    SliceSet(a, Min(offset, |a|), Min(offset + limit, |a|));
    SliceSet(full, Min(offset, |full|), Min(offset + limit, |full|));
  }

  lemma PageBoundaries<T>(full: seq<T>, key: T -> real, limit: nat, offset: nat, count: nat)
    requires count > 0 && BoundariesStrict(full, key, limit, offset, count) && |full| <= End(count, limit, offset)
    ensures CutStrict(full, key, offset) && CutStrict(full, key, offset + limit)
    ensures BoundariesStrict(full, key, limit, offset + limit, count - 1)
  {
    NextBoundaries(full, key, limit, offset, count);
    if count > 1 {
      NextBoundaries(full, key, limit, offset + limit, count - 1);
    }
  }

  lemma SplitPage<T>(full: seq<T>, limit: nat, offset: nat)
    ensures full[Min(offset, |full|)..] == Page(full, limit, offset) + full[Min(offset + limit, |full|)..]
  {
  }

  lemma PageThenRest<T>(page: seq<T>, rest: seq<T>, full: seq<T>, limit: nat, offset: nat)
    requires ToSet(page) == ToSet(Page(full, limit, offset))
    requires ToSet(rest) == ToSet(full[Min(offset + limit, |full|)..])
    ensures ToSet(page + rest) == ToSet(full[Min(offset, |full|)..])
  {
    SplitPage(full, limit, offset);
    JoinSets(page, rest, Page(full, limit, offset), full[Min(offset + limit, |full|)..]);
  }

  lemma {:induction false} WalkSet<T>(
    orders: seq<seq<T>>, full: seq<T>, rows: set<T>, key: T -> real, limit: nat, offset: nat)
    requires AllOrder(orders, rows, key) && Orders(full, rows, key)
    requires BoundariesStrict(full, key, limit, offset, |orders|)
    requires |full| <= End(|orders|, limit, offset)
    ensures ToSet(Walk(orders, limit, offset)) == ToSet(full[Min(offset, |full|)..])
    decreases |orders|
  {
    if orders == [] {
      assert full[Min(offset, |full|)..] == [];
    } else {
      var next := offset + limit;
      AllOrderTail(orders, rows, key);
      PageBoundaries(full, key, limit, offset, |orders|);
      PageSet(orders[0], full, rows, key, limit, offset);
      WalkSet(orders[1..], full, rows, key, limit, next);
      PageThenRest(Page(orders[0], limit, offset), Walk(orders[1..], limit, next), full, limit, offset);
    }
  }

  lemma JoinSets<T>(a: seq<T>, b: seq<T>, c: seq<T>, d: seq<T>)
    requires ToSet(a) == ToSet(c) && ToSet(b) == ToSet(d)
    ensures ToSet(a + b) == ToSet(c + d)
  {
    assert forall x :: x in a <==> x in ToSet(a);
    assert forall x :: x in b <==> x in ToSet(b);
    assert forall x :: x in c <==> x in ToSet(c);
    assert forall x :: x in d <==> x in ToSet(d);
  }

  /** A walk that shows every row exactly once. */
  ghost predicate Complete<T>(walk: seq<T>, rows: set<T>) {
    ToSet(walk) == rows && NoRepeats(walk)
  }

  lemma StrictWalksAreComplete<T>(orders: seq<seq<T>>, full: seq<T>, rows: set<T>, key: T -> real, limit: nat)
    requires AllOrder(orders, rows, key) && Orders(full, rows, key)
    requires BoundariesStrict(full, key, limit, 0, |orders|) && |full| <= End(|orders|, limit, 0)
    ensures Complete(Walk(orders, limit, 0), rows)
  {
    WalkSet(orders, full, rows, key, limit, 0);
    WalkKeys(orders, full, rows, key, limit, 0);
    assert |Walk(orders, limit, 0)| == |Keys(Walk(orders, limit, 0), key)| == |full|;
    assert full[0..] == full;
    SetSize(full);
    SetSize(Walk(orders, limit, 0));
  }

  function Copies<T>(s: seq<T>, n: nat): seq<seq<T>> {
    if n == 0 then [] else [s] + Copies(s, n - 1)
  }

  lemma {:induction false} CopiesOrder<T>(s: seq<T>, n: nat, rows: set<T>, key: T -> real)
    requires Orders(s, rows, key)
    ensures AllOrder(Copies(s, n), rows, key)
  {
    if n > 0 {
      CopiesOrder(s, n - 1, rows, key);
    }
  }

  lemma {:induction false} WalkCopies<T>(s: seq<T>, n: nat, limit: nat, offset: nat)
    ensures Walk(Copies(s, n), limit, offset) == s[Min(offset, |s|)..Min(End(n, limit, offset), |s|)]
    decreases n
  {
    if n > 0 {
      WalkCopies(s, n - 1, limit, offset + limit);
      assert Copies(s, n)[1..] == Copies(s, n - 1);
    }
  }

  lemma {:induction false} WalkAppend<T>(a: seq<seq<T>>, b: seq<seq<T>>, limit: nat, offset: nat)
    ensures Walk(a + b, limit, offset) == Walk(a, limit, offset) + Walk(b, limit, End(|a|, limit, offset))
    decreases |a|
  {
    if a == [] {
      assert a + b == b;
    } else {
      assert (a + b)[1..] == a[1..] + b;
      WalkAppend(a[1..], b, limit, offset + limit);
    }
  }

  function Swapped<T>(s: seq<T>, b: nat): seq<T>
    requires 0 < b < |s|
  {
    s[b - 1 := s[b]][b := s[b - 1]]
  }

  lemma SwappedOrders<T>(s: seq<T>, b: nat, rows: set<T>, key: T -> real)
    requires 0 < b < |s| && Orders(s, rows, key) && !CutStrict(s, key, b)
    ensures Orders(Swapped(s, b), rows, key)
  {
    var t := Swapped(s, b);
    assert key(s[b - 1]) == key(s[b]);
    forall x ensures x in t <==> x in s {
      if x in s {
        var i :| 0 <= i < |s| && s[i] == x;
        assert t[if i == b then b - 1 else if i == b - 1 then b else i] == x;
      }
    }
  }

  lemma RepeatAtCut<T>(full: seq<T>, b: nat, hi: nat)
    requires 0 < b < hi <= |full|
    ensures !NoRepeats(full[0..b] + Swapped(full, b)[b..hi])
  {
    var walk := full[0..b] + Swapped(full, b)[b..hi];
    assert walk[b - 1] == full[b - 1] && walk[b] == Swapped(full, b)[b];
  }

  /** The pages before the cut listed in one order, those from the cut on in the other. */
  lemma TwoOrderWalk<T>(full: seq<T>, other: seq<T>, limit: nat, before: nat, after: nat)
    requires |other| == |full| && End(before, limit, 0) <= |full|
    ensures var b := End(before, limit, 0);
            Walk(Copies(full, before) + Copies(other, after), limit, 0)
            == full[0..b] + other[b..Min(End(after, limit, b), |full|)]
  {
    var b := End(before, limit, 0);
    CopiesLength(full, before);
    WalkAppend(Copies(full, before), Copies(other, after), limit, 0);
    WalkCopies(full, before, limit, 0);
    WalkCopies(other, after, limit, b);
  }

  lemma {:induction false} CopiesLength<T>(s: seq<T>, n: nat)
    ensures |Copies(s, n)| == n
  {
    if n > 0 {
      CopiesLength(s, n - 1);
    }
  }

  lemma BothOrder<T>(a: seq<seq<T>>, b: seq<seq<T>>, rows: set<T>, key: T -> real)
    requires AllOrder(a, rows, key) && AllOrder(b, rows, key)
    ensures AllOrder(a + b, rows, key)
  {
  }

  lemma EndMoves(count: nat, limit: nat, offset: nat)
    requires 0 < count && 0 < limit
    ensures offset < End(count, limit, offset)
  {
  }

  /** Where a boundary cuts a tie, some choice of tie-breaks shows a row twice. */
  lemma CutTieBreaksWalk<T>(full: seq<T>, rows: set<T>, key: T -> real, limit: nat, before: nat, count: nat)
    returns (orders: seq<seq<T>>)
    requires Orders(full, rows, key) && before < count && 0 < limit
    requires var b := End(before, limit, 0); 0 < b < |full| && !CutStrict(full, key, b)
    ensures |orders| == count && AllOrder(orders, rows, key)
    ensures !Complete(Walk(orders, limit, 0), rows)
  {
    var b := End(before, limit, 0);
    var other := Swapped(full, b);
    SwappedOrders(full, b, rows, key);
    CopiesOrder(full, before, rows, key);
    CopiesOrder(other, count - before, rows, key);
    CopiesLength(full, before);
    CopiesLength(other, count - before);
    BothOrder(Copies(full, before), Copies(other, count - before), rows, key);
    orders := Copies(full, before) + Copies(other, count - before);
    TwoOrderWalk(full, other, limit, before, count - before);
    EndMoves(count - before, limit, b);
    RepeatAtCut(full, b, Min(End(count - before, limit, b), |full|));
  }

  /** Reading all pages shows every row exactly once for every way of breaking ties, if and only if no
      page boundary falls between two rows with equal keys. */
  lemma PagingIsCompleteIff<T>(full: seq<T>, rows: set<T>, key: T -> real, limit: nat, count: nat)
    requires Orders(full, rows, key) && 0 < limit && |full| <= End(count, limit, 0)
    ensures BoundariesStrict(full, key, limit, 0, count) <==>
            forall orders: seq<seq<T>> | |orders| == count && AllOrder(orders, rows, key) ::
              Complete(Walk(orders, limit, 0), rows)
  {
    if BoundariesStrict(full, key, limit, 0, count) {
      forall orders: seq<seq<T>> | |orders| == count && AllOrder(orders, rows, key)
        ensures Complete(Walk(orders, limit, 0), rows)
      {
        StrictWalksAreComplete(orders, full, rows, key, limit);
      }
    } else {
      var i :| 0 <= i < count && !CutStrict(full, key, End(i, limit, 0));
      var orders := CutTieBreaksWalk(full, rows, key, limit, i, count);
    }
  }

  lemma DistinctKeysCutNoTies<T>(full: seq<T>, rows: set<T>, key: T -> real, limit: nat, count: nat)
    requires Orders(full, rows, key)
    requires forall x, y | x in rows && y in rows && key(x) == key(y) :: x == y
    ensures BoundariesStrict(full, key, limit, 0, count)
  {
    forall b: nat | 0 < b < |full| ensures CutStrict(full, key, b) {
      assert full[b - 1] in rows && full[b] in rows;
    }
  }
}
