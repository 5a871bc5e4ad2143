/** ORDER BY as the database gives it: any listing of the rows whose sort keys do not decrease. Ties may
    come out differently each time. */
module Ordering {
  ghost function ToSet<T>(s: seq<T>): set<T> {
    set x | x in s
  }

  ghost predicate NoRepeats<T>(s: seq<T>) {
    forall i, j | 0 <= i < j < |s| :: s[i] != s[j]
  }

  ghost predicate Sorted<T>(s: seq<T>, key: T -> real) {
    forall i, j | 0 <= i < j < |s| :: key(s[i]) <= key(s[j])
  }

  /** Every row of `rows` exactly once, in the order of the keys. */
  ghost predicate Orders<T>(s: seq<T>, rows: set<T>, key: T -> real) {
    ToSet(s) == rows && NoRepeats(s) && Sorted(s, key)
  }

  function Keys<T>(s: seq<T>, key: T -> real): seq<real> {
    seq(|s|, i requires 0 <= i < |s| => key(s[i]))
  }

  lemma {:induction false} SetSize<T>(s: seq<T>)
    ensures |ToSet(s)| <= |s|
    ensures NoRepeats(s) <==> |ToSet(s)| == |s|
  {
    if s != [] {
      var front, x := s[..|s| - 1], s[|s| - 1];
      SetSize(front);
      assert ToSet(s) == ToSet(front) + {x};
      if x in front {
        var i :| 0 <= i < |front| && front[i] == x;
        assert s[i] == s[|s| - 1];
        assert ToSet(s) == ToSet(front);
      } else {
        assert NoRepeats(s) <==> NoRepeats(front) by {
          assert forall i | 0 <= i < |front| :: s[i] == front[i];
        }
      }
    }
  }

  lemma PrefixSize<T>(s: seq<T>, i: nat)
    requires NoRepeats(s) && i <= |s|
    ensures |ToSet(s[..i])| == i
  {
    SetSize(s[..i]);
  }

  lemma KeysNotBelow<T>(a: seq<T>, b: seq<T>, rows: set<T>, key: T -> real, i: nat)
    requires Orders(a, rows, key) && Orders(b, rows, key) && i < |a| && i < |b|
    ensures key(b[i]) <= key(a[i])
  {
    if key(a[i]) < key(b[i]) {
      forall x | x in a[..i + 1] ensures x in b[..i] {
        assert key(x) <= key(a[i]);
        assert x in rows;
        var j :| 0 <= j < |b| && b[j] == x;
        assert j < i;
        assert b[..i][j] == x;
      }
      PrefixSize(a, i + 1);
      PrefixSize(b, i);
      Inclusion(ToSet(a[..i + 1]), ToSet(b[..i]));
    }
  }

  lemma Inclusion<T>(small: set<T>, big: set<T>)
    requires small <= big
    ensures |small| <= |big|
  {
    assert |small| + |big - small| == |big| by {
      assert small + (big - small) == big;
    }
  }

  /** However ties are broken, the sequence of sort keys is the same. */
  lemma SameKeys<T>(a: seq<T>, b: seq<T>, rows: set<T>, key: T -> real)
    requires Orders(a, rows, key) && Orders(b, rows, key)
    ensures |a| == |b| == |rows|
    ensures Keys(a, key) == Keys(b, key)
  {
    SetSize(a);
    SetSize(b);
    forall i | 0 <= i < |a| ensures key(a[i]) == key(b[i]) {
      KeysNotBelow(a, b, rows, key, i);
      KeysNotBelow(b, a, rows, key, i);
    }
  }

  /** With pairwise distinct keys there is only one order. */
  lemma DistinctKeysGiveOneOrder<T>(a: seq<T>, b: seq<T>, rows: set<T>, key: T -> real)
    requires Orders(a, rows, key) && Orders(b, rows, key)
    requires forall x, y | x in rows && y in rows && key(x) == key(y) :: x == y
    ensures a == b
  {
    SameKeys(a, b, rows, key);
    forall i | 0 <= i < |a| ensures a[i] == b[i] {
      assert a[i] in rows && b[i] in rows;
      assert Keys(a, key)[i] == Keys(b, key)[i];
    }
  }

  lemma {:induction false} LeastKey<T>(rows: set<T>, key: T -> real) returns (x: T)
    requires rows != {}
    ensures x in rows && forall y | y in rows :: key(x) <= key(y)
    decreases |rows|
  {
    x :| x in rows;
    if rows != {x} {
      var z := LeastKey(rows - {x}, key);
      x := if key(z) < key(x) then z else x;
    }
  }

  /** The database always has an order to answer in. */
  lemma {:induction false} SomeOrder<T>(rows: set<T>, key: T -> real) returns (s: seq<T>)
    ensures Orders(s, rows, key)
    decreases |rows|
  {
    s := [];
    if rows != {} {
      var x := LeastKey(rows, key);
      var rest := SomeOrder(rows - {x}, key);
      assert forall y | y in rest :: y in ToSet(rest);
      s := [x] + rest;
      assert ToSet(s) == {x} + ToSet(rest);
    }
  }

  function Reverse<T>(s: seq<T>): seq<T> {
    seq(|s|, i requires 0 <= i < |s| => s[|s| - 1 - i])
  }

  /** A descending listing shows the ascending keys backwards. */
  lemma DescendingIsReversed<T>(up: seq<T>, down: seq<T>, rows: set<T>, key: T -> real, negated: T -> real)
    requires forall x :: negated(x) == -key(x)
    requires Orders(up, rows, key) && Orders(down, rows, negated)
    ensures Keys(down, key) == Reverse(Keys(up, key))
  {
    var r := Reverse(down);
    assert forall x :: x in r <==> x in down by {
      forall x | x in down ensures x in r {
        var i :| 0 <= i < |down| && down[i] == x;
        assert r[|down| - 1 - i] == x;
      }
    }
    forall i, j | 0 <= i < j < |r| ensures key(r[i]) <= key(r[j]) {
      assert negated(down[|down| - 1 - j]) <= negated(down[|down| - 1 - i]);
    }
    assert Orders(r, rows, key);
    SameKeys(up, r, rows, key);
    forall i | 0 <= i < |down| ensures key(down[i]) == Reverse(Keys(up, key))[i] {
      assert Keys(up, key)[|down| - 1 - i] == Keys(r, key)[|down| - 1 - i];
    }
  }
}
