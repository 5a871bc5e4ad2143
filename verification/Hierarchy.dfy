/** The parent links of the category table. */
module Hierarchy {
  import opened Wrappers
  import opened CatalogRows
  import Ordering

  /** The category `k` parents up from `x`. */
  function Up(cats: map<Id, Category>, x: Id, k: nat): Option<Id>
    decreases k
  {
    if x !in cats then None
    else if k == 0 then Some(x)
    else if cats[x].parent.None? then None
    else Up(cats, cats[x].parent.value, k - 1)
  }

  ghost predicate IsAncestor(cats: map<Id, Category>, a: Id, x: Id) {
    exists k: nat :: k > 0 && Up(cats, x, k) == Some(a)
  }

  ghost predicate Acyclic(cats: map<Id, Category>) {
    forall x | x in cats :: !IsAncestor(cats, x, x)
  }

  lemma {:induction false} UpAppend(cats: map<Id, Category>, x: Id, i: nat, j: nat)
    requires Up(cats, x, i).Some?
    ensures Up(cats, x, i + j) == Up(cats, Up(cats, x, i).value, j)
    decreases i
  {
    if i > 0 {
      UpAppend(cats, cats[x].parent.value, i - 1, j);
    }
  }

  /** A walk that meets `c` at most at its end is not affected by a change of the row of `c`. */
  lemma {:induction false} WalkAvoiding(cats: map<Id, Category>, c: Id, row: Category, x: Id, k: nat)
    requires c in cats
    requires forall j: nat | j < k :: Up(cats, x, j) != Some(c)
    ensures Up(cats[c := row], x, k) == Up(cats, x, k)
    decreases k
  {
    assert k > 0 ==> Up(cats, x, 0) != Some(c);
    if k > 0 && x in cats && cats[x].parent.Some? {
      forall j: nat | j < k - 1 ensures Up(cats, cats[x].parent.value, j) != Some(c) {
        assert Up(cats, x, j + 1) == Up(cats, cats[x].parent.value, j);
      }
      WalkAvoiding(cats, c, row, cats[x].parent.value, k - 1);
    }
  }

  /** The first step at which a walk meets `c`. */
  lemma {:induction false} FirstMeeting(cats: map<Id, Category>, c: Id, x: Id, k: nat) returns (first: nat)
    requires Up(cats, x, k) == Some(c)
    ensures first <= k && Up(cats, x, first) == Some(c)
    ensures forall j: nat | j < first :: Up(cats, x, j) != Some(c)
    decreases k
  {
    if x == c {
      first := 0;
    } else {
      var f := FirstMeeting(cats, c, cats[x].parent.value, k - 1);
      first := f + 1;
      forall j: nat | j < first ensures Up(cats, x, j) != Some(c) {
        if j > 0 {
          assert Up(cats, x, j) == Up(cats, cats[x].parent.value, j - 1);
        }
      }
    }
  }

  lemma CycleThroughNewParent(cats: map<Id, Category>, c: Id, row: Category)
    requires c in cats && row.parent.Some? && row.parent.value in cats && row.parent.value != c
    requires IsAncestor(cats, c, row.parent.value)
    ensures IsAncestor(cats[c := row], c, c)
  {
    var p := row.parent.value;
    var k: nat :| k > 0 && Up(cats, p, k) == Some(c);
    var first := FirstMeeting(cats, c, p, k);
    WalkAvoiding(cats, c, row, p, first);
    assert Up(cats[c := row], c, first + 1) == Up(cats[c := row], p, first);
  }

  lemma NoCycleThroughChangedRow(cats: map<Id, Category>, c: Id, row: Category)
    requires c in cats && (row.parent.Some? ==> row.parent.value in cats && row.parent.value != c)
    requires row.parent.Some? ==> !IsAncestor(cats, c, row.parent.value)
    ensures !IsAncestor(cats[c := row], c, c)
  {
    var cats' := cats[c := row];
    assert cats'[c := cats[c]] == cats;
    forall k: nat | k > 0 ensures Up(cats', c, k) != Some(c) {
      if Up(cats', c, k) == Some(c) {
        var p := row.parent.value;
        assert Up(cats', p, k - 1) == Some(c);
        var first := FirstMeeting(cats', c, p, k - 1);
        WalkAvoiding(cats', c, cats[c], p, first);
      }
    }
  }

  lemma CyclesAvoidChangedRow(cats: map<Id, Category>, c: Id, row: Category, x: Id)
    requires Acyclic(cats) && c in cats && x in cats
    requires !IsAncestor(cats[c := row], c, c)
    ensures !IsAncestor(cats[c := row], x, x)
  {
    var cats' := cats[c := row];
    assert cats'[c := cats[c]] == cats;
    forall k: nat | k > 0 ensures Up(cats', x, k) != Some(x) {
      if Up(cats', x, k) == Some(x) {
        if j: nat :| j < k && Up(cats', x, j) == Some(c) {
          UpAppend(cats', x, j, k - j);
          UpAppend(cats', x, k, j);
          UpAppend(cats', c, k - j, j);
        } else {
          WalkAvoiding(cats', c, cats[c], x, k);
        }
      }
    }
  }

  /** Giving `c` a new row leaves an acyclic table acyclic exactly when the new parent is null or not a
      descendant of `c`. */
  lemma UpdateKeepsAcyclicIff(cats: map<Id, Category>, c: Id, row: Category)
    requires Acyclic(cats) && c in cats
    requires row.parent.Some? ==> row.parent.value in cats && row.parent.value != c
    ensures Acyclic(cats[c := row]) <==> row.parent.None? || !IsAncestor(cats, c, row.parent.value)
  {
    if row.parent.None? || !IsAncestor(cats, c, row.parent.value) {
      NoCycleThroughChangedRow(cats, c, row);
      forall x | x in cats ensures !IsAncestor(cats[c := row], x, x) {
        CyclesAvoidChangedRow(cats, c, row, x);
      }
    } else {
      CycleThroughNewParent(cats, c, row);
    }
  }

  ghost predicate ParentsOk(cats: map<Id, Category>) {
    forall x | x in cats && cats[x].parent.Some? :: cats[x].parent.value in cats && cats[x].parent.value != x
  }

  /** A new category has no descendants yet, so it closes no cycle. */
  lemma CreateKeepsAcyclic(cats: map<Id, Category>, c: Id, row: Category)
    requires Acyclic(cats) && ParentsOk(cats) && c !in cats
    requires row.parent.Some? ==> row.parent.value in cats
    ensures Acyclic(cats[c := row])
  {
    var cats' := cats[c := row];
    forall x | x in cats' ensures !IsAncestor(cats', x, x) {
      forall k: nat | k > 0 ensures Up(cats', x, k) != Some(x) {
        if x == c && row.parent.Some? {
          WalkInOldTable(cats, c, row, row.parent.value, k - 1);
        } else if x != c {
          WalkInOldTable(cats, c, row, x, k);
        }
      }
    }
  }

  lemma {:induction false} WalkInOldTable(cats: map<Id, Category>, c: Id, row: Category, x: Id, k: nat)
    requires ParentsOk(cats) && c !in cats && x in cats
    ensures Up(cats[c := row], x, k) == Up(cats, x, k)
    ensures Up(cats, x, k).Some? ==> Up(cats, x, k).value in cats
    decreases k
  {
    if k > 0 && cats[x].parent.Some? {
      WalkInOldTable(cats, c, row, cats[x].parent.value, k - 1);
    }
  }

  ghost function Visited(cats: map<Id, Category>, x: Id, k: nat): set<Id>
    decreases k
  {
    if x !in cats then {}
    else if k == 0 || cats[x].parent.None? then {x}
    else {x} + Visited(cats, cats[x].parent.value, k - 1)
  }

  lemma {:induction false} VisitedIsReached(cats: map<Id, Category>, x: Id, k: nat, y: Id)
    requires y in Visited(cats, x, k)
    ensures exists i: nat :: i <= k && Up(cats, x, i) == Some(y)
    decreases k
  {
    if x == y {
      assert Up(cats, x, 0) == Some(y);
    } else {
      var p := cats[x].parent.value;
      VisitedIsReached(cats, p, k - 1, y);
      var i: nat :| i <= k - 1 && Up(cats, p, i) == Some(y);
      assert Up(cats, x, i + 1) == Some(y);
    }
  }

  lemma VisitedAboveIsAncestor(cats: map<Id, Category>, x: Id, k: nat, y: Id)
    requires x in cats && cats[x].parent.Some? && y in Visited(cats, cats[x].parent.value, k)
    ensures IsAncestor(cats, y, x)
  {
    var p := cats[x].parent.value;
    VisitedIsReached(cats, p, k, y);
    var i: nat :| i <= k && Up(cats, p, i) == Some(y);
    assert Up(cats, x, i + 1) == Some(y);
  }

  lemma {:induction false} WalkVisitsNew(cats: map<Id, Category>, x: Id, k: nat)
    requires Acyclic(cats) && Up(cats, x, k).Some?
    ensures Visited(cats, x, k) <= cats.Keys && |Visited(cats, x, k)| == k + 1
    decreases k
  {
    if k > 0 {
      var p := cats[x].parent.value;
      WalkVisitsNew(cats, p, k - 1);
      if x in Visited(cats, p, k - 1) {
        VisitedAboveIsAncestor(cats, x, k - 1, x);
      }
    }
  }

  /** In an acyclic table every walk to the root ends, within as many steps as there are categories. */
  lemma AncestorWalksEnd(cats: map<Id, Category>, x: Id)
    requires Acyclic(cats)
    ensures Up(cats, x, |cats|).None?
  {
    if Up(cats, x, |cats|).Some? {
      WalkVisitsNew(cats, x, |cats|);
      Ordering.Inclusion(Visited(cats, x, |cats|), cats.Keys);
    }
  }
}
