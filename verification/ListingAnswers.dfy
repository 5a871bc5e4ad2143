/** What the answers of the product listing say about the rows: one answer, and the pages of a walk. */
module ListingAnswers {
  import opened Wrappers
  import opened CatalogRows
  import opened Ordering
  import opened Pagination
  import opened Listing
  import Like

  /** An answer is the number of matches and the part between `offset` and `offset + limit` of a listing of
      all of them in the requested order; nothing else is, and any of these listings may be behind it. */
  lemma AnswerIff(
    table: map<Id, Product>, a: Arguments, db: Collation, limit: nat, offset: nat, items: seq<Id>, total: nat)
    ensures MayAnswer(table, a, db, limit, offset, items, total) <==>
            exists full: seq<Id> :: Lists(table, a, db, full) && total == |full|
              && items == full[Min(offset, |full|)..Min(offset + limit, |full|)]
  {
    forall full: seq<Id> ensures MayList(table, a, db, full) <==> Lists(table, a, db, full) {
      MayListIff(table, a, db, full);
    }
    forall full: seq<Id> | MayList(table, a, db, full) ensures |full| == |Matching(table, a, db)| {
      MayListSize(table, a, db, full);
    }
  }

  lemma MayListSize(table: map<Id, Product>, a: Arguments, db: Collation, full: seq<Id>)
    requires MayList(table, a, db, full)
    ensures |full| == |Matching(table, a, db)|
  {
    SetSize(full);
    assert |Matching(table, a, db)| == |Matching(table, a, db).Keys|;
  }

  lemma ListingBehind(
    table: map<Id, Product>, a: Arguments, db: Collation, limit: nat, offset: nat, items: seq<Id>, total: nat)
    returns (order: seq<Id>)
    requires MayAnswer(table, a, db, limit, offset, items, total)
    ensures MayList(table, a, db, order) && items == Page(order, limit, offset)
  {
    order :| MayList(table, a, db, order) && items == Page(order, limit, offset);
  }

  lemma PageRow(full: seq<Id>, limit: nat, offset: nat, k: nat)
    requires k < |Page(full, limit, offset)|
    ensures offset + k < |full| && Page(full, limit, offset)[k] == full[offset + k]
  {
  }

  /** There is always an answer. */
  lemma SomeAnswer(table: map<Id, Product>, a: Arguments, db: Collation, limit: nat, offset: nat)
    returns (items: seq<Id>)
    ensures MayAnswer(table, a, db, limit, offset, items, |Matching(table, a, db)|)
  {
    var order := SomeOrder(Matching(table, a, db).Keys, KeyOf(table, a.sort, db.rank));
    assert MayList(table, a, db, order);
    items := Page(order, limit, offset);
  }

  /** Shape of an answer: the total counts the rows that match every given filter, and the page has as many
      of them as fit, each once. */
  lemma AnswerShape(
    table: map<Id, Product>, a: Arguments, db: Collation, limit: nat, offset: nat, items: seq<Id>, total: nat)
    requires MayAnswer(table, a, db, limit, offset, items, total)
    ensures var matches := set id | id in table
              && (a.search.None? || Like.SearchHits(a.search.value, table[id].name, db.fold)
                  || Like.SearchHits(a.search.value, table[id].description, db.fold))
              && (a.category.None? || table[id].category == a.category.value)
              && (a.seller.None? || table[id].seller == a.seller.value)
              && (!a.activeOnly || table[id].isActive);
            total == |matches| && ToSet(items) <= matches
    ensures |items| == Min(limit, if total < offset then 0 else total - offset)
    ensures NoRepeats(items)
  {
    MatchingKeys(table, a, db);
    var matches := set id | id in table
      && (a.search.None? || Like.SearchHits(a.search.value, table[id].name, db.fold)
          || Like.SearchHits(a.search.value, table[id].description, db.fold))
      && (a.category.None? || table[id].category == a.category.value)
      && (a.seller.None? || table[id].seller == a.seller.value)
      && (!a.activeOnly || table[id].isActive);
    assert matches == set id | id in table && IsMatch(table[id], a, db.fold);
    var order := ListingBehind(table, a, db, limit, offset, items, total);
    PageOfOrder(order, matches, KeyOf(table, a.sort, db.rank), limit, offset);
  }

  lemma PageOfOrder(order: seq<Id>, rows: set<Id>, key: Id -> real, limit: nat, offset: nat)
    requires Orders(order, rows, key)
    ensures var items := Page(order, limit, offset);
            && |items| == Min(limit, if |rows| < offset then 0 else |rows| - offset)
            && NoRepeats(items) && ToSet(items) <= rows
  {
    SetSize(order);
    assert forall id | id in order :: id in ToSet(order);
  }

  lemma OrderOfTwo(table: map<Id, Product>, a: Arguments, db: Collation, full: seq<Id>, i: nat, j: nat)
    requires Lists(table, a, db, full) && i < j < |full|
    ensures full[i] in table && full[j] in table
    ensures var p, q := table[full[i]], table[full[j]];
      && (a.sort == "price_asc" ==> p.price <= q.price)
      && (a.sort == "price_desc" ==> p.price >= q.price)
      && (a.sort == "name" ==> db.rank(p.name) <= db.rank(q.name))
      && (a.sort !in {"price_asc", "price_desc", "name"} ==> p.createdAt >= q.createdAt)
  {
    assert full[i] in full && full[j] in full;
  }

  /** What each sort name says about any two rows of an answer; an unknown name sorts the newest first. */
  lemma AnswerOrder(
    table: map<Id, Product>, a: Arguments, db: Collation, limit: nat, offset: nat, items: seq<Id>, total: nat,
    i: nat, j: nat)
    requires MayAnswer(table, a, db, limit, offset, items, total) && i < j < |items|
    ensures items[i] in table && items[j] in table
    ensures var p, q := table[items[i]], table[items[j]];
      && (a.sort == "price_asc" ==> p.price <= q.price)
      && (a.sort == "price_desc" ==> p.price >= q.price)
      && (a.sort == "name" ==> db.rank(p.name) <= db.rank(q.name))
      && (a.sort !in {"price_asc", "price_desc", "name"} ==> p.createdAt >= q.createdAt)
  {
    var order := ListingBehind(table, a, db, limit, offset, items, total);
    MayListIff(table, a, db, order);
    PageRow(order, limit, offset, i);
    PageRow(order, limit, offset, j);
    OrderOfTwo(table, a, db, order, offset + i, offset + j);
  }

  lemma SameRanks(table: map<Id, Product>, a: Arguments, db: Collation, order: seq<Id>, full: seq<Id>, k: nat)
    requires MayList(table, a, db, order) && Lists(table, a, db, full) && k < |order|
    ensures k < |full| && order[k] in table && Ties(a.sort, table[order[k]], table[full[k]], db.rank)
  {
    var key := KeyOf(table, a.sort, db.rank);
    MayListIff(table, a, db, order);
    MayListIff(table, a, db, full);
    SameKeys(order, full, Matching(table, a, db).Keys, key);
    assert key(order[k]) == Keys(order, key)[k] == Keys(full, key)[k] == key(full[k]);
    assert order[k] in order && full[k] in full;
    KeysSayOrder(table, a.sort, db.rank, order[k], full[k]);
  }

  /** However ties are broken: the k-th row of an answer has the sort value of row `offset + k` of any full
      listing, so the page holds the right ranks. */
  lemma AnswerRanks(
    table: map<Id, Product>, a: Arguments, db: Collation, limit: nat, offset: nat, items: seq<Id>, total: nat,
    full: seq<Id>, k: nat)
    requires MayAnswer(table, a, db, limit, offset, items, total) && Lists(table, a, db, full) && k < |items|
    ensures offset + k < |full| && items[k] in table
    ensures Ties(a.sort, table[items[k]], table[full[offset + k]], db.rank)
  {
    var order := ListingBehind(table, a, db, limit, offset, items, total);
    PageRow(order, limit, offset, k);
    SameRanks(table, a, db, order, full, offset + k);
  }

  lemma MirroredKeys(table: map<Id, Product>, a: Arguments, db: Collation, up: seq<Id>, down: seq<Id>)
    requires MayList(table, a.(sort := "price_asc"), db, up) && MayList(table, a.(sort := "price_desc"), db, down)
    ensures |up| == |down| && ToSet(up) == ToSet(down) <= table.Keys
    ensures var price := KeyOf(table, "price_asc", db.rank); Keys(down, price) == Reverse(Keys(up, price))
  {
    var price := KeyOf(table, "price_asc", db.rank);
    DescendingIsReversed(up, down, Matching(table, a, db).Keys, price, KeyOf(table, "price_desc", db.rank));
    assert |down| == |Keys(down, price)| == |up|;
    MatchingIsOneCondition(table, a, db);
  }

  lemma PricesBackwards(table: map<Id, Product>, db: Collation, up: seq<Id>, down: seq<Id>, k: nat)
    requires ToSet(up) == ToSet(down) <= table.Keys && k < |up| == |down|
    requires var price := KeyOf(table, "price_asc", db.rank); Keys(down, price) == Reverse(Keys(up, price))
    ensures up[|up| - 1 - k] in table && down[k] in table && table[down[k]].price == table[up[|up| - 1 - k]].price
  {
    var price := KeyOf(table, "price_asc", db.rank);
    assert up[|up| - 1 - k] in ToSet(up) && down[k] in ToSet(down);
    assert price(down[k]) == Keys(down, price)[k] == Reverse(Keys(up, price))[k] == price(up[|up| - 1 - k]);
  }

  lemma FullAnswer(table: map<Id, Product>, a: Arguments, db: Collation, limit: nat, items: seq<Id>, total: nat)
    requires MayAnswer(table, a, db, limit, 0, items, total) && total <= limit
    ensures MayList(table, a, db, items) && |items| == total
  {
    var order := ListingBehind(table, a, db, limit, 0, items, total);
    MayListSize(table, a, db, order);
    assert items == order;
  }

  /** Asked for everything, `price_desc` answers with the prices of `price_asc` backwards. */
  lemma PriceOrdersMirror(
    table: map<Id, Product>, a: Arguments, db: Collation, limit: nat, up: seq<Id>, down: seq<Id>, n: nat, m: nat)
    requires MayAnswer(table, a.(sort := "price_asc"), db, limit, 0, up, n) && n <= limit
    requires MayAnswer(table, a.(sort := "price_desc"), db, limit, 0, down, m)
    ensures n == m == |up| == |down|
    ensures forall k | 0 <= k < |up| :: up[|up| - 1 - k] in table && down[k] in table
              && table[down[k]].price == table[up[|up| - 1 - k]].price
  {
    FullAnswer(table, a.(sort := "price_asc"), db, limit, up, n);
    FullAnswer(table, a.(sort := "price_desc"), db, limit, down, m);
    MirroredKeys(table, a, db, up, down);
    forall k | 0 <= k < |up|
      ensures up[|up| - 1 - k] in table && down[k] in table && table[down[k]].price == table[up[|up| - 1 - k]].price
    {
      PricesBackwards(table, db, up, down, k);
    }
  }

  // Walking through the pages

  function Concat(pages: seq<seq<Id>>): seq<Id> {
    if pages == [] then [] else pages[0] + Concat(pages[1..])
  }

  ghost predicate IsAnswer(
    table: map<Id, Product>, a: Arguments, db: Collation, limit: nat, offset: nat, items: seq<Id>)
  {
    MayAnswer(table, a, db, limit, offset, items, |Matching(table, a, db)|)
  }

  /** Answers to queries at the offsets 0, L, 2L, ..., each with ties broken as the database likes. */
  ghost predicate ArePages(table: map<Id, Product>, a: Arguments, db: Collation, limit: nat, pages: seq<seq<Id>>) {
    forall i: nat | i < |pages| :: IsAnswer(table, a, db, limit, i * limit, pages[i])
  }

  ghost predicate ArePagesFrom(
    table: map<Id, Product>, a: Arguments, db: Collation, limit: nat, offset: nat, pages: seq<seq<Id>>)
  {
    forall i: nat | i < |pages| :: IsAnswer(table, a, db, limit, End(i, limit, offset), pages[i])
  }

  lemma ArePagesFromStart(table: map<Id, Product>, a: Arguments, db: Collation, limit: nat, pages: seq<seq<Id>>)
    ensures ArePages(table, a, db, limit, pages) <==> ArePagesFrom(table, a, db, limit, 0, pages)
  {
    forall i: nat ensures End(i, limit, 0) == i * limit {
      EndClosedForm(i, limit, 0);
    }
  }

  lemma PagesTail(
    table: map<Id, Product>, a: Arguments, db: Collation, limit: nat, offset: nat, pages: seq<seq<Id>>)
    requires ArePagesFrom(table, a, db, limit, offset, pages) && pages != []
    ensures ArePagesFrom(table, a, db, limit, offset + limit, pages[1..])
  {
    forall i: nat | i < |pages| - 1
      ensures IsAnswer(table, a, db, limit, End(i, limit, offset + limit), pages[1..][i])
    {
      assert IsAnswer(table, a, db, limit, End(i + 1, limit, offset), pages[i + 1]);
    }
  }

  lemma WalkOneMore(
    first: seq<Id>, rest: seq<seq<Id>>, rows: set<Id>, key: Id -> real, limit: nat, offset: nat)
    requires Orders(first, rows, key) && AllOrder(rest, rows, key)
    ensures AllOrder([first] + rest, rows, key)
    ensures Walk([first] + rest, limit, offset) == Page(first, limit, offset) + Walk(rest, limit, offset + limit)
  {
    assert ([first] + rest)[1..] == rest;
  }

  lemma FirstPage(
    table: map<Id, Product>, a: Arguments, db: Collation, limit: nat, offset: nat, pages: seq<seq<Id>>)
    returns (first: seq<Id>)
    requires ArePagesFrom(table, a, db, limit, offset, pages) && pages != []
    ensures MayList(table, a, db, first) && pages[0] == Page(first, limit, offset)
  {
    assert IsAnswer(table, a, db, limit, End(0, limit, offset), pages[0]);
    first := ListingBehind(table, a, db, limit, offset, pages[0], |Matching(table, a, db)|);
  }

  lemma {:induction false} OrdersBehindPages(
    table: map<Id, Product>, a: Arguments, db: Collation, limit: nat, offset: nat, pages: seq<seq<Id>>)
    returns (orders: seq<seq<Id>>)
    requires ArePagesFrom(table, a, db, limit, offset, pages)
    ensures |orders| == |pages| && AllOrder(orders, Matching(table, a, db).Keys, KeyOf(table, a.sort, db.rank))
    ensures Concat(pages) == Walk(orders, limit, offset)
    decreases |pages|
  {
    orders := [];
    if pages != [] {
      var first := FirstPage(table, a, db, limit, offset, pages);
      PagesTail(table, a, db, limit, offset, pages);
      var rest := OrdersBehindPages(table, a, db, limit, offset + limit, pages[1..]);
      WalkOneMore(first, rest, Matching(table, a, db).Keys, KeyOf(table, a.sort, db.rank), limit, offset);
      orders := [first] + rest;
    }
  }

  lemma OrdersOfPages(table: map<Id, Product>, a: Arguments, db: Collation, limit: nat, pages: seq<seq<Id>>)
    returns (orders: seq<seq<Id>>)
    requires ArePages(table, a, db, limit, pages)
    ensures |orders| == |pages| && AllOrder(orders, Matching(table, a, db).Keys, KeyOf(table, a.sort, db.rank))
    ensures Concat(pages) == Walk(orders, limit, 0)
  {
    ArePagesFromStart(table, a, db, limit, pages);
    orders := OrdersBehindPages(table, a, db, limit, 0, pages);
  }

  lemma {:induction false} PagesOfOrders(
    table: map<Id, Product>, a: Arguments, db: Collation, limit: nat, offset: nat, orders: seq<seq<Id>>)
    returns (pages: seq<seq<Id>>)
    requires AllOrder(orders, Matching(table, a, db).Keys, KeyOf(table, a.sort, db.rank))
    ensures |pages| == |orders| && Concat(pages) == Walk(orders, limit, offset)
    ensures ArePagesFrom(table, a, db, limit, offset, pages)
    decreases |orders|
  {
    pages := [];
    if orders != [] {
      AllOrderTail(orders, Matching(table, a, db).Keys, KeyOf(table, a.sort, db.rank));
      var rest := PagesOfOrders(table, a, db, limit, offset + limit, orders[1..]);
      pages := [Page(orders[0], limit, offset)] + rest;
      assert pages[1..] == rest;
      assert MayList(table, a, db, orders[0]);
      forall i: nat | i < |pages| ensures IsAnswer(table, a, db, limit, End(i, limit, offset), pages[i]) {
        if i > 0 {
          assert IsAnswer(table, a, db, limit, End(i - 1, limit, offset + limit), rest[i - 1]);
        }
      }
    }
  }

  /** Pages enough for all matches show, put together, as many rows as there are matches, and the k-th has the
      sort value of row k of any full listing, however ties were broken in each query. */
  lemma PagesShowTheSortedValues(
    table: map<Id, Product>, a: Arguments, db: Collation, limit: nat, pages: seq<seq<Id>>, full: seq<Id>)
    requires ArePages(table, a, db, limit, pages) && Lists(table, a, db, full) && |full| <= |pages| * limit
    ensures |Concat(pages)| == |full|
    ensures forall k | 0 <= k < |full| ::
              Concat(pages)[k] in table && Ties(a.sort, table[Concat(pages)[k]], table[full[k]], db.rank)
  {
    var rows, key := Matching(table, a, db).Keys, KeyOf(table, a.sort, db.rank);
    var orders := OrdersOfPages(table, a, db, limit, pages);
    MayListIff(table, a, db, full);
    MatchingIsOneCondition(table, a, db);
    WalkKeys(orders, full, rows, key, limit, 0);
    EndClosedForm(|orders|, limit, 0);
    WalkStaysInRows(orders, rows, key, limit, 0);
    var walk := Concat(pages);
    assert Keys(walk, key) == Keys(full, key);
    assert |walk| == |Keys(walk, key)|;
    forall k | 0 <= k < |full| ensures walk[k] in table && Ties(a.sort, table[walk[k]], table[full[k]], db.rank) {
      assert walk[k] in ToSet(walk);
      assert key(walk[k]) == Keys(walk, key)[k] == Keys(full, key)[k] == key(full[k]);
      KeysSayOrder(table, a.sort, db.rank, walk[k], full[k]);
    }
  }

  lemma {:induction false} WalkStaysInRows(
    orders: seq<seq<Id>>, rows: set<Id>, key: Id -> real, limit: nat, offset: nat)
    requires AllOrder(orders, rows, key)
    ensures ToSet(Walk(orders, limit, offset)) <= rows
    decreases |orders|
  {
    if orders != [] {
      AllOrderTail(orders, rows, key);
      WalkStaysInRows(orders[1..], rows, key, limit, offset + limit);
      var rest := Walk(orders[1..], limit, offset + limit);
      assert forall x | x in orders[0] :: x in ToSet(orders[0]);
      assert forall x | x in rest :: x in ToSet(rest);
    }
  }

  /** If no two matches tie, the pages put together are the listing itself. */
  lemma DistinctValuesPageCompletely(
    table: map<Id, Product>, a: Arguments, db: Collation, limit: nat, pages: seq<seq<Id>>, full: seq<Id>)
    requires ArePages(table, a, db, limit, pages) && Lists(table, a, db, full) && |full| <= |pages| * limit
    requires forall x, y | x in full && y in full && Ties(a.sort, table[x], table[y], db.rank) :: x == y
    ensures Concat(pages) == full
  {
    PagesShowTheSortedValues(table, a, db, limit, pages, full);
    var orders := OrdersOfPages(table, a, db, limit, pages);
    WalkStaysInRows(orders, Matching(table, a, db).Keys, KeyOf(table, a.sort, db.rank), limit, 0);
    MatchingIsOneCondition(table, a, db);
    var walk := Concat(pages);
    forall k | 0 <= k < |full| ensures walk[k] == full[k] {
      assert walk[k] in ToSet(walk);
    }
  }

  /** Every match exactly once. */
  ghost predicate ShowsEachOnce(walk: seq<Id>, full: seq<Id>) {
    (forall id :: id in walk <==> id in full) && NoRepeats(walk)
  }

  lemma CompleteMeansEachOnce(walk: seq<Id>, full: seq<Id>)
    ensures Complete(walk, ToSet(full)) <==> ShowsEachOnce(walk, full)
  {
    assert forall id :: id in walk <==> id in ToSet(walk);
    assert forall id :: id in full <==> id in ToSet(full);
  }

  /** No page boundary separates two rows that tie. */
  ghost predicate NoTieIsCut(
    table: map<Id, Product>, sort: string, rank: string -> real, full: seq<Id>, limit: nat, count: nat)
    requires forall id | id in full :: id in table
  {
    forall i: nat | i < count && 0 < i * limit < |full| ::
      !Ties(sort, table[full[i * limit - 1]], table[full[i * limit]], rank)
  }

  lemma NoTieIsCutIff(table: map<Id, Product>, a: Arguments, db: Collation, full: seq<Id>, limit: nat, count: nat)
    requires Lists(table, a, db, full)
    ensures NoTieIsCut(table, a.sort, db.rank, full, limit, count) <==>
            BoundariesStrict(full, KeyOf(table, a.sort, db.rank), limit, 0, count)
  {
    var key := KeyOf(table, a.sort, db.rank);
    MayListIff(table, a, db, full);
    forall i: nat | i < count
      ensures CutStrict(full, key, End(i, limit, 0)) <==>
              (0 < i * limit < |full| ==> !Ties(a.sort, table[full[i * limit - 1]], table[full[i * limit]], db.rank))
    {
      EndClosedForm(i, limit, 0);
      var b := i * limit;
      if 0 < b < |full| {
        KeysSayOrder(table, a.sort, db.rank, full[b - 1], full[b]);
        assert key(full[b - 1]) <= key(full[b]);
      }
    }
  }

  /** In general: whatever pages the database answers with, together they show every match exactly once, if
      and only if no page boundary separates two matches that tie. */
  lemma PagingIsCompleteIffNoTieIsCut(
    table: map<Id, Product>, a: Arguments, db: Collation, full: seq<Id>, limit: nat, count: nat)
    requires Lists(table, a, db, full) && 0 < limit && |full| <= count * limit
    ensures (forall pages: seq<seq<Id>> | |pages| == count && ArePages(table, a, db, limit, pages) ::
               ShowsEachOnce(Concat(pages), full))
            <==> NoTieIsCut(table, a.sort, db.rank, full, limit, count)
  {
    var rows, key := Matching(table, a, db).Keys, KeyOf(table, a.sort, db.rank);
    EndClosedForm(count, limit, 0);
    MayListIff(table, a, db, full);
    NoTieIsCutIff(table, a, db, full, limit, count);
    PagingIsCompleteIff(full, rows, key, limit, count);
    if NoTieIsCut(table, a.sort, db.rank, full, limit, count) {
      forall pages: seq<seq<Id>> | |pages| == count && ArePages(table, a, db, limit, pages)
        ensures ShowsEachOnce(Concat(pages), full)
      {
        var orders := OrdersOfPages(table, a, db, limit, pages);
        CompleteMeansEachOnce(Concat(pages), full);
      }
    } else {
      var orders: seq<seq<Id>> :| |orders| == count && AllOrder(orders, rows, key)
        && !Complete(Walk(orders, limit, 0), rows);
      var pages := PagesOfOrders(table, a, db, limit, 0, orders);
      ArePagesFromStart(table, a, db, limit, pages);
      CompleteMeansEachOnce(Concat(pages), full);
    }
  }
}
