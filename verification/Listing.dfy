/** The product listing: a query built filter by filter, a sort, a count and a page. */
module Listing {
  import opened Wrappers
  import opened CatalogRows
  import opened Ordering
  import Like
  import Pagination

  /** One WHERE clause of the statement. */
  datatype Clause =
    | NameOrDescriptionLike(pattern: string)
    | InCategory(category: Id)
    | SoldBy(seller: Id)
    | OnlyActive

  /** What the database is configured with: the case folding of one character, and the place of a string
      in the order of its collation. */
  datatype Collation = Collation(fold: char -> char, rank: string -> real)

  predicate Holds(c: Clause, p: Product, fold: char -> char) {
    match c
    case NameOrDescriptionLike(pattern) => Like.ILike(p.name, pattern, fold) || Like.ILike(p.description, pattern, fold)
    case InCategory(id) => p.category == id
    case SoldBy(id) => p.seller == id
    case OnlyActive => p.isActive
  }

  function ApplyFilters(
    statement: seq<Clause>, search: Option<string>, category: Option<Id>, seller: Option<Id>, activeOnly: bool)
    : seq<Clause>
  {
    var s1 :=
      if search.Some? && search.value != "" then statement + [NameOrDescriptionLike("%" + search.value + "%")]
      else statement;
    var s2 := if category.Some? then s1 + [InCategory(category.value)] else s1;
    var s3 := if seller.Some? then s2 + [SoldBy(seller.value)] else s2;
    if activeOnly then s3 + [OnlyActive] else s3
  }

  /** The rows that satisfy every clause, one clause after the other. */
  function Select(clauses: seq<Clause>, table: map<Id, Product>, fold: char -> char): map<Id, Product> {
    if clauses == [] then table else
    var kept := Select(clauses[..|clauses| - 1], table, fold);
    map id | id in kept && Holds(clauses[|clauses| - 1], kept[id], fold) :: kept[id]
  }

  function SortKey(sort: string, p: Product, rank: string -> real): real {
    if sort == "price_asc" then p.price as real
    else if sort == "price_desc" then -(p.price as real)
    else if sort == "name" then rank(p.name)
    else -(p.createdAt as real)
  }

  function KeyOf(table: map<Id, Product>, sort: string, rank: string -> real): Id -> real {
    (id: Id) => if id in table then SortKey(sort, table[id], rank) else 0.0
  }

  datatype Arguments = Arguments(
    search: Option<string>, category: Option<Id>, seller: Option<Id>, activeOnly: bool, sort: string)

  function Matching(table: map<Id, Product>, a: Arguments, db: Collation): map<Id, Product> {
    Select(ApplyFilters([], a.search, a.category, a.seller, a.activeOnly), table, db.fold)
  }

  /** `order` is an order in which the database may list the matching rows. */
  ghost predicate MayList(table: map<Id, Product>, a: Arguments, db: Collation, order: seq<Id>) {
    Orders(order, Matching(table, a, db).Keys, KeyOf(table, a.sort, db.rank))
  }

  /** `items` and `total` are a possible answer of `list`. */
  ghost predicate MayAnswer(
    table: map<Id, Product>, a: Arguments, db: Collation, limit: nat, offset: nat, items: seq<Id>, total: nat)
  {
    && total == |Matching(table, a, db)|
    && exists order: seq<Id> :: MayList(table, a, db, order) && items == Pagination.Page(order, limit, offset)
  }

  lemma {:induction false} SelectKeepsAllThatHold(
    clauses: seq<Clause>, table: map<Id, Product>, fold: char -> char, id: Id)
    ensures id in Select(clauses, table, fold) <==>
            id in table && forall c | c in clauses :: Holds(c, table[id], fold)
    ensures id in Select(clauses, table, fold) ==> Select(clauses, table, fold)[id] == table[id]
  {
    if clauses != [] {
      var front, last := clauses[..|clauses| - 1], clauses[|clauses| - 1];
      SelectKeepsAllThatHold(front, table, fold, id);
      assert clauses == front + [last];
    }
  }

  /** The order in which the clauses were added does not matter. */
  lemma ClauseOrderIsIrrelevant(a: seq<Clause>, b: seq<Clause>, table: map<Id, Product>, fold: char -> char)
    requires forall c :: c in a <==> c in b
    ensures Select(a, table, fold) == Select(b, table, fold)
  {
    forall id ensures id in Select(a, table, fold) <==> id in Select(b, table, fold) {
      SelectKeepsAllThatHold(a, table, fold, id);
      SelectKeepsAllThatHold(b, table, fold, id);
    }
    forall id | id in Select(a, table, fold) ensures Select(a, table, fold)[id] == Select(b, table, fold)[id] {
      SelectKeepsAllThatHold(a, table, fold, id);
      SelectKeepsAllThatHold(b, table, fold, id);
    }
  }

  /** The listing as one condition; an absent or empty search matches every row. */
  predicate IsMatch(p: Product, a: Arguments, fold: char -> char) {
    && (a.search.None? || Like.SearchHits(a.search.value, p.name, fold)
        || Like.SearchHits(a.search.value, p.description, fold))
    && (a.category.None? || p.category == a.category.value)
    && (a.seller.None? || p.seller == a.seller.value)
    && (a.activeOnly ==> p.isActive)
  }

  lemma MatchingIsOneCondition(table: map<Id, Product>, a: Arguments, db: Collation)
    ensures Matching(table, a, db) == map id | id in table && IsMatch(table[id], a, db.fold) :: table[id]
  {
    var clauses := ApplyFilters([], a.search, a.category, a.seller, a.activeOnly);
    forall id ensures id in Matching(table, a, db) <==> id in table && IsMatch(table[id], a, db.fold) {
      SelectKeepsAllThatHold(clauses, table, db.fold, id);
      if id in table {
        ClausesSayMatch(clauses, table[id], a, db.fold);
      }
    }
    forall id | id in Matching(table, a, db) ensures Matching(table, a, db)[id] == table[id] {
      SelectKeepsAllThatHold(clauses, table, db.fold, id);
    }
  }

  ghost predicate AllHold(clauses: seq<Clause>, p: Product, fold: char -> char) {
    forall c | c in clauses :: Holds(c, p, fold)
  }

  lemma AllHoldAppend(clauses: seq<Clause>, c: Clause, p: Product, fold: char -> char)
    ensures AllHold(clauses + [c], p, fold) <==> AllHold(clauses, p, fold) && Holds(c, p, fold)
  {
    assert forall x :: x in clauses + [c] <==> x in clauses || x == c;
  }

  lemma ClausesSayMatch(clauses: seq<Clause>, p: Product, a: Arguments, fold: char -> char)
    requires clauses == ApplyFilters([], a.search, a.category, a.seller, a.activeOnly)
    ensures AllHold(clauses, p, fold) <==> IsMatch(p, a, fold)
  {
    Like.EmptySearchFindsAll(p.name, fold);
    var s1 := ApplyFilters([], a.search, None, None, false);
    var s2 := ApplyFilters([], a.search, a.category, None, false);
    var s3 := ApplyFilters([], a.search, a.category, a.seller, false);
    if a.search.Some? {
      AllHoldAppend([], NameOrDescriptionLike("%" + a.search.value + "%"), p, fold);
    }
    if a.category.Some? {
      AllHoldAppend(s1, InCategory(a.category.value), p, fold);
    }
    if a.seller.Some? {
      AllHoldAppend(s2, SoldBy(a.seller.value), p, fold);
    }
    AllHoldAppend(s3, OnlyActive, p, fold);
  }

  /** The listing spelled out on the rows: every match, each once, in the order that the sort name asks for;
      an unknown name sorts the newest first. */
  ghost predicate Lists(table: map<Id, Product>, a: Arguments, db: Collation, full: seq<Id>) {
    && (forall id :: id in full <==> id in table && IsMatch(table[id], a, db.fold))
    && forall i, j | 0 <= i < j < |full| ::
         && full[i] != full[j]
         && var p, q := table[full[i]], table[full[j]];
            if a.sort == "price_asc" then p.price <= q.price
            else if a.sort == "price_desc" then p.price >= q.price
            else if a.sort == "name" then db.rank(p.name) <= db.rank(q.name)
            else p.createdAt >= q.createdAt
  }

  /** Two rows with the same value in the column that is sorted by. */
  predicate Ties(sort: string, p: Product, q: Product, rank: string -> real) {
    if sort == "price_asc" || sort == "price_desc" then p.price == q.price
    else if sort == "name" then rank(p.name) == rank(q.name)
    else p.createdAt == q.createdAt
  }

  lemma MatchingKeys(table: map<Id, Product>, a: Arguments, db: Collation)
    ensures var matches := set id | id in table && IsMatch(table[id], a, db.fold);
            Matching(table, a, db).Keys == matches && |Matching(table, a, db)| == |matches|
  {
    MatchingIsOneCondition(table, a, db);
    var m := Matching(table, a, db);
    assert |m| == |m.Keys|;
  }

  lemma KeysSayOrder(table: map<Id, Product>, sort: string, rank: string -> real, x: Id, y: Id)
    requires x in table && y in table
    ensures var key, p, q := KeyOf(table, sort, rank), table[x], table[y];
      && (key(x) <= key(y) <==>
            if sort == "price_asc" then p.price <= q.price
            else if sort == "price_desc" then p.price >= q.price
            else if sort == "name" then rank(p.name) <= rank(q.name)
            else p.createdAt >= q.createdAt)
      && (key(x) == key(y) <==> Ties(sort, p, q, rank))
  {
  }

  /** What the statement lets the database list is exactly that. */
  lemma MayListIff(table: map<Id, Product>, a: Arguments, db: Collation, order: seq<Id>)
    ensures MayList(table, a, db, order) <==> Lists(table, a, db, order)
  {
    MatchingIsOneCondition(table, a, db);
    var key := KeyOf(table, a.sort, db.rank);
    assert forall id :: id in order <==> id in ToSet(order);
    if ToSet(order) == Matching(table, a, db).Keys {
      forall i, j | 0 <= i < j < |order|
        ensures key(order[i]) <= key(order[j]) <==>
                var p, q := table[order[i]], table[order[j]];
                if a.sort == "price_asc" then p.price <= q.price
                else if a.sort == "price_desc" then p.price >= q.price
                else if a.sort == "name" then db.rank(p.name) <= db.rank(q.name)
                else p.createdAt >= q.createdAt
      {
        assert order[i] in ToSet(order) && order[j] in ToSet(order);
        KeysSayOrder(table, a.sort, db.rank, order[i], order[j]);
      }
    }
  }
}
