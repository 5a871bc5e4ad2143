/** Addresses with a default flag per row, and the partial function from (user, type) to default address
    that the flags stand for. */
module Addresses {
  import opened Wrappers
  import opened Ordering

  type Id = nat
  type UserId = nat

  datatype Kind = Shipping | Billing

  datatype Contact = Contact(
    fullName: string, phoneNumber: string, line1: string, line2: Option<string>,
    city: string, state: string, postalCode: string, country: string)

  datatype Address = Address(user: UserId, kind: Kind, contact: Contact, isDefault: bool, createdAt: int)

  datatype Payload = Payload(kind: Kind, contact: Contact, isDefault: bool)

  type Table = map<Id, Address>

  datatype Error = AddressNotFound | UniqueViolation

  function UnsetDefaults(t: Table, user: UserId, kind: Kind): Table {
    map id | id in t :: if t[id].user == user && t[id].kind == kind then t[id].(isDefault := false) else t[id]
  }

  function Prepared(t: Table, user: UserId, p: Payload): Table {
    if p.isDefault then UnsetDefaults(t, user, p.kind) else t
  }

  predicate Owns(t: Table, user: UserId, id: Id) {
    id in t && t[id].user == user
  }

  function Create(t: Table, user: UserId, id: Id, now: int, p: Payload): Result<Table, Error> {
    if id in t then Failure(UniqueViolation)
    else Success(Prepared(t, user, p)[id := Address(user, p.kind, p.contact, p.isDefault, now)])
  }

  function Update(t: Table, user: UserId, id: Id, p: Payload): Result<Table, Error> {
    if !Owns(t, user, id) then Failure(AddressNotFound)
    else Success(Prepared(t, user, p)[id := Address(user, p.kind, p.contact, p.isDefault, t[id].createdAt)])
  }

  function Delete(t: Table, user: UserId, id: Id): Result<Table, Error> {
    if !Owns(t, user, id) then Failure(AddressNotFound) else Success(t - {id})
  }

  /** A creation is refused exactly for a taken id. Otherwise the new row is the payload, owned by the user and
      dated now; of the other rows at most the default flags of that user and type go. */
  lemma CreateOnRows(t: Table, user: UserId, id: Id, now: int, p: Payload)
    ensures Create(t, user, id, now, p) == Failure(UniqueViolation) <==> id in t
    ensures Create(t, user, id, now, p).Success? <==> id !in t
    ensures id !in t ==>
      var t' := Create(t, user, id, now, p).value;
      && t'.Keys == t.Keys + {id}
      && t'[id] == Address(user, p.kind, p.contact, p.isDefault, now)
      && forall x | x in t ::
           t'[x] == if p.isDefault && t[x].user == user && t[x].kind == p.kind
                    then Address(user, p.kind, t[x].contact, false, t[x].createdAt) else t[x]
  {
  }

  /** An update is refused exactly for an address that the user does not own. Otherwise the row becomes the
      payload, with owner and creation time kept; the other rows as for a creation. */
  lemma UpdateOnRows(t: Table, user: UserId, id: Id, p: Payload)
    ensures Update(t, user, id, p) == Failure(AddressNotFound) <==> id !in t || t[id].user != user
    ensures Update(t, user, id, p).Success? <==> id in t && t[id].user == user
    ensures id in t && t[id].user == user ==>
      var t' := Update(t, user, id, p).value;
      && t'.Keys == t.Keys
      && t'[id] == Address(user, p.kind, p.contact, p.isDefault, t[id].createdAt)
      && forall x | x in t && x != id ::
           t'[x] == if p.isDefault && t[x].user == user && t[x].kind == p.kind
                    then Address(user, p.kind, t[x].contact, false, t[x].createdAt) else t[x]
  {
  }

  /** A deletion is refused exactly for an address that the user does not own, and else removes that row only. */
  lemma DeleteOnRows(t: Table, user: UserId, id: Id)
    ensures Delete(t, user, id) == Failure(AddressNotFound) <==> id !in t || t[id].user != user
    ensures Delete(t, user, id).Success? <==> id in t && t[id].user == user
    ensures id in t && t[id].user == user ==>
      var t' := Delete(t, user, id).value;
      t'.Keys == t.Keys - {id} && forall x | x in t && x != id :: t'[x] == t[x]
  {
  }

  datatype Request =
    | CreateRequest(user: UserId, id: Id, now: int, payload: Payload)
    | UpdateRequest(user: UserId, id: Id, payload: Payload)
    | DeleteRequest(user: UserId, id: Id)

  function Handle(t: Table, r: Request): Result<Table, Error> {
    match r
    case CreateRequest(u, id, now, p) => Create(t, u, id, now, p)
    case UpdateRequest(u, id, p) => Update(t, u, id, p)
    case DeleteRequest(u, id) => Delete(t, u, id)
  }

  function After(t: Table, r: Request): Table {
    var done := Handle(t, r);
    if done.Success? then done.value else t
  }

  function Run(t: Table, requests: seq<Request>): Table {
    if requests == [] then t else After(Run(t, requests[..|requests| - 1]), requests[|requests| - 1])
  }

  // The abstract side

  type Pair = (UserId, Kind)

  /** The default address of each user and type, for those that have one. */
  type Defaults = map<Pair, Id>

  function Forget(m: Defaults, id: Id): Defaults {
    map pair | pair in m && m[pair] != id :: m[pair]
  }

  function Choose(m: Defaults, pair: Pair, id: Id, chosen: bool): Defaults {
    if chosen then m[pair := id] else m
  }

  /** The abstract state: who owns each address, and the defaults. It knows nothing of rows and flags. */
  datatype Book = Book(owners: map<Id, UserId>, defaults: Defaults)

  predicate Accepts(b: Book, r: Request) {
    match r
    case CreateRequest(_, id, _, _) => id !in b.owners
    case UpdateRequest(u, id, _) => id in b.owners && b.owners[id] == u
    case DeleteRequest(u, id) => id in b.owners && b.owners[id] == u
  }

  /** What a request does to the book; a refused one does nothing. */
  function AbstractAfter(b: Book, r: Request): Book {
    if !Accepts(b, r) then b else
    match r
    case CreateRequest(u, id, _, p) => Book(b.owners[id := u], Choose(b.defaults, (u, p.kind), id, p.isDefault))
    case UpdateRequest(u, id, p) => b.(defaults := Choose(Forget(b.defaults, id), (u, p.kind), id, p.isDefault))
    case DeleteRequest(_, id) => Book(b.owners - {id}, Forget(b.defaults, id))
  }

  function AbstractRun(b: Book, requests: seq<Request>): Book {
    if requests == [] then b
    else AbstractAfter(AbstractRun(b, requests[..|requests| - 1]), requests[|requests| - 1])
  }

  predicate IsDefaultOf(t: Table, pair: Pair, id: Id) {
    id in t && t[id].isDefault && (t[id].user, t[id].kind) == pair
  }

  /** The rows and flags of the table say exactly what the book says. */
  ghost predicate Represents(t: Table, b: Book) {
    && (forall id :: id in t <==> id in b.owners)
    && (forall id | id in t :: t[id].user == b.owners[id])
    && forall pair, id :: IsDefaultOf(t, pair, id) <==> pair in b.defaults && b.defaults[pair] == id
  }

  lemma RepresentationIsUnique(t: Table, b: Book, c: Book)
    requires Represents(t, b) && Represents(t, c)
    ensures b == c
  {
    assert b.owners == c.owners;
    assert forall pair | pair in b.defaults :: IsDefaultOf(t, pair, b.defaults[pair]);
    assert forall pair | pair in c.defaults :: IsDefaultOf(t, pair, c.defaults[pair]);
    assert b.defaults == c.defaults;
  }

  /** The effect of a default flag being written for row `id` and pair `pair`, on every pair. */
  lemma WriteEffect(t: Table, user: UserId, id: Id, p: Payload, createdAt: int, pair: Pair, x: Id)
    requires id in t ==> t[id].user == user
    ensures IsDefaultOf(
              Prepared(t, user, p)[id := Address(user, p.kind, p.contact, p.isDefault, createdAt)], pair, x) <==>
            if p.isDefault && pair == (user, p.kind) then x == id else x != id && IsDefaultOf(t, pair, x)
  {
  }

  /** The service accepts exactly the requests that the book accepts, and each request carries the rows and
      flags from one book to the next. */
  lemma RequestRefines(t: Table, b: Book, r: Request)
    requires Represents(t, b)
    ensures Handle(t, r).Success? <==> Accepts(b, r)
    ensures Represents(After(t, r), AbstractAfter(b, r))
  {
    if Accepts(b, r) {
      var t', b' := After(t, r), AbstractAfter(b, r);
      forall pair, x ensures IsDefaultOf(t', pair, x) <==> pair in b'.defaults && b'.defaults[pair] == x {
        assert IsDefaultOf(t, pair, x) <==> pair in b.defaults && b.defaults[pair] == x;
        match r
        case CreateRequest(u, id, now, p) => WriteEffect(t, u, id, p, now, pair, x);
        case UpdateRequest(u, id, p) => WriteEffect(t, u, id, p, t[id].createdAt, pair, x);
        case DeleteRequest(_, _) =>
      }
    }
  }

  /** Over every serial run the table refines the book. */
  lemma {:induction false} RunRefines(t: Table, b: Book, requests: seq<Request>)
    requires Represents(t, b)
    ensures Represents(Run(t, requests), AbstractRun(b, requests))
  {
    if requests != [] {
      var front := requests[..|requests| - 1];
      RunRefines(t, b, front);
      RequestRefines(Run(t, front), AbstractRun(b, front), requests[|requests| - 1]);
    }
  }

  /** One default per user and type, in every reachable table. */
  lemma OneDefaultPerUserAndType(requests: seq<Request>, pair: Pair, x: Id, y: Id)
    ensures IsDefaultOf(Run(map[], requests), pair, x) && IsDefaultOf(Run(map[], requests), pair, y) ==> x == y
  {
    RunRefines(map[], Book(map[], map[]), requests);
  }

  /** A successful default write makes its row the only default of its pair; every other pair keeps its
      default, except that the written row no longer is one. */
  lemma DefaultWrite(t: Table, r: Request, pair: Pair, x: Id)
    requires !r.DeleteRequest? && r.payload.isDefault && Handle(t, r).Success?
    ensures IsDefaultOf(After(t, r), pair, x) <==>
            if pair == (r.user, r.payload.kind) then x == r.id else x != r.id && IsDefaultOf(t, pair, x)
  {
  }

  /** Any other successful request only takes its own row out of the defaults. */
  lemma OtherWrite(t: Table, r: Request, pair: Pair, x: Id)
    requires (r.DeleteRequest? || !r.payload.isDefault) && Handle(t, r).Success?
    ensures IsDefaultOf(After(t, r), pair, x) <==> x != r.id && IsDefaultOf(t, pair, x)
  {
  }

  // Listing

  ghost function RowsOf(t: Table, user: UserId): set<Id> {
    set id | id in t && t[id].user == user
  }

  predicate ComesBefore(a: Address, b: Address) {
    (a.isDefault && !b.isDefault) || (a.isDefault == b.isDefault && a.createdAt >= b.createdAt)
  }

  /** An answer of `list_for_user`: the user's rows, each once, by flag and then by age. */
  ghost predicate MayList(t: Table, user: UserId, out: seq<Id>) {
    && ToSet(out) == RowsOf(t, user)
    && NoRepeats(out)
    && (forall i | 0 <= i < |out| :: out[i] in t)
    && forall i, j | 0 <= i < j < |out| :: ComesBefore(t[out[i]], t[out[j]])
  }

  lemma {:induction false} DefaultsComeFirst(t: Table, user: UserId, out: seq<Id>, n: nat) returns (d: nat)
    requires MayList(t, user, out) && n <= |out|
    ensures d <= n && forall i | 0 <= i < n :: t[out[i]].isDefault <==> i < d
  {
    if n == 0 {
      d := 0;
    } else {
      d := DefaultsComeFirst(t, user, out, n - 1);
      if t[out[n - 1]].isDefault {
        assert d < n - 1 ==> ComesBefore(t[out[d]], t[out[n - 1]]);
        d := n;
      }
    }
  }

  /** In every reachable table the listing starts with the user's defaults, at most two, followed by the
      other rows; each group is newest first. */
  lemma ListingOfAReachableTable(requests: seq<Request>, user: UserId, out: seq<Id>) returns (d: nat)
    requires MayList(Run(map[], requests), user, out)
    ensures var t := Run(map[], requests);
      && d <= |out| && d <= 2
      && NoRepeats(out) && (forall id :: id in out <==> id in t && t[id].user == user)
      && (forall i | 0 <= i < |out| :: t[out[i]].user == user && (t[out[i]].isDefault <==> i < d))
      && (forall i, j | 0 <= i < j < d :: t[out[i]].createdAt >= t[out[j]].createdAt)
      && (forall i, j | d <= i < j < |out| :: t[out[i]].createdAt >= t[out[j]].createdAt)
  {
    var t := Run(map[], requests);
    d := DefaultsComeFirst(t, user, out, |out|);
    assert forall id :: id in out <==> id in ToSet(out);
    forall i | 0 <= i < |out| ensures t[out[i]].user == user {
      assert out[i] in ToSet(out);
    }
    if d >= 3 {
      var i, j := PairWithSameKind(t[out[0]].kind, t[out[1]].kind, t[out[2]].kind);
      OneDefaultPerUserAndType(requests, (user, t[out[i]].kind), out[i], out[j]);
    }
  }

  /** There is always a listing. */
  lemma SomeListing(t: Table, user: UserId) returns (out: seq<Id>)
    ensures MayList(t, user, out)
  {
    var key := (id: Id) => if id in t then -(t[id].createdAt as real) else 0.0;
    var defaults := set id | id in t && t[id].user == user && t[id].isDefault;
    var others := RowsOf(t, user) - defaults;
    var a := SomeOrder(defaults, key);
    var b := SomeOrder(others, key);
    out := a + b;
    assert forall id :: id in a <==> id in ToSet(a);
    assert forall id :: id in b <==> id in ToSet(b);
    forall i | 0 <= i < |out| ensures out[i] in t && (t[out[i]].isDefault <==> i < |a|) {
      assert if i < |a| then out[i] in a else out[i] in b;
    }
    forall i, j | 0 <= i < j < |out| ensures out[i] != out[j] && ComesBefore(t[out[i]], t[out[j]]) {
      if j < |a| {
        assert key(a[i]) <= key(a[j]) && a[i] != a[j];
      } else if |a| <= i {
        assert key(b[i - |a|]) <= key(b[j - |a|]) && b[i - |a|] != b[j - |a|];
      }
    }
  }

  lemma PairWithSameKind(a: Kind, b: Kind, c: Kind) returns (i: nat, j: nat)
    ensures i < j < 3 && [a, b, c][i] == [a, b, c][j]
  {
    i, j := if a == b then 0 else if a == c then 0 else 1, if a == b then 1 else 2;
  }
}
