/** The address part of the user service and its repository over a session, one request at a time. */
module AddressServices {
  import opened Wrappers
  import opened Sessions
  import opened Addresses
  import opened Attributes

  /** The columns that an update assigns. */
  datatype Field = KindField(kind: Kind) | ContactFields(contact: Contact) | DefaultField(isDefault: bool)

  function Assign(a: Address, f: Field): Address {
    match f
    case KindField(k) => a.(kind := k)
    case ContactFields(c) => a.(contact := c)
    case DefaultField(d) => a.(isDefault := d)
  }

  function Fields(p: Payload): seq<Field> {
    [KindField(p.kind), ContactFields(p.contact), DefaultField(p.isDefault)]
  }

  lemma FieldsGiveTheRow(a: Address, p: Payload)
    ensures AssignAll(a, Fields(p), Assign) == Address(a.user, p.kind, p.contact, p.isDefault, a.createdAt)
  {
    var f := Fields(p);
    assert f[0..] == f && f[3..] == [];
    var a1 := AssignFrom(a, f, 0, Assign);
    var a2 := AssignFrom(a1, f, 1, Assign);
    var a3 := AssignFrom(a2, f, 2, Assign);
  }

  class AddressRepository {
    const session: Session<Table>

    constructor (session: Session<Table>)
      ensures this.session == session
    {
      this.session := session;
    }

    method GetForUser(id: Id, user: UserId) returns (found: Option<Address>)
      ensures found == if Owns(session.working, user, id) then Some(session.working[id]) else None
    {
      found := if Owns(session.working, user, id) then Some(session.working[id]) else None;
    }

    /** The bulk update, row by row; rows that the session has loaded stay in step. */
    method UnsetDefaultForType(user: UserId, kind: Kind)
      modifies session`working
      ensures session.working == UnsetDefaults(old(session.working), user, kind)
    {
      var before := session.working;
      var todo := before.Keys;
      while todo != {}
        invariant todo <= before.Keys == session.working.Keys
        invariant forall id | id in todo :: session.working[id] == before[id]
        invariant forall id | id in before.Keys - todo :: session.working[id] == UnsetDefaults(before, user, kind)[id]
      {
        var id :| id in todo;
        if session.working[id].user == user && session.working[id].kind == kind {
          session.working := session.working[id := session.working[id].(isDefault := false)];
        }
        todo := todo - {id};
      }
    }

    method Create(user: UserId, id: Id, now: int, p: Payload) returns (r: Result<Id, Error>)
      modifies session`working
      ensures if id in old(session.working)
              then r == Failure(UniqueViolation) && session.working == old(session.working)
              else r == Success(id) && session.working ==
                     old(session.working)[id := Address(user, p.kind, p.contact, p.isDefault, now)]
    {
      if id in session.working {
        return Failure(UniqueViolation);
      }
      session.working := session.working[id := Address(user, p.kind, p.contact, p.isDefault, now)];
      return Success(id);
    }

    method Update(id: Id, p: Payload)
      requires id in session.working
      modifies session`working
      ensures var was := old(session.working)[id];
              session.working == old(session.working)[
                id := Address(was.user, p.kind, p.contact, p.isDefault, was.createdAt)]
    {
      var row := SetAttributes(session.working[id], Fields(p), Assign);
      FieldsGiveTheRow(session.working[id], p);
      session.working := session.working[id := row];
    }

    method Delete(id: Id)
      modifies session`working
      ensures session.working == old(session.working) - {id}
    {
      session.working := session.working - {id};
    }
  }

  class UserService {
    const session: Session<Table>
    const addresses: AddressRepository

    ghost predicate Valid() {
      addresses.session == session
    }

    constructor (session: Session<Table>, addresses: AddressRepository)
      requires addresses.session == session
      ensures Valid() && this.session == session
    {
      this.session, this.addresses := session, addresses;
    }

    /** A failed insert comes after the flags were unset and flushed; the committed table keeps them. */
    method CreateAddress(user: UserId, id: Id, now: int, p: Payload) returns (r: Result<Id, Error>)
      requires Valid()
      modifies session
      ensures Addresses.Create(old(session.committed), user, id, now, p) ==
              if r.Success? then Success(session.committed) else Failure(r.error)
      ensures if r.Success? then r.value == id else session.committed == old(session.committed)
    {
      session.Begin();
      if p.isDefault {
        addresses.UnsetDefaultForType(user, p.kind);
      }
      var created :- addresses.Create(user, id, now, p);
      session.Commit();
      return Success(created);
    }

    method UpdateAddress(user: UserId, id: Id, p: Payload) returns (r: Result<Id, Error>)
      requires Valid()
      modifies session
      ensures Addresses.Update(old(session.committed), user, id, p) ==
              if r.Success? then Success(session.committed) else Failure(r.error)
      ensures if r.Success? then r.value == id else session.committed == old(session.committed)
    {
      session.Begin();
      var address := addresses.GetForUser(id, user);
      if address.None? {
        return Failure(AddressNotFound);
      }
      if p.isDefault {
        addresses.UnsetDefaultForType(user, p.kind);
      }
      addresses.Update(id, p);
      session.Commit();
      return Success(id);
    }

    method DeleteAddress(user: UserId, id: Id) returns (r: Result<Id, Error>)
      requires Valid()
      modifies session
      ensures Addresses.Delete(old(session.committed), user, id) ==
              if r.Success? then Success(session.committed) else Failure(r.error)
      ensures if r.Success? then r.value == id else session.committed == old(session.committed)
    {
      session.Begin();
      var address := addresses.GetForUser(id, user);
      if address.None? {
        return Failure(AddressNotFound);
      }
      addresses.Delete(id);
      session.Commit();
      return Success(id);
    }
  }
}
