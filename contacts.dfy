/**
  The contact table of src/repository/contacts.py: an id-keyed table of contact
  rows that the repository functions page through, look up, add to, delete from
  and overwrite in place. The table is kept in insertion order; the database
  hands out ids from an ever-increasing sequence, so ids increase along it.
  The repository functions as written take no user and do not filter by owner.
*/
module ContactRepository {
  import opened Wrappers

  /** Width of every string column of a contact (`String(50)`, `Field(max_length=50)`). */
  const MAX_FIELD_LENGTH := 50

  datatype Date = Date(year: int, month: int, day: int)

  /** A request body (`ContactModel`): the five fields a client may set. */
  datatype ContactBody = ContactBody(
    firstName: string, lastName: string, email: string, phone: string, birthday: Date)

  /** A stored row. `userId` is the owner column; the repository never sets it. */
  datatype Contact = Contact(
    id: nat, firstName: string, lastName: string, email: string, phone: string,
    birthday: Date, userId: Option<nat>)

  /** The five client-controlled fields of a row. */
  function Fields(c: Contact): ContactBody
  {
    ContactBody(c.firstName, c.lastName, c.email, c.phone, c.birthday)
  }

  /** The length-50 constraint of the schema. */
  predicate ValidBody(b: ContactBody)
  {
    |b.firstName| <= MAX_FIELD_LENGTH && |b.lastName| <= MAX_FIELD_LENGTH &&
    |b.email| <= MAX_FIELD_LENGTH && |b.phone| <= MAX_FIELD_LENGTH
  }

  /** Ids are positive, strictly increasing along the table and below the next id to be issued. */
  ghost predicate ValidRows(rows: seq<Contact>, nextId: nat)
  {
    0 < nextId &&
    (forall i, j :: 0 <= i < j < |rows| ==> rows[i].id < rows[j].id) &&
    (forall i :: 0 <= i < |rows| ==> 0 < rows[i].id < nextId && ValidBody(Fields(rows[i])))
  }

  /** Position of the first row whose id is `id`: `filter(Contact.id == id).first()`. */
  function IndexOf(rows: seq<Contact>, id: nat): (r: Option<nat>)
    ensures r.Some? ==> r.value < |rows| && rows[r.value].id == id
    ensures r.Some? ==> forall k :: 0 <= k < r.value ==> rows[k].id != id
    ensures r.None? ==> forall k :: 0 <= k < |rows| ==> rows[k].id != id
  {
    if |rows| == 0 then None
    else if rows[0].id == id then Some(0)
    else match IndexOf(rows[1..], id)
      case None => None
      case Some(k) => Some(k + 1)
  }

  /** The row with id `id`, or `None`. */
  function Lookup(rows: seq<Contact>, id: nat): (r: Option<Contact>)
  {
    match IndexOf(rows, id)
    case None => None
    case Some(i) => Some(rows[i])
  }

  /** `offset(skip).limit(limit)` over the table in storage order. */
  function Page(rows: seq<Contact>, skip: nat, limit: nat): (page: seq<Contact>)
  {
    var start := if skip < |rows| then skip else |rows|;
    var end := if limit < |rows| - start then start + limit else |rows|;
    rows[start..end]
  }

  /** The table without position `i`. */
  function Drop(rows: seq<Contact>, i: nat): seq<Contact>
    requires i < |rows|
  {
    rows[..i] + rows[i + 1..]
  }

  /** The first row with id `id` removed; the table itself when there is none. */
  function Without(rows: seq<Contact>, id: nat): seq<Contact>
  {
    match IndexOf(rows, id)
    case None => rows
    case Some(i) => Drop(rows, i)
  }

  /** The five fields of `c` overwritten by `b`. */
  function Overwrite(c: Contact, b: ContactBody): Contact
  {
    c.(firstName := b.firstName, lastName := b.lastName, email := b.email,
       phone := b.phone, birthday := b.birthday)
  }

  /** The table after the row with id `id` (if any) is overwritten by `b`. */
  function Updated(rows: seq<Contact>, id: nat, b: ContactBody): seq<Contact>
  {
    match IndexOf(rows, id)
    case None => rows
    case Some(i) => rows[i := Overwrite(rows[i], b)]
  }

  // ---------------------------------------------------------------------------
  // Properties of the table operations
  // ---------------------------------------------------------------------------

  /** Under unique ids, a row at position `i` is what `Lookup` returns for its id. */
  lemma LookupFindsRow(rows: seq<Contact>, nextId: nat, i: nat)
    requires ValidRows(rows, nextId) && i < |rows|
    ensures Lookup(rows, rows[i].id) == Some(rows[i])
  {
    var r := IndexOf(rows, rows[i].id);
    assert r.Some?;
  }

  /** `Lookup` returns a stored row with the requested id, and `None` exactly when no row has it. */
  lemma LookupMeaning(rows: seq<Contact>, id: nat)
    ensures Lookup(rows, id).Some? ==> Lookup(rows, id).value in rows && Lookup(rows, id).value.id == id
    ensures Lookup(rows, id).None? <==> forall k :: 0 <= k < |rows| ==> rows[k].id != id
  {
    if Lookup(rows, id).None? {
      assert IndexOf(rows, id).None?;
    }
  }

  /** Positions and ids alone decide `IndexOf`. */
  lemma {:induction false} SameIdsSameIndex(a: seq<Contact>, b: seq<Contact>, id: nat)
    requires |a| == |b|
    requires forall k :: 0 <= k < |a| ==> a[k].id == b[k].id
    ensures IndexOf(a, id) == IndexOf(b, id)
  {
    if |a| > 0 && a[0].id != id {
      SameIdsSameIndex(a[1..], b[1..], id);
    }
  }

  /** A page is the contiguous run of rows starting at `skip`, of length min(limit, max(0, n - skip)). */
  lemma PageShape(rows: seq<Contact>, skip: nat, limit: nat)
    ensures |Page(rows, skip, limit)| == (if skip >= |rows| then 0
                                          else if limit < |rows| - skip then limit
                                          else |rows| - skip)
    ensures forall i :: 0 <= i < |Page(rows, skip, limit)| ==> Page(rows, skip, limit)[i] == rows[skip + i]
  {
  }

  /** Consecutive pages tile the table: a page of `a` rows followed by the next page of `b` rows is one page of `a + b` rows. */
  lemma PagesTile(rows: seq<Contact>, skip: nat, a: nat, b: nat)
    ensures Page(rows, skip, a) + Page(rows, skip + a, b) == Page(rows, skip, a + b)
  {
    var p, q, whole := Page(rows, skip, a), Page(rows, skip + a, b), Page(rows, skip, a + b);
    PageShape(rows, skip, a);
    PageShape(rows, skip + a, b);
    PageShape(rows, skip, a + b);
    assert |p + q| == |whole|;
    forall i | 0 <= i < |whole|
      ensures (p + q)[i] == whole[i]
    {
      if i >= |p| {
        assert (p + q)[i] == q[i - |p|] == rows[skip + a + (i - |p|)];
      }
    }
  }

  /** A newly created row with a fresh id is found by its id; every other id finds what it found before. */
  lemma {:induction false} CreatedIsFound(rows: seq<Contact>, c: Contact, id: nat)
    requires Lookup(rows, c.id).None?
    ensures Lookup(rows + [c], id) == (if id == c.id then Some(c) else Lookup(rows, id))
  {
    if |rows| > 0 {
      assert (rows + [c])[1..] == rows[1..] + [c];
      if rows[0].id != c.id && rows[0].id != id {
        CreatedIsFound(rows[1..], c, id);
      }
    }
  }

  /** Removing a present id drops exactly that row: one fewer row, the others in order. */
  lemma WithoutPresent(rows: seq<Contact>, nextId: nat, i: nat)
    requires ValidRows(rows, nextId) && i < |rows|
    ensures Without(rows, rows[i].id) == rows[..i] + rows[i + 1..]
    ensures |Without(rows, rows[i].id)| == |rows| - 1
  {
    LookupFindsRow(rows, nextId, i);
  }

  /** Removing an absent id changes nothing. */
  lemma WithoutAbsent(rows: seq<Contact>, id: nat)
    requires Lookup(rows, id).None?
    ensures Without(rows, id) == rows
  {
  }

  /** Dropping position `i`: the rows before it stay, the rows after it move down by one. */
  lemma DropElements(rows: seq<Contact>, i: nat)
    requires i < |rows|
    ensures |Drop(rows, i)| == |rows| - 1
    ensures forall k :: 0 <= k < i ==> Drop(rows, i)[k] == rows[k]
    ensures forall k :: i <= k < |rows| - 1 ==> Drop(rows, i)[k] == rows[k + 1]
  {
    var w := Drop(rows, i);
    forall k | 0 <= k < |w| ensures w[k] == rows[if k < i then k else k + 1] {
      if k < i {
        assert w[k] == rows[..i][k];
      } else {
        assert w[k] == rows[i + 1..][k - i];
      }
    }
  }

  /** Dropping one row keeps the table valid. */
  lemma DropKeepsValid(rows: seq<Contact>, nextId: nat, i: nat)
    requires ValidRows(rows, nextId) && i < |rows|
    ensures ValidRows(Drop(rows, i), nextId)
  {
    var w := Drop(rows, i);
    DropElements(rows, i);
    forall a, b | 0 <= a < b < |w| ensures w[a].id < w[b].id {
      assert w[a] == rows[if a < i then a else a + 1];
      assert w[b] == rows[if b < i then b else b + 1];
    }
    forall a | 0 <= a < |w| ensures 0 < w[a].id < nextId && ValidBody(Fields(w[a])) {
      assert w[a] == rows[if a < i then a else a + 1];
    }
  }

  /** Positions of the table after removing the row with id `id`, found at position `i`. */
  lemma WithoutElements(rows: seq<Contact>, nextId: nat, id: nat, i: nat)
    requires ValidRows(rows, nextId) && IndexOf(rows, id) == Some(i)
    ensures |Without(rows, id)| == |rows| - 1
    ensures forall k :: 0 <= k < i ==> Without(rows, id)[k] == rows[k]
    ensures forall k :: i <= k < |rows| - 1 ==> Without(rows, id)[k] == rows[k + 1]
    ensures ValidRows(Without(rows, id), nextId)
  {
    DropElements(rows, i);
    DropKeepsValid(rows, nextId, i);
  }

  /** After a removal the table is still valid and the id is gone. */
  lemma WithoutRemoves(rows: seq<Contact>, nextId: nat, id: nat)
    requires ValidRows(rows, nextId)
    ensures ValidRows(Without(rows, id), nextId)
    ensures Lookup(Without(rows, id), id).None?
  {
    match IndexOf(rows, id)
    case None =>
    case Some(i) =>
      var w := Without(rows, id);
      WithoutElements(rows, nextId, id, i);
      forall k | 0 <= k < |w| ensures w[k].id != id {
        if k < i {
          assert w[k].id < rows[i].id;
        } else {
          assert w[k].id > rows[i].id;
        }
      }
      LookupMeaning(w, id);
  }

  /** A removal leaves every other id finding what it found before. */
  lemma WithoutKeepsOthers(rows: seq<Contact>, nextId: nat, id: nat, other: nat)
    requires ValidRows(rows, nextId) && other != id
    ensures Lookup(Without(rows, id), other) == Lookup(rows, other)
  {
    if IndexOf(rows, id).Some? {
      var i := IndexOf(rows, id).value;
      var w := Without(rows, id);
      WithoutElements(rows, nextId, id, i);
      if IndexOf(rows, other).Some? {
        var j := IndexOf(rows, other).value;
        var k := if j < i then j else j - 1;
        assert w[k] == rows[j];
        LookupFindsRow(w, nextId, k);
      } else {
        forall k | 0 <= k < |w| ensures w[k].id != other {
          if k >= i {
            assert w[k] == rows[k + 1];
          }
        }
        LookupMeaning(w, other);
      }
    }
  }

  /** Deleting twice is deleting once: the second delete finds nothing and changes nothing. */
  lemma RemoveIdempotent(rows: seq<Contact>, nextId: nat, id: nat)
    requires ValidRows(rows, nextId)
    ensures Lookup(Without(rows, id), id) == None
    ensures Without(Without(rows, id), id) == Without(rows, id)
  {
    WithoutRemoves(rows, nextId, id);
    WithoutAbsent(Without(rows, id), id);
  }

  /** Overwriting changes exactly the five fields; id and owner stay. */
  lemma OverwriteExactlyFive(c: Contact, b: ContactBody)
    ensures Fields(Overwrite(c, b)) == b
    ensures Overwrite(c, b).id == c.id && Overwrite(c, b).userId == c.userId
    ensures Overwrite(c, Fields(c)) == c
  {
  }

  /**
    After an update of a present id, looking that id up gives the old row with the
    body's five fields; every other id finds what it found before; the table stays
    valid and keeps its ids in place. An absent id changes nothing.
  */
  lemma UpdatedLookup(rows: seq<Contact>, nextId: nat, id: nat, b: ContactBody, other: nat)
    requires ValidRows(rows, nextId) && ValidBody(b)
    ensures ValidRows(Updated(rows, id, b), nextId)
    ensures |Updated(rows, id, b)| == |rows|
    ensures forall k :: 0 <= k < |rows| ==> Updated(rows, id, b)[k].id == rows[k].id
    ensures Lookup(Updated(rows, id, b), id) ==
              (match Lookup(rows, id) case None => None case Some(c) => Some(Overwrite(c, b)))
    ensures other != id ==> Lookup(Updated(rows, id, b), other) == Lookup(rows, other)
    ensures Lookup(rows, id).None? ==> Updated(rows, id, b) == rows
  {
    var u := Updated(rows, id, b);
    assert |u| == |rows| && forall k :: 0 <= k < |rows| ==> u[k].id == rows[k].id;
    SameIdsSameIndex(rows, u, id);
    SameIdsSameIndex(rows, u, other);
  }

  // ---------------------------------------------------------------------------
  // The table the repository functions work on
  // ---------------------------------------------------------------------------

  /** The `contacts` table as seen through the session: rows plus the id sequence. */
  class ContactTable {
    var rows: seq<Contact>
    var nextId: nat

    ghost predicate Valid()
      reads this
    {
      ValidRows(rows, nextId)
    }

    constructor ()
      ensures Valid() && rows == [] && nextId == 1
    {
      rows := [];
      nextId := 1;
    }

    /** `get_contacts(skip, limit)`. */
    method GetContacts(skip: nat, limit: nat) returns (page: seq<Contact>)
      requires Valid()
      ensures page == Page(rows, skip, limit)
      ensures |page| <= limit
      ensures forall i :: 0 <= i < |page| ==> skip + i < |rows| && page[i] == rows[skip + i]
    {
      var start := if skip < |rows| then skip else |rows|;
      var end := if limit < |rows| - start then start + limit else |rows|;
      page := rows[start..end];
    }

    /** `get_contact(id)`: the row with that id or `None`; nothing changes. */
    method GetContact(id: nat) returns (r: Option<Contact>)
      requires Valid()
      ensures r == Lookup(rows, id)
      ensures r.Some? ==> r.value in rows && r.value.id == id
      ensures r.None? <==> forall k :: 0 <= k < |rows| ==> rows[k].id != id
    {
      var i := IndexOf(rows, id);
      r := if i.Some? then Some(rows[i.value]) else None;
    }

    /** `create_contact(body)`: one new row with a fresh id and the body's fields. */
    method CreateContact(body: ContactBody) returns (c: Contact)
      requires Valid() && ValidBody(body)
      modifies this
      ensures Valid()
      ensures Fields(c) == body && c.userId == None
      ensures c.id == old(nextId) && Lookup(old(rows), c.id).None?
      ensures rows == old(rows) + [c] && nextId == old(nextId) + 1
    {
      c := Contact(nextId, body.firstName, body.lastName, body.email, body.phone, body.birthday, None);
      LookupMeaning(rows, c.id);
      rows := rows + [c];
      nextId := nextId + 1;
    }

    /** `remove_contact(id)`: the removed row, or `None` with the table unchanged. */
    method RemoveContact(id: nat) returns (r: Option<Contact>)
      requires Valid()
      modifies this
      ensures Valid() && nextId == old(nextId)
      ensures r == Lookup(old(rows), id)
      ensures rows == Without(old(rows), id)
    {
      var i := IndexOf(rows, id);
      WithoutRemoves(rows, nextId, id);
      if i.Some? {
        r := Some(rows[i.value]);
        rows := rows[..i.value] + rows[i.value + 1..];
      } else {
        r := None;
      }
    }

    /** `update_contact(id, body)`: the overwritten row, or `None` with the table unchanged. */
    method UpdateContact(id: nat, body: ContactBody) returns (r: Option<Contact>)
      requires Valid() && ValidBody(body)
      modifies this
      ensures Valid() && nextId == old(nextId)
      ensures r == (match Lookup(old(rows), id) case None => None case Some(c) => Some(Overwrite(c, body)))
      ensures rows == Updated(old(rows), id, body)
    {
      var i := IndexOf(rows, id);
      UpdatedLookup(rows, nextId, id, body, id);
      if i.Some? {
        var c := Overwrite(rows[i.value], body);
        rows := rows[i.value := c];
        r := Some(c);
      } else {
        r := None;
      }
    }
  }

  /** Deleting the same id twice: the second call returns `None` and changes nothing. */
  method RepeatedDelete(t: ContactTable, id: nat) returns (first: Option<Contact>, second: Option<Contact>)
    requires t.Valid()
    modifies t
    ensures t.Valid() && second == None
    ensures t.rows == Without(old(t.rows), id)
  {
    first := t.RemoveContact(id);
    second := t.RemoveContact(id);
    RemoveIdempotent(old(t.rows), old(t.nextId), id);
  }
}
