/** The contact directory of the contacts exercise: a store of
    `{id, name, phone}` records and the five operations served on it (list,
    retrieve, create, update, delete). The persisted store is passed in and
    the new store is returned; every write goes through `SetContacts`, which
    sorts by name. The artificial latency is not modelled, and the fresh id
    that `createContact` derives from the clock is a parameter. */
module FakeApi {
  import opened Search
  import opened LexOrder

  /** The form data of a contact: untrusted, no id. */
  datatype ContactData = ContactData(name: string, phone: string)

  datatype Contact = Contact(id: string, name: string, phone: string)

  /** The body of `json({})`. */
  datatype Empty = Empty

  /** What an operation answers: the JSON payload with status 200, or an
      error status with `{message}`. */
  datatype Response<+T> = Ok(payload: T) | Fail(status: int, message: string)

  /** The store after an operation, and the operation's answer. */
  datatype Outcome<+T> = Outcome(store: seq<Contact>, response: Response<T>)

  const NotFound := 404
  const BadRequest := 400
  const NameMissing := "Preencha o campo nome"
  const PhoneMissing := "Preencha o campo telefone"

  function NotFoundMessage(id: string): (msg: string)
  {
    "Não existe contato com id " + id
  }

  // ---------------------------------------------------------------------
  // The record store

  predicate NameLe(a: Contact, b: Contact)
  {
    LexLe(a.name, b.name)
  }

  /** Ascending by name, every pair of positions compared. */
  predicate Sorted(s: seq<Contact>)
  {
    forall i, j :: 0 <= i < j < |s| ==> NameLe(s[i], s[j])
  }

  predicate HasId(s: seq<Contact>, id: string)
  {
    exists i :: 0 <= i < |s| && s[i].id == id
  }

  /** Position `i` holds the first record of `s` whose id is `id`. */
  predicate FirstWithId(s: seq<Contact>, id: string, i: int)
  {
    0 <= i < |s| && s[i].id == id && forall j :: 0 <= j < i ==> s[j].id != id
  }

  predicate UniqueIds(s: seq<Contact>)
  {
    forall i, j :: 0 <= i < |s| && 0 <= j < |s| && s[i].id == s[j].id ==> i == j
  }

  /** The store as read back: an absent blob reads as the empty list; there
      is no seed dataset. */
  function GetContacts(stored: Option<seq<Contact>>): (r: seq<Contact>)
    ensures stored.None? ==> r == []
    ensures stored.Some? ==> r == stored.value
  {
    match stored
    case None => []
    case Some(s) => s
  }

  /** Puts `c` in front of the first record whose name is not smaller, so
      that records with equal names keep their relative order. */
  function Insert(s: seq<Contact>, c: Contact): (r: seq<Contact>)
    requires Sorted(s)
    ensures Sorted(r)
    ensures multiset(r) == multiset(s) + multiset{c}
    ensures forall x :: x in r <==> x in s || x == c
  {
    if |s| == 0 || NameLe(c, s[0]) then
      forall j | 0 <= j < |s|
        ensures NameLe(c, s[j])
      {
        if j > 0 {
          LexLeTransitive(c.name, s[0].name, s[j].name);
        }
      }
      [c] + s
    else
      LexLeTotal(c.name, s[0].name);
      var rest := Insert(s[1..], c);
      assert s == [s[0]] + s[1..];
      forall j | 0 <= j < |rest|
        ensures NameLe(s[0], rest[j])
      {
        if rest[j] != c {
          assert rest[j] in s[1..];
        }
      }
      [s[0]] + rest
  }

  /** What `setContacts` stores: its argument sorted by name. */
  function SetContacts(s: seq<Contact>): (r: seq<Contact>)
    ensures Sorted(r)
    ensures multiset(r) == multiset(s)
  {
    if |s| == 0 then []
    else
      assert s == [s[0]] + s[1..];
      Insert(SetContacts(s[1..]), s[0])
  }

  /** Storing an already sorted list stores it as it is. */
  lemma {:induction false} SetContactsOfSorted(s: seq<Contact>)
    requires Sorted(s)
    ensures SetContacts(s) == s
  {
    if |s| > 0 {
      SetContactsOfSorted(s[1..]);
      assert s == [s[0]] + s[1..];
    }
  }

  // ---------------------------------------------------------------------
  // Validation

  predicate IsValid(data: ContactData)
  {
    data.name != "" && data.phone != ""
  }

  /** The message of the first failing check, or "" when the data is valid. */
  function ValidateContact(data: ContactData): (msg: string)
    ensures data.name == "" ==> msg == NameMissing
    ensures data.name != "" ==> (msg == PhoneMissing <==> data.phone == "")
    ensures msg == "" <==> IsValid(data)
  {
    if data.name == "" then NameMissing
    else if data.phone == "" then PhoneMissing
    else ""
  }

  // ---------------------------------------------------------------------
  // The service

  /** Index of the record `Array.prototype.find` returns for `id`. */
  function FindContact(store: seq<Contact>, id: string): (r: Option<nat>)
    ensures r.Some? ==> FirstWithId(store, id, r.value)
    ensures r.None? <==> !HasId(store, id)
  {
    FindIndex(store, (c: Contact) => c.id == id)
  }

  /** Listing never fails and answers the whole store, unfiltered and in
      stored order. */
  function ListContacts(store: seq<Contact>): (r: Response<seq<Contact>>)
    ensures r.Ok?
    ensures r.payload == store
  {
    Ok(store)
  }

  function RetrieveContact(store: seq<Contact>, id: string): (r: Response<Contact>)
    ensures r.Fail? <==> !HasId(store, id)
    ensures r.Fail? ==> r.status == NotFound && r.message == NotFoundMessage(id)
    ensures r.Ok? ==> exists i :: FirstWithId(store, id, i) && r.payload == store[i]
  {
    match FindContact(store, id)
    case None => Fail(NotFound, NotFoundMessage(id))
    case Some(i) => Ok(store[i])
  }

  /** `newId` stands for the timestamp string the source uses as the id; the
      source does not check it against the ids already stored. */
  function CreateContact(store: seq<Contact>, data: ContactData, newId: string): (r: Outcome<Contact>)
    ensures !IsValid(data) ==> r.store == store
    ensures !IsValid(data) ==> r.response == Fail(BadRequest, ValidateContact(data))
    ensures IsValid(data) ==> r.response == Ok(Contact(newId, data.name, data.phone))
    ensures IsValid(data) ==> Sorted(r.store)
    ensures IsValid(data) ==>
      multiset(r.store) == multiset(store) + multiset{Contact(newId, data.name, data.phone)}
  {
    var msg := ValidateContact(data);
    if msg != "" then
      Outcome(store, Fail(BadRequest, msg))
    else
      var c := Contact(newId, data.name, data.phone);
      Outcome(SetContacts(store + [c]), Ok(c))
  }

  /** Existence is checked before validation; the record keeps its id and
      takes the name and phone of `data`. */
  function UpdateContact(store: seq<Contact>, id: string, data: ContactData): (r: Outcome<Contact>)
    ensures !HasId(store, id) ==> r == Outcome(store, Fail(NotFound, NotFoundMessage(id)))
    ensures HasId(store, id) && !IsValid(data) ==>
      r == Outcome(store, Fail(BadRequest, ValidateContact(data)))
    ensures HasId(store, id) && IsValid(data) ==>
      && r.response == Ok(Contact(id, data.name, data.phone))
      && Sorted(r.store)
      && exists i :: FirstWithId(store, id, i) &&
           multiset(r.store) == multiset(store[i := Contact(id, data.name, data.phone)])
  {
    match FindContact(store, id)
    case None => Outcome(store, Fail(NotFound, NotFoundMessage(id)))
    case Some(i) =>
      var msg := ValidateContact(data);
      if msg != "" then
        Outcome(store, Fail(BadRequest, msg))
      else
        var updated := Contact(store[i].id, data.name, data.phone);
        Outcome(SetContacts(store[i := updated]), Ok(updated))
  }

  /** The records whose id is not `id`, in their original order. */
  function RemoveId(s: seq<Contact>, id: string): (r: seq<Contact>)
    ensures forall c :: multiset(r)[c] == if c.id == id then 0 else multiset(s)[c]
    ensures !HasId(s, id) ==> r == s
  {
    if |s| == 0 then []
    else
      assert s == [s[0]] + s[1..];
      assert !HasId(s, id) ==> !HasId(s[1..], id) by {
        if HasId(s[1..], id) {
          var k :| 0 <= k < |s[1..]| && s[1..][k].id == id;
          assert s[k + 1].id == id;
        }
      }
      if s[0].id == id then RemoveId(s[1..], id)
      else [s[0]] + RemoveId(s[1..], id)
  }

  /** Dropping records from a sorted store leaves it sorted. */
  lemma {:induction false} RemoveIdKeepsSorted(s: seq<Contact>, id: string)
    requires Sorted(s)
    ensures Sorted(RemoveId(s, id))
  {
    if |s| > 0 {
      RemoveIdKeepsSorted(s[1..], id);
      var rest := RemoveId(s[1..], id);
      forall j | 0 <= j < |rest|
        ensures NameLe(s[0], rest[j])
      {
        assert rest[j] in multiset(s[1..]);
      }
    }
  }

  /** The filter keeps the records of a single-record list exactly when its id
      differs. */
  lemma RemoveIdSingle(c: Contact, id: string)
    ensures RemoveId([c], id) == if c.id == id then [] else [c]
  {
    assert [c][1..] == [];
  }

  /** The filter works record by record, keeping the survivors in their
      original order. */
  lemma {:induction false} RemoveIdAppend(a: seq<Contact>, b: seq<Contact>, id: string)
    ensures RemoveId(a + b, id) == RemoveId(a, id) + RemoveId(b, id)
    decreases |a|
  {
    if |a| > 0 {
      var ab := a + b;
      assert ab[0] == a[0] && ab[1..] == a[1..] + b;
      RemoveIdAppend(a[1..], b, id);
      if a[0].id == id {
        assert RemoveId(ab, id) == RemoveId(a[1..] + b, id);
        assert RemoveId(a, id) == RemoveId(a[1..], id);
      } else {
        assert RemoveId(ab, id) == [a[0]] + RemoveId(a[1..] + b, id);
        assert RemoveId(a, id) == [a[0]] + RemoveId(a[1..], id);
      }
    } else {
      assert a + b == b;
    }
  }

  /** Deleting never fails, whether or not a record has `id`. */
  function DeleteContact(store: seq<Contact>, id: string): (r: Outcome<Empty>)
    ensures r.response == Ok(Empty)
    ensures Sorted(r.store)
    ensures forall c :: multiset(r.store)[c] == if c.id == id then 0 else multiset(store)[c]
  {
    Outcome(SetContacts(RemoveId(store, id)), Ok(Empty))
  }

  // ---------------------------------------------------------------------
  // Properties relating several operations

  /** No record with `id` is left after deleting it. */
  lemma DeleteRemovesId(store: seq<Contact>, id: string)
    ensures !HasId(DeleteContact(store, id).store, id)
  {
    var s := DeleteContact(store, id).store;
    forall k | 0 <= k < |s|
      ensures s[k].id != id
    {
      assert s[k] in multiset(s);
    }
  }

  /** On a sorted store, which every reachable store is, the delete stores
      exactly the filtered list, in its original order. */
  lemma DeleteOfSorted(store: seq<Contact>, id: string)
    requires Sorted(store)
    ensures DeleteContact(store, id).store == RemoveId(store, id)
  {
    RemoveIdKeepsSorted(store, id);
    SetContactsOfSorted(RemoveId(store, id));
  }

  lemma DeleteThenRetrieve(store: seq<Contact>, id: string)
    ensures RetrieveContact(DeleteContact(store, id).store, id) == Fail(NotFound, NotFoundMessage(id))
  {
    DeleteRemovesId(store, id);
  }

  lemma DeleteIdempotent(store: seq<Contact>, id: string)
    ensures DeleteContact(DeleteContact(store, id).store, id) == DeleteContact(store, id)
  {
    var once := DeleteContact(store, id).store;
    DeleteRemovesId(store, id);
    SetContactsOfSorted(once);
  }

  /** On a sorted store, deleting an id nobody has changes nothing. */
  lemma DeleteUnknownIsNoop(store: seq<Contact>, id: string)
    requires Sorted(store) && !HasId(store, id)
    ensures DeleteContact(store, id) == Outcome(store, Ok(Empty))
  {
    SetContactsOfSorted(store);
  }

  /** A record created under an id nobody has is what retrieving that id
      answers. */
  lemma CreateThenRetrieve(store: seq<Contact>, data: ContactData, newId: string)
    requires IsValid(data) && !HasId(store, newId)
    ensures RetrieveContact(CreateContact(store, data, newId).store, newId)
         == Ok(Contact(newId, data.name, data.phone))
  {
    var c := Contact(newId, data.name, data.phone);
    var s := CreateContact(store, data, newId).store;
    assert c in multiset(s);
    assert HasId(s, newId) by {
      var k :| 0 <= k < |s| && s[k] == c;
    }
    var x := RetrieveContact(s, newId).payload;
    assert x in multiset(s);
    assert x == c;
  }

  /** When ids are unique, retrieving an updated id answers the record with
      the original id and the new fields. */
  lemma UpdateThenRetrieve(store: seq<Contact>, id: string, data: ContactData)
    requires UniqueIds(store) && HasId(store, id) && IsValid(data)
    ensures RetrieveContact(UpdateContact(store, id, data).store, id)
         == Ok(Contact(id, data.name, data.phone))
  {
    var u := Contact(id, data.name, data.phone);
    var s := UpdateContact(store, id, data).store;
    var i :| FirstWithId(store, id, i) && multiset(s) == multiset(store[i := u]);
    assert store[i := u][i] == u;
    assert u in multiset(s);
    assert HasId(s, id) by {
      var k :| 0 <= k < |s| && s[k] == u;
    }
    var x := RetrieveContact(s, id).payload;
    assert x in multiset(store[i := u]);
    var k :| 0 <= k < |store[i := u]| && store[i := u][k] == x;
    assert k == i;
  }

  // ---------------------------------------------------------------------
  // Sequences of requests, starting from the empty store

  datatype Request =
    | List
    | Retrieve(id: string)
    | Create(data: ContactData, newId: string)
    | Update(id: string, data: ContactData)
    | Delete(id: string)

  /** The store after serving `req`. */
  function Perform(store: seq<Contact>, req: Request): (r: seq<Contact>)
  {
    match req
    case List => store
    case Retrieve(_) => store
    case Create(data, newId) => CreateContact(store, data, newId).store
    case Update(id, data) => UpdateContact(store, id, data).store
    case Delete(id) => DeleteContact(store, id).store
  }

  /** The store after serving `reqs` in order, from a browser with nothing
      stored yet. */
  function Replay(reqs: seq<Request>): (r: seq<Contact>)
  {
    if |reqs| == 0 then GetContacts(None)
    else Perform(Replay(reqs[..|reqs| - 1]), reqs[|reqs| - 1])
  }

  /** Whatever was served before, listing answers the records sorted by
      name. */
  lemma {:induction false} ListAlwaysSorted(reqs: seq<Request>)
    ensures ListContacts(Replay(reqs)).Ok?
    ensures Sorted(ListContacts(Replay(reqs)).payload)
  {
    if |reqs| > 0 {
      ListAlwaysSorted(reqs[..|reqs| - 1]);
    }
  }

  /** Nothing keeps two created records from sharing an id. */
  lemma DuplicateIdsReachable()
    ensures !UniqueIds(Replay([Create(ContactData("Ana", "1"), "7"), Create(ContactData("Bia", "2"), "7")]))
  {
    var reqs := [Create(ContactData("Ana", "1"), "7"), Create(ContactData("Bia", "2"), "7")];
    var ana := Contact("7", "Ana", "1");
    var bia := Contact("7", "Bia", "2");
    assert reqs[..1][..0] == [];
    assert Replay(reqs[..1]) == CreateContact([], ContactData("Ana", "1"), "7").store;
    var s := Replay(reqs);
    assert s == CreateContact(Replay(reqs[..1]), ContactData("Bia", "2"), "7").store;
    assert multiset(s) == multiset{ana, bia};
    assert ana in multiset(s) && bia in multiset(s);
    var a :| 0 <= a < |s| && s[a] == ana;
    var b :| 0 <= b < |s| && s[b] == bia;
    assert a != b && s[a].id == s[b].id;
  }

  /** With two records sharing an id, an update renames the first one, the
      re-sort moves it behind the other, and retrieving the id answers the
      record that was not updated. */
  lemma UpdateWithDuplicateIds()
    ensures var store := [Contact("7", "Ana", "1"), Contact("7", "Bia", "2")];
      && UpdateContact(store, "7", ContactData("Ze", "3")).response == Ok(Contact("7", "Ze", "3"))
      && RetrieveContact(UpdateContact(store, "7", ContactData("Ze", "3")).store, "7")
         == Ok(Contact("7", "Bia", "2"))
  {
    var store := [Contact("7", "Ana", "1"), Contact("7", "Bia", "2")];
    var ze := Contact("7", "Ze", "3");
    var bia := Contact("7", "Bia", "2");
    assert FindContact(store, "7") == Some(0);
    var s := UpdateContact(store, "7", ContactData("Ze", "3")).store;
    assert multiset(s) == multiset{ze, bia} by {
      assert store[0 := ze] == [ze, bia];
    }
    assert |s| == 2;
    assert !NameLe(ze, bia);
    assert s == [s[0], s[1]];
    assert NameLe(s[0], s[1]);
    assert s[0] == bia;
    assert FindContact(s, "7") == Some(0);
  }
}
