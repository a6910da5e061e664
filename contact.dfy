/** The contact table (`Contact` component): its fetch of contacts and users,
    the display projection of each contact, and the in-memory edit, save,
    delete, cancel and field-change handlers over its state. */
module ContactTable {
  import opened Js
  import opened FieldSet
  import opened Filter

  const UsersUrl := "https://api2.ploomes.com/Users"
  const UserKeyMissing := "User key not found."
  const SearchFailed := "Error seaching contacts. :("

  /** The `Phones` member of a contact: missing, `null`, or the list of its
      phone records, each given by its `PhoneNumber`. */
  datatype Phones = NoPhones | PhoneList(numbers: seq<Value>)

  /** A contact as the table holds it. `phoneNumber` and `ownerName` are the
      display members that the fetch adds to each contact of the response. */
  datatype Contact = Contact(
    id: Value,
    name: Value,
    email: Value,
    phones: Phones,
    ownerId: Value,
    phoneNumber: Value,
    ownerName: Value)

  datatype User = User(id: Value, name: Value)

  /** `contact.Phones && contact.Phones.length > 0 ? contact.Phones[0].PhoneNumber : otherwise` */
  function FirstPhone(c: Contact, otherwise: Value): Value
  {
    if c.phones.PhoneList? && |c.phones.numbers| > 0 then c.phones.numbers[0] else otherwise
  }

  // ---------------------------------------------------------------------------
  // Owner names

  /** `us[j]` is the last user of the list whose `Id` is `k`. */
  predicate LastWithId(us: seq<User>, j: int, k: Value)
  {
    0 <= j < |us| && us[j].id == k && forall j' :: j < j' < |us| ==> us[j'].id != k
  }

  /** `new Map(users.map(user => [user.Id, user.Name]))`: the entries are set
      in order, so a later user with the same `Id` replaces an earlier one. */
  function UsersMap(us: seq<User>): map<Value, Value>
  {
    if us == [] then map[] else UsersMap(us[..|us| - 1])[us[|us| - 1].id := us[|us| - 1].name]
  }

  /** An id is a key of the users map exactly when some user has it, and it
      maps to the name of the last such user. */
  lemma {:induction false} UsersMapLookup(us: seq<User>, k: Value)
    ensures k !in UsersMap(us) <==> forall j :: 0 <= j < |us| ==> us[j].id != k
    ensures forall j :: LastWithId(us, j, k) ==> k in UsersMap(us) && UsersMap(us)[k] == us[j].name
  {
    if us != [] {
      var n := |us| - 1;
      var init := us[..n];
      UsersMapLookup(init, k);
      if us[n].id == k {
        forall j | LastWithId(us, j, k) ensures j == n {
        }
      } else {
        forall j | LastWithId(us, j, k) ensures LastWithId(init, j, k) {
          assert init[j] == us[j];
        }
        if k !in UsersMap(us) {
          forall j | 0 <= j < |us| ensures us[j].id != k {
            if j < n { assert init[j] == us[j]; }
          }
        }
      }
    }
  }

  // ---------------------------------------------------------------------------
  // Display projection

  /** `{ ...contact, PhoneNumber: phoneNumber || 'N/A', OwnerName: usersMap.get(contact.OwnerId) || 'Desconhecido' }` */
  function Display(c: Contact, owners: map<Value, Value>): (r: Contact)
    ensures r.(phoneNumber := c.phoneNumber, ownerName := c.ownerName) == c
    ensures r.phoneNumber ==
      if c.phones.PhoneList? && |c.phones.numbers| > 0 && Truthy(c.phones.numbers[0])
      then c.phones.numbers[0] else Str("N/A")
    ensures r.ownerName ==
      if c.ownerId in owners && Truthy(owners[c.ownerId]) then owners[c.ownerId] else Str("Desconhecido")
  {
    c.(phoneNumber := Or(FirstPhone(c, Str("N/A")), Str("N/A")),
       ownerName := Or(if c.ownerId in owners then owners[c.ownerId] else Undefined, Str("Desconhecido")))
  }

  /** `processedContacts`: the response's contacts, each projected for display. */
  function DisplayAll(cs: seq<Contact>, us: seq<User>): (r: seq<Contact>)
    ensures |r| == |cs|
  {
    var owners := UsersMap(us);
    seq(|cs|, i requires 0 <= i < |cs| => Display(cs[i], owners))
  }

  /** The processed list keeps the length and order of the response; entry `i`
      is contact `i` with its first truthy phone number (else 'N/A') and the
      name of the last user whose id is its owner id (else 'Desconhecido'). */
  lemma DisplayedList(cs: seq<Contact>, us: seq<User>, i: int)
    requires 0 <= i < |cs|
    ensures |DisplayAll(cs, us)| == |cs|
    ensures DisplayAll(cs, us)[i].(phoneNumber := cs[i].phoneNumber, ownerName := cs[i].ownerName) == cs[i]
    ensures DisplayAll(cs, us)[i].phoneNumber ==
      if cs[i].phones.PhoneList? && |cs[i].phones.numbers| > 0 && Truthy(cs[i].phones.numbers[0])
      then cs[i].phones.numbers[0] else Str("N/A")
    ensures (forall j :: 0 <= j < |us| ==> us[j].id != cs[i].ownerId) ==>
      DisplayAll(cs, us)[i].ownerName == Str("Desconhecido")
    ensures forall j :: LastWithId(us, j, cs[i].ownerId) ==>
      DisplayAll(cs, us)[i].ownerName == if Truthy(us[j].name) then us[j].name else Str("Desconhecido")
  {
    UsersMapLookup(us, cs[i].ownerId);
  }

  // ---------------------------------------------------------------------------
  // Editing

  predicate HasId(cs: seq<Contact>, id: Value)
  {
    exists i :: 0 <= i < |cs| && cs[i].id == id
  }

  /** `contacts.find((c) => c.Id === id)`, as the index of the first match. */
  function FindFirst(cs: seq<Contact>, id: Value): (i: nat)
    requires HasId(cs, id)
    ensures i < |cs| && cs[i].id == id
    ensures forall j :: 0 <= j < i ==> cs[j].id != id
  {
    if cs[0].id == id then 0
    else
      assert HasId(cs[1..], id) by {
        var i :| 0 <= i < |cs| && cs[i].id == id;
        assert cs[1..][i - 1].id == id;
      }
      1 + FindFirst(cs[1..], id)
  }

  /** The edit buffer `handleEdit` seeds from a contact: its first phone
      number, or '' when it has none. */
  function Seed(c: Contact): Fields<Value>
  {
    Fields(c.name, c.email, FirstPhone(c, Str("")), c.ownerId)
  }

  /** The PATCH body `updatedFields`. A changed phone is sent as the key
      `Phones` holding the one-element list `[{ PhoneNumber: v }]`; `phone`
      holds that `v`. */
  datatype Patch = Patch(name: Option<Value>, email: Option<Value>, phone: Option<Value>, ownerId: Option<Value>)
  {
    function Get(k: Key): Option<Value>
    {
      match k
      case Name => name
      case Email => email
      case Phone => phone
      case OwnerId => ownerId
    }

    /** `Object.keys(updatedFields)`, in insertion order. */
    function Keys(): seq<string>
    {
      (if name.Some? then ["Name"] else []) + (if email.Some? then ["Email"] else [])
      + (if phone.Some? then ["Phones"] else []) + (if ownerId.Some? then ["OwnerId"] else [])
    }

    predicate IsEmpty()
    {
      Keys() == []
    }
  }

  /** `updatedFields`: a key is present exactly when the edited value differs
      (`!==`) from the value seeded from the contact, and carries the edited value. */
  function Diff(e: Fields<Value>, c: Contact): (p: Patch)
    ensures forall k :: p.Get(k).Some? <==> e.Get(k) != Seed(c).Get(k)
    ensures forall k :: p.Get(k).Some? ==> p.Get(k).value == e.Get(k)
  {
    Patch(
      if e.name != c.name then Some(e.name) else None,
      if e.email != c.email then Some(e.email) else None,
      if e.phone != FirstPhone(c, Str("")) then Some(e.phone) else None,
      if e.ownerId != c.ownerId then Some(e.ownerId) else None)
  }

  /** `{ ...contact, ...updatedFields }`: the keys of the patch overwrite the
      contact's; the id and the display members are kept. */
  function Apply(c: Contact, p: Patch): (r: Contact)
    ensures forall k :: Seed(r).Get(k) == if p.Get(k).Some? then p.Get(k).value else Seed(c).Get(k)
    ensures r.phones == if p.phone.Some? then PhoneList([p.phone.value]) else c.phones
    ensures r.id == c.id && r.phoneNumber == c.phoneNumber && r.ownerName == c.ownerName
  {
    c.(name := if p.name.Some? then p.name.value else c.name,
       email := if p.email.Some? then p.email.value else c.email,
       phones := if p.phone.Some? then PhoneList([p.phone.value]) else c.phones,
       ownerId := if p.ownerId.Some? then p.ownerId.value else c.ownerId)
  }

  lemma PatchEmpty(p: Patch)
    ensures p.IsEmpty() <==> forall k :: p.Get(k).None?
  {
    if !p.IsEmpty() {
      assert p.Get(Name).Some? || p.Get(Email).Some? || p.Get(Phone).Some? || p.Get(OwnerId).Some?;
    }
  }

  /** The diff is empty, so no request is made, exactly when the edit buffer
      equals what `handleEdit` seeds from the contact. */
  lemma DiffEmpty(e: Fields<Value>, c: Contact)
    ensures Diff(e, c).IsEmpty() <==> e == Seed(c)
  {
  }

  /** Applying the diff to the contact and seeding again gives back the edit buffer. */
  lemma DiffRoundTrip(e: Fields<Value>, c: Contact)
    ensures Seed(Apply(c, Diff(e, c))) == e
  {
  }

  /** The diff is minimal: any patch that brings the contact to the edit
      buffer carries every key the diff carries. */
  lemma DiffMinimal(e: Fields<Value>, c: Contact, p: Patch)
    requires Seed(Apply(c, p)) == e
    ensures forall k :: Diff(e, c).Get(k).Some? ==> p.Get(k).Some?
  {
  }

  /** `prevContacts.map((contact) => contact.Id === id ? { ...contact, ...updatedFields } : contact)` */
  function PatchAll(cs: seq<Contact>, id: Value, p: Patch): seq<Contact>
  {
    seq(|cs|, i requires 0 <= i < |cs| => if cs[i].id == id then Apply(cs[i], p) else cs[i])
  }

  /** A successful save keeps the list's length, order and ids, leaves every
      entry with another id as it was, and patches every entry with the id. */
  lemma PatchAllEntries(cs: seq<Contact>, id: Value, p: Patch)
    ensures |PatchAll(cs, id, p)| == |cs|
    ensures forall i :: 0 <= i < |cs| ==> PatchAll(cs, id, p)[i].id == cs[i].id
    ensures forall i :: 0 <= i < |cs| && cs[i].id != id ==> PatchAll(cs, id, p)[i] == cs[i]
    ensures forall i :: 0 <= i < |cs| && cs[i].id == id ==> PatchAll(cs, id, p)[i] == Apply(cs[i], p)
  {
  }

  /** After a successful save, seeding the edit buffer again from the saved
      contact reproduces the buffer that was saved, so a second save at once
      sends nothing. */
  lemma SaveRoundTrip(cs: seq<Contact>, id: Value, e: Fields<Value>)
    requires HasId(cs, id)
    ensures var r := PatchAll(cs, id, Diff(e, cs[FindFirst(cs, id)]));
      HasId(r, id) && Seed(r[FindFirst(r, id)]) == e && Diff(e, r[FindFirst(r, id)]).IsEmpty()
  {
    var i := FindFirst(cs, id);
    var p := Diff(e, cs[i]);
    var r := PatchAll(cs, id, p);
    assert r[i] == Apply(cs[i], p);
    assert HasId(r, id);
    assert FindFirst(r, id) == i;
    DiffRoundTrip(e, cs[i]);
    DiffEmpty(e, r[i]);
  }

  // ---------------------------------------------------------------------------
  // Deleting

  /** `prevContacts.filter((contact) => contact.Id !== id)` */
  function RemoveId(cs: seq<Contact>, id: Value): seq<Contact>
  {
    if cs == [] then [] else (if cs[0].id != id then [cs[0]] else []) + RemoveId(cs[1..], id)
  }

  /** The filtered list holds exactly the old list's entries with another id. */
  lemma {:induction false} RemoveIdMembers(cs: seq<Contact>, id: Value)
    ensures forall c :: c in RemoveId(cs, id) <==> c in cs && c.id != id
  {
    if cs != [] {
      RemoveIdMembers(cs[1..], id);
      assert forall c :: c in cs <==> c == cs[0] || c in cs[1..];
    }
  }

  /** Deleting an id that no entry has leaves the list as it is. */
  lemma {:induction false} RemoveIdAbsent(cs: seq<Contact>, id: Value)
    requires !HasId(cs, id)
    ensures RemoveId(cs, id) == cs
  {
    if cs != [] {
      RemoveIdAbsent(cs[1..], id);
      assert cs == [cs[0]] + cs[1..];
    }
  }

  /** Removal keeps the remaining contacts in their order: it distributes over
      concatenation. */
  lemma {:induction false} RemoveIdAppend(a: seq<Contact>, b: seq<Contact>, id: Value)
    ensures RemoveId(a + b, id) == RemoveId(a, id) + RemoveId(b, id)
  {
    if a == [] {
      assert a + b == b;
    } else {
      var head := if a[0].id != id then [a[0]] else [];
      assert (a + b)[0] == a[0] && (a + b)[1..] == a[1..] + b;
      assert RemoveId(a + b, id) == head + RemoveId(a[1..] + b, id);
      RemoveIdAppend(a[1..], b, id);
      assert RemoveId(a, id) == head + RemoveId(a[1..], id);
    }
  }

  // ---------------------------------------------------------------------------
  // The component's state

  /** The requests the table issues: the two list reads, the PATCH of one
      contact with its body, and the DELETE of one contact. */
  datatype Request = Get(url: string) | PatchContact(id: Value, body: Patch) | DeleteContact(id: Value)

  /** Both reads succeeded with array-shaped `value` members. */
  predicate Fetched(contactsReply: Reply<Payload<Contact>>, usersReply: Reply<Payload<User>>)
  {
    contactsReply.Ok? && contactsReply.body.Array? && usersReply.Ok? && usersReply.body.Array?
  }

  class Table {
    var contacts: seq<Contact>
    var loading: bool
    var error: Option<string>
    var editContactId: Option<Value>
    var editableFields: Fields<Value>
    var searchFields: Fields<string>

    constructor ()
      ensures contacts == [] && loading && error == None && editContactId == None
      ensures editableFields == Fields(Undefined, Undefined, Undefined, Undefined)
      ensures searchFields == Fields("", "", "", "")
    {
      contacts := [];
      loading := true;
      error := None;
      editContactId := None;
      editableFields := Fields(Undefined, Undefined, Undefined, Undefined);
      searchFields := Fields("", "", "", "");
    }

    /** `fetchContacts`: without a key, report it and stop before the list
        is cleared; otherwise clear the list, read the contacts and, if their
        `value` is an array, the users, and show the processed contacts. Any
        failure leaves the cleared list and reports the search error. */
    method FetchContacts(userKey: Option<string>, enc: string -> string,
                         contactsReply: Reply<Payload<Contact>>, usersReply: Reply<Payload<User>>)
      returns (requests: seq<Request>)
      modifies this
      ensures !loading
      ensures editContactId == old(editContactId) && editableFields == old(editableFields)
      ensures searchFields == old(searchFields)
      ensures !KeyPresent(userKey) ==>
        requests == [] && contacts == old(contacts) && error == Some(UserKeyMissing)
      ensures KeyPresent(userKey) ==>
        requests == [Get(ContactsUrl + ExpandSuffix(searchFields, enc))]
                    + (if contactsReply.Ok? && contactsReply.body.Array? then [Get(UsersUrl)] else [])
      ensures KeyPresent(userKey) && Fetched(contactsReply, usersReply) ==>
        contacts == DisplayAll(contactsReply.body.items, usersReply.body.items) && error == Some("")
      ensures KeyPresent(userKey) && !Fetched(contactsReply, usersReply) ==>
        contacts == [] && error == Some(SearchFailed)
    {
      if !KeyPresent(userKey) {
        error := Some(UserKeyMissing);
        loading := false;
        return [];
      }

      contacts := [];
      loading := true;
      error := Some("");

      requests := [Get(ContactsUrl + ExpandSuffix(searchFields, enc))];
      if contactsReply.Ok? && contactsReply.body.Array? {
        requests := requests + [Get(UsersUrl)];
        if usersReply.Ok? && usersReply.body.Array? {
          contacts := DisplayAll(contactsReply.body.items, usersReply.body.items);
        } else {
          error := Some(SearchFailed);
        }
      } else {
        error := Some(SearchFailed);
      }
      loading := false;
    }

    /** `handleEdit`: enter edit mode on the contact and seed the edit buffer
        from the first contact with that id. */
    method HandleEdit(contactId: Value)
      requires HasId(contacts, contactId)
      modifies this
      ensures contacts == old(contacts) && loading == old(loading) && error == old(error)
      ensures editContactId == Some(contactId)
      ensures editableFields == Seed(contacts[FindFirst(contacts, contactId)])
      ensures searchFields == old(searchFields)
    {
      editContactId := Some(contactId);
      var i := FindFirst(contacts, contactId);
      editableFields := Seed(contacts[i]);
    }

    /** `handleSave`: send only the changed keys; on an ok response patch the
        entries with the id; whatever happens, leave edit mode. */
    method HandleSave(contactId: Value, reply: Reply<()>) returns (request: Option<Request>)
      requires HasId(contacts, contactId)
      modifies this
      ensures editContactId == None
      ensures var p := Diff(old(editableFields), old(contacts)[FindFirst(old(contacts), contactId)]);
        && request == (if p.IsEmpty() then None else Some(PatchContact(contactId, p)))
        && contacts == (if !p.IsEmpty() && reply.Ok? then PatchAll(old(contacts), contactId, p) else old(contacts))
      ensures editableFields == old(editableFields) && loading == old(loading) && error == old(error)
      ensures searchFields == old(searchFields)
    {
      var i := FindFirst(contacts, contactId);
      var updatedFields := Diff(editableFields, contacts[i]);
      request := None;
      if !updatedFields.IsEmpty() {
        request := Some(PatchContact(contactId, updatedFields));
        if reply.Ok? {
          contacts := PatchAll(contacts, contactId, updatedFields);
        }
      }
      editContactId := None;
    }

    /** `handleDelete`: after a confirmed prompt, delete; on an ok response
        drop every entry with the id. */
    method HandleDelete(contactId: Value, confirmed: bool, reply: Reply<()>) returns (request: Option<Request>)
      modifies this
      ensures request == if confirmed then Some(DeleteContact(contactId)) else None
      ensures contacts == if confirmed && reply.Ok? then RemoveId(old(contacts), contactId) else old(contacts)
      ensures editContactId == old(editContactId) && editableFields == old(editableFields)
      ensures loading == old(loading) && error == old(error) && searchFields == old(searchFields)
    {
      request := None;
      if confirmed {
        request := Some(DeleteContact(contactId));
        if reply.Ok? {
          contacts := RemoveId(contacts, contactId);
        }
      }
    }

    /** `handleCancel`: leave edit mode; the edit buffer stays as it is. */
    method HandleCancel()
      modifies this
      ensures editContactId == None
      ensures editableFields == old(editableFields) && contacts == old(contacts)
      ensures loading == old(loading) && error == old(error) && searchFields == old(searchFields)
    {
      editContactId := None;
    }

    /** `handleFieldChange`: an input named `k` writes its string into the
        edit buffer under `k`. */
    method HandleFieldChange(k: Key, value: string)
      modifies this
      ensures editableFields == old(editableFields).With(k, Str(value))
      ensures editContactId == old(editContactId) && contacts == old(contacts)
      ensures loading == old(loading) && error == old(error) && searchFields == old(searchFields)
    {
      editableFields := editableFields.With(k, Str(value));
    }
  }
}
