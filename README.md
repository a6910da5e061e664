# Ploomes contacts: a Dafny model of the contact table, header search and list page

The application lists the contacts of a Ploomes CRM account, using an
access key kept in the browser. Three React components hold its logic:

- **The contact table** (`Contact`, module `ContactTable`). It reads the
  contacts (with their phones expanded) and the account's users. It shows
  each contact's first phone number and its owner's name. It edits a row in
  place, saves only the fields that changed with a PATCH, and deletes a row
  after confirmation.
- **The header** (`Header`, module `HeaderBar`). It keeps its own copy of
  the four search fields. Its Search button probes the filtered Contacts
  URL. Only on success does it hand the fields to its parent and ask the
  parent to refetch.
- **The list page** (`ContactList`, module `ContactListPage`). It owns the
  search fields the header sets and fetches the filtered contacts itself. It
  also holds the open/closed flag of the new-contact sidebar.

All three build the same OData query (OData Version 4.0 Part 2, URL
Conventions, section 5.1.1 for `$filter`, section 5.1.2 for `$expand`). Every
non-empty field among Name, Email, Phone and OwnerId, in that order, becomes
`contains(<Key>,'<encoded value>')`, and the clauses are joined by ` and `.
Module `Filter` defines this builder once. The table's suffix is
`?$expand=Phones`, followed by `&$filter=<query>` when the query is
non-empty. The header's and the list page's suffix is `?$filter=<query>`, or
the empty string when the query is empty.

Each handler is modelled as one sequential step on a class whose fields are
the component's state:

- Whatever the browser or the network supplies is a parameter:
  - the stored key, as `Option<string>`;
  - each reply, as `Ok(body)`, `NotOk` or `Threw`;
  - the confirmation answer, as a `bool`;
  - `encodeURIComponent`, as a function `enc`.
- The requests a handler issues are returned, so "no request is made" can be
  stated.
- The calls the header makes on its parent are returned as a list,
  `SetSearchFields(fields)` then `FetchContacts`.

The components have no pagination: no page size, no `$top`/`$skip`, no
`hasMore` and no scroll handler. The filter has no `Owner/Name eq` clause and
no branch on the length of the phone number; every non-empty field, OwnerId
included, becomes a `contains` clause. `handleCancel` only clears
`editContactId`; the edit buffer is left as it is.

## Model

| member | source | states |
|---|---|---|
| `Filter.ClausesOfAppend` | src/componentes/contact/index.jsx:109-111 | Filtering out empty values and mapping entries to clauses distributes over concatenation, so clauses follow the entries' order. |
| `Filter.ClausesInOrder` | src/componentes/contact/index.jsx:109-112 | The clause list is exactly one `contains(<Key>,'<enc(value)>')` per non-empty field, in the order Name, Email, Phone, OwnerId. Empty fields contribute nothing. |
| `Filter.JoinEmpty` | src/componentes/contact/index.jsx:112 | Joining non-empty parts gives the empty string exactly when there are no parts. |
| `Filter.QueryEmpty` | src/componentes/contact/index.jsx:109-114 | `Query` (the clauses joined by ` and `) is empty if and only if all four search fields are empty. |
| `Filter.SingleFieldQuery` | src/componentes/contact/index.jsx:109-112 | With exactly one non-empty field, the query is that field's clause `contains(<Key>,'<enc(value)>')`, with no space after the comma. |
| `Filter.ExpandSuffixShape` | src/componentes/contact/index.jsx:114 | `ExpandSuffix`, the table's suffix, is exactly `?$expand=Phones` when every field is empty. Otherwise it is `?$expand=Phones&$filter=` followed by the clauses joined by ` and `. |
| `Filter.FilterSuffixShape` | src/componentes/header/index.jsx:117-122 | `FilterSuffix`, the header's suffix, is `''` when every field is empty. Otherwise it is `?$filter=` followed by the clauses joined by ` and `. The list page builds the same suffix (src/componentes/contactList/index.jsx:36-41). |
| `FieldSet.Fields.With` | src/componentes/header/index.jsx:103-106 | `{ ...prev, [key]: value }` gives the named key the new value and leaves the other three keys unchanged. |
| `ContactTable.UsersMapLookup` | src/componentes/contact/index.jsx:151 | An id is a key of `UsersMap` (the `new Map(...)` of line 151) if and only if some user has that `Id`. It maps to the `Name` of the last such user, because later entries replace earlier ones. |
| `ContactTable.Display` | src/componentes/contact/index.jsx:153-163 | The projected contact equals the input apart from its display members. `PhoneNumber` is the first phone's number when `Phones` is a non-empty list and that number is truthy, else `'N/A'`. `OwnerName` is the map's truthy entry for `OwnerId`, else `'Desconhecido'`. |
| `ContactTable.DisplayedList` | src/componentes/contact/index.jsx:151-163 | `DisplayAll` (the `processedContacts` of lines 153-163) has the response's length and order. Entry i is response contact i with its display members added: the phone number as in `Display`, and as owner name the last matching user's name when truthy, or `'Desconhecido'` when no user matches or the name is falsy. |
| `ContactTable.FindFirst` | src/componentes/contact/index.jsx:180 | `contacts.find` on an id that is present yields the first entry with that id: it matches, and no earlier entry does. |
| `ContactTable.Diff` | src/componentes/contact/index.jsx:190-199 | `updatedFields` has a key exactly when the edited value differs (`!==`) from the value seeded from the contact, with the first phone or `''`. The key carries the edited value. |
| `ContactTable.Apply` | src/componentes/contact/index.jsx:214 | `{ ...contact, ...updatedFields }` overwrites exactly the keys present. A phone change becomes the one-element list `[{PhoneNumber: edited}]`. `Id` and the display members are kept. |
| `ContactTable.PatchEmpty` | src/componentes/contact/index.jsx:201 | `Object.keys(updatedFields).length > 0` fails exactly when no key is present. |
| `ContactTable.DiffEmpty` | src/componentes/contact/index.jsx:193-201 | The diff is empty, and no request is made, if and only if the edit buffer equals `Seed` of the contact, the buffer `handleEdit` fills at lines 181-186. |
| `ContactTable.DiffRoundTrip` | src/componentes/contact/index.jsx:181-199 | Applying the diff to the contact and then taking `Seed` of the result (the buffer of lines 181-186) gives back the edit buffer. |
| `ContactTable.DiffMinimal` | src/componentes/contact/index.jsx:190-201 | The diff is minimal. Every patch that brings the contact to the edit buffer carries each key that the diff carries. |
| `ContactTable.PatchAllEntries` | src/componentes/contact/index.jsx:213-215 | `PatchAll` (the `.map` of lines 213-215) keeps the list's length, order and ids. It leaves entries with other ids unchanged. Each entry with the id becomes exactly `Apply` of the patch to it: the diffed keys are overwritten, a changed phone replaces the whole `Phones` list by `[v]`, and everything else is kept. |
| `ContactTable.SaveRoundTrip` | src/componentes/contact/index.jsx:178-215 | After a successful save, `handleEdit` on the same id seeds exactly the saved edit buffer. A second save at once then sends nothing. |
| `ContactTable.RemoveIdMembers` | src/componentes/contact/index.jsx:241 | `RemoveId` (the `.filter` of line 241) holds exactly the entries of the old list whose id differs from the deleted one. |
| `ContactTable.RemoveIdAbsent` | src/componentes/contact/index.jsx:241 | `RemoveId` of an id that no entry has leaves the list exactly as it was. |
| `ContactTable.RemoveIdAppend` | src/componentes/contact/index.jsx:241 | `RemoveId` distributes over concatenation, so the remaining entries keep their order. |
| `ContactTable.Table.constructor` | src/componentes/contact/index.jsx:85-95 | Initial state: no contacts, `loading` true, `error` null, no contact in edit mode, an empty edit buffer, all four search fields `''`. |
| `ContactTable.Table.FetchContacts` | src/componentes/contact/index.jsx:97-173 | Without a key: no request, `error` is `'User key not found.'`, and `contacts` is untouched. With a key: the list is cleared, then the Contacts URL with the table's suffix is read, and Users only when `value` is an array. If both replies are ok with arrays, `contacts` is the processed list and `error` is `''`. Otherwise `contacts` stays `[]` and `error` is the search error. `loading` ends false on every path. |
| `ContactTable.Table.HandleEdit` | src/componentes/contact/index.jsx:178-187 | Sets `editContactId` to the id. Seeds Name, Email, first phone or `''`, and OwnerId from the first contact with that id. Changes nothing else. |
| `ContactTable.Table.HandleSave` | src/componentes/contact/index.jsx:189-226 | Requests a PATCH with exactly the diff, and nothing when the diff is empty. Only an ok reply changes `contacts`: the matching entries get the diff. `editContactId` ends null on every outcome. |
| `ContactTable.Table.HandleDelete` | src/componentes/contact/index.jsx:228-250 | A declined confirmation requests nothing. Otherwise one DELETE is requested. Only an ok reply removes the entries with the id. A declined prompt, a non-ok reply or an exception leaves `contacts` unchanged. |
| `ContactTable.Table.HandleCancel` | src/componentes/contact/index.jsx:252-254 | Clears `editContactId` only. The edit buffer and the list stay as they are. |
| `ContactTable.Table.HandleFieldChange` | src/componentes/contact/index.jsx:256-262 | Writes the input's string under the named key of the edit buffer. Nothing else changes. |
| `HeaderBar.Header.constructor` | src/componentes/header/index.jsx:92-97 | The local search fields start all `''`. |
| `HeaderBar.Header.HandleSearchChange` | src/componentes/header/index.jsx:101-107 | The local search fields become the old ones with only the named key replaced. |
| `HeaderBar.Header.HandleSearch` | src/componentes/header/index.jsx:109-148 | Without a key: no request and no call to the parent. With a key: the Contacts URL with the `?$filter=` suffix is read. Only an ok reply calls `setSearchFields(localSearchFields)` and then `fetchContacts()`. A failure calls neither. The header's own state never changes. |
| `ContactListPage.ContactList.constructor` | src/componentes/contactList/index.jsx:17-26 | Initial state: sidebar closed, all search fields `''`, no contacts, `loading` true, `error` null. |
| `ContactListPage.ContactList.FetchContacts` | src/componentes/contactList/index.jsx:28-64 | Without a key: no request, `error` is `'UserKey not found.'`, and `contacts` is unchanged. With a key: the filtered URL is read. On success `contacts` becomes `value`, or `[]` when it is absent, and `error` is untouched. On failure `error` is `'Error searching clients.'` and `contacts` is kept. `loading` ends false. |
| `ContactListPage.ContactList.SetSearchFields` | src/componentes/contactList/index.jsx:18-23 | The setter handed to the header replaces the search fields and nothing else. |
| `ContactListPage.ContactList.HandleNewContactClick` | src/componentes/contactList/index.jsx:66-68 | Sets `isSidebarOpen` to true and changes nothing else. |
| `ContactListPage.ContactList.HandleCloseSidebar` | src/componentes/contactList/index.jsx:74-76 | Sets `isSidebarOpen` to false and changes nothing else. |

## Left out

- `fetch`, HTTP, `response.json()`, `localStorage`, `window.confirm`, `alert`, `navigate` and `console` are not modelled. Their results are parameters, and alert texts and log output are not represented. Among the alert texts, the save's exception path shows "Client deleted successfully."; only its effect on state (none, apart from leaving edit mode) is modelled.
- `encodeURIComponent` is the parameter `enc`. No claim is made that the clauses are safe against injection; the function leaves `'` unescaped.
- Asynchronous interleaving is not modelled: the `useEffect` re-run on `[userKey, searchFields]`, re-rendering, and overlapping requests. Each handler is one atomic step.
- HeaderBar.Header.HandleSearch: returns its calls on the parent rather than running them against `ContactListPage.ContactList`. In React, the `fetchContacts` it calls is the closure from the render before `setSearchFields` takes effect, so that refetch uses the previous search fields. This composition is not modelled.
- The `contacts`, `loading` and `error` props passed to `Contact` at src/componentes/contactList/index.jsx:86 are ignored by the component (`({})`). The table's own `searchFields` has no setter in use, so it stays all empty.
- ContactListPage.ContactList.FetchContacts: a truthy `value` that is not an array is stored as-is by the source. The model's payload is either absent (or falsy) or a list of contacts.
- ContactTable.Table.HandleEdit: requires a contact with the id. On a missing id the source dereferences `undefined` and throws.
- ContactTable.Table.HandleSave: requires a contact with the id, for the same reason.
- Values are `undefined`, `null`, strings or integer numbers. Floating point, `NaN`, booleans and objects as field values are not modelled. `!==` is equality on these values, so the string "5" and the number 5 differ, as under strict comparison.
- A `Phones` member that is truthy but not an array (a string such as "12", say) is not modelled. On such a value the source reads `Phones[0].PhoneNumber` as `undefined` when seeding and diffing, while the model has only a missing member or a list.
- A phone record is represented only by its `PhoneNumber`. A `null` phone record, on which the source would throw, is not modelled. Nor is a `null` entry in the `value` array of the contacts or users response: the source throws on it at src/componentes/contact/index.jsx:151 or :154, inside the `try`, and so shows the search error with an empty list, while the model's `Contact` and `User` cannot hold such an entry. Contact members other than `Id`, `Name`, `Email`, `Phones`, `OwnerId`, `PhoneNumber` and `OwnerName` are not modelled; the spreads carry them unchanged.
- After a save that changes `OwnerId`, the displayed `OwnerName` is not recomputed. `Apply` keeps it, as the source does.
- The owner input of an edited row shows `editableFields.OwnerName`, which is never seeded, while it writes `OwnerId`. Only the write is modelled, by `HandleFieldChange`.
- `handleSubmit` of the list page only logs its argument and has no state to model.
- The header's `handleClearUserKey` and `handleToggleDarkMode` act only on storage, navigation and the document theme.
- The JSX, styled-components CSS, icons and themes are not modelled.
- The new-contact sidebar's form POST is not modelled. Its only state logic is the one-key update that `FieldSet.Fields.With` covers.
- Routing, the credential form and the dark-mode toggle persisted to storage (`App.jsx`, `forms`) are not modelled.
