/** The list page (`ContactList` component): the search fields the header
    sets, its own fetch of the filtered contacts, and the open/close flag of
    the new-contact sidebar. Its `contacts`, `loading` and `error` are not
    read by the contact table, which keeps its own. */
module ContactListPage {
  import opened Js
  import opened FieldSet
  import opened Filter
  import ContactTable

  const KeyMissing := "UserKey not found."
  const SearchFailed := "Error searching clients."

  class ContactList {
    var isSidebarOpen: bool
    var searchFields: Fields<string>
    var contacts: seq<ContactTable.Contact>
    var loading: bool
    var error: Option<string>

    constructor ()
      ensures !isSidebarOpen && searchFields == Fields("", "", "", "")
      ensures contacts == [] && loading && error == None
    {
      isSidebarOpen := false;
      searchFields := Fields("", "", "", "");
      contacts := [];
      loading := true;
      error := None;
    }

    /** `fetchContacts`: without a key, report it and stop; otherwise read the
        filtered Contacts URL and show its `value` (an absent or falsy `value`
        gives the empty list). A failure reports the error and keeps the list.
        `loading` ends false in every case; it is never set true here. */
    method FetchContacts(userKey: Option<string>, enc: string -> string, reply: Reply<Option<seq<ContactTable.Contact>>>)
      returns (request: Option<string>)
      modifies this
      ensures !loading
      ensures isSidebarOpen == old(isSidebarOpen) && searchFields == old(searchFields)
      ensures !KeyPresent(userKey) ==>
        request == None && contacts == old(contacts) && error == Some(KeyMissing)
      ensures KeyPresent(userKey) ==> request == Some(ContactsUrl + FilterSuffix(searchFields, enc))
      ensures KeyPresent(userKey) && reply.Ok? ==>
        contacts == (if reply.body.Some? then reply.body.value else []) && error == old(error)
      ensures KeyPresent(userKey) && !reply.Ok? ==> contacts == old(contacts) && error == Some(SearchFailed)
    {
      if !KeyPresent(userKey) {
        error := Some(KeyMissing);
        loading := false;
        return None;
      }

      var filterQueryString := FilterSuffix(searchFields, enc);
      request := Some(ContactsUrl + filterQueryString);
      if reply.Ok? {
        contacts := if reply.body.Some? then reply.body.value else [];
      } else {
        error := Some(SearchFailed);
      }
      loading := false;
    }

    /** `setSearchFields`, the setter handed to the header. */
    method SetSearchFields(fields: Fields<string>)
      modifies this
      ensures searchFields == fields
      ensures isSidebarOpen == old(isSidebarOpen) && contacts == old(contacts)
      ensures loading == old(loading) && error == old(error)
    {
      searchFields := fields;
    }

    /** `handleNewContactClick`: open the sidebar. */
    method HandleNewContactClick()
      modifies this
      ensures isSidebarOpen
      ensures searchFields == old(searchFields) && contacts == old(contacts)
      ensures loading == old(loading) && error == old(error)
    {
      isSidebarOpen := true;
    }

    /** `handleCloseSidebar`: close the sidebar. */
    method HandleCloseSidebar()
      modifies this
      ensures !isSidebarOpen
      ensures searchFields == old(searchFields) && contacts == old(contacts)
      ensures loading == old(loading) && error == old(error)
    {
      isSidebarOpen := false;
    }
  }
}
