/** The header's search bar (`Header` component): its own copy of the search
    fields, edited key by key, and the search action that checks the key,
    probes the filtered Contacts URL and only on success hands the fields to
    the parent and asks it to refetch. */
module HeaderBar {
  import opened Js
  import opened FieldSet
  import opened Filter

  /** The calls the header makes on its parent's callbacks, in order. */
  datatype ParentCall = SetSearchFields(fields: Fields<string>) | FetchContacts

  class Header {
    var localSearchFields: Fields<string>

    constructor ()
      ensures localSearchFields == Fields("", "", "", "")
    {
      localSearchFields := Fields("", "", "", "");
    }

    /** `handleSearchChange`: the input named `k` writes its value under `k`. */
    method HandleSearchChange(k: Key, value: string)
      modifies this
      ensures localSearchFields == old(localSearchFields).With(k, value)
    {
      localSearchFields := localSearchFields.With(k, value);
    }

    /** `handleSearch`: without a key nothing is requested and the parent is
        not called; otherwise the filtered Contacts URL is read, and only an
        ok reply with a parsed body passes the local fields to the parent and
        then triggers its refetch. The reply's data changes no state. */
    method HandleSearch(userKey: Option<string>, enc: string -> string, reply: Reply<()>)
      returns (request: Option<string>, calls: seq<ParentCall>)
      ensures request == if KeyPresent(userKey) then Some(ContactsUrl + FilterSuffix(localSearchFields, enc)) else None
      ensures KeyPresent(userKey) && reply.Ok? ==> calls == [SetSearchFields(localSearchFields), FetchContacts]
      ensures !(KeyPresent(userKey) && reply.Ok?) ==> calls == []
    {
      if !KeyPresent(userKey) {
        return None, [];
      }

      var filterQueryString := FilterSuffix(localSearchFields, enc);
      request := Some(ContactsUrl + filterQueryString);
      calls := [];
      if reply.Ok? {
        calls := [SetSearchFields(localSearchFields), FetchContacts];
      }
    }
  }
}
