/** The four-key records the components keep in state: the search fields
    (`searchFields`, `localSearchFields`) and the edit buffer (`editableFields`),
    all with the keys Name, Email, Phone, OwnerId in this order. */
module FieldSet {

  datatype Key = Name | Email | Phone | OwnerId

  /** The property name the key has in the JavaScript object. */
  function KeyName(k: Key): string
  {
    match k
    case Name => "Name"
    case Email => "Email"
    case Phone => "Phone"
    case OwnerId => "OwnerId"
  }

  datatype Fields<T> = Fields(name: T, email: T, phone: T, ownerId: T)
  {
    function Get(k: Key): T
    {
      match k
      case Name => name
      case Email => email
      case Phone => phone
      case OwnerId => ownerId
    }

    /** `{ ...prev, [key]: v }`: the named key takes the new value and the
        other three keep theirs. */
    function With(k: Key, v: T): (r: Fields<T>)
      ensures r.Get(k) == v
      ensures forall k' :: k' != k ==> r.Get(k') == Get(k')
    {
      match k
      case Name => this.(name := v)
      case Email => this.(email := v)
      case Phone => this.(phone := v)
      case OwnerId => this.(ownerId := v)
    }

    /** `Object.entries(fields)`, in the order the keys were declared. */
    function Entries(): seq<(Key, T)>
    {
      [(Name, name), (Email, email), (Phone, phone), (OwnerId, ownerId)]
    }
  }
}
