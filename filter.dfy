/** The OData `$filter` builder that each of the three components carries
    (OData Version 4.0 Part 2, URL Conventions, section 5.1.1 for `$filter`
    and section 5.1.2 for `$expand`). Every non-empty search field becomes a
    `contains(<Key>,'<value>')` clause and the clauses are joined by ` and `.
    `encodeURIComponent` is not modelled: the builders take it as `enc`. */
module Filter {
  import opened FieldSet

  const ContactsUrl := "https://api2.ploomes.com/Contacts"
  const Separator := " and "

  /** One clause, `contains(${key},'${encodeURIComponent(value)}')`. */
  function Clause(k: Key, v: string, enc: string -> string): string
  {
    "contains(" + KeyName(k) + ",'" + enc(v) + "')"
  }

  /** `.filter(([key, value]) => value).map(<clause>)` over a list of entries:
      an empty string is falsy and is dropped. */
  function ClausesOf(es: seq<(Key, string)>, enc: string -> string): seq<string>
  {
    if es == [] then []
    else (if es[0].1 != "" then [Clause(es[0].0, es[0].1, enc)] else []) + ClausesOf(es[1..], enc)
  }

  function Clauses(f: Fields<string>, enc: string -> string): seq<string>
  {
    ClausesOf(f.Entries(), enc)
  }

  /** `Array.prototype.join`. */
  function Join(parts: seq<string>, sep: string): string
  {
    if parts == [] then ""
    else if |parts| == 1 then parts[0]
    else parts[0] + sep + Join(parts[1..], sep)
  }

  /** The `query` of each builder. */
  function Query(f: Fields<string>, enc: string -> string): string
  {
    Join(Clauses(f, enc), Separator)
  }

  /** The suffix the contact table appends to the Contacts URL; the table
      always expands Phones. */
  function ExpandSuffix(f: Fields<string>, enc: string -> string): string
  {
    var query := Query(f, enc);
    if query != "" then "?$expand=Phones&$filter=" + query else "?$expand=Phones"
  }

  /** The suffix the header and the contact list append to the Contacts URL. */
  function FilterSuffix(f: Fields<string>, enc: string -> string): string
  {
    var query := Query(f, enc);
    if query != "" then "?$filter=" + query else ""
  }

  predicate AllEmpty(f: Fields<string>)
  {
    forall k :: f.Get(k) == ""
  }

  /** The clause a single key contributes, if any. */
  function ClauseIf(f: Fields<string>, k: Key, enc: string -> string): seq<string>
  {
    if f.Get(k) != "" then [Clause(k, f.Get(k), enc)] else []
  }

  /** Filtering and mapping distribute over concatenation of the entries. */
  lemma {:induction false} ClausesOfAppend(a: seq<(Key, string)>, b: seq<(Key, string)>, enc: string -> string)
    ensures ClausesOf(a + b, enc) == ClausesOf(a, enc) + ClausesOf(b, enc)
  {
    if a == [] {
      assert a + b == b;
    } else {
      assert (a + b)[0] == a[0] && (a + b)[1..] == a[1..] + b;
      ClausesOfAppend(a[1..], b, enc);
    }
  }

  /** One clause per non-empty field, in the order Name, Email, Phone, OwnerId. */
  lemma ClausesInOrder(f: Fields<string>, enc: string -> string)
    ensures Clauses(f, enc) ==
      ClauseIf(f, Name, enc) + ClauseIf(f, Email, enc) + ClauseIf(f, Phone, enc) + ClauseIf(f, OwnerId, enc)
  {
    var es := f.Entries();
    assert es == [es[0]] + ([es[1]] + ([es[2]] + [es[3]]));
    ClausesOfAppend([es[0]], [es[1]] + ([es[2]] + [es[3]]), enc);
    ClausesOfAppend([es[1]], [es[2]] + [es[3]], enc);
    ClausesOfAppend([es[2]], [es[3]], enc);
  }

  /** Joining non-empty parts gives the empty string only for no parts. */
  lemma JoinEmpty(parts: seq<string>, sep: string)
    requires forall i :: 0 <= i < |parts| ==> parts[i] != ""
    ensures Join(parts, sep) == "" <==> parts == []
  {
  }

  /** The query is empty exactly when every search field is empty. */
  lemma QueryEmpty(f: Fields<string>, enc: string -> string)
    ensures Query(f, enc) == "" <==> AllEmpty(f)
  {
    var cs := Clauses(f, enc);
    ClausesInOrder(f, enc);
    forall i | 0 <= i < |cs| ensures cs[i] != "" {
      assert cs[i][0] == 'c';
    }
    JoinEmpty(cs, Separator);
    if cs == [] {
      forall k ensures f.Get(k) == "" {
        assert ClauseIf(f, k, enc) == [];
      }
    }
  }

  /** The contact table's suffix: `?$expand=Phones` when no field is set,
      otherwise `?$expand=Phones&$filter=` followed by the joined clauses. */
  lemma ExpandSuffixShape(f: Fields<string>, enc: string -> string)
    ensures ExpandSuffix(f, enc) ==
      if AllEmpty(f) then "?$expand=Phones"
      else "?$expand=Phones&$filter=" + Join(Clauses(f, enc), Separator)
  {
    QueryEmpty(f, enc);
  }

  /** The header's and the contact list's suffix: empty when no field is set,
      otherwise `?$filter=` followed by the joined clauses. */
  lemma FilterSuffixShape(f: Fields<string>, enc: string -> string)
    ensures FilterSuffix(f, enc) ==
      if AllEmpty(f) then "" else "?$filter=" + Join(Clauses(f, enc), Separator)
  {
    QueryEmpty(f, enc);
  }

  /** With one field set, the query is exactly that field's clause. */
  lemma SingleFieldQuery(f: Fields<string>, k: Key, enc: string -> string)
    requires f.Get(k) != ""
    requires forall k' :: k' != k ==> f.Get(k') == ""
    ensures Query(f, enc) == "contains(" + KeyName(k) + ",'" + enc(f.Get(k)) + "')"
  {
    ClausesInOrder(f, enc);
    assert Clauses(f, enc) == [Clause(k, f.Get(k), enc)];
  }
}
