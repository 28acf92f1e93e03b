/** The service state and its handlers: the four module-level dicts, the
    seed data loaded at start-up, and every create, get, list, patch, replace
    and delete endpoint, each returning the body of a success or the detail
    of the `HTTPException` it raises. */
module Service {
  import opened Common
  import opened Text
  import opened Seqs
  import opened Tables
  import opened BookModel
  import LibraryModel
  import opened PeopleModel
  import opened LibraryRules
  import opened Projection
  import Listing

  const ADDRESS_ID_TAKEN := "Address with this ID already exists"
  const ADDRESS_NOT_FOUND := "Address not found"
  const PERSON_NOT_FOUND := "Person not found"
  const BOOK_NOT_FOUND := "Book not found"
  const LIBRARY_NOT_FOUND := "Library not found"
  const BOOK_DELETED := "Book deleted successfully"
  const LIBRARY_DELETED := "Library deleted successfully"

  /** The success status of the read routes and of the create routes
      (`status_code=201`). */
  const OK := 200
  const CREATED := 201

  /** The body of `get_book`: the whole record, or the projection dict when
      `fields` is given. */
  datatype BookView = Whole(book: BookRead) | Fields(fields: Table<string, FieldValue>)

  /** The three books of `add_data`, in the order they are stored. */
  function SeedBooks(now: Timestamp): seq<BookRead> {
    [ BookRead("90143569-66f2-493d-a4a6-b519bb75d10a", "Tgggg", Some("Fgggg"), 33.33, now, now),
      BookRead("de1288cc-5eb7-42b1-9e66-5a4b9a29a261", "Bidenbook", Some("Ggggg"), 1333.99, now, now),
      BookRead("634af327-9d9d-49fd-a671-2cef810de932", "Ddddddd", Some("Hhhhhh"), 14.0, now, now) ]
  }

  /** The three libraries of `add_data`, in the order they are stored. */
  function SeedLibraries(now: Timestamp): seq<LibraryModel.LibraryRead> {
    [ LibraryModel.LibraryRead("7c8f1060-db19-4e6f-b087-2f944c4aede5", "BUT", "Butler Library", now, now),
      LibraryModel.LibraryRead("cc8b6202-2568-411a-aa47-e138c7bd0f4e", "AVY", "Avery Architectural & Fine Arts Library", now, now),
      LibraryModel.LibraryRead("b8a518f6-c4ff-459d-b5c1-973d1b8b3c7d", "SEL", "Science & Engineering Library", now, now) ]
  }

  /** Strings whose first letters differ, case ignored, differ case
      ignored. */
  lemma FirstLetterDiffers(a: string, b: string)
    requires |a| > 0 && |b| > 0 && LowerChar(a[0]) != LowerChar(b[0])
    ensures Lower(a) != Lower(b)
  {
    assert Lower(a)[0] != Lower(b)[0];
  }

  /** The seed libraries already differ in the first letter of their codes
      and of their names, case ignored, so the seed keeps the uniqueness
      rule. */
  lemma SeedLibrariesDiffer(now: Timestamp)
    ensures forall i, j :: 0 <= i < j < 3 ==>
              Lower(SeedLibraries(now)[i].code) != Lower(SeedLibraries(now)[j].code) &&
              Lower(SeedLibraries(now)[i].name) != Lower(SeedLibraries(now)[j].name)
  {
    var s := SeedLibraries(now);
    forall i, j | 0 <= i < j < 3
      ensures Lower(s[i].code) != Lower(s[j].code) && Lower(s[i].name) != Lower(s[j].name)
    {
      FirstLetterDiffers(s[i].code, s[j].code);
      FirstLetterDiffers(s[i].name, s[j].name);
    }
  }

  /** The seed ids differ already in their first character. */
  lemma SeedIdsDistinct(now: Timestamp)
    ensures var b := SeedBooks(now); b[0].id != b[1].id && b[0].id != b[2].id && b[1].id != b[2].id
    ensures var l := SeedLibraries(now); l[0].id != l[1].id && l[0].id != l[2].id && l[1].id != l[2].id
  {
    var b, l := SeedBooks(now), SeedLibraries(now);
    assert b[0].id[0] == '9' && b[1].id[0] == 'd' && b[2].id[0] == '6';
    assert l[0].id[0] == '7' && l[1].id[0] == 'c' && l[2].id[0] == 'b';
  }

  /** `books` after the three assignments of `add_data`. */
  function SeedBookTable(now: Timestamp): (t: Table<Uuid, BookRead>)
    ensures t.Valid() && KeyedBy(t, BookId)
  {
    var b := SeedBooks(now);
    SeedIdsDistinct(now);
    PutThree(BookId, b[0], b[1], b[2]);
    Empty().Put(b[0].id, b[0]).Put(b[1].id, b[1]).Put(b[2].id, b[2])
  }

  /** `libraries` after the three assignments of `add_data`: the seed obeys
      the uniqueness rule. */
  function SeedLibraryTable(now: Timestamp): (t: Table<Uuid, LibraryModel.LibraryRead>)
    ensures t.Valid() && KeyedBy(t, LibraryModel.LibraryId) && Unique(t)
  {
    var l := SeedLibraries(now);
    SeedIdsDistinct(now);
    PutThree(LibraryModel.LibraryId, l[0], l[1], l[2]);
    var t := Empty().Put(l[0].id, l[0]).Put(l[1].id, l[1]).Put(l[2].id, l[2]);
    SeedLibrariesDiffer(now);
    UniqueFromValues(t);
    t
  }

  /** The seeded dicts list the seed records in the order `add_data` stores
      them, so the list endpoints start from that order. */
  lemma SeedTablesInOrder(now: Timestamp)
    ensures SeedBookTable(now).Values() == SeedBooks(now)
    ensures SeedLibraryTable(now).Values() == SeedLibraries(now)
  {
    var b, l := SeedBooks(now), SeedLibraries(now);
    SeedIdsDistinct(now);
    PutThree(BookId, b[0], b[1], b[2]);
    PutThree(LibraryModel.LibraryId, l[0], l[1], l[2]);
  }

  class Store {
    var addresses: Table<Uuid, Address>
    var persons: Table<Uuid, Person>
    var books: Table<Uuid, BookRead>
    var libraries: Table<Uuid, LibraryModel.LibraryRead>

    /** Every dict is well formed and stores each record under its own id, and
        no two libraries share a code or a name, case ignored. */
    ghost predicate Valid()
      reads this
    {
      && addresses.Valid() && KeyedBy(addresses, AddressId)
      && persons.Valid() && KeyedBy(persons, PersonId)
      && books.Valid() && KeyedBy(books, BookId)
      && libraries.Valid() && KeyedBy(libraries, LibraryModel.LibraryId)
      && Unique(libraries)
    }

    /** The state after `add_data()`: no addresses or persons, and the seed
        books and libraries, each under its id, in seed order. */
    constructor Seeded(now: Timestamp)
      ensures Valid()
      ensures addresses.Values() == [] && persons.Values() == []
      ensures books == SeedBookTable(now) && libraries == SeedLibraryTable(now)
    {
      addresses := Empty();
      persons := Empty();
      books := SeedBookTable(now);
      libraries := SeedLibraryTable(now);
    }

    // -----------------------------------------------------------------------
    // Addresses
    // -----------------------------------------------------------------------

    /** `create_address`: a duplicate id is refused and nothing changes;
        otherwise the address is stored under its id. */
    method CreateAddress(a: Address) returns (r: Outcome<Address>)
      requires Valid()
      modifies this
      ensures Valid()
      ensures a.id in old(addresses.rows) ==> r == Conflict(ADDRESS_ID_TAKEN) && addresses == old(addresses)
      ensures a.id !in old(addresses.rows) ==> r == Ok(a) && addresses == old(addresses).Put(a.id, a)
      ensures persons == old(persons) && books == old(books) && libraries == old(libraries)
      ensures r.Status(CREATED) == (if a.id in old(addresses.rows) then 400 else 201)
    {
      if a.id in addresses.rows {
        return Conflict(ADDRESS_ID_TAKEN);
      }
      addresses := addresses.Put(a.id, a);
      return Ok(a);
    }

    /** `get_address`. */
    function GetAddress(id: Uuid): (r: Outcome<Address>)
      requires Valid()
      reads this
      ensures r.Ok? <==> id in addresses.rows
      ensures r.Ok? ==> r.value == addresses.rows[id] && r.value.id == id
      ensures !r.Ok? ==> r == NotFound(ADDRESS_NOT_FOUND)
      ensures r.Status(OK) == (if id in addresses.rows then 200 else 404)
    {
      if id in addresses.rows then Ok(addresses.rows[id]) else NotFound(ADDRESS_NOT_FOUND)
    }

    /** `list_addresses`: the stored addresses, in store order, that match
        every given filter. */
    function ListAddresses(q: Listing.AddressQuery): (r: seq<Address>)
      requires Valid()
      reads this
      ensures r == Filter(addresses.Values(), Listing.AddressMatcher(q))
    {
      Listing.ListAddressesIsFilter(addresses.Values(), q);
      Listing.ListAddresses(addresses.Values(), q)
    }

    /** `update_address`: the set fields overwrite the stored ones. */
    method UpdateAddress(id: Uuid, u: AddressUpdate) returns (r: Outcome<Address>)
      requires Valid()
      modifies this
      ensures Valid()
      ensures id !in old(addresses.rows) ==> r == NotFound(ADDRESS_NOT_FOUND) && addresses == old(addresses)
      ensures id in old(addresses.rows) ==>
                r == Ok(MergeAddress(old(addresses.rows[id]), u)) && addresses == old(addresses).Put(id, r.value)
      ensures persons == old(persons) && books == old(books) && libraries == old(libraries)
    {
      if id !in addresses.rows {
        return NotFound(ADDRESS_NOT_FOUND);
      }
      var merged := MergeAddress(addresses.rows[id], u);
      MergeAddressChangesOnlySetFields(addresses.rows[id], u);
      addresses := addresses.Put(id, merged);
      return Ok(merged);
    }

    // -----------------------------------------------------------------------
    // Persons
    // -----------------------------------------------------------------------

    /** `create_person`: no check; an existing entry with the same id is
        replaced. */
    method CreatePerson(p: Person) returns (r: Outcome<Person>)
      requires Valid()
      modifies this
      ensures Valid()
      ensures r == Ok(p) && persons == old(persons).Put(p.id, p)
      ensures persons.rows[p.id] == p
      ensures r.Status(CREATED) == 201
      ensures addresses == old(addresses) && books == old(books) && libraries == old(libraries)
    {
      persons := persons.Put(p.id, p);
      return Ok(p);
    }

    /** `get_person`. */
    function GetPerson(id: Uuid): (r: Outcome<Person>)
      requires Valid()
      reads this
      ensures r.Ok? <==> id in persons.rows
      ensures r.Ok? ==> r.value == persons.rows[id] && r.value.id == id
      ensures !r.Ok? ==> r == NotFound(PERSON_NOT_FOUND)
      ensures r.Status(OK) == (if id in persons.rows then 200 else 404)
    {
      if id in persons.rows then Ok(persons.rows[id]) else NotFound(PERSON_NOT_FOUND)
    }

    /** `list_persons`: the stored persons, in store order, that match every
        given filter. */
    function ListPersons(q: Listing.PersonQuery): (r: seq<Person>)
      requires Valid()
      reads this
      ensures r == Filter(persons.Values(), Listing.PersonMatcher(q))
    {
      Listing.ListPersonsIsFilter(persons.Values(), q);
      Listing.ListPersons(persons.Values(), q)
    }

    /** `update_person`. */
    method UpdatePerson(id: Uuid, u: PersonUpdate) returns (r: Outcome<Person>)
      requires Valid()
      modifies this
      ensures Valid()
      ensures id !in old(persons.rows) ==> r == NotFound(PERSON_NOT_FOUND) && persons == old(persons)
      ensures id in old(persons.rows) ==>
                r == Ok(MergePerson(old(persons.rows[id]), u)) && persons == old(persons).Put(id, r.value)
      ensures addresses == old(addresses) && books == old(books) && libraries == old(libraries)
    {
      if id !in persons.rows {
        return NotFound(PERSON_NOT_FOUND);
      }
      var merged := MergePerson(persons.rows[id], u);
      MergePersonChangesOnlySetFields(persons.rows[id], u);
      persons := persons.Put(id, merged);
      return Ok(merged);
    }

    // -----------------------------------------------------------------------
    // Books
    // -----------------------------------------------------------------------

    /** `create_book`: no check; an existing entry with the same id is
        replaced, in place. */
    method CreateBook(c: BookCreate, now: Timestamp) returns (r: Outcome<BookRead>)
      requires Valid()
      modifies this
      ensures Valid()
      ensures r == Ok(FromCreate(c, now)) && books == old(books).Put(c.id, FromCreate(c, now))
      ensures addresses == old(addresses) && persons == old(persons) && libraries == old(libraries)
      ensures r.Status(CREATED) == 201
    {
      var b := FromCreate(c, now);
      books := books.Put(b.id, b);
      return Ok(b);
    }

    /** `list_books`: a 422 for an out-of-range query parameter; otherwise the
        page `[offset, offset + limit)` of the stored books, in store order,
        that match every given filter. */
    function ListBooks(q: Listing.BookQuery): (r: Outcome<seq<BookRead>>)
      requires Valid()
      reads this
      ensures r.Invalid? <==> !Listing.BookQueryValid(q)
      ensures Listing.BookQueryValid(q) ==>
                r == Ok(Slice(Filter(books.Values(), Listing.BookMatcher(q)), Listing.BookOffset(q), Listing.BookLimit(q)))
    {
      Listing.ListBooksIsFilteredSlice(books.Values(), q);
      Listing.ListBooks(books.Values(), q)
    }

    /** `get_book`: the stored book, or with `fields` the dict of the
        requested valid fields, first request first, each with the book's
        value; unknown names are ignored. This is the value the handler
        returns; the route's `response_model=BookRead` then validates it
        again before anything is sent, which is not modelled. */
    method GetBook(id: Uuid, fields: Option<string>) returns (r: Outcome<BookView>)
      requires Valid()
      ensures id !in books.rows ==> r == NotFound(BOOK_NOT_FOUND)
      ensures id in books.rows && fields.None? ==> r == Ok(Whole(books.rows[id]))
      ensures id in books.rows && fields.Some? ==>
                && r.Ok? && r.value.Fields?
                && r.value.fields.Valid()
                && r.value.fields.keys == Picked(FieldList(fields.value))
                && (forall n :: n in r.value.fields.rows ==> Attribute(books.rows[id], n) == Some(r.value.fields.rows[n]))
      ensures id in books.rows && fields.Some? ==>
                forall n :: n in r.value.fields.rows <==> n in FieldList(fields.value) && n in FIELD_NAMES
    {
      if id !in books.rows {
        return NotFound(BOOK_NOT_FOUND);
      }
      var book := books.rows[id];
      if fields.Some? {
        var result := Project(book, FieldList(fields.value));
        return Ok(Fields(result));
      }
      return Ok(Whole(book));
    }

    /** `update_book`: the set fields overwrite the stored ones; `id` and both
        timestamps are kept. */
    method UpdateBook(id: Uuid, u: BookUpdate) returns (r: Outcome<BookRead>)
      requires Valid()
      modifies this
      ensures Valid()
      ensures id !in old(books.rows) ==> r == NotFound(BOOK_NOT_FOUND) && books == old(books)
      ensures id in old(books.rows) ==>
                r == Ok(Merge(old(books.rows[id]), u)) && books == old(books).Put(id, r.value)
      ensures addresses == old(addresses) && persons == old(persons) && libraries == old(libraries)
    {
      if id !in books.rows {
        return NotFound(BOOK_NOT_FOUND);
      }
      var merged := Merge(books.rows[id], u);
      books := books.Put(id, merged);
      return Ok(merged);
    }

    /** `replace_book`: the record is rebuilt from the path id and the
        payload, with fresh timestamps. */
    method ReplaceBook(id: Uuid, p: BookReplace, now: Timestamp) returns (r: Outcome<BookRead>)
      requires Valid()
      modifies this
      ensures Valid()
      ensures id !in old(books.rows) ==> r == NotFound(BOOK_NOT_FOUND) && books == old(books)
      ensures id in old(books.rows) ==>
                r == Ok(FromReplace(id, p, now)) && books == old(books).Put(id, FromReplace(id, p, now))
      ensures addresses == old(addresses) && persons == old(persons) && libraries == old(libraries)
    {
      if id !in books.rows {
        return NotFound(BOOK_NOT_FOUND);
      }
      var b := FromReplace(id, p, now);
      books := books.Put(id, b);
      return Ok(b);
    }

    /** `delete_book`: the entry is gone, the other entries keep their values
        and their relative order. */
    method DeleteBook(id: Uuid) returns (r: Outcome<string>)
      requires Valid()
      modifies this
      ensures Valid()
      ensures id !in old(books.rows) ==> r == NotFound(BOOK_NOT_FOUND) && books == old(books)
      ensures id in old(books.rows) ==>
                && r == Ok(BOOK_DELETED)
                && books == old(books).Remove(id)
                && books.Values() == old(books.Values())[..old(books.IndexOf(id))] + old(books.Values())[old(books.IndexOf(id)) + 1..]
      ensures id !in books.rows && forall k :: k in old(books.rows) && k != id ==> k in books.rows && books.rows[k] == old(books.rows[k])
      ensures addresses == old(addresses) && persons == old(persons) && libraries == old(libraries)
    {
      if id !in books.rows {
        return NotFound(BOOK_NOT_FOUND);
      }
      RemoveValues(books, books.IndexOf(id));
      RemoveFrame(books, id, BookId);
      books := books.Remove(id);
      return Ok(BOOK_DELETED);
    }

    // -----------------------------------------------------------------------
    // Libraries
    // -----------------------------------------------------------------------

    /** `create_library`: the id check comes first, then the scan of every
        stored library; either refusal leaves the store as it was. */
    method CreateLibrary(c: LibraryModel.LibraryCreate, now: Timestamp) returns (r: Outcome<LibraryModel.LibraryRead>)
      requires Valid()
      modifies this
      ensures Valid()
      ensures c.id in old(libraries.rows) ==> r == Conflict(ID_TAKEN) && libraries == old(libraries)
      ensures c.id !in old(libraries.rows) ==>
                var scan := FirstConflict(old(libraries.Values()), None, Some(c.code), Some(c.name));
                && (scan.Some? ==> r == Conflict(scan.value) && libraries == old(libraries))
                && (scan.None? ==> r == Ok(LibraryModel.FromCreate(c, now)) && libraries == old(libraries).Put(c.id, LibraryModel.FromCreate(c, now)))
      ensures addresses == old(addresses) && persons == old(persons) && books == old(books)
      ensures r.Status(CREATED) == (if r.Ok? then 201 else 400)
    {
      if c.id in libraries.rows {
        return Conflict(ID_TAKEN);
      }
      var conflict := FindConflict(libraries.Values(), None, Some(c.code), Some(c.name));
      if conflict.Some? {
        return Conflict(conflict.value);
      }
      var l := LibraryModel.FromCreate(c, now);
      CreateKeepsUnique(libraries, c, now);
      libraries := libraries.Put(l.id, l);
      return Ok(l);
    }

    /** `list_libraries`: a 422 for an explicitly given out-of-range query
        parameter; otherwise the page of the stored libraries, in store
        order, that match every given filter. */
    function ListLibraries(q: Listing.LibraryQuery): (r: Outcome<seq<LibraryModel.LibraryRead>>)
      requires Valid()
      reads this
      ensures r.Invalid? <==> !Listing.LibraryQueryValid(q)
      ensures Listing.LibraryQueryValid(q) ==>
                r == Ok(Slice(Filter(libraries.Values(), Listing.LibraryMatcher(q)), Listing.LibraryOffset(q), Listing.LibraryLimit(q)))
    {
      Listing.ListLibrariesIsFilteredSlice(libraries.Values(), q);
      Listing.ListLibraries(libraries.Values(), q)
    }

    /** `get_library`. */
    function GetLibrary(id: Uuid): (r: Outcome<LibraryModel.LibraryRead>)
      requires Valid()
      reads this
      ensures r.Ok? <==> id in libraries.rows
      ensures r.Ok? ==> r.value == libraries.rows[id] && r.value.id == id
      ensures !r.Ok? ==> r == NotFound(LIBRARY_NOT_FOUND)
      ensures r.Status(OK) == (if id in libraries.rows then 200 else 404)
    {
      if id in libraries.rows then Ok(libraries.rows[id]) else NotFound(LIBRARY_NOT_FOUND)
    }

    /** `update_library`: when the patch sets a code or a name, the other
        libraries are scanned first; a refusal leaves the store as it was. */
    method UpdateLibrary(id: Uuid, u: LibraryModel.LibraryUpdate) returns (r: Outcome<LibraryModel.LibraryRead>)
      requires Valid()
      modifies this
      ensures Valid()
      ensures id !in old(libraries.rows) ==> r == NotFound(LIBRARY_NOT_FOUND) && libraries == old(libraries)
      ensures id in old(libraries.rows) ==>
                var scan := if u.TouchesCodeOrName()
                            then FirstConflict(old(libraries.Values()), Some(id), u.code.Given(), u.name.Given())
                            else None;
                && (scan.Some? ==> r == Conflict(scan.value) && libraries == old(libraries))
                && (scan.None? ==> r == Ok(LibraryModel.Merge(old(libraries.rows[id]), u))
                                   && libraries == old(libraries).Put(id, LibraryModel.Merge(old(libraries.rows[id]), u)))
      ensures addresses == old(addresses) && persons == old(persons) && books == old(books)
    {
      if id !in libraries.rows {
        return NotFound(LIBRARY_NOT_FOUND);
      }
      if u.TouchesCodeOrName() {
        var conflict := FindConflict(libraries.Values(), Some(id), u.code.Given(), u.name.Given());
        if conflict.Some? {
          return Conflict(conflict.value);
        }
      }
      var merged := LibraryModel.Merge(libraries.rows[id], u);
      MergeKeepsUnique(libraries, id, u);
      libraries := libraries.Put(id, merged);
      return Ok(merged);
    }

    /** `replace_library`: the other libraries are scanned first; a refusal
        leaves the store as it was. */
    method ReplaceLibrary(id: Uuid, p: LibraryModel.LibraryReplace, now: Timestamp) returns (r: Outcome<LibraryModel.LibraryRead>)
      requires Valid()
      modifies this
      ensures Valid()
      ensures id !in old(libraries.rows) ==> r == NotFound(LIBRARY_NOT_FOUND) && libraries == old(libraries)
      ensures id in old(libraries.rows) ==>
                var scan := FirstConflict(old(libraries.Values()), Some(id), Some(p.code), Some(p.name));
                && (scan.Some? ==> r == Conflict(scan.value) && libraries == old(libraries))
                && (scan.None? ==> r == Ok(LibraryModel.FromReplace(id, p, now)) && libraries == old(libraries).Put(id, LibraryModel.FromReplace(id, p, now)))
      ensures addresses == old(addresses) && persons == old(persons) && books == old(books)
    {
      if id !in libraries.rows {
        return NotFound(LIBRARY_NOT_FOUND);
      }
      var conflict := FindConflict(libraries.Values(), Some(id), Some(p.code), Some(p.name));
      if conflict.Some? {
        return Conflict(conflict.value);
      }
      var l := LibraryModel.FromReplace(id, p, now);
      ReplaceKeepsUnique(libraries, id, p, now);
      libraries := libraries.Put(id, l);
      return Ok(l);
    }

    /** `delete_library`: the entry is gone, the other entries keep their
        values and their relative order. */
    method DeleteLibrary(id: Uuid) returns (r: Outcome<string>)
      requires Valid()
      modifies this
      ensures Valid()
      ensures id !in old(libraries.rows) ==> r == NotFound(LIBRARY_NOT_FOUND) && libraries == old(libraries)
      ensures id in old(libraries.rows) ==>
                && r == Ok(LIBRARY_DELETED)
                && libraries == old(libraries).Remove(id)
                && libraries.Values() == old(libraries.Values())[..old(libraries.IndexOf(id))] + old(libraries.Values())[old(libraries.IndexOf(id)) + 1..]
      ensures id !in libraries.rows && forall k :: k in old(libraries.rows) && k != id ==> k in libraries.rows && libraries.rows[k] == old(libraries.rows[k])
      ensures addresses == old(addresses) && persons == old(persons) && books == old(books)
    {
      if id !in libraries.rows {
        return NotFound(LIBRARY_NOT_FOUND);
      }
      RemoveValues(libraries, libraries.IndexOf(id));
      RemoveFrame(libraries, id, LibraryModel.LibraryId);
      RemoveKeepsUnique(libraries, id);
      libraries := libraries.Remove(id);
      return Ok(LIBRARY_DELETED);
    }
  }
}
