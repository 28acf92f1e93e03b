/** The four list endpoints. Each takes the snapshot `list(d.values())` of its
    collection, applies its optional filters one after the other as list
    comprehensions, and (for books and libraries) slices the result. Query
    bounds declared on the parameters are checked by the web framework before
    the handler runs; a violation is the outcome `Invalid` (HTTP 422). */
module Listing {
  import opened Common
  import opened Text
  import opened Seqs
  import opened BookModel
  import opened LibraryModel
  import opened PeopleModel

  // =======================================================================
  // Addresses: exact matches only, no pagination.
  // =======================================================================

  datatype AddressQuery = AddressQuery(
    street: Option<string> := None,
    city: Option<string> := None,
    state: Option<string> := None,
    postalCode: Option<string> := None,
    country: Option<string> := None)

  function StreetIs(v: Option<string>): Address -> bool { (a: Address) => a.street == v }
  function CityIs(v: Option<string>): Address -> bool { (a: Address) => a.city == v }
  function StateIs(v: Option<string>): Address -> bool { (a: Address) => a.state == v }
  function PostalCodeIs(v: Option<string>): Address -> bool { (a: Address) => a.postalCode == v }
  function CountryIs(v: Option<string>): Address -> bool { (a: Address) => a.country == v }

  function ListAddresses(all: seq<Address>, q: AddressQuery): seq<Address> {
    var r := When(all, q.street.Some?, StreetIs(q.street));
    var r := When(r, q.city.Some?, CityIs(q.city));
    var r := When(r, q.state.Some?, StateIs(q.state));
    var r := When(r, q.postalCode.Some?, PostalCodeIs(q.postalCode));
    When(r, q.country.Some?, CountryIs(q.country))
  }

  /** A query field that is given must equal the record's field. */
  predicate Given(query: Option<string>, field: Option<string>) {
    query.Some? ==> field == query
  }

  /** The conjunction of the address filters that are supplied. */
  predicate AddressMatches(q: AddressQuery, a: Address) {
    && Given(q.street, a.street) && Given(q.city, a.city) && Given(q.state, a.state)
    && Given(q.postalCode, a.postalCode) && Given(q.country, a.country)
  }

  function AddressMatcher(q: AddressQuery): Address -> bool { (a: Address) => AddressMatches(q, a) }

  /** `list_addresses` returns, in store order, exactly the addresses that
      satisfy every supplied filter. */
  lemma ListAddressesIsFilter(all: seq<Address>, q: AddressQuery)
    ensures ListAddresses(all, q) == Filter(all, AddressMatcher(q))
  {
    var p0 := (a: Address) => true;
    var p1 := (a: Address) => Given(q.street, a.street);
    var p2 := (a: Address) => p1(a) && Given(q.city, a.city);
    var p3 := (a: Address) => p2(a) && Given(q.state, a.state);
    var p4 := (a: Address) => p3(a) && Given(q.postalCode, a.postalCode);
    FilterNothing(all, p0);
    WhenFilter(all, p0, q.street.Some?, StreetIs(q.street), p1);
    WhenFilter(all, p1, q.city.Some?, CityIs(q.city), p2);
    WhenFilter(all, p2, q.state.Some?, StateIs(q.state), p3);
    WhenFilter(all, p3, q.postalCode.Some?, PostalCodeIs(q.postalCode), p4);
    WhenFilter(all, p4, q.country.Some?, CountryIs(q.country), AddressMatcher(q));
  }

  // =======================================================================
  // Persons: exact matches, `str(birth_date)`, and "any address" matches.
  // =======================================================================

  datatype PersonQuery = PersonQuery(
    uni: Option<string> := None,
    firstName: Option<string> := None,
    lastName: Option<string> := None,
    email: Option<string> := None,
    phone: Option<string> := None,
    birthDate: Option<string> := None,
    city: Option<string> := None,
    country: Option<string> := None)

  function UniIs(v: Option<string>): Person -> bool { (p: Person) => p.uni == v }
  function FirstNameIs(v: Option<string>): Person -> bool { (p: Person) => p.firstName == v }
  function LastNameIs(v: Option<string>): Person -> bool { (p: Person) => p.lastName == v }
  function EmailIs(v: Option<string>): Person -> bool { (p: Person) => p.email == v }
  function PhoneIs(v: Option<string>): Person -> bool { (p: Person) => p.phone == v }
  /** `str(p.birth_date) == birth_date`: a text comparison. */
  function BirthDateReads(v: Option<string>): Person -> bool {
    (p: Person) => Some(BirthDateText(p.birthDate)) == v
  }
  /** `any(addr.city == city for addr in p.addresses)`. */
  function SomeAddressInCity(v: Option<string>): Person -> bool {
    (p: Person) => exists a :: a in p.addresses && a.city == v
  }
  function SomeAddressInCountry(v: Option<string>): Person -> bool {
    (p: Person) => exists a :: a in p.addresses && a.country == v
  }

  /** The first six filters of `list_persons`, on the person's own fields. */
  function FilterPersonFields(all: seq<Person>, q: PersonQuery): seq<Person> {
    var r := When(all, q.uni.Some?, UniIs(q.uni));
    var r := When(r, q.firstName.Some?, FirstNameIs(q.firstName));
    var r := When(r, q.lastName.Some?, LastNameIs(q.lastName));
    var r := When(r, q.email.Some?, EmailIs(q.email));
    var r := When(r, q.phone.Some?, PhoneIs(q.phone));
    When(r, q.birthDate.Some?, BirthDateReads(q.birthDate))
  }

  function ListPersons(all: seq<Person>, q: PersonQuery): seq<Person> {
    var r := FilterPersonFields(all, q);
    var r := When(r, q.city.Some?, SomeAddressInCity(q.city));
    When(r, q.country.Some?, SomeAddressInCountry(q.country))
  }

  /** The supplied filters on the person's own fields. */
  predicate PersonFieldsMatch(q: PersonQuery, p: Person) {
    && Given(q.uni, p.uni) && Given(q.firstName, p.firstName) && Given(q.lastName, p.lastName)
    && Given(q.email, p.email) && Given(q.phone, p.phone)
    && Given(q.birthDate, Some(BirthDateText(p.birthDate)))
  }

  /** The conjunction of the person filters that are supplied. */
  predicate PersonMatches(q: PersonQuery, p: Person) {
    && PersonFieldsMatch(q, p)
    && (q.city.Some? ==> exists a :: a in p.addresses && a.city == q.city)
    && (q.country.Some? ==> exists a :: a in p.addresses && a.country == q.country)
  }

  function PersonMatcher(q: PersonQuery): Person -> bool { (p: Person) => PersonMatches(q, p) }

  lemma FilterPersonFieldsIsFilter(all: seq<Person>, q: PersonQuery)
    ensures FilterPersonFields(all, q) == Filter(all, (p: Person) => PersonFieldsMatch(q, p))
  {
    var p0 := (p: Person) => true;
    var p1 := (p: Person) => Given(q.uni, p.uni);
    var p2 := (p: Person) => Given(q.uni, p.uni) && Given(q.firstName, p.firstName);
    var p3 := (p: Person) => Given(q.uni, p.uni) && Given(q.firstName, p.firstName) && Given(q.lastName, p.lastName);
    var p4 := (p: Person) => Given(q.uni, p.uni) && Given(q.firstName, p.firstName) && Given(q.lastName, p.lastName)
                             && Given(q.email, p.email);
    var p5 := (p: Person) => Given(q.uni, p.uni) && Given(q.firstName, p.firstName) && Given(q.lastName, p.lastName)
                             && Given(q.email, p.email) && Given(q.phone, p.phone);
    FilterNothing(all, p0);
    WhenFilter(all, p0, q.uni.Some?, UniIs(q.uni), p1);
    WhenFilter(all, p1, q.firstName.Some?, FirstNameIs(q.firstName), p2);
    WhenFilter(all, p2, q.lastName.Some?, LastNameIs(q.lastName), p3);
    WhenFilter(all, p3, q.email.Some?, EmailIs(q.email), p4);
    WhenFilter(all, p4, q.phone.Some?, PhoneIs(q.phone), p5);
    WhenFilter(all, p5, q.birthDate.Some?, BirthDateReads(q.birthDate), (p: Person) => PersonFieldsMatch(q, p));
  }

  /** `list_persons` returns, in store order, exactly the persons that
      satisfy every supplied filter; the address filters hold when at least
      one of the person's addresses matches. */
  lemma ListPersonsIsFilter(all: seq<Person>, q: PersonQuery)
    ensures ListPersons(all, q) == Filter(all, PersonMatcher(q))
  {
    var p6 := (p: Person) => PersonFieldsMatch(q, p);
    var p7 := (p: Person) => PersonFieldsMatch(q, p) && (q.city.Some? ==> exists a :: a in p.addresses && a.city == q.city);
    FilterPersonFieldsIsFilter(all, q);
    WhenFilter(all, p6, q.city.Some?, SomeAddressInCity(q.city), p7);
    WhenFilter(all, p7, q.country.Some?, SomeAddressInCountry(q.country), PersonMatcher(q));
  }

  /** The birth-date filter compares text: `None` selects exactly the persons
      without a birth date, and a date selects by its `YYYY-MM-DD` rendering. */
  lemma BirthDateFilterByText(all: seq<Person>, p: Person)
    ensures p in ListPersons(all, PersonQuery(birthDate := Some("None"))) <==> p in all && p.birthDate.None?
  {
    var q := PersonQuery(birthDate := Some("None"));
    ListPersonsIsFilter(all, q);
    FilterMembers(all, PersonMatcher(q), p);
    BirthDateTextIsNoneOnlyForNone(p.birthDate);
  }

  /** A date query selects exactly the persons born on that date: distinct
      dates have distinct renderings. */
  lemma BirthDateFilterByDate(all: seq<Person>, p: Person, d: Date)
    ensures p in ListPersons(all, PersonQuery(birthDate := Some(IsoText(d)))) <==> p in all && p.birthDate == Some(d)
  {
    var q := PersonQuery(birthDate := Some(IsoText(d)));
    ListPersonsIsFilter(all, q);
    FilterMembers(all, PersonMatcher(q), p);
    if p.birthDate.Some? && IsoText(p.birthDate.value) == IsoText(d) {
      IsoTextInjective(p.birthDate.value, d);
    }
    BirthDateTextIsNoneOnlyForNone(p.birthDate);
    BirthDateTextIsNoneOnlyForNone(Some(d));
  }

  // =======================================================================
  // Books: author, title substring, inclusive price bounds, then a slice.
  // =======================================================================

  datatype BookQuery = BookQuery(
    author: Option<string> := None,
    titleContains: Option<string> := None,
    minPrice: Option<real> := None,
    maxPrice: Option<real> := None,
    limit: Option<int> := None,
    offset: Option<int> := None)

  /** The declared bounds: both prices `ge=0`, `limit` in 1..20, `offset` at
      least 0. */
  predicate BookQueryValid(q: BookQuery) {
    && (q.minPrice.Some? ==> q.minPrice.value >= 0.0)
    && (q.maxPrice.Some? ==> q.maxPrice.value >= 0.0)
    && (q.limit.Some? ==> 1 <= q.limit.value <= 20)
    && (q.offset.Some? ==> q.offset.value >= 0)
  }

  /** `limit`, 10 when omitted. */
  function BookLimit(q: BookQuery): nat
    requires BookQueryValid(q)
  {
    if q.limit.Some? then q.limit.value else 10
  }

  function BookOffset(q: BookQuery): nat
    requires BookQueryValid(q)
  {
    if q.offset.Some? then q.offset.value else 0
  }

  /** `b.author is not None and b.author == author`. */
  function AuthorIs(v: Option<string>): BookRead -> bool {
    (b: BookRead) => b.author.Some? && b.author == v
  }
  /** `title_contains.lower() in b.title.lower()`. */
  function TitleContains(v: Option<string>): BookRead -> bool {
    (b: BookRead) => v.Some? && Contains(Lower(v.value), Lower(b.title))
  }
  function PriceAtLeast(v: Option<real>): BookRead -> bool {
    (b: BookRead) => v.Some? && b.price >= v.value
  }
  function PriceAtMost(v: Option<real>): BookRead -> bool {
    (b: BookRead) => v.Some? && b.price <= v.value
  }

  function ListBooks(all: seq<BookRead>, q: BookQuery): Outcome<seq<BookRead>> {
    if !BookQueryValid(q) then Invalid
    else
      var r := When(all, q.author.Some?, AuthorIs(q.author));
      var r := When(r, q.titleContains.Some?, TitleContains(q.titleContains));
      var r := When(r, q.minPrice.Some?, PriceAtLeast(q.minPrice));
      var r := When(r, q.maxPrice.Some?, PriceAtMost(q.maxPrice));
      Ok(Slice(r, BookOffset(q), BookLimit(q)))
  }

  /** The conjunction of the supplied book filters. */
  ghost predicate BookMatches(q: BookQuery, b: BookRead) {
    && (q.author.Some? ==> b.author == q.author)
    && (q.titleContains.Some? ==> exists i :: OccursAt(Lower(q.titleContains.value), Lower(b.title), i))
    && (q.minPrice.Some? ==> q.minPrice.value <= b.price)
    && (q.maxPrice.Some? ==> b.price <= q.maxPrice.value)
  }

  ghost function BookMatcher(q: BookQuery): BookRead -> bool { (b: BookRead) => BookMatches(q, b) }

  /** `list_books` is rejected exactly when a parameter is out of its declared
      bounds; otherwise it is the slice `[offset, offset + limit)` of the
      books, in store order, that satisfy every supplied filter: an exact
      author (so a book without author never matches), a case-insensitive
      title substring, and inclusive price bounds. */
  lemma ListBooksIsFilteredSlice(all: seq<BookRead>, q: BookQuery)
    ensures ListBooks(all, q).Invalid? <==> !BookQueryValid(q)
    ensures BookQueryValid(q) ==>
              ListBooks(all, q) == Ok(Slice(Filter(all, BookMatcher(q)), BookOffset(q), BookLimit(q)))
  {
    if BookQueryValid(q) {
      var p0 := (b: BookRead) => true;
      var p1 := (b: BookRead) => (q.author.Some? ==> b.author == q.author);
      var p2 := (b: BookRead) => p1(b) &&
        (q.titleContains.Some? ==> exists i :: OccursAt(Lower(q.titleContains.value), Lower(b.title), i));
      var p3 := (b: BookRead) => p2(b) && (q.minPrice.Some? ==> q.minPrice.value <= b.price);
      FilterNothing(all, p0);
      WhenFilter(all, p0, q.author.Some?, AuthorIs(q.author), p1);
      forall b: BookRead | q.titleContains.Some?
        ensures TitleContains(q.titleContains)(b) ==
                exists i :: OccursAt(Lower(q.titleContains.value), Lower(b.title), i)
      {
        assert TitleContains(q.titleContains)(b) == Contains(Lower(q.titleContains.value), Lower(b.title));
        ContainsIff(Lower(q.titleContains.value), Lower(b.title));
      }
      WhenFilter(all, p1, q.titleContains.Some?, TitleContains(q.titleContains), p2);
      WhenFilter(all, p2, q.minPrice.Some?, PriceAtLeast(q.minPrice), p3);
      WhenFilter(all, p3, q.maxPrice.Some?, PriceAtMost(q.maxPrice), BookMatcher(q));
    }
  }

  /** Every listed book is stored and matches; with `limit=1, offset=1` the
      answer is exactly the second matching book, when there is one. */
  lemma ListBooksPage(all: seq<BookRead>, q: BookQuery)
    requires BookQueryValid(q)
    ensures forall i :: 0 <= i < |ListBooks(all, q).value| ==>
              ListBooks(all, q).value[i] in all && BookMatches(q, ListBooks(all, q).value[i])
    ensures |ListBooks(all, q).value| <= BookLimit(q)
    ensures q.limit == Some(1) && q.offset == Some(1) ==>
              ListBooks(all, q).value ==
                (var m := Filter(all, BookMatcher(q)); if |m| >= 2 then [m[1]] else [])
  {
    ListBooksIsFilteredSlice(all, q);
    var m := Filter(all, BookMatcher(q));
    var r := ListBooks(all, q).value;
    forall i | 0 <= i < |r| ensures r[i] in all && BookMatches(q, r[i]) {
      assert r[i] == m[BookOffset(q) + i];
      FilterMembers(all, BookMatcher(q), r[i]);
    }
  }

  // =======================================================================
  // Libraries: case-insensitive code and name, name substring, a slice.
  // =======================================================================

  datatype LibraryQuery = LibraryQuery(
    code: Option<string> := None,
    name: Option<string> := None,
    nameContains: Option<string> := None,
    limit: Option<int> := None,
    offset: Option<int> := None)

  /** The declared bounds: `limit` in 1..20 and `offset` at least 0. */
  predicate LibraryQueryValid(q: LibraryQuery) {
    && (q.limit.Some? ==> 1 <= q.limit.value <= 20)
    && (q.offset.Some? ==> q.offset.value >= 0)
  }

  /** `limit`, 50 when omitted: the default lies outside the declared bound,
      and the framework checks only values that are supplied. */
  function LibraryLimit(q: LibraryQuery): nat
    requires LibraryQueryValid(q)
  {
    if q.limit.Some? then q.limit.value else 50
  }

  function LibraryOffset(q: LibraryQuery): nat
    requires LibraryQueryValid(q)
  {
    if q.offset.Some? then q.offset.value else 0
  }

  /** `l.code.lower() == code.lower()`. */
  function CodeIs(v: Option<string>): LibraryRead -> bool {
    (l: LibraryRead) => v.Some? && Lower(l.code) == Lower(v.value)
  }
  function NameIs(v: Option<string>): LibraryRead -> bool {
    (l: LibraryRead) => v.Some? && Lower(l.name) == Lower(v.value)
  }
  /** `name_contains.lower() in l.name.lower()`. */
  function NameContains(v: Option<string>): LibraryRead -> bool {
    (l: LibraryRead) => v.Some? && Contains(Lower(v.value), Lower(l.name))
  }

  function ListLibraries(all: seq<LibraryRead>, q: LibraryQuery): Outcome<seq<LibraryRead>> {
    if !LibraryQueryValid(q) then Invalid
    else
      var r := When(all, q.code.Some?, CodeIs(q.code));
      var r := When(r, q.name.Some?, NameIs(q.name));
      var r := When(r, q.nameContains.Some?, NameContains(q.nameContains));
      Ok(Slice(r, LibraryOffset(q), LibraryLimit(q)))
  }

  /** The conjunction of the supplied library filters. */
  ghost predicate LibraryMatches(q: LibraryQuery, l: LibraryRead) {
    && (q.code.Some? ==> SameIgnoringCase(l.code, q.code.value))
    && (q.name.Some? ==> SameIgnoringCase(l.name, q.name.value))
    && (q.nameContains.Some? ==> exists i :: OccursAt(Lower(q.nameContains.value), Lower(l.name), i))
  }

  ghost function LibraryMatcher(q: LibraryQuery): LibraryRead -> bool { (l: LibraryRead) => LibraryMatches(q, l) }

  /** `list_libraries` is rejected exactly when a supplied parameter is out
      of bounds; otherwise it is the slice of the libraries, in store order,
      that satisfy every supplied filter. */
  lemma ListLibrariesIsFilteredSlice(all: seq<LibraryRead>, q: LibraryQuery)
    ensures ListLibraries(all, q).Invalid? <==> !LibraryQueryValid(q)
    ensures LibraryQueryValid(q) ==>
              ListLibraries(all, q) == Ok(Slice(Filter(all, LibraryMatcher(q)), LibraryOffset(q), LibraryLimit(q)))
  {
    if LibraryQueryValid(q) {
      var p0 := (l: LibraryRead) => true;
      var p1 := (l: LibraryRead) => (q.code.Some? ==> SameIgnoringCase(l.code, q.code.value));
      var p2 := (l: LibraryRead) => p1(l) && (q.name.Some? ==> SameIgnoringCase(l.name, q.name.value));
      FilterNothing(all, p0);
      WhenFilter(all, p0, q.code.Some?, CodeIs(q.code), p1);
      WhenFilter(all, p1, q.name.Some?, NameIs(q.name), p2);
      forall l: LibraryRead | q.nameContains.Some?
        ensures NameContains(q.nameContains)(l) ==
                exists i :: OccursAt(Lower(q.nameContains.value), Lower(l.name), i)
      {
        assert NameContains(q.nameContains)(l) == Contains(Lower(q.nameContains.value), Lower(l.name));
        ContainsIff(Lower(q.nameContains.value), Lower(l.name));
      }
      WhenFilter(all, p2, q.nameContains.Some?, NameContains(q.nameContains), LibraryMatcher(q));
    }
  }

  /** Without a `limit` parameter up to 50 libraries come back, yet asking
      for `limit=50` explicitly is rejected. */
  lemma DefaultLibraryLimitExceedsBound(all: seq<LibraryRead>)
    ensures ListLibraries(all, LibraryQuery()) == Ok(Slice(all, 0, 50))
    ensures ListLibraries(all, LibraryQuery(limit := Some(50))) == Invalid
    ensures |all| > 20 ==> |ListLibraries(all, LibraryQuery()).value| > 20
  {
  }
}
