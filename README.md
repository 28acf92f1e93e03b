# Person/Address/Book/Library API — a Dafny model of its in-memory store

The service keeps four resources (addresses, persons, books and libraries)
in module-level dicts keyed by UUID, seeds three books and three libraries
at start-up, and exposes create, list, get and patch handlers for all
four, plus replace and delete handlers for books and libraries. This project models that core in Dafny and proves what
the handlers promise:

- each dict keeps its insertion order, which the list endpoints expose;
- a patch changes exactly the fields it sets;
- a replace keeps the path id and takes fresh timestamps;
- the lookups answer 404 exactly when the id is absent;
- a delete removes one entry and keeps the others in order;
- the list endpoints are one filter on the conjunction of the supplied
  conditions; the book and library lists then take the
  `[offset, offset + limit)` slice, while the address and person lists
  return the whole filtered list;
- the dict that the `get_book` handler builds for `fields` holds exactly
  the requested valid fields; what the route then sends after response
  validation is not modelled;
- the library invariant: no two stored libraries share a code or a name,
  case ignored. The seed establishes it and every handler preserves it.

Layout, one module per file:

| file | module | what it holds |
|---|---|---|
| `common.dfy` | `Common` | ids, timestamps, `Option`, the per-field `Patch` of a partial update, the handler `Outcome` (200/201, 404, 400, 422), attribute values |
| `text.dfy` | `Text` | `str.lower()` (ASCII), substring search, `str.strip()`, `str.split(',')` with its inverse `join` |
| `seqs.dfy` | `Seqs` | list comprehensions as `Filter`, optional filters, Python slicing |
| `tables.dfy` | `Tables` | a dict as key order plus map: assignment, `del`, `values()` |
| `book_model.dfy` | `BookModel` | the book payloads and the stored `BookRead` |
| `library_model.dfy` | `LibraryModel` | the library payloads and the stored `LibraryRead` |
| `people_model.dfy` | `PeopleModel` | addresses and persons as far as the handlers use them, and `str(birth_date)` |
| `listing.dfy` | `Listing` | the four list endpoints |
| `library_rules.dfy` | `LibraryRules` | the code/name collision scan and the uniqueness invariant |
| `projection.dfy` | `Projection` | the `fields` projection of `get_book` |
| `store.dfy` | `Service` | class `Store`: the four dicts, the seed, every handler |

`Service.Store` is a class whose four fields are the dicts; every mutating
handler is a method with `modifies this` that states the whole new state
and keeps `Valid()`, the store invariant. Every record is stored under its
own id, and the library uniqueness rule holds. Because of this, any
sequence of handler calls started from `Seeded(now)` keeps libraries
unique. The library scans and the projection loop are methods with loop
invariants, proved equal to the functions `LibraryRules.FirstConflict` and
`Projection.Picked`. The properties of the handlers are then proved about
those functions.

The current time is the parameter `now` of the handlers that build
records (create, replace, the seed).

Quirks of the source that the model keeps:

- `list_libraries` defaults `limit` to 50 although its declared bound is
  1..20. The web framework checks only values that are actually supplied,
  so the default lets up to 50 results through while an explicit
  `limit=50` is rejected (`Listing.DefaultLibraryLimitExceedsBound`).
- The book `author` filter never matches a book without an author.
- The person `birth_date` filter compares the text `str(p.birth_date)`,
  so the query `None` selects persons without a birth date.
- `create_person` and `create_book` silently replace an existing entry;
  only addresses and libraries refuse a duplicate id.
- In the library scan, the code of a record is checked before its name,
  and the first colliding record in store order decides the message.

## Model

| member | source | states |
|---|---|---|
| Text.Lower | main.py:303 | `str.lower()` keeps the length and lowercases each ASCII letter, leaving every other character alone |
| Text.LowerIdempotent | main.py:323 | lowercasing twice is lowercasing once |
| Text.Contains | main.py:241 | `needle in hay`, scanning for a prefix match at each position (proved in `Text.ContainsIff`) |
| Text.ContainsIff | main.py:241 | the substring test `needle in hay` holds exactly when `needle` occurs at some position of `hay` |
| Text.Strip | main.py:260 | `strip()` returns a contiguous piece of the input with only white space cut from either end, and the result neither starts nor ends with white space |
| Text.StripTrimmed | main.py:260 | a stripped string is trimmed, and a trimmed string is its own strip |
| Text.Split | main.py:260 | `split(',')` gives at least one piece and no piece holds the separator |
| Text.JoinSplit | main.py:260 | joining the pieces of a split gives back the input |
| Text.SplitJoin | main.py:260 | splitting the join of separator-free pieces gives back the pieces |
| Seqs.Filter | main.py:183 | a comprehension never lengthens the list |
| Seqs.FilterMembers | main.py:239 | an element survives a comprehension exactly when it was present and satisfies the condition |
| Seqs.FilterAppend | main.py:236-245 | filtering distributes over concatenation |
| Seqs.FilterFilter | main.py:238-245 | two comprehensions in a row are one comprehension on the conjunction |
| Seqs.When | main.py:238-245 | `if x is not None: results = [... if cond]`, applying the comprehension only when the filter is supplied (proved in `Seqs.WhenFilter`) |
| Seqs.WhenFilter | main.py:238-245 | an optional filter applied after a comprehension extends its condition with "if supplied, then …" |
| Seqs.Slice | main.py:247 | `results[offset:offset + limit]` has length `min(limit, len - offset)` (0 past the end) and its i-th element is element `offset + i` |
| Tables.Table.Values | main.py:236 | `list(d.values())` lists the stored values in key order |
| Tables.Table.Put | main.py:224 | `d[k] = v` leaves a well-formed dict whose mapping is the old one with `k` bound to `v` |
| Tables.Table.Remove | main.py:291 | `del d[k]` leaves a well-formed dict whose mapping is the old one without `k` |
| Tables.PutValues | main.py:276 | assigning a new key appends its value to `values()`; assigning an existing key overwrites its value in place and moves no key |
| Tables.RemoveValues | main.py:374 | `del` removes exactly that entry of `values()`; the others keep their relative order |
| Tables.RemoveFrame | main.py:291 | after `del d[k]`, `k` is absent, all other entries are unchanged, and records stay under their own ids |
| Tables.ValuesMembers | main.py:236 | a value is listed in `values()` exactly when some key maps to it |
| Tables.PutThree | main.py:50-52 | three assignments of distinct keys to an empty dict list the three records in assignment order |
| BookModel.FromCreate | main.py:223 | `BookRead(**book.model_dump())`: the payload's fields, an omitted author as None, both timestamps `now` (its meaning is proved in `BookModel.OmittedAuthorIsNone`) |
| BookModel.FromReplace | main.py:283 | `BookRead(id=book_id, **book.model_dump())`: the path id, the payload, fresh timestamps and nothing of the stored record (proved in `BookModel.ReplaceForgetsStored`) |
| BookModel.Merge | main.py:274-276 | `stored.update(update.model_dump(exclude_unset=True))`: the set fields overwrite, the rest stay (proved in `BookModel.MergeChangesOnlySetFields` and `BookModel.MergeEmptyAndIdempotent`) |
| BookModel.Attribute | main.py:264-265 | `getattr` on a `BookRead` for the six `valid_fields` names, the only names that reach `hasattr` after the `field in valid_fields` test; other names have no value in the model (proved in `BookModel.AttributesDetermine` and `BookModel.MergeChangesOnlySetFields`) |
| BookModel.AttributesDetermine | models/book.py:121-131 | two stored books with the same six attributes are the same book |
| BookModel.MergeChangesOnlySetFields | main.py:274-276 | a patch gives each field it sets the update's value; every other attribute, `id`, `created_at` and `updated_at` included, keeps its stored value |
| BookModel.ReplaceForgetsStored | main.py:283 | a replace is built from the path id and payload only: an omitted author becomes None even if one was stored, and the timestamps are those of the replacement |
| BookModel.OmittedAuthorIsNone | models/book.py:20-24 | a create or replace payload without `author` stores None; both timestamps are the instant of construction |
| BookModel.MergeEmptyAndIdempotent | models/book.py:92-108 | the empty update (every field optional) leaves the record as it was, and applying an update twice is applying it once |
| LibraryModel.FromCreate | main.py:308 | `LibraryRead(**library.model_dump())` with both timestamps `now` (related to the replace by `LibraryModel.ReplaceKeepsOnlyId`) |
| LibraryModel.FromReplace | main.py:366 | `LibraryRead(id=library_id, **library.model_dump())`: the path id and the payload (proved in `LibraryModel.ReplaceKeepsOnlyId`) |
| LibraryModel.Merge | main.py:349-351 | the library patch merge (proved in `LibraryModel.MergeKeeps`) |
| LibraryModel.MergeKeeps | main.py:349-351 | a library patch keeps `id` and both timestamps, takes each field it sets, keeps each field it leaves out; the empty patch is the identity |
| LibraryModel.ReplaceKeepsOnlyId | main.py:366 | a library replace keeps the path id and is otherwise the record a create of the same payload would build |
| PeopleModel.MergeAddress | main.py:154-156 | the address patch merge (proved in `PeopleModel.MergeAddressChangesOnlySetFields`) |
| PeopleModel.MergePerson | main.py:213-215 | the person patch merge (proved in `PeopleModel.MergePersonChangesOnlySetFields`) |
| PeopleModel.MergeAddressChangesOnlySetFields | main.py:154-156 | an address patch gives each field it sets the update's value and keeps every other field, `id` included |
| PeopleModel.MergePersonChangesOnlySetFields | main.py:213-215 | a person patch gives each field it sets the update's value and keeps every other field, `id` included |
| PeopleModel.MergeKeepsIdentity | main.py:154-156 | address and person patches keep the id; the empty patch changes nothing |
| PeopleModel.Digits | main.py:193 | the zero-padded decimal rendering has exactly the requested width |
| PeopleModel.DigitsValue | main.py:193 | a number that fits in the width reads back from its rendering |
| PeopleModel.DigitsInjective | main.py:193 | numbers that fit in the width have distinct renderings |
| PeopleModel.BirthDateText | main.py:193 | `str(p.birth_date)`: `None` for no date, else `YYYY-MM-DD` (proved in `PeopleModel.BirthDateTextIsNoneOnlyForNone` and `PeopleModel.IsoTextInjective`) |
| PeopleModel.IsoText | main.py:193 | `str(date)` as `YYYY-MM-DD` (proved in `PeopleModel.IsoTextInjective` and `PeopleModel.BirthDateTextIsNoneOnlyForNone`) |
| PeopleModel.IsoTextInjective | main.py:193 | distinct valid dates (years 1 to 9999, real month and day) render as distinct `YYYY-MM-DD` texts |
| PeopleModel.BirthDateTextIsNoneOnlyForNone | main.py:193 | `str(birth_date)` is ten characters with dashes at positions 4 and 7 for a date, and reads `None` exactly when the date is absent |
| Listing.ListAddresses | main.py:129-142 | the chain of optional address filters (proved in `Listing.ListAddressesIsFilter`) |
| Listing.ListAddressesIsFilter | main.py:121-142 | `list_addresses` returns, in store order, exactly the addresses that satisfy every supplied filter |
| Listing.ListPersons | main.py:180-201 | the chain of optional person filters (proved in `Listing.ListPersonsIsFilter`) |
| Listing.FilterPersonFieldsIsFilter | main.py:182-193 | the six filters on a person's own fields are one comprehension on their conjunction |
| Listing.ListPersonsIsFilter | main.py:169-201 | `list_persons` returns, in store order, exactly the persons that satisfy every supplied filter; `city` and `country` hold when at least one address matches |
| Listing.BirthDateFilterByText | main.py:192-193 | the query `birth_date=None` selects exactly the stored persons without a birth date |
| Listing.BirthDateFilterByDate | main.py:192-193 | the query `birth_date=YYYY-MM-DD` selects exactly the stored persons born on that date |
| Listing.ListBooks | main.py:236-247 | the book filters and the page slice (proved in `Listing.ListBooksIsFilteredSlice` and `Listing.ListBooksPage`) |
| Listing.ListBooksIsFilteredSlice | main.py:227-247 | `list_books` is rejected (422) exactly when a parameter is out of bounds; otherwise it is the `[offset, offset+limit)` slice of the books, in store order, matching an exact non-None author, a case-insensitive title substring and inclusive price bounds |
| Listing.ListBooksPage | main.py:233-247 | every listed book is stored and matches, at most `limit` come back, and `limit=1, offset=1` yields exactly the second match |
| Listing.ListLibraries | main.py:320-329 | the library filters and the page slice (proved in `Listing.ListLibrariesIsFilteredSlice`) |
| Listing.ListLibrariesIsFilteredSlice | main.py:312-329 | `list_libraries` is rejected exactly when a supplied parameter is out of bounds; otherwise it is the slice of the libraries, in store order, matching code and name case-insensitively and a case-insensitive name substring |
| Listing.DefaultLibraryLimitExceedsBound | main.py:317 | without `limit`, up to 50 libraries are returned, yet an explicit `limit=50` is rejected |
| LibraryRules.FirstConflict | main.py:302-306 | the outcome of the collision scan over `libraries.values()` (proved in `LibraryRules.FirstConflictIsFirstClash` and `LibraryRules.ScanFindsOtherClash`) |
| LibraryRules.FindConflict | main.py:302-306 | the scan loop returns exactly `FirstConflict` of the stored libraries |
| LibraryRules.FirstConflictIsFirstClash | main.py:342-347 | the scan passes exactly when no considered record collides; otherwise it reports the first colliding record in store order, with a code collision taking precedence over a name collision |
| LibraryRules.ScanFindsOtherClash | main.py:359-364 | over a table keyed by id, the scan raises exactly when some record other than the one being modified collides: a record never collides with itself |
| LibraryRules.Unique | main.py:302-306 | the library rule: no two stored libraries share a code or a name, case ignored (established by `LibraryRules.UniqueFromValues`, kept by the `*KeepsUnique` lemmas, part of `Service.Store.Valid`) |
| LibraryRules.UniqueFromValues | main.py:54-74 | a dict whose listed libraries differ pairwise in lowered code and name obeys the uniqueness rule |
| LibraryRules.PutKeepsUnique | main.py:309 | storing a library whose code and name clash with no other record keeps the rule |
| LibraryRules.CreateKeepsUnique | main.py:302-309 | a create that passes the scan keeps the rule |
| LibraryRules.ReplaceKeepsUnique | main.py:359-367 | a replace that passes the scan keeps the rule |
| LibraryRules.MergeKeepsUnique | main.py:341-351 | a patch keeps the rule when it sets neither code nor name or when its scan passes |
| LibraryRules.RemoveKeepsUnique | main.py:374 | a delete keeps the rule |
| Projection.FieldList | main.py:260 | one stripped name per comma-separated piece, in order |
| Projection.FieldListOfJoin | main.py:260 | names without commas or surrounding spaces, joined by commas, parse back to the same names |
| Projection.Picked | main.py:262-265 | the key order of `result`: each requested valid name once, in order of first request (proved in `Projection.PickedMembers` and `Projection.PickedOnce`) |
| Projection.PickedMembers | main.py:262-265 | a name is projected exactly when it was requested and is a valid field, and none twice |
| Projection.PickedOnce | main.py:262-265 | valid names requested once each are all kept, in request order |
| Projection.AllFieldsPicked | main.py:261 | requesting all six valid fields in their declared order returns them in that order |
| Projection.Project | main.py:262-266 | the loop builds a dict whose keys are the requested valid names in order of first request, each bound to the book's attribute |
| Service.SeedBooks | main.py:29-52 | the three books of `add_data`, in storage order (listed by `Service.SeedTablesInOrder`) |
| Service.SeedLibraries | main.py:54-74 | the three libraries of `add_data`, in storage order (proved distinct by `Service.SeedLibrariesDiffer`) |
| Service.SeedLibrariesDiffer | main.py:54-71 | the seed libraries differ pairwise in lowered code and lowered name |
| Service.SeedIdsDistinct | main.py:31-69 | the seed ids are pairwise distinct |
| Service.SeedBookTable | main.py:50-52 | the seeded book dict is well formed and keyed by id |
| Service.SeedLibraryTable | main.py:72-74 | the seeded library dict is well formed, keyed by id, and obeys the uniqueness rule |
| Service.SeedTablesInOrder | main.py:28-74 | the seeded dicts list the seed books and libraries in `add_data` order |
| Service.Store.Seeded | main.py:23-80 | the start-up state: no addresses or persons, the seed books and libraries, and the store invariant |
| Service.Store.CreateAddress | main.py:114-119 | a duplicate id answers 400 and changes nothing; otherwise the address is stored under its id with status 201; the other dicts are untouched |
| Service.Store.GetAddress | main.py:144-148 | 404 "Address not found" exactly when the id is absent, else the stored address with status 200, whose id is the one asked for |
| Service.Store.ListAddresses | main.py:121-142 | the stored addresses, in store order, that satisfy every supplied filter |
| Service.Store.UpdateAddress | main.py:150-157 | 404 with nothing changed for an absent id; otherwise the merged address replaces the stored one in place |
| Service.Store.CreatePerson | main.py:162-167 | no check: the person is stored under its id with status 201, replacing any entry already there |
| Service.Store.GetPerson | main.py:203-207 | 404 "Person not found" exactly when the id is absent, else the stored person with status 200 |
| Service.Store.ListPersons | main.py:169-201 | the stored persons, in store order, that satisfy every supplied filter |
| Service.Store.UpdatePerson | main.py:209-216 | 404 with nothing changed for an absent id; otherwise the merged person replaces the stored one in place |
| Service.Store.CreateBook | main.py:221-225 | no check: the book, with both timestamps `now`, is stored under its id with status 201, replacing any entry already there |
| Service.Store.ListBooks | main.py:227-247 | 422 exactly for an out-of-range parameter, otherwise the page of stored books matching every supplied filter |
| Service.Store.GetBook | main.py:249-268 | 404 for an absent id; otherwise the book, or with `fields` a dict holding exactly the requested valid names, in order of first request, each with the book's value |
| Service.Store.UpdateBook | main.py:270-277 | 404 with nothing changed for an absent id; otherwise the patched book replaces the stored one in place |
| Service.Store.ReplaceBook | main.py:279-285 | 404 with nothing changed for an absent id; otherwise the book rebuilt from the path id and payload with fresh timestamps replaces it in place |
| Service.Store.DeleteBook | main.py:287-292 | 404 with nothing changed for an absent id; otherwise the id is gone, every other entry is unchanged and `values()` loses exactly that entry |
| Service.Store.CreateLibrary | main.py:297-310 | a taken id answers 400 before any scan; otherwise a failed scan answers its detail and changes nothing, and a passed one stores the library with status 201 |
| Service.Store.ListLibraries | main.py:312-329 | 422 exactly for an explicit out-of-range parameter, otherwise the page of stored libraries matching every supplied filter |
| Service.Store.GetLibrary | main.py:331-335 | 404 "Library not found" exactly when the id is absent, else the stored library with status 200 |
| Service.Store.UpdateLibrary | main.py:337-352 | 404 for an absent id; a patch setting code or name is first scanned against the other libraries, and a failed scan answers its detail with nothing changed; otherwise the merged record replaces the stored one in place |
| Service.Store.ReplaceLibrary | main.py:354-368 | 404 for an absent id; a failed scan against the other libraries answers its detail with nothing changed; otherwise the rebuilt record replaces the stored one in place |
| Service.Store.DeleteLibrary | main.py:370-375 | 404 with nothing changed for an absent id; otherwise the id is gone, every other entry is unchanged and `values()` loses exactly that entry |

## Left out

- The health check (`make_health` and both `/health` routes): it reads the wall clock and resolves the host name, which is I/O.
- Routing, the root banner, the `uvicorn` entry point and the port taken from the environment: framework plumbing with no logic of its own.
- Request validation and `model_dump`: payloads arrive as well-typed Dafny values. A query parameter out of its declared bound is the outcome `Invalid` (HTTP 422).
- The `json_schema_extra` examples: documentation only.
- The `print` calls in `add_data`: console output.
- `price` is a real number (`Price`, the reals at least 0). Floating-point rounding is not modelled, because only the `ge=0` bound and the comparisons matter.
- Text.Lower: lowercases ASCII letters only; Python's `str.lower()` also folds non-ASCII letters. Unicode case mapping is out of scope.
- A patch that explicitly sets a required field to null (e.g. `{"title": null}`) fails re-validation with a server error. `BookUpdate` and `LibraryUpdate` cannot express it: a set `title`, `price`, `code` or `name` always holds a value. A book `author` may be set to null, which clears it.
- Persons and addresses: their schema files are not part of this model. Every text field is an optional string, `birth_date` an optional date in the range `datetime.date` accepts, and `addresses` the person's list of addresses. Neither record carries timestamps. Their update payloads carry no id. Their field validation is not modelled.
- Service.Store.GetBook: the contract describes the value the handler returns. The route declares `response_model=BookRead`, and the framework validates that value against it before sending; this validation is not modelled. A `BookRead` requires `id`, `title` and `price`, which have no defaults. So a `fields` projection missing any of the three fails that validation with a server error. A projection holding all three goes out as a whole `BookRead`, and the fields it leaves out take their defaults: `author` None and fresh timestamps. `Projection.Project` states only the handler's dict.
- Service.Store.Seeded: `add_data` calls `datetime.utcnow()` once per timestamp field. The model uses one instant `now` for all of them, and likewise one instant for both timestamps of each create or replace.
- Concurrency: the handlers run one at a time against the dicts.
- The UUID type is its canonical text. Parsing of the path and body ids is framework validation.

