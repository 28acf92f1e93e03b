/** The book schemas: the create payload (`BookBase`/`BookCreate`), the full
    replacement payload (`BookReplace`), the partial update (`BookUpdate`) and
    the stored record (`BookRead`). */
module BookModel {
  import opened Common

  /** `float` under the `ge=0` constraint that every `price` field carries. */
  type Price = x: real | x >= 0.0

  /** `id`, `title` and `price` are required; `author` may be omitted and is
      then None. */
  datatype BookCreate = BookCreate(id: Uuid, title: string, author: Option<string> := None, price: Price)

  /** No `id`: a replacement cannot change a book's identity. */
  datatype BookReplace = BookReplace(title: string, author: Option<string> := None, price: Price)

  /** Every field optional, so `BookUpdate()` is a valid (empty) update. An
      explicitly given `author` may be null, which clears the author. */
  datatype BookUpdate = BookUpdate(
    title: Patch<string> := Unset,
    author: Patch<Option<string>> := Unset,
    price: Patch<Price> := Unset)

  /** The stored record: the base fields plus the two timestamps. */
  datatype BookRead = BookRead(
    id: Uuid, title: string, author: Option<string> := None, price: Price,
    createdAt: Timestamp, updatedAt: Timestamp)

  /** `BookRead(**book.model_dump())`: both timestamps come from their
      default factory, here the instant `now`. */
  function FromCreate(c: BookCreate, now: Timestamp): BookRead {
    BookRead(c.id, c.title, c.author, c.price, now, now)
  }

  /** `BookRead(id=book_id, **book.model_dump())`: the identity comes from the
      path, every other field from the payload, the timestamps are fresh. */
  function FromReplace(id: Uuid, p: BookReplace, now: Timestamp): BookRead {
    BookRead(id, p.title, p.author, p.price, now, now)
  }

  /** `stored.update(update.model_dump(exclude_unset=True))` followed by
      `BookRead(**stored)`: the given fields overwrite, the rest stay. */
  function Merge(b: BookRead, u: BookUpdate): BookRead {
    b.(title := u.title.Or(b.title), author := u.author.Or(b.author), price := u.price.Or(b.price))
  }

  /** The names in `valid_fields` of the projection in `get_book`. */
  const FIELD_NAMES: seq<string> := ["id", "title", "author", "price", "created_at", "updated_at"]

  /** `getattr(book, name)` for the six `valid_fields` names, the only names
      that reach `hasattr` once `field in valid_fields` has been tested; no
      other name has a value here. */
  function Attribute(b: BookRead, name: string): Option<FieldValue> {
    if name == "id" then Some(UuidValue(b.id))
    else if name == "title" then Some(TextValue(b.title))
    else if name == "author" then Some(OptionalText(b.author))
    else if name == "price" then Some(NumberValue(b.price))
    else if name == "created_at" then Some(TimeValue(b.createdAt))
    else if name == "updated_at" then Some(TimeValue(b.updatedAt))
    else None
  }

  /** The names of the fields an update sets explicitly. */
  function SetFields(u: BookUpdate): set<string> {
    (if u.title.Set? then {"title"} else {}) +
    (if u.author.Set? then {"author"} else {}) +
    (if u.price.Set? then {"price"} else {})
  }

  /** The value an update gives to one of the fields it sets. */
  function UpdateValue(u: BookUpdate, name: string): FieldValue
    requires name in SetFields(u)
  {
    if name == "title" then TextValue(u.title.value)
    else if name == "author" then OptionalText(u.author.value)
    else NumberValue(u.price.value)
  }

  /** A record is determined by its attributes. */
  lemma AttributesDetermine(a: BookRead, b: BookRead)
    requires forall name :: name in FIELD_NAMES ==> Attribute(a, name) == Attribute(b, name)
    ensures a == b
  {
    assert Attribute(a, "id") == Attribute(b, "id");
    assert Attribute(a, "title") == Attribute(b, "title");
    assert Attribute(a, "author") == Attribute(b, "author");
    assert Attribute(a, "price") == Attribute(b, "price");
    assert Attribute(a, "created_at") == Attribute(b, "created_at");
    assert Attribute(a, "updated_at") == Attribute(b, "updated_at");
  }

  /** A patch changes exactly the fields it sets: each of those takes the
      update's value, every other attribute (`id`, `created_at` and
      `updated_at` among them) keeps the stored one. */
  lemma MergeChangesOnlySetFields(b: BookRead, u: BookUpdate, name: string)
    ensures name in SetFields(u) ==> Attribute(Merge(b, u), name) == Some(UpdateValue(u, name))
    ensures name !in SetFields(u) ==> Attribute(Merge(b, u), name) == Attribute(b, name)
  {
  }

  /** A replacement is built from the path id and the payload alone: what was
      stored before does not enter, an omitted author is None, and the
      timestamps are the instant of the replacement. */
  lemma ReplaceForgetsStored(stored: BookRead, id: Uuid, title: string, price: Price, now: Timestamp)
    ensures FromReplace(id, BookReplace(title, price := price), now) ==
            BookRead(id, title, None, price, now, now)
    ensures stored.author.Some? ==> FromReplace(id, BookReplace(title, price := price), now).author != stored.author
  {
  }

  /** A create or replace payload that leaves out `author` stores None, and
      a stored record takes both timestamps from the instant it is built. */
  lemma OmittedAuthorIsNone(id: Uuid, title: string, price: Price, now: Timestamp)
    ensures FromCreate(BookCreate(id, title, price := price), now) == BookRead(id, title, None, price, now, now)
    ensures FromReplace(id, BookReplace(title, price := price), now).author == None
  {
  }

  /** The empty update leaves the record as it was, and applying an update a
      second time changes nothing more. */
  lemma MergeEmptyAndIdempotent(b: BookRead, u: BookUpdate)
    ensures Merge(b, BookUpdate()) == b
    ensures Merge(Merge(b, u), u) == Merge(b, u)
  {
  }

  function BookId(r: BookRead): Uuid { r.id }
}
