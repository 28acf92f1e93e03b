/** The library schemas: `LibraryBase`/`LibraryCreate`, `LibraryReplace`,
    `LibraryUpdate` and the stored record `LibraryRead`. */
module LibraryModel {
  import opened Common

  /** `id`, `code` and `name` are all required. */
  datatype LibraryCreate = LibraryCreate(id: Uuid, code: string, name: string)

  /** `code` and `name` required, no `id`: identity is fixed by the path. */
  datatype LibraryReplace = LibraryReplace(code: string, name: string)

  /** Both fields optional and None by default. */
  datatype LibraryUpdate = LibraryUpdate(code: Patch<string> := Unset, name: Patch<string> := Unset) {
    /** `update.code is not None or update.name is not None`. */
    predicate TouchesCodeOrName() {
      code.Set? || name.Set?
    }
  }

  /** The stored record: a required `id`, the two strings and the timestamps. */
  datatype LibraryRead = LibraryRead(id: Uuid, code: string, name: string, createdAt: Timestamp, updatedAt: Timestamp)

  /** `LibraryRead(**library.model_dump())`, timestamps from the default factory. */
  function FromCreate(c: LibraryCreate, now: Timestamp): LibraryRead {
    LibraryRead(c.id, c.code, c.name, now, now)
  }

  /** `LibraryRead(id=library_id, **library.model_dump())`. */
  function FromReplace(id: Uuid, p: LibraryReplace, now: Timestamp): LibraryRead {
    LibraryRead(id, p.code, p.name, now, now)
  }

  /** `stored.update(update.model_dump(exclude_unset=True))` followed by
      `LibraryRead(**stored)`. */
  function Merge(l: LibraryRead, u: LibraryUpdate): LibraryRead {
    l.(code := u.code.Or(l.code), name := u.name.Or(l.name))
  }

  /** A patch carries over `id` and both timestamps, takes every field it sets
      and keeps every field it leaves out; the empty patch is the identity. */
  lemma MergeKeeps(l: LibraryRead, u: LibraryUpdate)
    ensures Merge(l, u).id == l.id
    ensures Merge(l, u).createdAt == l.createdAt && Merge(l, u).updatedAt == l.updatedAt
    ensures Merge(l, u).code == (if u.code.Set? then u.code.value else l.code)
    ensures Merge(l, u).name == (if u.name.Set? then u.name.value else l.name)
    ensures !u.TouchesCodeOrName() ==> Merge(l, u) == l
  {
  }

  /** A replacement keeps nothing of the stored record but its id (which the
      path supplies): its timestamps are those of the replacement. */
  lemma ReplaceKeepsOnlyId(stored: LibraryRead, p: LibraryReplace, now: Timestamp)
    ensures FromReplace(stored.id, p, now).id == stored.id
    ensures FromReplace(stored.id, p, now) == FromCreate(LibraryCreate(stored.id, p.code, p.name), now)
  {
  }

  function LibraryId(r: LibraryRead): Uuid { r.id }
}
