/** The uniqueness rule of the library endpoints: no two stored libraries
    share a code or a name, compared with case ignored. Create, patch and
    replace enforce it with one scan over `libraries.values()` that checks,
    record by record, the code before the name and stops at the first
    collision; patch and replace skip the record being modified. */
module LibraryRules {
  import opened Common
  import opened Text
  import opened Tables
  import opened LibraryModel

  const ID_TAKEN := "Library with this ID already exists"
  const CODE_TAKEN := "A library with this code already exists"
  const NAME_TAKEN := "A library with this name already exists"

  /** The stored code equals the proposed one with case ignored (a code that
      is not proposed collides with nothing). */
  predicate CodeClash(l: LibraryRead, code: Option<string>) {
    code.Some? && Lower(l.code) == Lower(code.value)
  }

  predicate NameClash(l: LibraryRead, name: Option<string>) {
    name.Some? && Lower(l.name) == Lower(name.value)
  }

  /** Whether the scan stops at `l`: it is not the skipped record and its code
      or name collides. */
  predicate Clashes(l: LibraryRead, skip: Option<Uuid>, code: Option<string>, name: Option<string>) {
    skip != Some(l.id) && (CodeClash(l, code) || NameClash(l, name))
  }

  /** The detail of the 400 raised at a colliding record: the code is checked
      first. */
  function ClashMessage(l: LibraryRead, code: Option<string>): string {
    if CodeClash(l, code) then CODE_TAKEN else NAME_TAKEN
  }

  /** The outcome of the scan over `libs`: None when it runs to the end, else
      the detail raised at the first colliding record. */
  function FirstConflict(libs: seq<LibraryRead>, skip: Option<Uuid>, code: Option<string>, name: Option<string>): Option<string> {
    if libs == [] then None
    else if Clashes(libs[0], skip, code, name) then Some(ClashMessage(libs[0], code))
    else FirstConflict(libs[1..], skip, code, name)
  }

  /** The scan itself, as the handlers write it. */
  method FindConflict(libs: seq<LibraryRead>, skip: Option<Uuid>, code: Option<string>, name: Option<string>)
    returns (conflict: Option<string>)
    ensures conflict == FirstConflict(libs, skip, code, name)
  {
    for i := 0 to |libs|
      invariant FirstConflict(libs[i..], skip, code, name) == FirstConflict(libs, skip, code, name)
    {
      assert libs[i..][1..] == libs[i + 1..];
      var existing := libs[i];
      if skip != Some(existing.id) {
        if code.Some? && Lower(existing.code) == Lower(code.value) {
          return Some(CODE_TAKEN);
        }
        if name.Some? && Lower(existing.name) == Lower(name.value) {
          return Some(NAME_TAKEN);
        }
      }
    }
    return None;
  }

  /** The scan fails exactly when some record collides, and then it reports
      the first such record, with the code taking precedence over the name. */
  lemma {:induction false} FirstConflictIsFirstClash(libs: seq<LibraryRead>, skip: Option<Uuid>, code: Option<string>, name: Option<string>)
    ensures FirstConflict(libs, skip, code, name).None? <==>
            forall i :: 0 <= i < |libs| ==> !Clashes(libs[i], skip, code, name)
    ensures FirstConflict(libs, skip, code, name).Some? ==>
            exists k :: 0 <= k < |libs| && Clashes(libs[k], skip, code, name)
                     && (forall j :: 0 <= j < k ==> !Clashes(libs[j], skip, code, name))
                     && FirstConflict(libs, skip, code, name) == Some(ClashMessage(libs[k], code))
  {
    if libs != [] && !Clashes(libs[0], skip, code, name) {
      var rest := libs[1..];
      FirstConflictIsFirstClash(rest, skip, code, name);
      forall i | 0 <= i < |rest| ensures rest[i] == libs[i + 1] {
      }
      if FirstConflict(rest, skip, code, name).Some? {
        var k :| 0 <= k < |rest| && Clashes(rest[k], skip, code, name)
                 && (forall j :: 0 <= j < k ==> !Clashes(rest[j], skip, code, name))
                 && FirstConflict(rest, skip, code, name) == Some(ClashMessage(rest[k], code));
        assert forall j :: 0 <= j < k + 1 ==> !Clashes(libs[j], skip, code, name) by {
          forall j | 0 <= j < k + 1 ensures !Clashes(libs[j], skip, code, name) {
            if j > 0 {
              assert libs[j] == rest[j - 1];
            }
          }
        }
      } else {
        forall i | 0 <= i < |libs| ensures !Clashes(libs[i], skip, code, name) {
          if i > 0 {
            assert libs[i] == rest[i - 1];
          }
        }
      }
    }
  }

  /** No two stored libraries share a code or a name, case ignored. */
  ghost predicate Unique(t: Table<Uuid, LibraryRead>) {
    forall a, b :: a in t.rows && b in t.rows && a != b ==>
      Lower(t.rows[a].code) != Lower(t.rows[b].code) && Lower(t.rows[a].name) != Lower(t.rows[b].name)
  }

  /** The rule holds of a table whose listed records differ pairwise. */
  lemma UniqueFromValues(t: Table<Uuid, LibraryRead>)
    requires t.Valid()
    requires forall i, j :: 0 <= i < j < |t.keys| ==>
               Lower(t.Values()[i].code) != Lower(t.Values()[j].code) &&
               Lower(t.Values()[i].name) != Lower(t.Values()[j].name)
    ensures Unique(t)
  {
    forall a, b | a in t.rows && b in t.rows && a != b
      ensures Lower(t.rows[a].code) != Lower(t.rows[b].code) && Lower(t.rows[a].name) != Lower(t.rows[b].name)
    {
      var i, j := t.IndexOf(a), t.IndexOf(b);
      assert t.Values()[i] == t.rows[a] && t.Values()[j] == t.rows[b];
      if i > j {
        assert Lower(t.Values()[j].code) != Lower(t.Values()[i].code);
      }
    }
  }

  /** Over a table whose records are stored under their ids, the scan raises
      exactly when some record other than the skipped one collides with the
      proposed code or name: the record being modified never collides with
      itself. */
  lemma ScanFindsOtherClash(t: Table<Uuid, LibraryRead>, skip: Option<Uuid>, code: Option<string>, name: Option<string>)
    requires t.Valid() && KeyedBy(t, LibraryId)
    ensures FirstConflict(t.Values(), skip, code, name).Some? <==>
            exists k :: k in t.rows && skip != Some(k) && (CodeClash(t.rows[k], code) || NameClash(t.rows[k], name))
  {
    var vs := t.Values();
    FirstConflictIsFirstClash(vs, skip, code, name);
    if exists k :: k in t.rows && skip != Some(k) && (CodeClash(t.rows[k], code) || NameClash(t.rows[k], name)) {
      var k :| k in t.rows && skip != Some(k) && (CodeClash(t.rows[k], code) || NameClash(t.rows[k], name));
      var i := t.IndexOf(k);
      assert LibraryId(t.rows[k]) == k;
      assert Clashes(vs[i], skip, code, name);
    }
    if FirstConflict(vs, skip, code, name).Some? {
      var i :| 0 <= i < |vs| && Clashes(vs[i], skip, code, name);
      var k := t.keys[i];
      assert LibraryId(t.rows[k]) == k;
    }
  }

  /** Storing `l` under `id` keeps the rule when no other stored record
      shares its code or name. */
  lemma PutKeepsUnique(t: Table<Uuid, LibraryRead>, id: Uuid, l: LibraryRead)
    requires t.Valid() && Unique(t)
    requires forall k :: k in t.rows && k != id ==>
               Lower(t.rows[k].code) != Lower(l.code) && Lower(t.rows[k].name) != Lower(l.name)
    ensures Unique(t.Put(id, l))
  {
  }

  /** A create that passes the scan keeps the rule. */
  lemma CreateKeepsUnique(t: Table<Uuid, LibraryRead>, c: LibraryCreate, now: Timestamp)
    requires t.Valid() && KeyedBy(t, LibraryId) && Unique(t)
    requires FirstConflict(t.Values(), None, Some(c.code), Some(c.name)) == None
    ensures Unique(t.Put(c.id, FromCreate(c, now)))
  {
    ScanFindsOtherClash(t, None, Some(c.code), Some(c.name));
    PutKeepsUnique(t, c.id, FromCreate(c, now));
  }

  /** A replacement that passes the scan keeps the rule. */
  lemma ReplaceKeepsUnique(t: Table<Uuid, LibraryRead>, id: Uuid, p: LibraryReplace, now: Timestamp)
    requires t.Valid() && KeyedBy(t, LibraryId) && Unique(t)
    requires FirstConflict(t.Values(), Some(id), Some(p.code), Some(p.name)) == None
    ensures Unique(t.Put(id, FromReplace(id, p, now)))
  {
    ScanFindsOtherClash(t, Some(id), Some(p.code), Some(p.name));
    PutKeepsUnique(t, id, FromReplace(id, p, now));
  }

  /** A patch keeps the rule when it sets neither code nor name (no scan is
      run) or when the scan over the given fields passes: a field it leaves
      unset keeps the stored value, which was already unique. */
  lemma MergeKeepsUnique(t: Table<Uuid, LibraryRead>, id: Uuid, u: LibraryUpdate)
    requires t.Valid() && KeyedBy(t, LibraryId) && Unique(t) && id in t.rows
    requires u.TouchesCodeOrName() ==> FirstConflict(t.Values(), Some(id), u.code.Given(), u.name.Given()) == None
    ensures Unique(t.Put(id, Merge(t.rows[id], u)))
  {
    ScanFindsOtherClash(t, Some(id), u.code.Given(), u.name.Given());
    var l := Merge(t.rows[id], u);
    forall k | k in t.rows && k != id
      ensures Lower(t.rows[k].code) != Lower(l.code) && Lower(t.rows[k].name) != Lower(l.name)
    {
      if u.code.Set? {
        assert !CodeClash(t.rows[k], u.code.Given());
      }
      if u.name.Set? {
        assert !NameClash(t.rows[k], u.name.Given());
      }
    }
    PutKeepsUnique(t, id, l);
  }

  /** Deleting a record keeps the rule. */
  lemma RemoveKeepsUnique(t: Table<Uuid, LibraryRead>, id: Uuid)
    requires t.Valid() && Unique(t)
    ensures Unique(t.Remove(id))
  {
  }
}
