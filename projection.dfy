/** The optional field projection of `get_book`: the `fields` query string
    is split at commas, each piece is stripped of surrounding white space,
    and the result dict receives, in request order, every requested name that
    is a valid book field, mapped to the book's value for it. */
module Projection {
  import opened Common
  import opened Text
  import opened Tables
  import opened BookModel

  /** `[f.strip() for f in fields.split(',')]`. */
  function FieldList(fields: string): (names: seq<string>)
    ensures |names| == |Split(fields, ',')|
    ensures forall i :: 0 <= i < |names| ==> names[i] == Strip(Split(fields, ',')[i])
  {
    var parts := Split(fields, ',');
    seq(|parts|, i requires 0 <= i < |parts| => Strip(parts[i]))
  }

  /** Names listed with commas and without surrounding spaces come back
      as listed: the parsing loses nothing of a well-formed request. */
  lemma FieldListOfJoin(names: seq<string>)
    requires |names| >= 1
    requires forall k :: 0 <= k < |names| ==> ',' !in names[k] && Trimmed(names[k])
    ensures FieldList(Join(names, ',')) == names
  {
    SplitJoin(names, ',');
    forall k | 0 <= k < |names| ensures Strip(names[k]) == names[k] {
      StripTrimmed(names[k]);
    }
  }

  /** The names a projection keeps, each once, in the order of their first
      request. */
  function Picked(names: seq<string>): seq<string> {
    if names == [] then []
    else
      var earlier := Picked(names[..|names| - 1]);
      var n := names[|names| - 1];
      if n in FIELD_NAMES && n !in earlier then earlier + [n] else earlier
  }

  /** A name is picked exactly when it was requested and is a valid field, and
      none is picked twice. */
  lemma {:induction false} PickedMembers(names: seq<string>)
    ensures forall n :: n in Picked(names) <==> n in names && n in FIELD_NAMES
    ensures Distinct(Picked(names))
  {
    if names != [] {
      var front := names[..|names| - 1];
      PickedMembers(front);
      assert names == front + [names[|names| - 1]];
    }
  }

  /** Valid names requested once each are all kept, in request order. */
  lemma {:induction false} PickedOnce(names: seq<string>)
    requires Distinct(names)
    requires forall k :: 0 <= k < |names| ==> names[k] in FIELD_NAMES
    ensures Picked(names) == names
  {
    if names != [] {
      var front := names[..|names| - 1];
      assert Distinct(front);
      PickedOnce(front);
      assert names[|names| - 1] !in front;
      assert names == front + [names[|names| - 1]];
    }
  }

  /** Requesting every valid field in the declared order returns them all,
      in that order. */
  lemma AllFieldsPicked()
    ensures Picked(FIELD_NAMES) == FIELD_NAMES
  {
    var f := FIELD_NAMES;
    assert f[0][0] == 'i' && f[1][0] == 't' && f[2][0] == 'a' && f[3][0] == 'p' && f[4][0] == 'c' && f[5][0] == 'u';
    assert Distinct(f);
    PickedOnce(f);
  }

  /** The loop of `get_book` that builds `result`. Re-assigning a key that is
      already in `result` keeps its place, so the keys end up in the order of
      their first request. */
  method Project(b: BookRead, names: seq<string>) returns (result: Table<string, FieldValue>)
    ensures result.Valid()
    ensures result.keys == Picked(names)
    ensures forall n :: n in result.rows <==> n in names && n in FIELD_NAMES
    ensures forall n :: n in result.rows ==> Attribute(b, n) == Some(result.rows[n])
  {
    result := Empty();
    for i := 0 to |names|
      invariant result.Valid()
      invariant result.keys == Picked(names[..i])
      invariant forall n :: n in result.rows ==> Attribute(b, n) == Some(result.rows[n])
    {
      assert names[..i + 1][..i] == names[..i];
      var name := names[i];
      if name in FIELD_NAMES && Attribute(b, name).Some? {
        result := result.Put(name, Attribute(b, name).value);
      }
    }
    assert names[..|names|] == names;
    PickedMembers(names);
  }
}
