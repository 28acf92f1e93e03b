/** Address and person records, with the fields the handlers read. Their
    schema files are not part of this model, so every text field is taken as
    optional (an absent value never equals a query string) and neither record
    carries timestamps. */
module PeopleModel {
  import opened Common

  datatype Address = Address(
    id: Uuid,
    street: Option<string> := None,
    city: Option<string> := None,
    state: Option<string> := None,
    postalCode: Option<string> := None,
    country: Option<string> := None)

  /** A partial address update; its fields are those of `Address` but `id`. */
  datatype AddressUpdate = AddressUpdate(
    street: Patch<Option<string>> := Unset,
    city: Patch<Option<string>> := Unset,
    state: Patch<Option<string>> := Unset,
    postalCode: Patch<Option<string>> := Unset,
    country: Patch<Option<string>> := Unset)

  /** Year, month and day, before the range checks of `datetime.date`. */
  datatype CalendarDay = CalendarDay(year: nat, month: nat, day: nat)

  predicate LeapYear(year: nat) {
    year % 4 == 0 && (year % 100 != 0 || year % 400 == 0)
  }

  /** The number of days in a month of the Gregorian calendar. */
  function DaysInMonth(year: nat, month: nat): nat
    requires 1 <= month <= 12
  {
    if month == 2 then (if LeapYear(year) then 29 else 28)
    else if month == 4 || month == 6 || month == 9 || month == 11 then 30
    else 31
  }

  /** The dates `datetime.date` accepts: years 1 to 9999 (`MINYEAR` to
      `MAXYEAR`), months 1 to 12, and a day that exists in that month. */
  predicate ValidDate(d: CalendarDay) {
    1 <= d.year <= 9999 && 1 <= d.month <= 12 && 1 <= d.day <= DaysInMonth(d.year, d.month)
  }

  /** A calendar date (`datetime.date`). */
  type Date = d: CalendarDay | ValidDate(d) witness CalendarDay(1, 1, 1)

  datatype Person = Person(
    id: Uuid,
    uni: Option<string> := None,
    firstName: Option<string> := None,
    lastName: Option<string> := None,
    email: Option<string> := None,
    phone: Option<string> := None,
    birthDate: Option<Date> := None,
    addresses: seq<Address> := [])

  datatype PersonUpdate = PersonUpdate(
    uni: Patch<Option<string>> := Unset,
    firstName: Patch<Option<string>> := Unset,
    lastName: Patch<Option<string>> := Unset,
    email: Patch<Option<string>> := Unset,
    phone: Patch<Option<string>> := Unset,
    birthDate: Patch<Option<Date>> := Unset,
    addresses: Patch<seq<Address>> := Unset)

  function AddressId(a: Address): Uuid { a.id }
  function PersonId(p: Person): Uuid { p.id }

  function MergeAddress(a: Address, u: AddressUpdate): Address {
    a.(street := u.street.Or(a.street), city := u.city.Or(a.city), state := u.state.Or(a.state),
       postalCode := u.postalCode.Or(a.postalCode), country := u.country.Or(a.country))
  }

  function MergePerson(p: Person, u: PersonUpdate): Person {
    p.(uni := u.uni.Or(p.uni), firstName := u.firstName.Or(p.firstName),
       lastName := u.lastName.Or(p.lastName), email := u.email.Or(p.email),
       phone := u.phone.Or(p.phone), birthDate := u.birthDate.Or(p.birthDate),
       addresses := u.addresses.Or(p.addresses))
  }

  /** An address patch gives each field it sets the update's value and keeps
      every other field, `id` included. */
  lemma MergeAddressChangesOnlySetFields(a: Address, u: AddressUpdate)
    ensures MergeAddress(a, u).id == a.id
    ensures MergeAddress(a, u).street == (if u.street.Set? then u.street.value else a.street)
    ensures MergeAddress(a, u).city == (if u.city.Set? then u.city.value else a.city)
    ensures MergeAddress(a, u).state == (if u.state.Set? then u.state.value else a.state)
    ensures MergeAddress(a, u).postalCode == (if u.postalCode.Set? then u.postalCode.value else a.postalCode)
    ensures MergeAddress(a, u).country == (if u.country.Set? then u.country.value else a.country)
  {
  }

  /** A person patch gives each field it sets the update's value and keeps
      every other field, `id` included. */
  lemma MergePersonChangesOnlySetFields(p: Person, u: PersonUpdate)
    ensures MergePerson(p, u).id == p.id
    ensures MergePerson(p, u).uni == (if u.uni.Set? then u.uni.value else p.uni)
    ensures MergePerson(p, u).firstName == (if u.firstName.Set? then u.firstName.value else p.firstName)
    ensures MergePerson(p, u).lastName == (if u.lastName.Set? then u.lastName.value else p.lastName)
    ensures MergePerson(p, u).email == (if u.email.Set? then u.email.value else p.email)
    ensures MergePerson(p, u).phone == (if u.phone.Set? then u.phone.value else p.phone)
    ensures MergePerson(p, u).birthDate == (if u.birthDate.Set? then u.birthDate.value else p.birthDate)
    ensures MergePerson(p, u).addresses == (if u.addresses.Set? then u.addresses.value else p.addresses)
  {
  }

  /** Patches keep the identity, and the empty patch keeps everything. */
  lemma MergeKeepsIdentity(a: Address, u: AddressUpdate, p: Person, v: PersonUpdate)
    ensures MergeAddress(a, u).id == a.id && MergePerson(p, v).id == p.id
    ensures MergeAddress(a, AddressUpdate()) == a && MergePerson(p, PersonUpdate()) == p
  {
  }

  // -----------------------------------------------------------------------
  // `str(p.birth_date)`
  // -----------------------------------------------------------------------

  function DigitChar(d: nat): char
    requires d < 10
  {
    ['0', '1', '2', '3', '4', '5', '6', '7', '8', '9'][d]
  }

  /** The last `width` decimal digits of `n`, zero-padded (`%0<width>d` for
      values that fit). */
  function Digits(n: nat, width: nat): (s: string)
    ensures |s| == width
  {
    if width == 0 then [] else Digits(n / 10, width - 1) + [DigitChar(n % 10)]
  }

  function Pow10(k: nat): (p: nat)
    ensures p >= 1
  {
    if k == 0 then 1 else 10 * Pow10(k - 1)
  }

  /** The number a string of decimal digits denotes (`int(s)`); a character
      that is not a digit counts as 0. */
  function DecimalValue(s: string): nat {
    if s == [] then 0
    else
      var c := s[|s| - 1];
      var d := if '0' <= c <= '9' then (c as int - '0' as int) as nat else 0;
      10 * DecimalValue(s[..|s| - 1]) + d
  }

  lemma DigitCharValue(d: nat)
    requires d < 10
    ensures '0' <= DigitChar(d) <= '9' && DigitChar(d) as int - '0' as int == d
  {
  }

  /** Reading back the rendering of a number that fits in `width` digits
      gives the number: the rendering is `%0<width>d`. */
  lemma {:induction false} DigitsValue(n: nat, width: nat)
    requires n < Pow10(width)
    ensures DecimalValue(Digits(n, width)) == n
  {
    if width > 0 {
      var s := Digits(n, width);
      DigitsValue(n / 10, width - 1);
      DigitCharValue(n % 10);
      assert s[..|s| - 1] == Digits(n / 10, width - 1);
    }
  }

  /** Numbers below `10^width` have distinct renderings. */
  lemma DigitsInjective(m: nat, n: nat, width: nat)
    requires m < Pow10(width) && n < Pow10(width)
    requires Digits(m, width) == Digits(n, width)
    ensures m == n
  {
    DigitsValue(m, width);
    DigitsValue(n, width);
  }

  /** `str(date)`, i.e. `date.isoformat()`: `YYYY-MM-DD`. */
  function IsoText(d: Date): string {
    Digits(d.year, 4) + "-" + Digits(d.month, 2) + "-" + Digits(d.day, 2)
  }

  /** `str(p.birth_date)` for a birth date that may be absent: `str(None)` is
      the text `None`. */
  function BirthDateText(b: Option<Date>): string {
    match b
    case None => "None"
    case Some(d) => IsoText(d)
  }

  /** Different valid dates render differently, so comparing the text
      `str(date)` compares the dates. */
  lemma IsoTextInjective(d: Date, e: Date)
    requires IsoText(d) == IsoText(e)
    ensures d == e
  {
    var s, t := IsoText(d), IsoText(e);
    assert s[..4] == Digits(d.year, 4) && t[..4] == Digits(e.year, 4);
    assert s[5..7] == Digits(d.month, 2) && t[5..7] == Digits(e.month, 2);
    assert s[8..] == Digits(d.day, 2) && t[8..] == Digits(e.day, 2);
    assert Pow10(2) == 100 && Pow10(4) == 10000;
    DigitsInjective(d.year, e.year, 4);
    DigitsInjective(d.month, e.month, 2);
    DigitsInjective(d.day, e.day, 2);
  }

  /** The rendering is always ten characters with dashes at positions 4 and
      7, so it never reads `None`: the text `None` stands for a missing birth
      date and for nothing else. */
  lemma BirthDateTextIsNoneOnlyForNone(b: Option<Date>)
    ensures b.Some? ==> |BirthDateText(b)| == 10 && BirthDateText(b)[4] == '-' && BirthDateText(b)[7] == '-'
    ensures BirthDateText(b) == "None" <==> b.None?
  {
  }
}
