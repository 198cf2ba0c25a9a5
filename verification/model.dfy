/**
 * The records the service passes around and the one-line text of an address
 * that is sent to the geocoder.
 */
module Model {
  import opened Wrappers
  import opened ObjectIds

  type UInt64 = n: int | 0 <= n < 0x1_0000_0000_0000_0000
  type Int64 = n: int | -0x8000_0000_0000_0000 <= n < 0x8000_0000_0000_0000

  /** A geocoded point, kept opaque: the service only copies it from the geocoder to the store. */
  datatype Location = Location(long: real, lat: real)

  datatype Address = Address(
    id: ObjectID,
    street: string,
    suburb: string,
    city: string,
    postalCode: string,
    state: string,
    country: string,
    location: Location)

  /** A delivery address is an address owned by a user. */
  datatype Delivery = Delivery(address: Address, userID: UInt64)

  /** The result window of an establishment search. */
  datatype Search = Search(limit: Int64, offset: Int64)

  /** Go's zero `model.Address{}`. */
  const ZeroAddress: Address := Address(NilObjectID, "", "", "", "", "", "", Location(0.0, 0.0))

  /** The six text fields in the order the text format lists them. */
  function Fields(a: Address): seq<string> {
    [a.street, a.suburb, a.postalCode, a.city, a.state, a.country]
  }

  function SumLengths(xs: seq<string>): nat {
    if xs == [] then 0 else |xs[0]| + SumLengths(xs[1..])
  }

  /** The elements of a non-empty list, each pair separated by ", ". */
  function Join(xs: seq<string>): (s: string)
    requires |xs| >= 1
    ensures |s| == SumLengths(xs) + 2 * (|xs| - 1)
  {
    if |xs| == 1 then xs[0] else xs[0] + ", " + Join(xs[1..])
  }

  /**
   * Address.String: street, suburb, postal code, city, state and country, in
   * that order and separated by ", ", every field listed whether empty or not.
   */
  function AddressString(a: Address): (s: string)
    ensures s == a.street + ", " + a.suburb + ", " + a.postalCode + ", "
                 + a.city + ", " + a.state + ", " + a.country
  {
    var f := Fields(a);
    assert Join(f[5..]) == a.country;
    assert Join(f[4..]) == a.state + ", " + a.country;
    assert Join(f[3..]) == a.city + ", " + Join(f[4..]);
    assert Join(f[2..]) == a.postalCode + ", " + Join(f[3..]);
    assert Join(f[1..]) == a.suburb + ", " + Join(f[2..]);
    Join(f)
  }

  /** The pieces of `s` between occurrences of `sep`; there is always at least one. */
  function Split(s: string, sep: char): (r: seq<string>)
    ensures |r| >= 1
    ensures forall i :: 0 <= i < |r| ==> sep !in r[i]
  {
    if s == [] then [""]
    else
      var rest := Split(s[1..], sep);
      if s[0] == sep then [""] + rest else [[s[0]] + rest[0]] + rest[1..]
  }

  /** The pieces with their first character (the space after each comma) removed. */
  function DropLeadingSpaces(ps: seq<string>): (r: Option<seq<string>>)
    ensures r.Some? ==> |r.value| == |ps|
  {
    if ps == [] then Some([])
    else if |ps[0]| == 0 || ps[0][0] != ' ' then None
    else
      match DropLeadingSpaces(ps[1..])
      case None => None
      case Some(rest) => Some([ps[0][1..]] + rest)
  }

  /** Reads the six fields back out of the text of an address. */
  function ParseAddressText(s: string): (r: Option<seq<string>>)
    ensures r.Some? ==> |r.value| == 6
  {
    var pieces := Split(s, ',');
    if |pieces| != 6 then None
    else
      match DropLeadingSpaces(pieces[1..])
      case None => None
      case Some(rest) => Some([pieces[0]] + rest)
  }

  predicate CommaFree(a: Address) {
    forall i :: 0 <= i < 6 ==> ',' !in Fields(a)[i]
  }

  /** The text is as long as the six fields together plus five two-character separators. */
  lemma AddressStringLength(a: Address)
    ensures |AddressString(a)| == |a.street| + |a.suburb| + |a.postalCode| + |a.city| + |a.state| + |a.country| + 10
  {
  }

  /** No field is dropped: the all-empty address still yields five separators. */
  lemma EmptyAddressString()
    ensures AddressString(ZeroAddress) == ", , , , , "
  {
  }

  /** The text depends on the six text fields only, never on the id or the location. */
  lemma AddressStringIgnoresIDAndLocation(a: Address, id: ObjectID, loc: Location)
    ensures AddressString(a.(id := id, location := loc)) == AddressString(a)
  {
  }

  lemma {:induction false} SplitNoSep(x: string, sep: char)
    requires sep !in x
    ensures Split(x, sep) == [x]
  {
    if x != [] {
      SplitNoSep(x[1..], sep);
      assert [x[0]] + x[1..] == x;
    }
  }

  lemma {:induction false} SplitAfter(x: string, y: string, sep: char)
    requires sep !in x
    ensures Split(x + [sep] + y, sep) == [x] + Split(y, sep)
  {
    if x == [] {
      assert x + [sep] + y == [sep] + y;
      assert ([sep] + y)[1..] == y;
    } else {
      SplitAfter(x[1..], y, sep);
      assert (x + [sep] + y)[1..] == x[1..] + [sep] + y;
      assert [x[0]] + x[1..] == x;
    }
  }

  /** Splitting a comma-free join recovers the first element and the others behind their spaces. */
  lemma {:induction false} SplitJoin(xs: seq<string>)
    requires |xs| >= 1
    requires forall i :: 0 <= i < |xs| ==> ',' !in xs[i]
    ensures Split(Join(xs), ',') == [xs[0]] + SpacedTail(xs[1..])
  {
    if |xs| == 1 {
      SplitNoSep(xs[0], ',');
    } else {
      var tail := Join(xs[1..]);
      assert Join(xs) == xs[0] + [','] + (" " + tail);
      SplitAfter(xs[0], " " + tail, ',');
      SplitJoin(xs[1..]);
      assert ' ' != ',';
      SplitSpaced(tail, [xs[1]] + SpacedTail(xs[2..]));
      assert xs[1..][1..] == xs[2..];
    }
  }

  function SpacedTail(xs: seq<string>): (r: seq<string>)
    ensures |r| == |xs|
  {
    if xs == [] then [] else [" " + xs[0]] + SpacedTail(xs[1..])
  }

  lemma SplitSpaced(t: string, ps: seq<string>)
    requires Split(t, ',') == ps
    ensures Split(" " + t, ',') == [" " + ps[0]] + ps[1..]
  {
  }

  lemma {:induction false} DropSpacedTail(xs: seq<string>)
    ensures DropLeadingSpaces(SpacedTail(xs)) == Some(xs)
  {
    if xs != [] {
      DropSpacedTail(xs[1..]);
      assert (" " + xs[0])[1..] == xs[0];
      assert [xs[0]] + xs[1..] == xs;
    }
  }

  /** The text of an address whose fields hold no comma parses back to its six fields. */
  lemma ParseAddressString(a: Address)
    requires CommaFree(a)
    ensures ParseAddressText(AddressString(a)) == Some(Fields(a))
  {
    var f := Fields(a);
    SplitJoin(f);
    DropSpacedTail(f[1..]);
    assert [f[0]] + f[1..] == f;
  }

  /** So two comma-free addresses reach the geocoder as the same text only when their fields agree. */
  lemma AddressStringInjective(a: Address, b: Address)
    requires CommaFree(a) && CommaFree(b)
    requires AddressString(a) == AddressString(b)
    ensures Fields(a) == Fields(b)
  {
    ParseAddressString(a);
    ParseAddressString(b);
  }
}
