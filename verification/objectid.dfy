/**
 * MongoDB ObjectIDs as the service sees them: twelve bytes inside the store,
 * a 24-character hex string at every interface of the service.
 */
module ObjectIds {
  import opened Wrappers
  import opened Errors

  type Byte = b: int | 0 <= b < 256

  type ObjectID = s: seq<Byte> | |s| == 12 witness [0, 0, 0, 0, 0, 0, 0, 0, 0, 0, 0, 0]

  /** The zero ObjectID, which `omitempty` leaves out of an inserted document. */
  const NilObjectID: ObjectID := [0, 0, 0, 0, 0, 0, 0, 0, 0, 0, 0, 0]

  predicate IsHexDigit(c: char) {
    '0' <= c <= '9' || 'a' <= c <= 'f' || 'A' <= c <= 'F'
  }

  predicate IsLowerHexDigit(c: char) {
    '0' <= c <= '9' || 'a' <= c <= 'f'
  }

  /** The lower-case digit the hex encoder writes for a nibble. */
  function HexDigit(n: int): (c: char)
    requires 0 <= n < 16
    ensures IsLowerHexDigit(c)
  {
    if n < 10 then ('0' as int + n) as char else ('a' as int + n - 10) as char
  }

  /** The nibble a hex digit of either case stands for. */
  function DigitValue(c: char): (n: int)
    requires IsHexDigit(c)
    ensures 0 <= n < 16
  {
    if '0' <= c <= '9' then c as int - '0' as int
    else if 'a' <= c <= 'f' then c as int - 'a' as int + 10
    else c as int - 'A' as int + 10
  }

  function LowerDigit(c: char): char {
    if 'A' <= c <= 'F' then (c as int - 'A' as int + 'a' as int) as char else c
  }

  function Lower(s: string): (r: string)
    ensures |r| == |s|
    ensures forall i :: 0 <= i < |s| ==> r[i] == LowerDigit(s[i])
  {
    seq(|s|, i requires 0 <= i < |s| => LowerDigit(s[i]))
  }

  /** Two lower-case hex digits per byte, high nibble first. */
  function EncodeHex(bs: seq<Byte>): (s: string)
    ensures |s| == 2 * |bs|
    ensures forall i :: 0 <= i < |s| ==> IsLowerHexDigit(s[i])
  {
    if bs == [] then "" else [HexDigit(bs[0] / 16), HexDigit(bs[0] % 16)] + EncodeHex(bs[1..])
  }

  /**
   * Decodes pairs of hex digits of either case; on failure it reports the
   * first character, in order, that is not a hex digit.
   */
  function DecodeHex(s: string): (r: Result<seq<Byte>, char>)
    requires |s| % 2 == 0
    ensures r.Ok? <==> forall i :: 0 <= i < |s| ==> IsHexDigit(s[i])
    ensures r.Ok? ==> 2 * |r.value| == |s|
    ensures r.Err? ==> exists i :: 0 <= i < |s| && s[i] == r.error && !IsHexDigit(s[i]) &&
                                   forall j :: 0 <= j < i ==> IsHexDigit(s[j])
  {
    if s == [] then Ok([])
    else if !IsHexDigit(s[0]) then Err(s[0])
    else if !IsHexDigit(s[1]) then Err(s[1])
    else
      match DecodeHex(s[2..])
      case Err(c) =>
        assert forall i :: 2 <= i < |s| ==> s[i] == s[2..][i - 2];
        Err(c)
      case Ok(rest) => Ok([DigitValue(s[0]) * 16 + DigitValue(s[1])] + rest)
  }

  /** ObjectID.Hex: the 24 lower-case hex digits of the id. */
  function Hex(id: ObjectID): (s: string)
    ensures |s| == 24
    ensures forall i :: 0 <= i < 24 ==> IsLowerHexDigit(s[i])
  {
    EncodeHex(id)
  }

  predicate IsObjectIDHex(s: string) {
    |s| == 24 && forall i :: 0 <= i < 24 ==> IsHexDigit(s[i])
  }

  /** ObjectIDFromHex: the length is checked first, then every digit. */
  function FromHex(s: string): (r: Result<ObjectID, Error>)
    ensures r.Ok? <==> IsObjectIDHex(s)
    ensures r.Err? ==> (r.error == InvalidHex <==> |s| != 24)
    ensures r.Err? && |s| == 24 ==> r.error.InvalidByte? && r.error.c in s && !IsHexDigit(r.error.c)
  {
    if |s| != 24 then Err(InvalidHex)
    else
      match DecodeHex(s)
      case Err(c) => Err(InvalidByte(c))
      case Ok(bs) => Ok(bs)
  }

  /** The id InsertOne writes: the document's own _id, or a new one when it is the zero id. */
  function AssignedID(own: ObjectID, generated: ObjectID): ObjectID {
    if own == NilObjectID then generated else own
  }

  lemma DigitRoundTrip(n: int)
    requires 0 <= n < 16
    ensures DigitValue(HexDigit(n)) == n
  {
  }

  lemma {:induction false} DecodeEncode(bs: seq<Byte>)
    ensures DecodeHex(EncodeHex(bs)) == Ok(bs)
  {
    if bs != [] {
      var s := EncodeHex(bs);
      DecodeEncode(bs[1..]);
      assert s[2..] == EncodeHex(bs[1..]);
      DigitRoundTrip(bs[0] / 16);
      DigitRoundTrip(bs[0] % 16);
      assert [bs[0]] + bs[1..] == bs;
    }
  }

  lemma {:induction false} EncodeDecode(s: string)
    requires |s| % 2 == 0
    requires DecodeHex(s).Ok?
    ensures EncodeHex(DecodeHex(s).value) == Lower(s)
  {
    if s != [] {
      var rest := DecodeHex(s[2..]);
      EncodeDecode(s[2..]);
      var b := DigitValue(s[0]) * 16 + DigitValue(s[1]);
      assert DecodeHex(s).value == [b] + rest.value;
      assert b / 16 == DigitValue(s[0]) && b % 16 == DigitValue(s[1]);
      assert ([b] + rest.value)[1..] == rest.value;
      assert Lower(s) == [LowerDigit(s[0]), LowerDigit(s[1])] + Lower(s[2..]);
    }
  }

  /** Every id survives Hex followed by ObjectIDFromHex. */
  lemma FromHexOfHex(id: ObjectID)
    ensures FromHex(Hex(id)) == Ok(id)
  {
    DecodeEncode(id);
  }

  /** A string that parses is the hex of its id, up to the case of its digits. */
  lemma HexOfFromHex(s: string)
    requires FromHex(s).Ok?
    ensures Hex(FromHex(s).value) == Lower(s)
  {
    EncodeDecode(s);
  }

  /** Distinct ids have distinct hex strings, so the string identifies the record. */
  lemma HexInjective(a: ObjectID, b: ObjectID)
    requires Hex(a) == Hex(b)
    ensures a == b
  {
    FromHexOfHex(a);
    FromHexOfHex(b);
  }
}
