/**
 * The `establishment` collection: standalone addresses looked up, deleted and
 * paged through by id, and searched for the one nearest to a point.
 */
module AddressStore {
  import opened Wrappers
  import opened Errors
  import opened ObjectIds
  import opened Model
  import opened Tables

  /** _id is a unique key of the collection. */
  ghost predicate Consistent(docs: seq<Address>) {
    forall i, j :: 0 <= i < j < |docs| ==> docs[i].id != docs[j].id
  }

  predicate HasID(docs: seq<Address>, id: ObjectID) {
    exists i :: 0 <= i < |docs| && docs[i].id == id
  }

  /** Create: InsertOne of the address, then the hex of the id it was stored under. */
  function Insert(docs: seq<Address>, a: Address, generated: ObjectID): (w: Written<Address, string>)
    ensures Consistent(docs) ==> Consistent(w.docs)
    ensures w.result.Ok? <==> !HasID(docs, AssignedID(a.id, generated))
    ensures w.result.Err? ==> w.docs == docs && w.result.error == Wrapped("InsertOne", DuplicateKey)
    ensures w.result.Ok? ==>
              && |w.docs| == |docs| + 1 && w.docs[..|docs|] == docs
              && w.docs[|docs|] == a.(id := AssignedID(a.id, generated))
              && w.result.value == Hex(w.docs[|docs|].id)
              && FromHex(w.result.value) == Ok(w.docs[|docs|].id)
  {
    var id := AssignedID(a.id, generated);
    if HasID(docs, id) then Written(docs, Err(Wrapped("InsertOne", DuplicateKey)))
    else
      FromHexOfHex(id);
      Written(docs + [a.(id := id)], Ok(Hex(id)))
  }

  /** GetByID: the id must parse, and then FindOne({_id: id}) must match. */
  function Lookup(docs: seq<Address>, aID: string): (r: Result<Address, Error>)
    ensures FromHex(aID).Err? ==> r == Err(Wrapped("ObjectIDFromHex", FromHex(aID).error))
    ensures r.Ok? <==> FromHex(aID).Ok? && HasID(docs, FromHex(aID).value)
    ensures r.Ok? ==> r.value in docs && r.value.id == FromHex(aID).value
    ensures FromHex(aID).Ok? && r.Err? ==> r.error == Wrapped("findOne", NoDocuments)
  {
    match FromHex(aID)
    case Err(e) => Err(Wrapped("ObjectIDFromHex", e))
    case Ok(id) =>
      var i := FirstIndex(docs, (a: Address) => a.id == id);
      if i < |docs| then Ok(docs[i]) else Err(Wrapped("findOne", NoDocuments))
  }

  /** DeleteByID: DeleteOne({_id: id}) and the number of documents it removed. */
  function Delete(docs: seq<Address>, aID: string): (w: Written<Address, int>)
    ensures FromHex(aID).Err? ==> w == Written(docs, Err(Wrapped("ObjectIDFromHex", FromHex(aID).error)))
    ensures FromHex(aID).Ok? ==> w.result.Ok? && (w.result.value == 0 || w.result.value == 1)
    ensures w.result == Ok(1) <==> FromHex(aID).Ok? && HasID(docs, FromHex(aID).value)
    ensures w.result == Ok(0) ==> w.docs == docs
    ensures w.result == Ok(1) ==> exists i :: 0 <= i < |docs| && docs[i].id == FromHex(aID).value && w.docs == RemoveAt(docs, i)
    ensures Consistent(docs) ==> Consistent(w.docs)
  {
    match FromHex(aID)
    case Err(e) => Written(docs, Err(Wrapped("ObjectIDFromHex", e)))
    case Ok(id) =>
      var i := FirstIndex(docs, (a: Address) => a.id == id);
      if i < |docs| then Written(RemoveAt(docs, i), Ok(1)) else Written(docs, Ok(0))
  }

  function Abs(n: int): nat {
    if n < 0 then -n else n
  }

  /**
   * Search: Find with Skip = offset and Limit = limit, in store order. The server
   * refuses a negative skip; a limit of 0 means no limit, and a negative limit
   * asks for at most |limit| documents in one batch.
   */
  function Window(docs: seq<Address>, s: Search): (r: Result<seq<Address>, Error>)
    ensures r.Err? <==> s.offset < 0
    ensures r.Err? ==> r.error == Wrapped("find", NegativeSkip)
    ensures r.Ok? && s.limit != 0 ==> |r.value| <= Abs(s.limit)
    ensures r.Ok? ==> s.offset + |r.value| <= |docs| || r.value == []
    ensures r.Ok? ==> forall k :: 0 <= k < |r.value| ==> r.value[k] == docs[s.offset + k]
    ensures r.Ok? && s.offset >= |docs| ==> r.value == []
    ensures r.Ok? && s.offset <= |docs| && (s.limit == 0 || Abs(s.limit) >= |docs| - s.offset) ==>
              |r.value| == |docs| - s.offset
    ensures r.Ok? && s.offset <= |docs| && s.limit != 0 && Abs(s.limit) < |docs| - s.offset ==>
              |r.value| == Abs(s.limit)
  {
    if s.offset < 0 then Err(Wrapped("find", NegativeSkip))
    else
      var rest := if s.offset <= |docs| then docs[s.offset..] else [];
      if s.limit == 0 || Abs(s.limit) >= |rest| then Ok(rest) else Ok(rest[..Abs(s.limit)])
  }

  /** Two consecutive pages are the page that spans both: paging visits every document once, in order. */
  lemma PagesConcatenate(docs: seq<Address>, offset: Int64, first: Int64, second: Int64)
    requires offset >= 0 && first > 0 && second > 0
    requires offset + first < 0x8000_0000_0000_0000 && first + second < 0x8000_0000_0000_0000
    ensures Window(docs, Search(first, offset)).value + Window(docs, Search(second, offset + first)).value
            == Window(docs, Search(first + second, offset)).value
  {
  }

  /** The document lies within `maxDis` of `loc` by the store's distance. */
  predicate InRange(d: Address, distance: (Location, Location) -> real, maxDis: nat, loc: Location) {
    distance(loc, d.location) <= maxDis as real
  }

  /** `docs[i]` is in range and no document in range is closer to `loc`. */
  predicate IsNearest(docs: seq<Address>, distance: (Location, Location) -> real, maxDis: nat, loc: Location, i: int) {
    && 0 <= i < |docs|
    && InRange(docs[i], distance, maxDis, loc)
    && forall j :: 0 <= j < |docs| && InRange(docs[j], distance, maxDis, loc) ==>
         distance(loc, docs[i].location) <= distance(loc, docs[j].location)
  }

  /** Whenever one document is in range, a nearest one exists. */
  lemma {:induction false} NearestExists(docs: seq<Address>, distance: (Location, Location) -> real, maxDis: nat, loc: Location, j: nat)
    requires j < |docs| && InRange(docs[j], distance, maxDis, loc)
    ensures exists i :: IsNearest(docs, distance, maxDis, loc, i)
  {
    var tail := docs[1..];
    if k :| 0 <= k < |tail| && InRange(tail[k], distance, maxDis, loc) {
      NearestExists(tail, distance, maxDis, loc, k);
      var i :| IsNearest(tail, distance, maxDis, loc, i);
      if InRange(docs[0], distance, maxDis, loc) && distance(loc, docs[0].location) < distance(loc, tail[i].location) {
        assert IsNearest(docs, distance, maxDis, loc, 0) by {
          forall m | 0 <= m < |docs| && InRange(docs[m], distance, maxDis, loc)
            ensures distance(loc, docs[0].location) <= distance(loc, docs[m].location)
          {
            if m > 0 { assert docs[m] == tail[m - 1]; }
          }
        }
      } else {
        assert IsNearest(docs, distance, maxDis, loc, i + 1) by {
          forall m | 0 <= m < |docs| && InRange(docs[m], distance, maxDis, loc)
            ensures distance(loc, docs[i + 1].location) <= distance(loc, docs[m].location)
          {
            if m > 0 { assert docs[m] == tail[m - 1]; }
          }
        }
      }
    } else {
      assert j == 0;
      assert IsNearest(docs, distance, maxDis, loc, 0);
    }
  }

  /** The hex id of a stored establishment leads GetByID back to it. */
  lemma LookupByHex(docs: seq<Address>, i: nat)
    requires Consistent(docs)
    requires i < |docs|
    ensures Lookup(docs, Hex(docs[i].id)) == Ok(docs[i])
  {
    FromHexOfHex(docs[i].id);
  }

  /** A created establishment is found again through the returned id. */
  lemma CreateThenGetByID(docs: seq<Address>, a: Address, generated: ObjectID)
    requires Consistent(docs)
    requires Insert(docs, a, generated).result.Ok?
    ensures var w := Insert(docs, a, generated);
            Lookup(w.docs, w.result.value) == Ok(a.(id := AssignedID(a.id, generated)))
  {
  }

  /** After any delete that did not fail, the id is no longer found. */
  lemma DeleteThenGone(docs: seq<Address>, aID: string)
    requires Consistent(docs)
    requires Delete(docs, aID).result.Ok?
    ensures Lookup(Delete(docs, aID).docs, aID) == Err(Wrapped("findOne", NoDocuments))
    ensures Delete(Delete(docs, aID).docs, aID).result == Ok(0)
  {
  }

  /** Delete keeps every document whose id differs, and only those. */
  lemma DeleteKeepsOthers(docs: seq<Address>, aID: string, doc: Address)
    requires Consistent(docs)
    ensures doc in Delete(docs, aID).docs <==> doc in docs && !(FromHex(aID).Ok? && doc.id == FromHex(aID).value)
  {
  }

  /**
   * The establishment collection. `maxDis` is fixed at construction; `distance`
   * is the distance in meters the database's geospatial index computes.
   */
  class AddressStorage {
    var docs: seq<Address>
    const maxDis: nat
    const distance: (Location, Location) -> real

    ghost predicate Valid()
      reads this
    {
      Consistent(docs)
    }

    constructor (maxDis: nat, distance: (Location, Location) -> real)
      ensures Valid() && docs == []
      ensures this.maxDis == maxDis && this.distance == distance
    {
      this.maxDis := maxDis;
      this.distance := distance;
      docs := [];
    }

    /** GetByID is `Lookup` on the current collection. */
    function GetByID(aID: string): Result<Address, Error>
      reads this
    {
      Lookup(docs, aID)
    }

    /**
     * Carries out `Insert` on the collection in place. `generated` is the
     * ObjectID the driver would make for a document without an _id.
     */
    method Create(a: Address, generated: ObjectID) returns (r: Result<string, Error>)
      requires Valid()
      modifies this
      ensures Valid()
      ensures docs == Insert(old(docs), a, generated).docs
      ensures r == Insert(old(docs), a, generated).result
    {
      var id := AssignedID(a.id, generated);
      if HasID(docs, id) {
        r := Err(Wrapped("InsertOne", DuplicateKey));
      } else {
        docs := docs + [a.(id := id)];
        r := Ok(Hex(id));
      }
    }

    /** Carries out `Delete` on the collection in place. */
    method DeleteByID(aID: string) returns (r: Result<int, Error>)
      requires Valid()
      modifies this
      ensures Valid()
      ensures docs == Delete(old(docs), aID).docs
      ensures r == Delete(old(docs), aID).result
    {
      match FromHex(aID)
      case Err(e) =>
        r := Err(Wrapped("ObjectIDFromHex", e));
      case Ok(id) =>
        var i := FirstIndex(docs, (a: Address) => a.id == id);
        if i < |docs| {
          docs := RemoveAt(docs, i);
          r := Ok(1);
        } else {
          r := Ok(0);
        }
    }

    /** Search is `Window` on the current collection. */
    function Search(s: Search): Result<seq<Address>, Error>
      reads this
    {
      Window(docs, s)
    }

    /**
     * Nearest: FindOne with $near bounded by $maxDistance, projected to _id.
     * Which of several equally near documents comes back is left open.
     */
    method Nearest(loc: Location) returns (r: Result<string, Error>)
      ensures r.Ok? <==> exists j :: 0 <= j < |docs| && InRange(docs[j], distance, maxDis, loc)
      ensures r.Err? ==> r.error == Wrapped("findOne", NoDocuments)
      ensures r.Ok? ==> exists i :: IsNearest(docs, distance, maxDis, loc, i) && r.value == Hex(docs[i].id)
    {
      if j :| 0 <= j < |docs| && InRange(docs[j], distance, maxDis, loc) {
        NearestExists(docs, distance, maxDis, loc, j);
        var i :| IsNearest(docs, distance, maxDis, loc, i);
        r := Ok(Hex(docs[i].id));
      } else {
        r := Err(Wrapped("findOne", NoDocuments));
      }
    }
  }
}
