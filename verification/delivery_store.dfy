/**
 * The `delivery` collection: addresses owned by a user, looked up and deleted
 * only through the pair (id, user id).
 */
module DeliveryStore {
  import opened Wrappers
  import opened Errors
  import opened ObjectIds
  import opened Model
  import opened Tables

  /**
   * The document InsertOne writes for a delivery: the embedded address with its
   * _id, and the user_id field, absent when `omitempty` drops a zero user id.
   */
  datatype Document = Document(address: Address, userField: Option<UInt64>)

  function UserIDField(u: UInt64): Option<UInt64> {
    if u == 0 then None else Some(u)
  }

  /** What every write keeps: _id is a unique key, and no document says user_id 0. */
  ghost predicate Consistent(docs: seq<Document>) {
    && (forall i, j :: 0 <= i < j < |docs| ==> docs[i].address.id != docs[j].address.id)
    && (forall i :: 0 <= i < |docs| ==> docs[i].userField != Some(0))
  }

  predicate HasID(docs: seq<Document>, id: ObjectID) {
    exists i :: 0 <= i < |docs| && docs[i].address.id == id
  }

  /** The filter {_id: id, user_id: uID}. */
  predicate Matches(doc: Document, id: ObjectID, uID: UInt64) {
    doc.address.id == id && doc.userField == Some(uID)
  }

  /** Create: InsertOne of the delivery, then the hex of the id it was stored under. */
  function Insert(docs: seq<Document>, d: Delivery, generated: ObjectID): (w: Written<Document, string>)
    ensures Consistent(docs) ==> Consistent(w.docs)
    ensures w.result.Ok? <==> !HasID(docs, AssignedID(d.address.id, generated))
    ensures w.result.Err? ==> w.docs == docs && w.result.error == Wrapped("InsertOne", DuplicateKey)
    ensures w.result.Ok? ==>
              && |w.docs| == |docs| + 1 && w.docs[..|docs|] == docs
              && var stored := w.docs[|docs|];
                 && stored.address == d.address.(id := AssignedID(d.address.id, generated))
                 && stored.userField == UserIDField(d.userID)
                 && w.result.value == Hex(stored.address.id)
                 && FromHex(w.result.value) == Ok(stored.address.id)
  {
    var id := AssignedID(d.address.id, generated);
    if HasID(docs, id) then Written(docs, Err(Wrapped("InsertOne", DuplicateKey)))
    else
      FromHexOfHex(id);
      Written(docs + [Document(d.address.(id := id), UserIDField(d.userID))], Ok(Hex(id)))
  }

  /** GetAll: Find({user_id: uID}), every owned address in store order. */
  function All(docs: seq<Document>, uID: UInt64): (r: seq<Address>)
    ensures |r| <= |docs|
    ensures forall a :: a in r <==> exists i :: 0 <= i < |docs| && docs[i].userField == Some(uID) && docs[i].address == a
    ensures Consistent(docs) ==> forall i, j :: 0 <= i < j < |r| ==> r[i].id != r[j].id
  {
    if docs == [] then []
    else
      var rest := All(docs[1..], uID);
      assert forall i :: 1 <= i < |docs| ==> docs[i] == docs[1..][i - 1];
      assert Consistent(docs) ==> Consistent(docs[1..]);
      assert Consistent(docs) ==> forall a :: a in rest ==> a.id != docs[0].address.id;
      if docs[0].userField == Some(uID) then [docs[0].address] + rest else rest
  }

  /** GetByID: the id must parse, and then a document must match both the id and the user. */
  function Lookup(docs: seq<Document>, uID: UInt64, aID: string): (r: Result<Address, Error>)
    ensures FromHex(aID).Err? ==> r == Err(Wrapped("ObjectIDFromHex", FromHex(aID).error))
    ensures r.Ok? <==> FromHex(aID).Ok? && exists i :: 0 <= i < |docs| && Matches(docs[i], FromHex(aID).value, uID)
    ensures r.Ok? ==> exists i :: 0 <= i < |docs| && Matches(docs[i], FromHex(aID).value, uID) && docs[i].address == r.value
    ensures FromHex(aID).Ok? && r.Err? ==> r.error == Wrapped("findOne", NoDocuments)
  {
    match FromHex(aID)
    case Err(e) => Err(Wrapped("ObjectIDFromHex", e))
    case Ok(id) =>
      var i := FirstIndex(docs, doc => Matches(doc, id, uID));
      if i < |docs| then Ok(docs[i].address) else Err(Wrapped("findOne", NoDocuments))
  }

  /** DeleteByID: DeleteOne({user_id: uID, _id: id}) and the number of documents it removed. */
  function Delete(docs: seq<Document>, uID: UInt64, aID: string): (w: Written<Document, int>)
    ensures FromHex(aID).Err? ==> w == Written(docs, Err(Wrapped("ObjectIDFromHex", FromHex(aID).error)))
    ensures FromHex(aID).Ok? ==> w.result.Ok? && (w.result.value == 0 || w.result.value == 1)
    ensures w.result == Ok(1) <==> FromHex(aID).Ok? && exists i :: 0 <= i < |docs| && Matches(docs[i], FromHex(aID).value, uID)
    ensures w.result == Ok(0) ==> w.docs == docs
    ensures w.result == Ok(1) ==> exists i :: 0 <= i < |docs| && Matches(docs[i], FromHex(aID).value, uID) && w.docs == RemoveAt(docs, i)
    ensures Consistent(docs) ==> Consistent(w.docs)
  {
    match FromHex(aID)
    case Err(e) => Written(docs, Err(Wrapped("ObjectIDFromHex", e)))
    case Ok(id) =>
      var i := FirstIndex(docs, doc => Matches(doc, id, uID));
      if i < |docs| then Written(RemoveAt(docs, i), Ok(1)) else Written(docs, Ok(0))
  }

  /** A stored delivery of a non-zero user is found again by that user and the returned id. */
  lemma CreateThenGetByID(docs: seq<Document>, d: Delivery, generated: ObjectID)
    requires Consistent(docs)
    requires d.userID != 0
    requires Insert(docs, d, generated).result.Ok?
    ensures var w := Insert(docs, d, generated);
            Lookup(w.docs, d.userID, w.result.value) == Ok(d.address.(id := AssignedID(d.address.id, generated)))
  {
  }

  /** ... and it is listed among that user's deliveries. */
  lemma CreateThenGetAll(docs: seq<Document>, d: Delivery, generated: ObjectID)
    requires d.userID != 0
    requires Insert(docs, d, generated).result.Ok?
    ensures d.address.(id := AssignedID(d.address.id, generated)) in All(Insert(docs, d, generated).docs, d.userID)
  {
  }

  /**
   * A delivery of user 0 is stored without user_id, so no query by user 0 ever
   * matches anything: it is listed nowhere, found nowhere and never deleted.
   */
  lemma UserZeroReachesNothing(docs: seq<Document>, aID: string)
    requires Consistent(docs)
    ensures All(docs, 0) == []
    ensures Lookup(docs, 0, aID).Err?
    ensures Delete(docs, 0, aID).docs == docs
  {
  }

  /** Asking for another user's delivery fails exactly like asking for an id that does not exist. */
  lemma OtherUserLikeMissing(docs: seq<Document>, i: nat, other: UInt64, missing: ObjectID)
    requires Consistent(docs)
    requires i < |docs| && docs[i].userField != Some(other)
    requires !HasID(docs, missing)
    ensures Lookup(docs, other, Hex(docs[i].address.id)) == Lookup(docs, other, Hex(missing))
  {
    FromHexOfHex(docs[i].address.id);
    FromHexOfHex(missing);
  }

  /** After a successful delete the pair is gone: a lookup fails and a second delete counts 0. */
  lemma DeleteThenGone(docs: seq<Document>, uID: UInt64, aID: string)
    requires Consistent(docs)
    requires Delete(docs, uID, aID).result == Ok(1)
    ensures Lookup(Delete(docs, uID, aID).docs, uID, aID) == Err(Wrapped("findOne", NoDocuments))
    ensures Delete(Delete(docs, uID, aID).docs, uID, aID).result == Ok(0)
  {
  }

  /** Delete removes the one document matching (id, user) and keeps every other document. */
  lemma DeleteKeepsOthers(docs: seq<Document>, uID: UInt64, aID: string, doc: Document)
    requires Consistent(docs)
    ensures doc in Delete(docs, uID, aID).docs <==>
              doc in docs && !(FromHex(aID).Ok? && Matches(doc, FromHex(aID).value, uID))
  {
  }

  /** The delivery collection; the Mongo collection handle becomes the sequence of its documents. */
  class DeliveryStorage {
    var docs: seq<Document>

    ghost predicate Valid()
      reads this
    {
      Consistent(docs)
    }

    constructor ()
      ensures Valid() && docs == []
    {
      docs := [];
    }

    /**
     * Carries out `Insert` on the collection in place. `generated` is the
     * ObjectID the driver would make for a document without an _id.
     */
    method Create(d: Delivery, generated: ObjectID) returns (r: Result<string, Error>)
      requires Valid()
      modifies this
      ensures Valid()
      ensures docs == Insert(old(docs), d, generated).docs
      ensures r == Insert(old(docs), d, generated).result
    {
      var id := AssignedID(d.address.id, generated);
      if HasID(docs, id) {
        r := Err(Wrapped("InsertOne", DuplicateKey));
      } else {
        docs := docs + [Document(d.address.(id := id), UserIDField(d.userID))];
        r := Ok(Hex(id));
      }
    }

    /** GetAll is `All` on the current collection. */
    function GetAll(uID: UInt64): seq<Address>
      reads this
    {
      All(docs, uID)
    }

    /** GetByID is `Lookup` on the current collection. */
    function GetByID(uID: UInt64, aID: string): Result<Address, Error>
      reads this
    {
      Lookup(docs, uID, aID)
    }

    /** Carries out `Delete` on the collection in place. */
    method DeleteByID(uID: UInt64, aID: string) returns (r: Result<int, Error>)
      requires Valid()
      modifies this
      ensures Valid()
      ensures docs == Delete(old(docs), uID, aID).docs
      ensures r == Delete(old(docs), uID, aID).result
    {
      match FromHex(aID)
      case Err(e) =>
        r := Err(Wrapped("ObjectIDFromHex", e));
      case Ok(id) =>
        var i := FirstIndex(docs, doc => Matches(doc, id, uID));
        if i < |docs| {
          docs := RemoveAt(docs, i);
          r := Ok(1);
        } else {
          r := Ok(0);
        }
    }
  }
}
