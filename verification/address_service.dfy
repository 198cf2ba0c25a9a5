/**
 * AddressService: geocodes an address's text before storing it, and passes
 * lookups, searches and deletes through to the two stores, wrapping every
 * failure with the name of the call that failed. Each operation answers the
 * way the Go code does: a value and no error, or the zero value and an error.
 */
module Controller {
  import opened Wrappers
  import opened Errors
  import opened ObjectIds
  import opened Model
  import DeliveryStore
  import AddressStore

  class AddressService {
    const ast: AddressStore.AddressStorage
    const dst: DeliveryStore.DeliveryStorage
    /** The geocoder: a location for the text of an address, or a failure. */
    const geocoder: string -> Result<Location, Error>

    ghost predicate Valid()
      reads this, ast, dst
    {
      ast.Valid() && dst.Valid()
    }

    constructor (ast: AddressStore.AddressStorage, dst: DeliveryStore.DeliveryStorage,
                 geocoder: string -> Result<Location, Error>)
      requires ast.Valid() && dst.Valid()
      ensures Valid()
      ensures this.ast == ast && this.dst == dst && this.geocoder == geocoder
    {
      this.ast := ast;
      this.dst := dst;
      this.geocoder := geocoder;
    }

    /**
     * Geocodes the delivery's address text, writes the location into the
     * caller's record (`placed` is that record afterwards) and only then inserts it.
     */
    method CreateDelivery(d: Delivery, generated: ObjectID) returns (id: string, err: Option<Error>, placed: Delivery)
      requires Valid()
      modifies dst
      ensures Valid()
      ensures var g := geocoder(AddressString(d.address));
              g.Err? ==> id == "" && err == Some(Wrapped("gc.GeoCode", g.error)) && placed == d
                         && dst.docs == old(dst.docs)
      ensures var g := geocoder(AddressString(d.address));
              g.Ok? ==> placed == d.(address := d.address.(location := g.value))
                        && var w := DeliveryStore.Insert(old(dst.docs), placed, generated);
                           && dst.docs == w.docs
                           && (w.result.Ok? ==> id == w.result.value && err == None)
                           && (w.result.Err? ==> id == "" && err == Some(Wrapped("dst.Create", w.result.error)))
    {
      var g := geocoder(AddressString(d.address));
      if g.Err? {
        return "", Some(Wrapped("gc.GeoCode", g.error)), d;
      }
      placed := d.(address := d.address.(location := g.value));
      var r := dst.Create(placed, generated);
      if r.Err? {
        return "", Some(Wrapped("dst.Create", r.error)), placed;
      }
      return r.value, None, placed;
    }

    /** Every delivery address of the user, in store order; never an error. */
    function User(uID: UInt64): (r: (seq<Address>, Option<Error>))
      reads this, dst
      ensures r.1 == None
      ensures forall a :: a in r.0 <==>
                exists i :: 0 <= i < |dst.docs| && dst.docs[i].userField == Some(uID) && dst.docs[i].address == a
      ensures dst.Valid() ==> forall i, j :: 0 <= i < j < |r.0| ==> r.0[i].id != r.0[j].id
    {
      (dst.GetAll(uID), None)
    }

    /** The establishment with the given hex id. */
    function GetAddByID(aID: string): (r: (Address, Option<Error>))
      reads this, ast
      ensures r.1.None? <==> FromHex(aID).Ok? && AddressStore.HasID(ast.docs, FromHex(aID).value)
      ensures r.1.None? ==> r.0 in ast.docs && r.0.id == FromHex(aID).value
      ensures r.1.Some? ==> r.0 == ZeroAddress && r.1.value.Wrapped? && r.1.value.op == "ast.GetByID"
      ensures r.1.Some? ==> (Root(r.1.value) == NoDocuments <==> FromHex(aID).Ok?)
      ensures r.1.Some? ==> r.1.value == Wrapped("ast.GetByID", AddressStore.Lookup(ast.docs, aID).error)
    {
      match ast.GetByID(aID)
      case Err(e) =>
        assert e.Wrapped? && Root(Wrapped("ast.GetByID", e)) == Root(e.cause);
        (ZeroAddress, Some(Wrapped("ast.GetByID", e)))
      case Ok(a) => (a, None)
    }

    /** Deletes the delivery only when both the id and the owner match. */
    method DeleteByUser(uID: UInt64, aID: string) returns (n: int, err: Option<Error>)
      requires Valid()
      modifies dst
      ensures Valid()
      ensures var w := DeliveryStore.Delete(old(dst.docs), uID, aID);
              && dst.docs == w.docs
              && (w.result.Ok? ==> n == w.result.value && err == None)
              && (w.result.Err? ==> n == 0 && err == Some(Wrapped("dst.DeleteByID", w.result.error)))
    {
      var r := dst.DeleteByID(uID, aID);
      if r.Err? {
        return 0, Some(Wrapped("dst.DeleteByID", r.error));
      }
      return r.value, None;
    }

    /**
     * The establishment nearest to the location of one of the user's deliveries;
     * the establishments are not consulted when that delivery cannot be read.
     */
    method Nearest(uID: UInt64, aID: string) returns (id: string, err: Option<Error>)
      requires Valid()
      ensures var q := DeliveryStore.Lookup(dst.docs, uID, aID);
              q.Err? ==> id == "" && err == Some(Wrapped("dst.GetByID", q.error))
      ensures var q := DeliveryStore.Lookup(dst.docs, uID, aID);
              q.Ok? ==> (err.None? <==> exists j :: 0 <= j < |ast.docs| &&
                                          AddressStore.InRange(ast.docs[j], ast.distance, ast.maxDis, q.value.location))
      ensures var q := DeliveryStore.Lookup(dst.docs, uID, aID);
              q.Ok? && err.None? ==> exists i :: AddressStore.IsNearest(ast.docs, ast.distance, ast.maxDis, q.value.location, i)
                                                 && id == Hex(ast.docs[i].id)
      ensures var q := DeliveryStore.Lookup(dst.docs, uID, aID);
              q.Ok? && err.Some? ==> id == "" && err == Some(Wrapped("ast.Nearest", Wrapped("findOne", NoDocuments)))
    {
      var q := dst.GetByID(uID, aID);
      if q.Err? {
        return "", Some(Wrapped("dst.GetByID", q.error));
      }
      var r := ast.Nearest(q.value.location);
      if r.Err? {
        return "", Some(Wrapped("ast.Nearest", r.error));
      }
      return r.value, None;
    }

    /**
     * Geocodes the establishment's address text, writes the location into the
     * caller's record (`placed` is that record afterwards) and only then inserts it.
     */
    method Create(a: Address, generated: ObjectID) returns (id: string, err: Option<Error>, placed: Address)
      requires Valid()
      modifies ast
      ensures Valid()
      ensures var g := geocoder(AddressString(a));
              g.Err? ==> id == "" && err == Some(Wrapped("gc.GeoCode", g.error)) && placed == a
                         && ast.docs == old(ast.docs)
      ensures var g := geocoder(AddressString(a));
              g.Ok? ==> placed == a.(location := g.value)
                        && var w := AddressStore.Insert(old(ast.docs), placed, generated);
                           && ast.docs == w.docs
                           && (w.result.Ok? ==> id == w.result.value && err == None)
                           && (w.result.Err? ==> id == "" && err == Some(Wrapped("ast.Create", w.result.error)))
    {
      var g := geocoder(AddressString(a));
      if g.Err? {
        return "", Some(Wrapped("gc.GeoCode", g.error)), a;
      }
      placed := a.(location := g.value);
      var r := ast.Create(placed, generated);
      if r.Err? {
        return "", Some(Wrapped("ast.Create", r.error)), placed;
      }
      return r.value, None, placed;
    }

    /** Deletes the establishment with the given hex id. */
    method DeleteByID(aID: string) returns (n: int, err: Option<Error>)
      requires Valid()
      modifies ast
      ensures Valid()
      ensures var w := AddressStore.Delete(old(ast.docs), aID);
              && ast.docs == w.docs
              && (w.result.Ok? ==> n == w.result.value && err == None)
              && (w.result.Err? ==> n == 0 && err == Some(Wrapped("ast.DeleteByID", w.result.error)))
    {
      var r := ast.DeleteByID(aID);
      if r.Err? {
        return 0, Some(Wrapped("ast.DeleteByID", r.error));
      }
      return r.value, None;
    }

    /** The user's delivery with the given hex id; another user's delivery is not found. */
    function GetByID(uID: UInt64, aID: string): (r: (Address, Option<Error>))
      reads this, dst
      ensures r.1.None? <==> (FromHex(aID).Ok? &&
                exists i :: 0 <= i < |dst.docs| && DeliveryStore.Matches(dst.docs[i], FromHex(aID).value, uID))
      ensures r.1.None? ==> exists i :: 0 <= i < |dst.docs| && dst.docs[i].address == r.0 &&
                                        DeliveryStore.Matches(dst.docs[i], FromHex(aID).value, uID)
      ensures r.1.Some? ==> r.0 == ZeroAddress && r.1.value.Wrapped? && r.1.value.op == "dst.GetByID"
      ensures r.1.Some? ==> (Root(r.1.value) == NoDocuments <==> FromHex(aID).Ok?)
      ensures r.1.Some? ==> r.1.value == Wrapped("dst.GetByID", DeliveryStore.Lookup(dst.docs, uID, aID).error)
    {
      match dst.GetByID(uID, aID)
      case Err(e) =>
        assert e.Wrapped? && Root(Wrapped("dst.GetByID", e)) == Root(e.cause);
        (ZeroAddress, Some(Wrapped("dst.GetByID", e)))
      case Ok(a) => (a, None)
    }

    /** A window of establishments in store order: skip `offset`, then take up to `limit`. */
    function Search(s: Search): (r: (seq<Address>, Option<Error>))
      reads this, ast
      ensures r.1.Some? <==> s.offset < 0
      ensures r.1.Some? ==> r.0 == [] && r.1.value == Wrapped("ast.Search", Wrapped("find", NegativeSkip))
      ensures r.1.None? && s.limit != 0 ==> |r.0| <= AddressStore.Abs(s.limit)
      ensures r.1.None? ==> forall k :: 0 <= k < |r.0| ==> s.offset + k < |ast.docs| && r.0[k] == ast.docs[s.offset + k]
      ensures r.1.None? && s.offset >= |ast.docs| ==> r.0 == []
      ensures r.1.None? && s.offset <= |ast.docs| && (s.limit == 0 || AddressStore.Abs(s.limit) >= |ast.docs| - s.offset) ==>
                |r.0| == |ast.docs| - s.offset
      ensures r.1.None? && s.offset <= |ast.docs| && s.limit != 0 && AddressStore.Abs(s.limit) < |ast.docs| - s.offset ==>
                |r.0| == AddressStore.Abs(s.limit)
    {
      match ast.Search(s)
      case Err(e) => ([], Some(Wrapped("ast.Search", e)))
      case Ok(found) => (found, None)
    }
  }
}
