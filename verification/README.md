# Address service, modelled in Dafny

The address service resolves the text of an address to a location through a
geocoder and keeps two MongoDB collections: `establishment`, standalone
addresses, and `delivery`, addresses owned by a user. `AddressService` is the
orchestrator. It holds no state of its own, only its three collaborators. It
geocodes an address's text strictly before inserting the address, inserts
nothing when geocoding fails, reaches a single delivery only through the pair
(address id, user id), and lists deliveries only by user id.

This project models that core:

- `ObjectIds` (objectid.dfy): twelve-byte ObjectIDs and the 24-digit hex form
  callers see (`Hex`, `ObjectIDFromHex`), with the round trip proved both ways.
- `Model` (model.dfy): the `Address`, `Delivery` and `Search` records and
  `Address.String`. It also has a parser for that text, used to prove that
  comma-free addresses reach the geocoder as distinct texts.
- `DeliveryStore` (delivery_store.dfy) and `AddressStore` (address_store.dfy):
  each collection is a `seq` of documents in store order, held by a class.
  `Create` and `DeleteByID` reassign that `seq`, carrying out the functions
  `Insert` and `Delete` in place. The queries are functions over the `seq`:
  `Lookup` (exact `_id`, or `_id` + `user_id`), `All` (`Find` by `user_id`)
  and `Window` (skip/limit `Find`). The class's `GetAll`, `GetByID` and
  `Search` are those functions applied to the current collection, so the rows
  for `All`, `Lookup` and `Window` below stand for them. The bounded `$near` is
  the method `AddressStorage.Nearest`, specified by the predicates `InRange`
  and `IsNearest`. Lemmas relate one operation to the next.
- `Controller` (address_service.dfy): `AddressService` with the two stores and
  a geocoder oracle `string -> Result<Location, Error>`, whose own failures
  are `External(reason)`. Its operations return
  Go's `(value, error)` pair, so "zero value together with an error" is part
  of each contract.

Errors keep the Go wrapping chain: `Wrapped("gc.GeoCode", cause)` is
`fmt.Errorf("gc.GeoCode: %w", cause)`, and `Root` unwraps it.

Details of the code that the model follows:

- Deletion is physical in both stores (`DeleteOne`). No deleted flag exists.
- `Address.String` never leaves out an empty field.
- `Search` is skip/limit only. `model.Search` declares only `Limit` and `Offset`.
- `Location` is an opaque pair. model/model.go:9-12 declares its fields as `Long` and `Lat`, while controller/address.go:81 and adapter/gmap/gmaps.go:35-38 use `Coordinates` and `Type`. The service only copies a location from the geocoder to the store, so the model does not depend on the fields.
- `_id` is `omitempty`. An address whose id is the zero ObjectID gets the id
  the driver generates (the `generated` parameter). An address that already
  has an id keeps it. Inserting an id that is already stored fails with a
  duplicate-key error.
- `user_id` is an `omitempty` `uint64`. A delivery of user 0 is therefore
  written without `user_id`, and no query `{user_id: 0}` ever matches it.
  The delivery round-trip lemmas require a non-zero user for that reason.
  `DeliveryStore.UserZeroReachesNothing` states the user-0 behaviour.
- Mongo's own skip/limit rules are modelled: a negative skip is refused, a
  limit of 0 means no limit, and a negative limit means at most |limit|.
- `Nearest` returns the id of an establishment within `maxDis` whose distance
  is least. The distance is a function fixed with the store. Which of several
  equally near establishments is returned is left open.

The MongoDB driver is not part of this repository. `ObjectIDFromHex` is
modelled after the driver's implemented behaviour: it checks for exactly 24
characters, then decodes hex digits of either case and reports the first
invalid character. `ObjectID.Hex` writes lower-case digits.

## Model

| member | source | states |
|---|---|---|
| `ObjectIds.Hex` | storage/delivery.go:30 | an id is shown as exactly 24 lower-case hex digits (the 24-character length the tests expect) |
| `ObjectIds.FromHex` | storage/delivery.go:47-50 | parsing succeeds exactly for 24 hex digits; a wrong length is InvalidHex, otherwise the error names a non-hex character of the input |
| `ObjectIds.FromHexOfHex` | storage/address.go:26-29 | every id survives Hex then ObjectIDFromHex |
| `ObjectIds.HexOfFromHex` | storage/address.go:53-56 | a parsed string is the hex of the parsed id up to letter case |
| `ObjectIds.HexInjective` | storage/delivery.go:30 | distinct ids never share a hex string |
| `Model.AddressString` | model/model.go:35-38 | String lists street, suburb, postal code, city, state, country in that order, separated by ", " |
| `Model.AddressStringLength` | model/model.go:36-37 | the length of String is the sum of the six field lengths plus 10 |
| `Model.EmptyAddressString` | model/model.go:35-38 | empty fields are not omitted: the zero address yields ", , , , , " |
| `Model.AddressStringIgnoresIDAndLocation` | model/model.go:35-38 | String depends on the six text fields only, not on ID or Location |
| `Model.ParseAddressString` | model/model.go:35-38 | the text of an address without commas in its fields parses back to its six fields |
| `Model.AddressStringInjective` | model/model.go:35-38 | two comma-free addresses give the geocoder the same text only if their six fields agree |
| `DeliveryStore.Insert` | storage/delivery.go:21-31 | insert fails with a duplicate key, changing nothing, exactly when the assigned id is stored already; otherwise it appends one document: the address under the assigned id, with user_id omitted for user 0. The result is the lower-case hex of that id, which parses back to it. Uniqueness of _id is kept |
| `DeliveryStore.All` | storage/delivery.go:33-43 | GetAll lists exactly the addresses of documents whose user_id equals uID, each stored document once (no two listed addresses share an id); none is an empty list, not an error |
| `DeliveryStore.Lookup` | storage/delivery.go:45-59 | a malformed id fails before the table is read; otherwise success exactly when a document matches both id and user, and the result is that document's address; no match is findOne/NoDocuments |
| `DeliveryStore.Delete` | storage/delivery.go:61-71 | a malformed id fails and changes nothing; otherwise the count is 1 exactly when a document matches (id, user), and that one document is removed; count 0 leaves the table as it was |
| `DeliveryStore.CreateThenGetByID` | storage/delivery_test.go:192-195 | for a non-zero user, Create followed by GetByID with that user and the returned id yields the stored address |
| `DeliveryStore.CreateThenGetAll` | storage/delivery.go:33-43 | for a non-zero user, a created delivery is listed by GetAll for that user |
| `DeliveryStore.UserZeroReachesNothing` | storage/delivery.go:35 | user 0 lists nothing, finds nothing and deletes nothing |
| `DeliveryStore.OtherUserLikeMissing` | storage/delivery_test.go:196-203 | another user's delivery fails with the same error as an id that is not stored |
| `DeliveryStore.DeleteThenGone` | storage/delivery.go:66-70 | after a delete that counted 1, GetByID with the same (user, id) fails with NoDocuments and a second delete counts 0 |
| `DeliveryStore.DeleteKeepsOthers` | storage/delivery.go:66 | after a delete, a document is stored exactly when it was stored before and does not match (id, user) |
| `DeliveryStore.DeliveryStorage.constructor` | storage/delivery.go:17-19 | a new store is an empty, consistent collection |
| `DeliveryStore.DeliveryStorage.Create` | storage/delivery.go:21-31 | the collection and the result become those of Insert, and the _id uniqueness invariant is kept |
| `DeliveryStore.DeliveryStorage.DeleteByID` | storage/delivery.go:61-71 | the collection and the count become those of Delete, and the invariant is kept |
| `AddressStore.Insert` | storage/address.go:40-50 | insert fails with a duplicate key, changing nothing, exactly when the assigned id is stored already; otherwise it appends exactly one establishment under the assigned id, and the result is the lower-case hex of that id, which parses back to it |
| `AddressStore.Lookup` | storage/address.go:24-38 | a malformed id fails before the table is read; otherwise success exactly when a stored establishment has that id, returning it; no match is findOne/NoDocuments |
| `AddressStore.Delete` | storage/address.go:52-62 | a malformed id fails and changes nothing; otherwise the count is 0 or 1, 1 exactly when the id is stored, and that establishment is removed |
| `AddressStore.Window` | storage/address.go:64-80 | Search fails exactly for a negative offset; otherwise it returns consecutive establishments in store order starting at offset: exactly as many as the absolute value of limit when that is fewer than the rest, all the rest for limit 0 or a limit reaching past the end, none for an offset at or past the end |
| `AddressStore.PagesConcatenate` | storage/address.go:66-68 | a page followed by the next page equals the page spanning both, so paging sees every establishment once and in order |
| `AddressStore.NearestExists` | storage/address.go:82-95 | whenever some establishment lies within maxDis, one of least distance exists |
| `AddressStore.LookupByHex` | storage/address.go:30-37 | GetByID on the hex id of a stored establishment returns that establishment |
| `AddressStore.CreateThenGetByID` | storage/address.go:40-50 | Create followed by GetByID on the returned id yields the stored address |
| `AddressStore.DeleteThenGone` | storage/address.go:57-61 | after a delete that did not fail, GetByID on that id fails with NoDocuments and a second delete counts 0 |
| `AddressStore.DeleteKeepsOthers` | storage/address.go:57 | a delete keeps exactly the establishments whose id differs |
| `AddressStore.AddressStorage.constructor` | storage/address.go:20-22 | a new store is empty with the given maxDis and distance |
| `AddressStore.AddressStorage.Create` | storage/address.go:40-50 | the collection and the result become those of Insert, and _id uniqueness is kept |
| `AddressStore.AddressStorage.DeleteByID` | storage/address.go:52-62 | the collection and the count become those of Delete, and _id uniqueness is kept |
| `AddressStore.AddressStorage.Nearest` | storage/address.go:82-103 | success exactly when some establishment lies within maxDis, returning the hex id of one of least distance; otherwise findOne/NoDocuments |
| `Controller.AddressService.constructor` | controller/address.go:35-37 | given two valid stores, the service is valid and holds exactly the two stores and the geocoder it is given |
| `Controller.AddressService.CreateDelivery` | controller/address.go:39-50 | the geocoder is asked about String of the embedded address; on failure nothing is inserted and the caller's record is unchanged, with "" and the wrapped error; on success the record gets the geocoded location and is inserted, and the store's id (or its wrapped error with "") is returned |
| `Controller.AddressService.User` | controller/address.go:52-58 | the result is exactly the addresses owned by uID, each owned delivery once, with no error |
| `Controller.AddressService.GetAddByID` | controller/address.go:60-66 | success exactly when the parsed id is stored, returning that establishment; otherwise the zero Address and the store's error (ObjectIDFromHex for a malformed id, findOne/NoDocuments otherwise) wrapped as ast.GetByID |
| `Controller.AddressService.DeleteByUser` | controller/address.go:68-74 | user id and address id reach the store unchanged; count 0 or 1 is passed through, a failure gives 0 and the wrapped error |
| `Controller.AddressService.Nearest` | controller/address.go:76-86 | if the (user, id) delivery lookup fails, its wrapped error is returned with ""; otherwise success exactly when an establishment lies within maxDis of that delivery's location, returning the hex id of a nearest one |
| `Controller.AddressService.Create` | controller/address.go:88-99 | as CreateDelivery, for establishments: geocode String strictly before insert, no insert on geocode failure, geocoded location stored, store's id returned |
| `Controller.AddressService.DeleteByID` | controller/address.go:101-107 | the id reaches the store unchanged; the count is passed through, a failure gives 0 and the wrapped error |
| `Controller.AddressService.GetByID` | controller/address.go:109-115 | success exactly when a delivery matches both id and user, returning its address; otherwise the zero Address and the store's error (ObjectIDFromHex for a malformed id, findOne/NoDocuments otherwise) wrapped as dst.GetByID |
| `Controller.AddressService.Search` | controller/address.go:117-123 | fails exactly for a negative offset, with an empty list and the find error wrapped as ast.Search; otherwise the consecutive establishments in store order from offset, exactly as many as the absolute value of limit when that cuts the rest short, all the rest otherwise |

## Left out

- The Mongo connection, context cancellation and deadlines, and logging are not modelled. Neither are driver failures that the query shapes do not cause (network errors, decode errors). The stores fail only for a malformed id, a missing document, a duplicate _id or a negative skip.
- `Controller.AddressService.User`: GetAll cannot fail in the model (its `Find` and decode errors are driver failures), so the `nil`-with-error branch of User is not reachable.
- The "InsertOneResult is not an ObjectID" branch of both Create operations is not modelled. `_id` is always an ObjectID, so that branch cannot be taken.
- `AddressStore.AddressStorage.Nearest`: the geospatial distance is an opaque function fixed with the store, because the real one is floating point and computed inside the database. A malformed coordinate and a missing geospatial index are not modelled.
- `AddressStore.AddressStorage.constructor`: `maxDis` is a natural number, because a negative `$maxDistance` is refused by the database. The only caller passes 25000.
- `AddressStore.Window`: the opaque `Querys` filter and `OrderBy` sort documents that storage/address.go:69-72 reads are left out, because `model.Search` does not declare them. A limit of -2^63, whose negation overflows in the driver, is treated as 2^63.
- User ids of 2^63 and above, which the BSON encoder refuses, are treated like any other user id.
- Strings are sequences of characters, not bytes, and the length check counts characters. An id with a non-ASCII character therefore fails with a different error than in Go, in both directions: 24 characters whose byte length exceeds 24 give InvalidByte here and the invalid-hex error in Go, and fewer than 24 characters that take 24 bytes give InvalidHex here and an invalid-byte error in Go. Both always fail.
- The geocoding adapter (adapter/gmap/gmaps.go) is not part of this model. The geocoder is an oracle returning a location or a failure.
- The transport handler (http/handler/address.go), the process bootstrap (cmd/main.go) and the one-time connection set-up (storage/storage.go) are not part of this model.
