# Flask microservices: entity store with an auto-incrementing identifier

The repository holds two near-identical Flask services, one for employee
records (`/employees`) and one for a vehicle inventory (`/cars`). Each keeps
one MongoDB collection of JSON documents keyed by an integer `_id`, plus a
counter document in the `counters` collection from which new identifiers are
minted by an atomic `$inc` with upsert. The handlers list documents, filtered
by query parameters, and look up, create, update and delete single documents.

This project models that behaviour once, generically, and instantiates it per
service with the service's list of required fields:

- `Documents`: JSON values, documents (`map<string, Value>`), the key field
  `_id`, and `Result` with `Ok`, `NotFound` (`abort(404)`), `MissingData`
  (`abort(400)`) and `Fault` (an uncaught exception, HTTP 500).
- `IntLiteral`: Python's `int()` on text, as an optional sign followed by
  decimal digits, and `str()` of an integer. It proves that reading back an
  identifier's text gives the identifier.
- `Query`: the coercion of query-string values. The query parameters are
  the items of the dictionary, in order. The handler's loop over them builds
  the filter; it is the method `BuildQuery`, proved against the function
  `CoerceQuery`. This module also holds exact matching and selection.
- `Collection`: the collection and its counter as a value `State`, the
  object invariant `Inv`, and the five handlers as transitions: `Find`
  (app.py:30-37), `List` (app.py:41-68), `Create` (app.py:79-98), `Update`
  (app.py:102-114) and `Delete` (app.py:118-127). The transitions carry no
  contract of their own; the lemmas in the table below state what each
  handler promises. They also cover arbitrary sequences of
  requests: the identifiers handed out are consecutive and never reused.
- `Store`: the class `EntityStore`. Its fields `counter` and `docs` are
  updated in place by methods that mirror the handlers. Each method is proved
  to perform the corresponding `Collection` transition and to keep `Valid()`.
- `Employees`, `Cars`: the two instantiations. Each has its required-field
  list, a constructor of the empty service, and facts about that service.

Modelling decisions, each following the code:

- A path identifier that is not an integer makes `int()` raise `ValueError`.
  The handlers do not catch it, so it is `Fault` (500), not `NotFound`.
- `add_*` also refuses an empty body, not only one missing a field. An absent
  JSON body and `{}` are both falsy there and are modelled alike, as the
  empty map. This is how Flask and Werkzeug before 2.1 behave. From 2.1 on,
  `request.json` itself answers 400 for an absent body (415 from Werkzeug
  2.3), before the handler's check runs. The state is unchanged in every
  case, so the model's `MissingData` stands for any of these refusals.
- MongoDB stores integers as signed 64-bit values. An integer outside that
  range makes the driver raise `OverflowError`, which no handler catches, so
  it is `Fault` (500). This affects a path identifier (`/employees/2^63`),
  an integer query value, and any integer in a create or update body. On
  create, the identifier has already been allocated when the insert fails:
  the counter moves and nothing is stored, so that identifier is spent.
  Stored identifiers can then skip it; the allocated ones stay consecutive.
- The driver writes field names as NUL-terminated strings and raises
  `InvalidDocument` for a name holding a NUL byte, again uncaught, so that is
  `Fault` too. This holds for a query parameter name, for a field of a create
  body (after the identifier is allocated) and for a field of an update body,
  at any depth of nesting. "The driver can encode" below means both
  conditions: every integer fits in 64 bits and no field name holds a NUL.
  These are the refusals a model value can express. Two more refusals come
  from inputs the model's values cannot hold; they are listed under
  "Left out".
- On update, MongoDB refuses a `$set` that would change `_id`. The model
  answers `Fault` and changes nothing. Setting `_id` to its current value is
  accepted, as MongoDB accepts it.
- The counter is a `nat`, and 0 stands for "no counter document yet". The
  upsert creates the document with `seq` 1, so the fallback `else 1` in
  `generate_*_id` never runs and has no counterpart in the model.
- The listing answer is the selected part of the collection, keyed by `_id`.
  It carries no order.

## Model

| member | source | states |
|---|---|---|
| IntLiteral.ParseInt | Microservice_Employees/app.py:50-55 | `int(text)` succeeds exactly on an optional sign followed by at least one digit; the sign decides the sign of the result |
| IntLiteral.ParseIntToString | Microservice_Employees/app.py:32 | the text of any identifier parses back to that identifier, so a document created under id n is reachable at the path `str(n)` |
| Query.Coerce | Microservice_Employees/app.py:50-57 | a query value becomes an integer exactly when `int()` accepts it, and that integer is what `int()` returns; any other value stays the same string |
| Query.CoerceQueryHasNames | Microservice_Cars/app.py:49-57 | every query parameter name gets an entry in the filter |
| Query.CoerceQueryOnlyNames | Microservice_Cars/app.py:46-57 | the filter has no entry other than the parameter names |
| Query.CoerceQueryValue | Microservice_Employees/app.py:49-57 | the entry of a parameter name is the coerced value of its item (the last one with that name) |
| Query.BuildQuery | Microservice_Employees/app.py:46-57 | the loop over the parameter items builds exactly the filter `CoerceQuery` describes |
| Query.Select | Microservice_Employees/app.py:61 | a document is selected iff it holds every filter pair; selected documents are the stored ones; an empty filter selects the whole collection |
| Query.IntegerParameterSelectsInt | Microservice_Cars/app.py:49-61 | a parameter that reads as integer n selects exactly the documents whose field holds the integer n |
| Query.IntegerLookingStringUnmatchable | Microservice_Employees/app.py:49-61 | a stored string that reads as an integer can never be selected by a query parameter, because the parameter is coerced to an integer |
| Collection.Allocate | Microservice_Employees/app.py:15-27 | the new identifier is the old counter plus one, the counter now holds it, and under the invariant it is above every stored identifier, so it is unused |
| Collection.AllocateMany | Microservice_Cars/app.py:15-27 | n allocations in a row return the next n integers in increasing order, so from a fresh counter the k-th call returns k; the collection is untouched |
| Collection.AllPresent | Microservice_Employees/app.py:86 | `all(k in body for k in fields)` holds iff every listed field is a key of the body |
| Collection.FindByIdField | Microservice_Employees/app.py:30-37 | lookup returns a document iff it is stored with `_id` equal to `int(text)`; NotFound iff no stored document has that `_id`; Fault iff the text is not an integer or its integer is outside the signed 64-bit range |
| Collection.IdFilterAgreesWithFind | Microservice_Cars/app.py:30-37 | filtering the collection on `_id` selects the same single document as lookup by key, or none |
| Collection.EmptyFilterListsAll | Microservice_Employees/app.py:59-65 | with no query parameters the listing is the whole collection, and NotFound only when the collection is empty |
| Collection.ListIsExact | Microservice_Cars/app.py:59-65 | Fault iff the driver cannot encode the coerced filter (an integer outside the signed 64-bit range, or a name holding a NUL byte); otherwise the listing holds exactly the stored documents that match every coerced parameter, and is NotFound exactly when none matches |
| Collection.CreateRejects | Microservice_Employees/app.py:82-87 | create answers MissingData iff the body is empty or lacks a required field, and then neither the counter nor the collection changes |
| Collection.CreateStores | Microservice_Employees/app.py:89-98 | an accepted body the driver can encode is stored under the next, previously unused identifier with `_id` overwritten by it and every other field as sent; the answer is that document, a lookup by the identifier returns it, other documents are unchanged, and the invariant holds |
| Collection.UpdateOfAbsent | Microservice_Employees/app.py:103-105 | when the lookup fails, update answers as the lookup did (NotFound or Fault) and changes nothing |
| Collection.CreateSpendsIdOnEncodingError | Microservice_Employees/app.py:89-95 | an accepted body that the driver cannot encode answers Fault after the counter has moved by one; nothing is stored, so that identifier is spent |
| Collection.NewDocumentEncodable | Microservice_Employees/app.py:90-95 | the document to insert meets both encoding conditions iff its new identifier fits in a signed 64-bit integer and every other field has a name without a NUL byte and a value whose integers fit and whose nested names hold no NUL |
| Collection.NulNameListFaults | Microservice_Employees/app.py:49-61 | a query parameter whose name holds a NUL byte makes the listing Fault, whatever is stored |
| Collection.UpdateRefused | Microservice_Employees/app.py:108 | a body the driver cannot encode, or one that would change `_id`, is refused with Fault and changes nothing |
| Collection.UpdateMerges | Microservice_Employees/app.py:102-114 | an encodable update that keeps `_id` overwrites the body's fields, keeps every other field, answers what a new lookup returns, and leaves the counter and every other document unchanged; the invariant is kept |
| Collection.UpdateIdempotent | Microservice_Cars/app.py:107-111 | sending the same update twice has the effect and answer of sending it once |
| Collection.DeleteReturnsSnapshot | Microservice_Employees/app.py:118-127 | delete answers exactly what a lookup before it answers; on success the document is gone afterwards while the counter and other documents are unchanged; otherwise nothing changes |
| Collection.StepCounts | Microservice_Employees/app.py:80-127 | only a create whose body passes the required-field check moves the counter, by one, and reports the new value as the allocated identifier; a successful create answers a document whose `_id` is that identifier; every handler keeps the invariant |
| Collection.RunIssuesConsecutiveIds | Microservice_Employees/app.py:13-27 | over any sequence of requests, deletes and failed inserts included, the identifiers allocated are consecutive after the starting counter, strictly increasing and never reused, and the invariant is kept |
| Collection.FreshServiceIssuesOneToN | Microservice_Cars/app.py:13-27 | from a fresh service the allocations return the identifiers 1, 2, 3, ... in order |
| Store.EntityStore.GenerateId | Microservice_Employees/app.py:13-27 | increments the counter and returns the new value, which no stored document uses; the collection is unchanged |
| Store.EntityStore.List | Microservice_Employees/app.py:41-68 | builds the filter, answers Fault for a filter the driver cannot encode, selects, and answers NotFound for an empty result, exactly as `Collection.List`; a non-empty answer holds stored documents only |
| Store.EntityStore.Add | Microservice_Employees/app.py:79-98 | performs `Collection.Create` in place: a refusal leaves counter and collection unchanged, an insert the driver cannot encode leaves the counter moved by one and the collection unchanged, and a success can be read back by the new identifier |
| Store.EntityStore.Update | Microservice_Employees/app.py:102-114 | performs `Collection.Update` in place: a failure, including a body the driver cannot encode, leaves the state unchanged, and a success answers what a new lookup returns |
| Store.EntityStore.Delete | Microservice_Employees/app.py:118-127 | performs `Collection.Delete` in place, answering what the prior lookup answered; the document is gone afterwards |
| Employees.Open | Microservice_Employees/app.py:82 | the employee service starts with an empty collection, no counter document, and the five required fields |
| Employees.AddEmployeeRequiresFields | Microservice_Employees/app.py:82-87 | an employee is refused iff the body is empty or lacks name, position, salary, hire_date or address, and the refusal changes nothing |
| Employees.NulKeyEmployeeSpendsId | Microservice_Employees/app.py:86-95 | an employee body with all five fields plus a field name holding a NUL byte passes the field check, then answers Fault with the counter moved by one and nothing stored |
| Employees.FirstEmployeeGetsIdOne | Microservice_Employees/app.py:89-98 | the first employee of a fresh service, if the driver can encode it, is stored and returned with `_id` 1 and is found at `/employees/1` |
| Cars.Open | Microservice_Cars/app.py:82 | the vehicle service starts with an empty collection, no counter document, and the eight required fields |
| Cars.AddCarRequiresFields | Microservice_Cars/app.py:82-87 | a car is refused iff the body is empty or lacks any of brand, model, year, price, mileage, color, engine_type or transmission_type, and the refusal changes nothing |
| Cars.FirstCarGetsIdOne | Microservice_Cars/app.py:89-98 | posting to a fresh service a complete car that the driver can encode and that has no `_id` answers with `_id` 1 and all submitted fields intact, and `/cars/1` returns it |
| Cars.CorollaGetsIdOne | Microservice_Cars/app.py:89-98 | a concrete complete car posted to a fresh service answers with `_id` 1 and all submitted fields intact, and `/cars/1` returns it |
| Cars.YearQueryMatchesInteger | Microservice_Cars/app.py:44-65 | `GET /cars?year=2020` does not fault and lists exactly the cars whose `year` is the integer 2020, and is NotFound when there is none |
| Cars.PriceUpdateKeepsOtherFields | Microservice_Cars/app.py:102-114 | a price update answers with the old car with only `price` replaced, and a new lookup returns the same |

## Left out

- HTTP plumbing: routing, reading `request.args` and `request.json`, `jsonify`, status codes and `app.run` (app.py:1-5, 40-44, 71-75, 130-132). Requests become method arguments and errors become `Result` variants.
- The MongoDB connection (app.py:7-10): the collection and the counter document are fields of `EntityStore`.
- Concurrency: `find_one_and_update` is atomic for concurrent callers. The model is sequential, so uniqueness under concurrent allocation is not modelled.
- A crash between allocation and insert, which leaves a gap in the sequence: failures of the database are not modelled. An insert refused because a value does not fit in 64 bits is modelled.
- Allocation past 2^63-1: MongoDB refuses the `$inc` that would overflow the counter. The counter here is an unbounded `nat`, so that last failure is not modelled.
- IntLiteral.ParseInt: does not model the digit limit. Python 3.11 and later refuse `int()` on text of more than 4300 digits with `ValueError`. The model parses text of any length. Such a path identifier is `Fault` either way, because its integer is far outside the 64-bit range; such a query value would stay a string in Python, while the model coerces it and answers `Fault`.
- MongoDB's limits on document size (16 MiB) and nesting depth are not modelled.
- Create bodies with `$`-prefixed or dotted field names: PyMongo 3.x checks names on insert and refuses them after the identifier is allocated, and MongoDB before 5.0 refuses `$`-prefixed names. Newer versions store them. The model stores them, as the newer versions do, so the 500 with a spent identifier under the older versions is not modelled.
- Python `int()` also accepts surrounding whitespace, `_` between digits and non-ASCII digits. The model accepts only an optional sign and ASCII digits.
- JSON numbers with a fraction and MongoDB's numeric comparison across types (2020.0 equals 2020) are not modelled. Values are compared by plain equality.
- MongoDB's matching inside arrays, dotted field paths, and `$`-operators or `$`-prefixed names in filters or update bodies are not modelled.
- Update with an empty body is modelled as a no-op. Some MongoDB versions refuse an empty `$set`, which would make it a 500.
- Update with no JSON body at all, and JSON bodies that are not objects (an array, a string), are not modelled.
- Create with a JSON body that is not an object: a list holding every required name passes `all(k in request.json ...)` by membership, and a string holding them passes by substring. The identifier is then allocated (app.py:90), and `request.json['_id'] = ...` (app.py:92) raises `TypeError`. The answer is 500, the counter has moved and nothing is stored. Bodies here are maps, so this path is not modelled.
- Lone surrogates: Flask's JSON decoder turns `"\ud800"` into a string holding the lone code point U+D800, and the driver refuses to encode it (`UnicodeEncodeError`). In a create body that is a 500 after allocation: the identifier is spent and nothing is stored. In an update body it is a 500 with no change. Strings here are sequences of Dafny `char`, which holds only Unicode scalar values, so such a string cannot be written and this refusal is not modelled.
- Building the dictionary from the query string (`request.args.to_dict()`, which keeps the first value of a repeated name) is not modelled. The parameters are the dictionary's items, in order.
- The listing is returned without order. The order in which MongoDB returns documents is not modelled.
