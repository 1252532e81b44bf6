/** One entity collection of a service together with its identifier
    counter, as a value, and the five operations of the request handlers as
    transitions of that value.  The class in module Store performs the same
    transitions in place and is proved against these functions. */
module Collection {
  import opened Documents
  import opened IntLiteral
  import opened Query

  /** `counter` is the `seq` field of the service's counter document (0
      while that document does not exist yet); `docs` is the collection,
      keyed by the integer `_id` of each document. */
  datatype State = State(counter: nat, docs: map<int, Document>)

  /** A service that has never stored anything. */
  const Fresh: State := State(0, map[])

  /** Every stored document carries its own key as `_id`, no key is above
      the counter (so the next allocation is unused), and every stored
      document is one the driver could encode. */
  ghost predicate Inv(st: State) {
    forall id :: id in st.docs ==>
      && 1 <= id <= st.counter
      && IdField in st.docs[id] && st.docs[id][IdField] == Int(id)
      && DocEncodable(st.docs[id])
  }

  // ---------------------------------------------------------------------
  // Identifier allocation

  /** The increment-and-fetch on the counter document; on the first call the
      upsert creates the document with `seq` 1. */
  function Allocate(st: State): (r: (nat, State))
    ensures r.0 == st.counter + 1
    ensures r.1.counter == r.0 && r.1.docs == st.docs
    ensures Inv(st) ==> r.0 !in st.docs && Inv(r.1)
    ensures Inv(st) ==> forall id :: id in st.docs ==> id < r.0
  {
    (st.counter + 1, st.(counter := st.counter + 1))
  }

  /** `n` allocations in a row: they return the next `n` integers in
      increasing order, so from a fresh counter the k-th call returns k. */
  function AllocateMany(st: State, n: nat): (r: (seq<nat>, State))
    ensures |r.0| == n
    ensures forall i :: 0 <= i < n ==> r.0[i] == st.counter + 1 + i
    ensures r.1 == State(st.counter + n, st.docs)
    decreases n
  {
    if n == 0 then ([], st)
    else
      var (id, st1) := Allocate(st);
      var (rest, st2) := AllocateMany(st1, n - 1);
      ([id] + rest, st2)
  }

  // ---------------------------------------------------------------------
  // The required-field check of the create handler

  /** `all(k in body for k in fields)`. */
  function AllPresent(fields: seq<string>, body: Document): (ok: bool)
    ensures ok <==> forall i :: 0 <= i < |fields| ==> fields[i] in body
  {
    |fields| == 0 || (fields[0] in body && AllPresent(fields[1..], body))
  }

  /** The body is non-empty and holds every required field. */
  predicate HasRequiredData(body: Document, required: seq<string>) {
    body != map[] && AllPresent(required, body)
  }

  // ---------------------------------------------------------------------
  // The handlers

  /** Lookup by the text of a path segment.  Text that is not an integer
      makes `int()` raise, and an integer outside the 8-byte range makes the
      driver raise while encoding the filter: both are uncaught. */
  function Find(st: State, idText: string): Result<Document> {
    match ParseInt(idText)
    case None => Fault
    case Some(id) =>
      if !InInt64(id) then Fault
      else if id in st.docs then Ok(st.docs[id])
      else NotFound
  }

  /** Listing with the coerced query parameters as filter; a filter the
      driver cannot encode is an uncaught error. */
  function List(st: State, params: Params): Result<map<int, Document>> {
    var query := CoerceQuery(params);
    if !DocEncodable(query) then Fault
    else
      var found := Select(st.docs, query);
      if found == map[] then NotFound else Ok(found)
  }

  /** Validate, then allocate, then store the body under the new key.  A
      document the driver cannot encode fails the insert after the
      allocation: the identifier is spent and nothing is stored. */
  function Create(st: State, required: seq<string>, body: Document): (Result<Document>, State) {
    if !HasRequiredData(body, required) then (MissingData, st)
    else
      var (id, st1) := Allocate(st);
      var doc := body[IdField := Int(id)];
      if !DocEncodable(doc) then (Fault, st1)
      else (Ok(doc), st1.(docs := st1.docs[id := doc]))
  }

  /** Look the document up, `$set` the body's fields, read it again.  A body
      the driver cannot encode, or one that would give the document another
      `_id`, is refused and changes nothing. */
  function Update(st: State, idText: string, body: Document): (Result<Document>, State) {
    var found := Find(st, idText);
    if !found.Ok? then (found, st)
    else
      var id := ParseInt(idText).value;
      if !DocEncodable(body) then (Fault, st)
      else if IdField in body && body[IdField] != Int(id) then (Fault, st)
      else
        var merged := st.docs[id] + body;
        (Ok(merged), st.(docs := st.docs[id := merged]))
  }

  /** Look the document up, remove it, answer with what was looked up. */
  function Delete(st: State, idText: string): (Result<Document>, State) {
    var found := Find(st, idText);
    if !found.Ok? then (found, st)
    else (found, st.(docs := st.docs - {ParseInt(idText).value}))
  }

  // ---------------------------------------------------------------------
  // Lookup

  /** The key of the collection is the `_id` field: lookup by key returns
      a stored document exactly when its `_id` is the parsed identifier,
      NotFound exactly when no stored document has that `_id`, and Fault
      exactly when the text is not an integer or the integer is outside the
      8-byte range. */
  lemma {:induction false} FindByIdField(st: State, idText: string, d: Document)
    requires Inv(st)
    ensures Find(st, idText) == Fault <==>
            !IsIntLiteral(idText) || !InInt64(ParseInt(idText).value)
    ensures ParseInt(idText).Some? && InInt64(ParseInt(idText).value) ==>
      var id := ParseInt(idText).value;
      && (Find(st, idText) == Ok(d) <==>
            exists j :: j in st.docs && st.docs[j] == d && d[IdField] == Int(id))
      && (Find(st, idText) == NotFound <==>
            forall j :: j in st.docs ==> st.docs[j][IdField] != Int(id))
  {
    match ParseInt(idText)
    case None =>
    case Some(id) =>
      if id in st.docs {
        assert st.docs[id][IdField] == Int(id);
      }
  }

  /** Filtering on `_id` selects the same document as lookup by key. */
  lemma {:induction false} IdFilterAgreesWithFind(st: State, id: int)
    requires Inv(st)
    ensures Select(st.docs, map[IdField := Int(id)]) ==
            if id in st.docs then map[id := st.docs[id]] else map[]
  {
    var found := Select(st.docs, map[IdField := Int(id)]);
    forall j | j in st.docs
      ensures j in found <==> j == id
    {
      assert st.docs[j][IdField] == Int(j);
    }
  }

  // ---------------------------------------------------------------------
  // Listing

  /** With no parameters the listing returns the whole collection, and
      NotFound only when the collection is empty. */
  lemma EmptyFilterListsAll(st: State)
    ensures List(st, []) == if st.docs == map[] then NotFound else Ok(st.docs)
  {
  }

  /** The listing is Fault exactly when the driver cannot encode the
      coerced filter; otherwise it returns exactly the documents that match
      every coerced parameter, and NotFound exactly when none does. */
  lemma {:induction false} ListIsExact(st: State, params: Params)
    ensures List(st, params) == Fault <==> !DocEncodable(CoerceQuery(params))
    ensures List(st, params) == NotFound <==>
            && DocEncodable(CoerceQuery(params))
            && forall id :: id in st.docs ==> !Matches(st.docs[id], CoerceQuery(params))
    ensures List(st, params).Ok? ==>
            var found := List(st, params).value;
            && (forall id :: id in found <==> id in st.docs && Matches(st.docs[id], CoerceQuery(params)))
            && (forall id :: id in found ==> found[id] == st.docs[id])
  {
    var found := Select(st.docs, CoerceQuery(params));
    if forall id :: id in st.docs ==> !Matches(st.docs[id], CoerceQuery(params)) {
      var none: map<int, Document> := map[];
      forall id
        ensures id in found <==> id in none
      {
      }
    }
  }

  /** A query parameter whose name holds a NUL byte makes the driver
      refuse the filter: the listing is Fault whatever is stored. */
  lemma NulNameListFaults(st: State, params: Params, i: int)
    requires 0 <= i < |params| && '\0' in params[i].0
    ensures List(st, params) == Fault
  {
    CoerceQueryHasNames(params);
    assert params[i].0 in CoerceQuery(params);
  }

  // ---------------------------------------------------------------------
  // Create

  /** A body that is empty or lacks a required field is refused with
      MissingData before any identifier is allocated: nothing changes. */
  lemma CreateRejects(st: State, required: seq<string>, body: Document)
    ensures Create(st, required, body).0 == MissingData <==>
            (body == map[] || exists i :: 0 <= i < |required| && required[i] !in body)
    ensures Create(st, required, body).0 == MissingData ==> Create(st, required, body).1 == st
  {
  }

  /** An accepted body is stored under the next identifier, with `_id`
      overwritten by it and every other field as sent; the answer is that
      document, a later lookup by the identifier's text returns it, and the
      rest of the collection is untouched. */
  lemma {:induction false} CreateStores(st: State, required: seq<string>, body: Document)
    requires Inv(st)
    requires HasRequiredData(body, required)
    requires DocEncodable(body[IdField := Int(st.counter + 1)])
    ensures
      var (r, st') := Create(st, required, body);
      var id := st.counter + 1;
      && r.Ok?
      && id !in st.docs
      && st'.counter == id
      && r.value.Keys == body.Keys + {IdField}
      && r.value[IdField] == Int(id)
      && (forall k :: k in body && k != IdField ==> r.value[k] == body[k])
      && st'.docs.Keys == st.docs.Keys + {id}
      && (forall j :: j in st.docs ==> st'.docs[j] == st.docs[j])
      && Find(st', IntToString(id)) == r
      && Inv(st')
  {
    ParseIntToString(st.counter + 1);
  }

  /** An accepted body the driver cannot encode (an integer out of range,
      a field name holding a NUL byte) fails
      after the allocation: the answer is Fault, the identifier is spent and
      the collection is unchanged. */
  lemma CreateSpendsIdOnEncodingError(st: State, required: seq<string>, body: Document)
    requires HasRequiredData(body, required)
    requires !DocEncodable(body[IdField := Int(st.counter + 1)])
    ensures Create(st, required, body) == (Fault, State(st.counter + 1, st.docs))
  {
  }

  /** Whether the stored document is encodable depends only on the body's
      other fields (names and values) and on the new identifier being in
      range. */
  lemma {:induction false} NewDocumentEncodable(body: Document, id: int)
    ensures DocEncodable(body[IdField := Int(id)]) <==>
            InInt64(id) &&
            forall k :: k in body && k != IdField ==> KeyEncodable(k) && Encodable(body[k])
  {
    var doc := body[IdField := Int(id)];
    assert doc[IdField] == Int(id);
    if DocEncodable(doc) {
      assert Encodable(doc[IdField]);
      forall k | k in body && k != IdField
        ensures KeyEncodable(k) && Encodable(body[k])
      {
        assert k in doc && doc[k] == body[k];
      }
    }
    if InInt64(id) && forall k :: k in body && k != IdField ==> KeyEncodable(k) && Encodable(body[k]) {
      assert KeyEncodable(IdField) by {
        assert IdField == ['_', 'i', 'd'];
      }
      forall k | k in doc
        ensures KeyEncodable(k) && Encodable(doc[k])
      {
        if k != IdField {
          assert doc[k] == body[k];
        }
      }
    }
  }

  // ---------------------------------------------------------------------
  // Update

  /** When the lookup fails, the update answers as the lookup did and
      changes nothing. */
  lemma UpdateOfAbsent(st: State, idText: string, body: Document)
    requires !Find(st, idText).Ok?
    ensures Update(st, idText, body) == (Find(st, idText), st)
  {
  }

  /** A body the driver cannot encode, or one that would change `_id`, is
      refused and changes nothing. */
  lemma UpdateRefused(st: State, idText: string, body: Document)
    requires Find(st, idText).Ok?
    requires !DocEncodable(body) || (IdField in body && body[IdField] != Int(ParseInt(idText).value))
    ensures Update(st, idText, body) == (Fault, st)
  {
  }

  /** Otherwise the fields of the body are overwritten, every other field is
      kept, the answer is what a new lookup returns, and no other document
      nor the counter changes. */
  lemma {:induction false} UpdateMerges(st: State, idText: string, body: Document)
    requires Find(st, idText).Ok?
    requires DocEncodable(body)
    requires IdField in body ==> body[IdField] == Int(ParseInt(idText).value)
    ensures
      var before := Find(st, idText).value;
      var (r, st') := Update(st, idText, body);
      && r.Ok?
      && r.value.Keys == before.Keys + body.Keys
      && (forall k :: k in body ==> r.value[k] == body[k])
      && (forall k :: k in before && k !in body ==> r.value[k] == before[k])
      && st'.counter == st.counter
      && st'.docs.Keys == st.docs.Keys
      && (forall j :: j in st.docs && j != ParseInt(idText).value ==> st'.docs[j] == st.docs[j])
      && Find(st', idText) == r
      && (Inv(st) ==> Inv(st'))
  {
    var id := ParseInt(idText).value;
    var (r, st') := Update(st, idText, body);
    if Inv(st) {
      forall j | j in st'.docs
        ensures 1 <= j <= st'.counter && IdField in st'.docs[j] && st'.docs[j][IdField] == Int(j)
      {
        if j == id {
          assert IdField in st.docs[id];
          var merged := st.docs[id] + body;
          forall k | k in merged
            ensures Encodable(merged[k])
          {
            if k !in body {
              assert merged[k] == st.docs[id][k];
            }
          }
        }
      }
    }
  }

  /** Sending the same update twice has the effect of sending it once. */
  lemma {:induction false} UpdateIdempotent(st: State, idText: string, body: Document)
    ensures
      var (r1, st1) := Update(st, idText, body);
      Update(st1, idText, body) == (r1, st1)
  {
    match ParseInt(idText)
    case None =>
    case Some(id) =>
      if InInt64(id) && id in st.docs && DocEncodable(body) && !(IdField in body && body[IdField] != Int(id)) {
        var merged := st.docs[id] + body;
        assert merged + body == merged;
        assert st.docs[id := merged][id := merged] == st.docs[id := merged];
      }
  }

  // ---------------------------------------------------------------------
  // Delete

  /** Delete answers exactly what a lookup before it answers; on success
      the document is gone afterwards and nothing else changes, otherwise
      nothing changes at all. */
  lemma {:induction false} DeleteReturnsSnapshot(st: State, idText: string)
    ensures Delete(st, idText).0 == Find(st, idText)
    ensures !Find(st, idText).Ok? ==> Delete(st, idText).1 == st
    ensures Find(st, idText).Ok? ==>
      var st' := Delete(st, idText).1;
      && Find(st', idText) == NotFound
      && st'.counter == st.counter
      && st'.docs.Keys == st.docs.Keys - {ParseInt(idText).value}
      && (forall j :: j in st'.docs ==> st'.docs[j] == st.docs[j])
      && (Inv(st) ==> Inv(st'))
  {
  }

  // ---------------------------------------------------------------------
  // Sequences of requests

  datatype Request =
    | GetOne(idText: string)
    | GetMany(params: Params)
    | Post(body: Document)
    | Put(idText: string, body: Document)
    | Remove(idText: string)

  /** The state after one request, with the identifier it allocated, if
      any: a create allocates exactly when its body passes the check. */
  function Step(st: State, required: seq<string>, req: Request): (Option<int>, State) {
    match req
    case GetOne(_) => (None, st)
    case GetMany(_) => (None, st)
    case Post(body) =>
      (if HasRequiredData(body, required) then Some(st.counter + 1) else None,
       Create(st, required, body).1)
    case Put(idText, body) => (None, Update(st, idText, body).1)
    case Remove(idText) => (None, Delete(st, idText).1)
  }

  /** The identifiers allocated by a sequence of requests, in order, and the
      final state. */
  function Run(st: State, required: seq<string>, reqs: seq<Request>): (seq<int>, State)
    decreases |reqs|
  {
    if reqs == [] then ([], st)
    else
      var (a, st1) := Step(st, required, reqs[0]);
      var (ids, st2) := Run(st1, required, reqs[1..]);
      ((if a.Some? then [a.value] else []) + ids, st2)
  }

  /** Only a create that passes the check moves the counter, by one, to
      the identifier it allocates; a create that succeeds answers with that
      identifier as `_id`; every request keeps the invariant. */
  lemma {:induction false} StepCounts(st: State, required: seq<string>, req: Request)
    ensures
      var (a, st') := Step(st, required, req);
      && (a.Some? ==> a.value == st.counter + 1 && st'.counter == st.counter + 1)
      && (a.None? ==> st'.counter == st.counter)
      && (req.Post? && Create(st, required, req.body).0.Ok? ==>
            a.Some? && Create(st, required, req.body).0.value[IdField] == Int(a.value))
      && (Inv(st) ==> Inv(st'))
  {
    match req
    case GetOne(_) =>
    case GetMany(_) =>
    case Post(body) =>
      if Inv(st) && HasRequiredData(body, required) && DocEncodable(body[IdField := Int(st.counter + 1)]) {
        CreateStores(st, required, body);
      }
    case Put(idText, body) =>
      if Find(st, idText).Ok? && DocEncodable(body)
         && !(IdField in body && body[IdField] != Int(ParseInt(idText).value)) {
        UpdateMerges(st, idText, body);
      }
    case Remove(idText) =>
      DeleteReturnsSnapshot(st, idText);
  }

  /** Whatever the requests, the identifiers allocated are the next ones
      after the counter, consecutive and increasing: none is allocated twice,
      deletes included, and the allocations leave no gaps.  (A create that
      fails after its allocation spends its identifier, so the stored
      identifiers may skip it.) */
  lemma {:induction false} RunIssuesConsecutiveIds(st: State, required: seq<string>, reqs: seq<Request>)
    ensures
      var (ids, st') := Run(st, required, reqs);
      && st'.counter == st.counter + |ids|
      && (forall i :: 0 <= i < |ids| ==> ids[i] == st.counter + 1 + i)
      && (Inv(st) ==> Inv(st'))
    decreases |reqs|
  {
    if reqs != [] {
      StepCounts(st, required, reqs[0]);
      var (a, st1) := Step(st, required, reqs[0]);
      RunIssuesConsecutiveIds(st1, required, reqs[1..]);
    }
  }

  /** From a fresh service the allocations return 1, 2, 3, ... in order. */
  lemma FreshServiceIssuesOneToN(required: seq<string>, reqs: seq<Request>)
    ensures
      var ids := Run(Fresh, required, reqs).0;
      forall i :: 0 <= i < |ids| ==> ids[i] == i + 1
  {
    RunIssuesConsecutiveIds(Fresh, required, reqs);
  }
}
