/** The vehicle service: the generic store with the car record's required
    fields. */
module Cars {
  import opened Documents
  import opened IntLiteral
  import opened Query
  import Collection
  import Store

  const RequiredFields: seq<string> :=
    ["brand", "model", "year", "price", "mileage", "color", "engine_type", "transmission_type"]

  /** The service as it starts: an empty `cars` collection and no counter
      document. */
  method Open() returns (s: Store.EntityStore)
    ensures fresh(s) && s.Valid()
    ensures s.required == RequiredFields && s.Snapshot() == Collection.Fresh
  {
    s := new Store.EntityStore(RequiredFields);
  }

  /** A car is refused exactly when the body is empty or one of the eight
      fields is absent, and the refusal changes nothing. */
  lemma {:induction false} AddCarRequiresFields(st: Collection.State, body: Document)
    ensures
      var (r, st') := Collection.Create(st, RequiredFields, body);
      && (r == MissingData <==>
            body == map[] || "brand" !in body || "model" !in body || "year" !in body
            || "price" !in body || "mileage" !in body || "color" !in body
            || "engine_type" !in body || "transmission_type" !in body)
      && (r == MissingData ==> st' == st)
  {
    Collection.CreateRejects(st, RequiredFields, body);
    var f := RequiredFields;
    assert f[0] == "brand" && f[1] == "model" && f[2] == "year" && f[3] == "price";
    assert f[4] == "mileage" && f[5] == "color" && f[6] == "engine_type" && f[7] == "transmission_type";
  }

  const Corolla: Document := map[
    "brand" := Str("Toyota"), "model" := Str("Corolla"), "year" := Int(2020),
    "price" := Int(18000), "mileage" := Int(12000), "color" := Str("blue"),
    "engine_type" := Str("petrol"), "transmission_type" := Str("manual")]

  /** Posting a complete car to a fresh service answers with the car and
      `_id` 1, every submitted field intact, and `/cars/1` returns it. */
  lemma {:induction false} FirstCarGetsIdOne(body: Document)
    requires Collection.HasRequiredData(body, RequiredFields)
    requires IdField !in body
    requires DocEncodable(body[IdField := Int(1)])
    ensures
      var (r, st') := Collection.Create(Collection.Fresh, RequiredFields, body);
      && r.Ok?
      && r.value[IdField] == Int(1)
      && (forall k :: k in body ==> k in r.value && r.value[k] == body[k])
      && Collection.Find(st', "1") == r
  {
    Collection.CreateStores(Collection.Fresh, RequiredFields, body);
    assert IntToString(1) == "1";
  }

  /** A complete concrete car posted to a fresh service gets `_id` 1. */
  lemma CorollaGetsIdOne()
    ensures
      var (r, st') := Collection.Create(Collection.Fresh, RequiredFields, Corolla);
      && r.Ok?
      && r.value[IdField] == Int(1)
      && (forall k :: k in Corolla ==> k in r.value && r.value[k] == Corolla[k])
      && Collection.Find(st', "1") == r
  {
    CorollaIsComplete();
    CorollaWithIdEncodable();
    FirstCarGetsIdOne(Corolla);
  }

  lemma CorollaIsComplete()
    ensures Collection.HasRequiredData(Corolla, RequiredFields)
    ensures IdField !in Corolla
    ensures DocEncodable(Corolla)
  {
    CorollaHasRequired();
    CorollaHasNoId();
    CorollaEncodable();
  }

  lemma CorollaHasRequired()
    ensures Collection.HasRequiredData(Corolla, RequiredFields)
  {
    var f := RequiredFields;
    assert f[0] in Corolla && f[1] in Corolla && f[2] in Corolla && f[3] in Corolla;
    assert f[4] in Corolla && f[5] in Corolla && f[6] in Corolla && f[7] in Corolla;
  }

  lemma CorollaHasNoId()
    ensures IdField !in Corolla
  {
  }

  lemma CorollaWithIdEncodable()
    ensures DocEncodable(Corolla[IdField := Int(1)])
  {
    CorollaEncodable();
    Collection.NewDocumentEncodable(Corolla, 1);
  }

  lemma CorollaEncodable()
    ensures DocEncodable(Corolla)
  {
    forall k | k in Corolla
      ensures Encodable(Corolla[k])
    {
      var v := Corolla[k];
      assert v.Str? || v in {Int(2020), Int(18000), Int(12000)};
    }
  }

  /** `GET /cars?year=2020` lists exactly the cars whose `year` is the
      integer 2020, or NotFound when there is none. */
  lemma {:induction false} YearQueryMatchesInteger(st: Collection.State)
    ensures
      var r := Collection.List(st, [("year", "2020")]);
      && r != Fault
      && (r == NotFound <==> forall id :: id in st.docs ==> !("year" in st.docs[id] && st.docs[id]["year"] == Int(2020)))
      && (r.Ok? ==> forall id :: id in r.value <==> id in st.docs && "year" in st.docs[id] && st.docs[id]["year"] == Int(2020))
  {
    var params := [("year", "2020")];
    assert IntToString(2020) == "2020";
    ParseIntToString(2020);
    IntegerParameterSelectsInt(st.docs, "year", "2020", 2020);
    Collection.ListIsExact(st, params);
  }

  /** `PUT /cars/<id>` with a new price changes the price and nothing else. */
  lemma {:induction false} PriceUpdateKeepsOtherFields(st: Collection.State, idText: string)
    requires Collection.Find(st, idText).Ok?
    ensures
      var before := Collection.Find(st, idText).value;
      var (r, st') := Collection.Update(st, idText, map["price" := Int(15000)]);
      && r == Ok(before["price" := Int(15000)])
      && Collection.Find(st', idText) == r
  {
    var body := map["price" := Int(15000)];
    var before := Collection.Find(st, idText).value;
    Collection.UpdateMerges(st, idText, body);
    var r := Collection.Update(st, idText, body).0;
    forall k
      ensures k in r.value <==> k in before["price" := Int(15000)]
    {
    }
    assert r.value == before["price" := Int(15000)];
  }
}
