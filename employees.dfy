/** The employee service: the generic store with the employee record's
    required fields. */
module Employees {
  import opened Documents
  import Collection
  import Store

  const RequiredFields: seq<string> := ["name", "position", "salary", "hire_date", "address"]

  /** The service as it starts: an empty `employees` collection and no
      counter document. */
  method Open() returns (s: Store.EntityStore)
    ensures fresh(s) && s.Valid()
    ensures s.required == RequiredFields && s.Snapshot() == Collection.Fresh
  {
    s := new Store.EntityStore(RequiredFields);
  }

  /** An employee is refused exactly when the body is empty or one of the
      five fields is absent, and the refusal changes nothing. */
  lemma {:induction false} AddEmployeeRequiresFields(st: Collection.State, body: Document)
    ensures
      var (r, st') := Collection.Create(st, RequiredFields, body);
      && (r == MissingData <==>
            body == map[] || "name" !in body || "position" !in body || "salary" !in body
            || "hire_date" !in body || "address" !in body)
      && (r == MissingData ==> st' == st)
  {
    Collection.CreateRejects(st, RequiredFields, body);
    var f := RequiredFields;
    assert f[0] == "name" && f[1] == "position" && f[2] == "salary" && f[3] == "hire_date" && f[4] == "address";
  }

  /** The first employee of a fresh service gets `_id` 1 and can be read
      back at `/employees/1` (unless the driver cannot encode it, which
      `Collection.CreateSpendsIdOnEncodingError` covers). */
  lemma FirstEmployeeGetsIdOne(body: Document)
    requires Collection.HasRequiredData(body, RequiredFields)
    requires DocEncodable(body[IdField := Int(1)])
    ensures
      var (r, st') := Collection.Create(Collection.Fresh, RequiredFields, body);
      && r == Ok(body[IdField := Int(1)])
      && Collection.Find(st', "1") == r
  {
    Collection.CreateStores(Collection.Fresh, RequiredFields, body);
  }

  /** An employee whose body has a field name holding a NUL byte passes the
      field check, but the driver refuses the insert after the identifier is
      allocated: the answer is Fault, the identifier is spent and nothing is
      stored. */
  lemma NulKeyEmployeeSpendsId(st: Collection.State, body: Document, k: string)
    requires Collection.HasRequiredData(body, RequiredFields)
    requires k in body && '\0' in k
    ensures Collection.Create(st, RequiredFields, body) == (Fault, Collection.State(st.counter + 1, st.docs))
  {
    assert k != IdField by {
      assert IdField == ['_', 'i', 'd'];
    }
    Collection.NewDocumentEncodable(body, st.counter + 1);
    Collection.CreateSpendsIdOnEncodingError(st, RequiredFields, body);
  }
}
