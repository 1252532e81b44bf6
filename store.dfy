/** The collection and its counter as the services hold them: state that
    the handlers update in place.  Each method performs one handler and is
    proved to make the transition the Collection module describes. */
module Store {
  import opened Documents
  import opened IntLiteral
  import opened Query
  import Collection

  class EntityStore {
    /** The fields a create request must carry. */
    const required: seq<string>
    /** The `seq` of the counter document (0 while it does not exist). */
    var counter: nat
    /** The collection, keyed by `_id`. */
    var docs: map<int, Document>

    function Snapshot(): Collection.State
      reads this
    {
      Collection.State(counter, docs)
    }

    ghost predicate Valid()
      reads this
    {
      Collection.Inv(Snapshot())
    }

    constructor (required: seq<string>)
      ensures this.required == required
      ensures Snapshot() == Collection.Fresh && Valid()
    {
      this.required := required;
      counter := 0;
      docs := map[];
    }

    /** Increment the counter and return its new value. */
    method GenerateId() returns (id: nat)
      requires Valid()
      modifies this
      ensures (id, Snapshot()) == Collection.Allocate(old(Snapshot()))
      ensures id == old(counter) + 1 && id !in docs && docs == old(docs)
      ensures Valid()
    {
      counter := counter + 1;
      id := counter;
    }

    /** The listing handler: build the filter, select, refuse an empty
        answer; a filter the driver cannot encode is an uncaught error. */
    method List(params: Params) returns (r: Result<map<int, Document>>)
      ensures r == Collection.List(Snapshot(), params)
      ensures r.Ok? ==> r.value != map[] && forall id :: id in r.value ==> id in docs && r.value[id] == docs[id]
    {
      var query := BuildQuery(params);
      if !DocEncodable(query) {
        return Fault;
      }
      var found := Select(docs, query);
      if found == map[] {
        r := NotFound;
      } else {
        r := Ok(found);
      }
    }

    /** The create handler. */
    method Add(body: Document) returns (r: Result<Document>)
      requires Valid()
      modifies this
      ensures (r, Snapshot()) == Collection.Create(old(Snapshot()), required, body)
      ensures r == MissingData ==> counter == old(counter) && docs == old(docs)
      ensures r == Fault ==> counter == old(counter) + 1 && docs == old(docs)
      ensures r.Ok? ==> Collection.Find(Snapshot(), IntToString(counter)) == r
      ensures Valid()
    {
      if !Collection.HasRequiredData(body, required) {
        return MissingData;
      }
      ghost var before := Snapshot();
      var id := GenerateId();
      var doc := body[IdField := Int(id)];
      if !DocEncodable(doc) {
        return Fault;
      }
      Collection.CreateStores(before, required, body);
      docs := docs[id := doc];
      r := Ok(doc);
    }

    /** The update handler: look up, `$set`, read back. */
    method Update(idText: string, body: Document) returns (r: Result<Document>)
      requires Valid()
      modifies this
      ensures (r, Snapshot()) == Collection.Update(old(Snapshot()), idText, body)
      ensures !r.Ok? ==> counter == old(counter) && docs == old(docs)
      ensures r.Ok? ==> Collection.Find(Snapshot(), idText) == r
      ensures Valid()
    {
      var found := Collection.Find(Snapshot(), idText);
      if !found.Ok? {
        return found;
      }
      var id := ParseInt(idText).value;
      if !DocEncodable(body) || (IdField in body && body[IdField] != Int(id)) {
        return Fault;
      }
      Collection.UpdateMerges(Snapshot(), idText, body);
      docs := docs[id := docs[id] + body];
      r := Ok(docs[id]);
    }

    /** The delete handler: look up, remove, answer with the lookup. */
    method Delete(idText: string) returns (r: Result<Document>)
      requires Valid()
      modifies this
      ensures (r, Snapshot()) == Collection.Delete(old(Snapshot()), idText)
      ensures r == Collection.Find(old(Snapshot()), idText)
      ensures r.Ok? ==> Collection.Find(Snapshot(), idText) == NotFound
      ensures Valid()
    {
      Collection.DeleteReturnsSnapshot(Snapshot(), idText);
      r := Collection.Find(Snapshot(), idText);
      if r.Ok? {
        docs := docs - {ParseInt(idText).value};
      }
    }
  }
}
