/** The filter of a listing request: query-string values are coerced to
    integers where they read as one, and a document matches when it holds
    every (field, value) pair of the filter. */
module Query {
  import opened Documents
  import opened IntLiteral

  /** One query-string value: an `int` if `int()` accepts it, else the
      string as given. */
  function Coerce(v: string): (r: Value)
    ensures r.Int? <==> IsIntLiteral(v)
    ensures r.Int? ==> ParseInt(v) == Some(r.i)
    ensures !r.Int? ==> r == Str(v)
  {
    match ParseInt(v)
    case Some(n) => Int(n)
    case None => Str(v)
  }

  /** The query parameters as the handler iterates them: the items of the
      dictionary made from the query string, in order. */
  type Params = seq<(string, string)>

  /** The item at `i` is the last one with its name. */
  predicate LastOfName(params: Params, i: int)
    requires 0 <= i < |params|
  {
    forall j :: i < j < |params| ==> params[j].0 != params[i].0
  }

  /** The filter built from the parameters: one entry per parameter name,
      holding the coerced value of the last item with that name (the only
      one, since dictionary keys are distinct). */
  function CoerceQuery(params: Params): Document
    decreases |params|
  {
    if params == [] then map[]
    else
      var last := params[|params| - 1];
      CoerceQuery(params[..|params| - 1])[last.0 := Coerce(last.1)]
  }

  /** Every parameter name gets an entry in the filter. */
  lemma {:induction false} CoerceQueryHasNames(params: Params)
    ensures forall i :: 0 <= i < |params| ==> params[i].0 in CoerceQuery(params)
    decreases |params|
  {
    if params != [] {
      var n := |params| - 1;
      var init := params[..n];
      CoerceQueryHasNames(init);
      forall i | 0 <= i < n
        ensures params[i].0 in CoerceQuery(params)
      {
        assert params[i] == init[i];
      }
    }
  }

  /** The filter has no entry other than the parameter names. */
  lemma {:induction false} CoerceQueryOnlyNames(params: Params, k: string)
    requires k in CoerceQuery(params)
    ensures exists i :: 0 <= i < |params| && params[i].0 == k
    decreases |params|
  {
    var n := |params| - 1;
    var init := params[..n];
    if k != params[n].0 {
      CoerceQueryOnlyNames(init, k);
      var j :| 0 <= j < |init| && init[j].0 == k;
      assert params[j].0 == k;
    } else {
      assert params[n].0 == k;
    }
  }

  /** The entry of a name is the coerced value of its last item. */
  lemma {:induction false} CoerceQueryValue(params: Params, i: int)
    requires 0 <= i < |params| && LastOfName(params, i)
    ensures params[i].0 in CoerceQuery(params)
    ensures CoerceQuery(params)[params[i].0] == Coerce(params[i].1)
    decreases |params|
  {
    var n := |params| - 1;
    var init := params[..n];
    if i < n {
      assert params[i] == init[i];
      assert params[n].0 != params[i].0;
      assert LastOfName(init, i);
      CoerceQueryValue(init, i);
    }
  }

  /** The loop of the listing handler that fills the filter one parameter at
      a time. */
  method BuildQuery(params: Params) returns (query: Document)
    ensures query == CoerceQuery(params)
  {
    query := map[];
    for i := 0 to |params|
      invariant query == CoerceQuery(params[..i])
    {
      assert params[..i + 1][..i] == params[..i];
      var (key, value) := params[i];
      query := query[key := Coerce(value)];
    }
    assert params[..|params|] == params;
  }

  /** Exact match on every key of the filter. */
  predicate Matches(doc: Document, filter: Document) {
    forall k :: k in filter ==> k in doc && doc[k] == filter[k]
  }

  /** The documents of a collection, keyed by identifier, that match the
      filter. */
  function Select(docs: map<int, Document>, filter: Document): (r: map<int, Document>)
    ensures forall id :: id in r <==> id in docs && Matches(docs[id], filter)
    ensures forall id :: id in r ==> r[id] == docs[id]
    ensures filter == map[] ==> r == docs
  {
    map id | id in docs && Matches(docs[id], filter) :: docs[id]
  }

  /** A parameter that reads as an integer becomes that integer, so
      `year=2020` selects exactly the documents whose `year` is the integer
      2020. */
  lemma {:induction false} IntegerParameterSelectsInt(docs: map<int, Document>, key: string, text: string, n: int)
    requires ParseInt(text) == Some(n)
    ensures forall id :: id in Select(docs, CoerceQuery([(key, text)])) <==>
                         id in docs && key in docs[id] && docs[id][key] == Int(n)
  {
    var q := CoerceQuery([(key, text)]);
    assert q == map[key := Int(n)] by {
      assert [(key, text)][..0] == [];
    }
  }

  /** A consequence of the coercion: a stored string that reads as an
      integer (say `"2020"`) can never be selected through a query
      parameter. */
  lemma {:induction false} IntegerLookingStringUnmatchable(doc: Document, params: Params, i: int)
    requires 0 <= i < |params| && LastOfName(params, i) && IsIntLiteral(params[i].1)
    requires params[i].0 in doc && doc[params[i].0] == Str(params[i].1)
    ensures !Matches(doc, CoerceQuery(params))
  {
    CoerceQueryValue(params, i);
  }
}
