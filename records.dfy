/** The dictionaries the Power BI REST API hands back (groups, reports,
    datasets, datasources, refreshes): JSON objects whose fields the client
    reads with `record["Field"]`. */
module Records {
  import opened Results
  import opened Json

  type Record = seq<Member>

  /** `key in record and record[key]`: the value a dictionary lookup sees. */
  function Lookup(r: Record, key: string): (v: Option<Value>)
    ensures v.Some? <==> exists i :: 0 <= i < |r| && r[i].key == key
    ensures v.Some? ==> Member(key, v.value) in r
  {
    match KeyIndex(r, key)
    case None => None
    case Some(i) => Some(r[i].value)
  }

  /** `record[key]`, which raises `KeyError` for a missing field. */
  function Field(r: Record, key: string): (v: Result<Value>)
    ensures v.Ok? <==> Lookup(r, key).Some?
    ensures v.Ok? ==> Lookup(r, key) == Some(v.value)
    ensures v.Err? ==> v.error == KeyError(key)
  {
    match Lookup(r, key)
    case None => Err(KeyError(key))
    case Some(x) => Ok(x)
  }

  function Keys(r: Record): (ks: seq<string>)
    ensures |ks| == |r| && forall i :: 0 <= i < |r| ==> ks[i] == r[i].key
  {
    if r == [] then [] else [r[0].key] + Keys(r[1..])
  }

  /** No field name occurs twice, as in any Python dictionary. */
  predicate DistinctKeys(r: Record)
  {
    forall i, j :: 0 <= i < j < |r| ==> r[i].key != r[j].key
  }

  /** Without repeated names, a lookup finds exactly the member of that name. */
  lemma LookupDistinct(r: Record, key: string, v: Value)
    requires DistinctKeys(r)
    ensures Lookup(r, key) == Some(v) <==> Member(key, v) in r
  {
    if Member(key, v) in r {
      var i :| 0 <= i < |r| && r[i] == Member(key, v);
      var j := KeyIndex(r, key).value;
      assert j == i;
    }
  }

  /** `[x for x in items if x[field] == value]`: raises `KeyError` at the first
      item that lacks the field, and otherwise keeps, in order, the items whose
      field equals `value`. */
  function Matching(items: seq<Record>, field: string, value: Value): (r: Result<seq<Record>>)
    ensures r.Ok? <==> forall i :: 0 <= i < |items| ==> Lookup(items[i], field).Some?
    ensures r.Err? ==> r.error == KeyError(field)
    ensures r.Ok? ==> forall x :: x in r.value <==> x in items && Lookup(x, field) == Some(value)
    ensures r.Ok? ==> |r.value| <= |items|
  {
    if items == [] then Ok([])
    else
      var x := items[0];
      var v :- Field(x, field);
      var rest :- Matching(items[1..], field, value);
      assert items == [x] + items[1..];
      Ok(if v == value then [x] + rest else rest)
  }

  /** The item's field `field` holds `value`. */
  predicate Has(x: Record, field: string, value: Value)
  {
    Lookup(x, field) == Some(value)
  }

  predicate NoneHas(items: seq<Record>, field: string, value: Value)
  {
    forall i :: 0 <= i < |items| ==> !Has(items[i], field, value)
  }

  /** The item at `i` is the only one whose field holds `value`. */
  predicate OnlyAt(items: seq<Record>, field: string, value: Value, i: int)
  {
    0 <= i < |items| && Has(items[i], field, value) &&
    forall j :: 0 <= j < |items| && j != i ==> !Has(items[j], field, value)
  }

  predicate TwoHave(items: seq<Record>, field: string, value: Value)
  {
    exists i, j :: 0 <= i < j < |items| && Has(items[i], field, value) && Has(items[j], field, value)
  }

  /** The filtered list is empty exactly when no item matches. */
  lemma {:induction false} MatchingEmpty(items: seq<Record>, field: string, value: Value)
    requires Matching(items, field, value).Ok?
    ensures |Matching(items, field, value).value| == 0 <==> NoneHas(items, field, value)
    decreases |items|
  {
    if items != [] {
      var rest := items[1..];
      MatchingEmpty(rest, field, value);
      assert forall j :: 1 <= j < |items| ==> items[j] == rest[j - 1];
    }
  }

  /** One step of the filter: the first item is kept exactly when it matches. */
  lemma MatchingStep(items: seq<Record>, field: string, value: Value)
    requires items != [] && Matching(items, field, value).Ok?
    ensures Matching(items[1..], field, value).Ok?
    ensures Matching(items, field, value).value ==
      (if Has(items[0], field, value) then [items[0]] else []) + Matching(items[1..], field, value).value
  {
  }

  /** The filtered list has two elements or more exactly when two items match. */
  lemma {:induction false} MatchingMany(items: seq<Record>, field: string, value: Value)
    requires Matching(items, field, value).Ok?
    ensures |Matching(items, field, value).value| >= 2 <==> TwoHave(items, field, value)
    decreases |items|
  {
    if items != [] {
      var rest := items[1..];
      MatchingStep(items, field, value);
      MatchingMany(rest, field, value);
      MatchingEmpty(rest, field, value);
      TwoHaveCons(items, field, value);
    }
  }

  /** Two items of a non-empty list match exactly when two of its tail do, or
      its head and one of its tail do. */
  lemma TwoHaveCons(items: seq<Record>, field: string, value: Value)
    requires items != []
    ensures TwoHave(items, field, value) <==>
      TwoHave(items[1..], field, value) || (Has(items[0], field, value) && !NoneHas(items[1..], field, value))
  {
    if TwoHave(items, field, value) {
      TwoHaveSplit(items, field, value);
    }
    if TwoHave(items[1..], field, value) {
      TwoHaveFromTail(items, field, value);
    }
    if Has(items[0], field, value) && !NoneHas(items[1..], field, value) {
      TwoHaveFromHead(items, field, value);
    }
  }

  lemma TwoHaveSplit(items: seq<Record>, field: string, value: Value)
    requires items != [] && TwoHave(items, field, value)
    ensures TwoHave(items[1..], field, value) || (Has(items[0], field, value) && !NoneHas(items[1..], field, value))
  {
    var rest := items[1..];
    var i, j :| 0 <= i < j < |items| && Has(items[i], field, value) && Has(items[j], field, value);
    assert items[j] == rest[j - 1];
    if i > 0 {
      assert items[i] == rest[i - 1];
      assert TwoHave(rest, field, value);
    } else {
      assert !NoneHas(rest, field, value);
    }
  }

  lemma TwoHaveFromTail(items: seq<Record>, field: string, value: Value)
    requires items != [] && TwoHave(items[1..], field, value)
    ensures TwoHave(items, field, value)
  {
    var rest := items[1..];
    var i, j :| 0 <= i < j < |rest| && Has(rest[i], field, value) && Has(rest[j], field, value);
    assert Has(items[i + 1], field, value) && Has(items[j + 1], field, value);
  }

  lemma TwoHaveFromHead(items: seq<Record>, field: string, value: Value)
    requires items != [] && Has(items[0], field, value) && !NoneHas(items[1..], field, value)
    ensures TwoHave(items, field, value)
  {
    var rest := items[1..];
    var j :| 0 <= j < |rest| && Has(rest[j], field, value);
    assert Has(items[0], field, value) && Has(items[j + 1], field, value);
  }

  /** A filtered list of one element holds the only matching item. */
  lemma {:induction false} MatchingOne(items: seq<Record>, field: string, value: Value)
    requires Matching(items, field, value).Ok?
    requires |Matching(items, field, value).value| == 1
    ensures exists i :: OnlyAt(items, field, value, i) && items[i] == Matching(items, field, value).value[0]
    decreases |items|
  {
    var x, rest := items[0], items[1..];
    var ms' := Matching(rest, field, value).value;
    assert forall j :: 1 <= j < |items| ==> items[j] == rest[j - 1];
    if Has(x, field, value) {
      MatchingEmpty(rest, field, value);
      assert OnlyAt(items, field, value, 0);
    } else {
      MatchingOne(rest, field, value);
      var i :| OnlyAt(rest, field, value, i) && rest[i] == ms'[0];
      assert OnlyAt(items, field, value, i + 1);
    }
  }
}
