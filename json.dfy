/** JSON values (RFC 8259) as the Python `json` module hands them to the layout
    code: objects keep their members in document order. Floating-point numbers
    are not part of the model. */
module Json {
  import opened Results

  datatype Value =
    | Null
    | Bool(b: bool)
    | Int(i: int)
    | Str(s: string)
    | Arr(items: seq<Value>)
    | Obj(members: seq<Member>)

  datatype Member = Member(key: string, value: Value)

  /** Position of the first member named `k`, which is the one a lookup sees. */
  function KeyIndex(ms: seq<Member>, k: string): (r: Option<nat>)
    ensures r.Some? ==> r.value < |ms| && ms[r.value].key == k
    ensures r.Some? ==> forall j :: 0 <= j < r.value ==> ms[j].key != k
    ensures r.None? ==> forall j :: 0 <= j < |ms| ==> ms[j].key != k
  {
    if |ms| == 0 then None
    else if ms[0].key == k then Some(0)
    else match KeyIndex(ms[1..], k)
      case None => None
      case Some(j) => Some(j + 1)
  }

  predicate HasKey(ms: seq<Member>, k: string)
  {
    KeyIndex(ms, k).Some?
  }
}
