/** The REST side of `PowerBiWebClient` (powercicd/powerbi/powerbi_client.py):
    the requests that change the remote workspace, what the read requests
    answer, and the lookup of a group or a report by its name. All requests
    go to one workspace, so the group id is not part of the calls. */
module PowerBiApi {
  import opened Results
  import opened Json
  import opened Records

  /** A request that changes the workspace, or the end of a wait for the
      active refreshes of a dataset. Identifiers are the JSON values read from
      the records the API returned. */
  datatype Call =
    | TakeOver(reportId: Value)
    | Import(reportName: string)
    | UpdateParameters(datasetId: Value, parameters: seq<(string, string)>)
    | BindToGateway(datasetId: Value, gatewayId: Value, datasourceIds: seq<Value>)
    | TriggerRefresh(datasetId: Value)
    | SetSchedule(datasetId: Value)
    | UpdateContent(sourceReportId: Value, targetReportId: Value)
    | Rebind(reportId: Value, datasetId: Value)
    | Clone(reportId: Value, name: string)
    | DeleteReport(reportId: Value)
    | DeleteDataset(datasetId: Value)
    | WaitEnded(datasetId: Value)

  /** The workspace and the clock as the client observes them. Every answer
      depends on the calls made so far. `refreshes(h, d)(n)` is the refresh
      list of the `n`-th poll of one wait; `lag(h, d)(n)` is the time that
      wait spends outside `sleep` before reading the clock for the `n`-th time. */
  datatype Remote = Remote(
    reports: seq<Call> -> seq<Record>,
    datasets: seq<Call> -> seq<Record>,
    gatewayDatasources: seq<Call> -> seq<Record>,
    datasetDatasources: (seq<Call>, Value) -> seq<Record>,
    refreshes: (seq<Call>, Value) -> (nat -> seq<Record>),
    lag: (seq<Call>, Value) -> (nat -> nat))

  /** The calls made up to the end of an operation, and how it ended. Calls
      made before an exception stay in the history. */
  datatype Step<T> = Step(history: seq<Call>, result: Result<T>)

  // ---------------------------------------------------------------------
  // Lookup by name
  // ---------------------------------------------------------------------

  /** Every item has a field `Name`. */
  predicate AllNamed(items: seq<Record>)
  {
    forall i :: 0 <= i < |items| ==> Lookup(items[i], "Name").Some?
  }

  /** `try_get_group_by_name` and `try_get_report_by_name`: the items whose
      `Name` equals `name` exactly; `None` when there is none, the item when
      there is one, `duplicate` (a `ValueError`) when there are more. */
  function TryGetByName(items: seq<Record>, name: string, duplicate: Error): Result<Option<Record>>
  {
    var ms :- Matching(items, "Name", Str(name));
    if |ms| == 0 then Ok(None)
    else if |ms| > 1 then Err(duplicate)
    else Ok(Some(ms[0]))
  }

  /** The lookup finds an item exactly when one item bears the name, finds
      nothing exactly when none does, and fails with `duplicate` exactly when
      two do; an item without a name makes it fail with `KeyError`. */
  lemma TryGetByNameSpec(items: seq<Record>, name: string, duplicate: Error)
    ensures var r := TryGetByName(items, name, duplicate);
      (!AllNamed(items) ==> r == Err(KeyError("Name"))) &&
      (AllNamed(items) ==>
        (r == Ok(None) <==> NoneHas(items, "Name", Str(name))) &&
        (r.Err? <==> TwoHave(items, "Name", Str(name))) &&
        (r.Err? ==> r.error == duplicate) &&
        (r.Ok? && r.value.Some? ==> exists i :: OnlyAt(items, "Name", Str(name), i) && items[i] == r.value.value))
  {
    var m := Matching(items, "Name", Str(name));
    if m.Ok? {
      MatchingEmpty(items, "Name", Str(name));
      MatchingMany(items, "Name", Str(name));
      if |m.value| == 1 {
        MatchingOne(items, "Name", Str(name));
      }
    }
  }

  /** `get_group_by_name` and `get_report_by_name`: a lookup that finds
      nothing fails with `missing` (a `ValueError`). */
  function GetByName(items: seq<Record>, name: string, duplicate: Error, missing: Error): (r: Result<Record>)
    ensures r.Ok? <==> TryGetByName(items, name, duplicate).Ok? && TryGetByName(items, name, duplicate).value.Some?
    ensures r.Ok? ==> Has(r.value, "Name", Str(name)) && r.value in items
    ensures TryGetByName(items, name, duplicate) == Ok(None) ==> r == Err(missing)
  {
    var found :- TryGetByName(items, name, duplicate);
    if found.None? then Err(missing)
    else
      TryGetByNameSpec(items, name, duplicate);
      Ok(found.value)
  }

  /** The messages of the group and report lookups. */
  function DuplicateGroup(name: string): Error
  {
    ValueError("Multiple groups with the same name '" + name + "' found... You must delete the duplicates.")
  }

  function MissingGroup(name: string): Error
  {
    ValueError("Group '" + name + "' not found")
  }

  function DuplicateReport(name: string, groupId: string): Error
  {
    ValueError("Multiple reports with the same name '" + name + "' found in group '" + groupId + "'... You must delete the duplicates.")
  }

  function MissingReport(name: string, groupId: string): Error
  {
    ValueError("Report '" + name + "' not found in group '" + groupId + "'")
  }

  lemma LookupOfPair(k1: string, v1: Value, k2: string, v2: Value, key: string)
    requires k1 != k2
    ensures Lookup([Member(k1, v1), Member(k2, v2)], key) ==
      if key == k1 then Some(v1) else if key == k2 then Some(v2) else None
  {
    var r := [Member(k1, v1), Member(k2, v2)];
    assert r[1..] == [Member(k2, v2)];
    assert r[1..][1..] == [];
    if key == k1 {
      assert KeyIndex(r, key) == Some(0);
    } else if key == k2 {
      assert KeyIndex(r[1..], key) == Some(0);
      assert KeyIndex(r, key) == Some(1);
    } else {
      assert KeyIndex(r[1..][1..], key) == None;
      assert KeyIndex(r[1..], key) == None;
    }
  }

  lemma ExampleNames(a: Record, b: Record, c: Record)
    requires a == [Member("Id", Int(1)), Member("Name", Str("sales"))]
    requires b == [Member("Id", Int(2)), Member("Name", Str("sales"))]
    requires c == [Member("Id", Int(3)), Member("Name", Str("hr"))]
    ensures Lookup(a, "Name") == Some(Str("sales")) && Lookup(b, "Name") == Some(Str("sales"))
    ensures Lookup(c, "Name") == Some(Str("hr"))
  {
    assert "Id"[0] != "Name"[0];
    LookupOfPair("Id", Int(1), "Name", Str("sales"), "Name");
    LookupOfPair("Id", Int(2), "Name", Str("sales"), "Name");
    LookupOfPair("Id", Int(3), "Name", Str("hr"), "Name");
  }

  /** A group list with two groups of the same name makes the lookup fail. */
  lemma LookupExample(a: Record, b: Record, c: Record)
    requires a == [Member("Id", Int(1)), Member("Name", Str("sales"))]
    requires b == [Member("Id", Int(2)), Member("Name", Str("sales"))]
    requires c == [Member("Id", Int(3)), Member("Name", Str("hr"))]
    ensures TryGetByName([a, b, c], "sales", DuplicateGroup("sales")) == Err(DuplicateGroup("sales"))
  {
    ExampleNames(a, b, c);
    var items := [a, b, c];
    assert AllNamed(items);
    assert items[0] == a && items[1] == b;
    assert TwoHave(items, "Name", Str("sales"));
    TryGetByNameSpec(items, "sales", DuplicateGroup("sales"));
  }

  /** Where the name is unique, the lookup gives that group; the comparison
      is case-sensitive. */
  lemma LookupUniqueExample(a: Record, b: Record, c: Record)
    requires a == [Member("Id", Int(1)), Member("Name", Str("sales"))]
    requires b == [Member("Id", Int(2)), Member("Name", Str("sales"))]
    requires c == [Member("Id", Int(3)), Member("Name", Str("hr"))]
    ensures TryGetByName([a, c], "sales", DuplicateGroup("sales")) == Ok(Some(a))
    ensures TryGetByName([a, c], "SALES", DuplicateGroup("SALES")) == Ok(None)
  {
    ExampleNames(a, b, c);
    var items := [a, c];
    assert Str("hr") != Str("sales") && Str("sales") != Str("SALES") && Str("hr") != Str("SALES") by {
      assert "hr"[0] != "sales"[0] && "sales"[0] != "SALES"[0] && "hr"[0] != "SALES"[0];
    }
    assert AllNamed(items);
    assert items[0] == a;
    assert OnlyAt(items, "Name", Str("sales"), 0);
    assert !TwoHave(items, "Name", Str("sales"));
    TryGetByNameSpec(items, "sales", DuplicateGroup("sales"));
    assert NoneHas(items, "Name", Str("SALES"));
    TryGetByNameSpec(items, "SALES", DuplicateGroup("SALES"));
  }
}
