/** `cleanup_reports` (powercicd/powerbi/powerbi_client.py): delete the reports
    whose name the cleanup pattern matches at its start and that are not
    excluded, then delete the datasets that no remaining report uses. The
    compiled pattern is the predicate `matches`. A failed deletion request is
    logged and the loop goes on, so every attempt is a call in the history; an
    exception raised outside the `try` blocks ends the cleanup. */
module Cleanup {
  import opened Results
  import opened Json
  import opened Records
  import opened PowerBiApi

  // ---------------------------------------------------------------------
  // The report sweep
  // ---------------------------------------------------------------------

  /** `r["Name"]` as `re.match` needs it: a missing name raises `KeyError`,
      a name that is not a string raises `TypeError`. */
  function NameText(x: Record): (r: Result<string>)
    ensures r.Ok? <==> Lookup(x, "Name").Some? && Lookup(x, "Name").value.Str?
    ensures r.Ok? ==> Has(x, "Name", Str(r.value))
  {
    var v :- Field(x, "Name");
    if v.Str? then Ok(v.s) else Err(TypeError("expected string or bytes-like object"))
  }

  /** The report is one the sweep deletes: its name matches and is not excluded. */
  predicate Deletable(x: Record, matches: string -> bool, exclude: set<string>)
  {
    NameText(x).Ok? && matches(NameText(x).value) && NameText(x).value !in exclude
  }

  /** `reports_to_delete`, in the order of the report list. */
  function ReportsToDelete(reports: seq<Record>, matches: string -> bool, exclude: set<string>): (r: Result<seq<Record>>)
    ensures r.Ok? <==> forall i :: 0 <= i < |reports| ==> NameText(reports[i]).Ok?
    ensures r.Ok? ==> forall x :: x in r.value <==> x in reports && Deletable(x, matches, exclude)
    ensures r.Err? ==> r.error == KeyError("Name") || r.error == TypeError("expected string or bytes-like object")
  {
    if reports == [] then Ok([])
    else
      var x := reports[0];
      var name :- NameText(x);
      var rest :- ReportsToDelete(reports[1..], matches, exclude);
      assert reports == [x] + reports[1..];
      Ok(if matches(name) && name !in exclude then [x] + rest else rest)
  }

  /** The history extends `h` by one deletion per item of `items[..k]`, made
      with the item's `Id`, in order. */
  predicate ReportsDeletedInOrder(h: seq<Call>, hist: seq<Call>, items: seq<Record>, k: int)
  {
    0 <= k <= |items| && |hist| == |h| + k && hist[..|h|] == h &&
    forall i :: 0 <= i < k ==>
      Lookup(items[i], "Id").Some? && hist[|h| + i] == DeleteReport(Lookup(items[i], "Id").value)
  }

  /** The same for dataset deletions. */
  predicate DatasetsDeletedInOrder(h: seq<Call>, hist: seq<Call>, items: seq<Record>, k: int)
  {
    0 <= k <= |items| && |hist| == |h| + k && hist[..|h|] == h &&
    forall i :: 0 <= i < k ==>
      Lookup(items[i], "Id").Some? && hist[|h| + i] == DeleteDataset(Lookup(items[i], "Id").value)
  }

  /** One pass of the loop over `reports_to_delete`: `report["Id"]` is read
      outside the `try`, so a report without an `Id` ends the cleanup with
      `KeyError`. */
  function ReportPass(s: Step<()>, x: Record): Step<()>
  {
    if s.result.Err? then s
    else match Field(x, "Id")
      case Err(e) => Step(s.history, Err(e))
      case Ok(id) => Step(s.history + [DeleteReport(id)], Ok(()))
  }

  /** The loop over `reports_to_delete`. */
  function DeleteReports(h: seq<Call>, rs: seq<Record>): Step<()>
    decreases |rs|
  {
    if rs == [] then Step(h, Ok(())) else ReportPass(DeleteReports(h, rs[..|rs| - 1]), rs[|rs| - 1])
  }

  /** One deletion per report, in order, until the first report without an `Id`. */
  lemma {:induction false} DeleteReportsSpec(h: seq<Call>, rs: seq<Record>)
    ensures var s := DeleteReports(h, rs);
      (s.result.Ok? <==> forall i :: 0 <= i < |rs| ==> Lookup(rs[i], "Id").Some?) &&
      (s.result.Ok? ==> ReportsDeletedInOrder(h, s.history, rs, |rs|)) &&
      (s.result.Err? ==> (s.result.error == KeyError("Id") &&
        exists k :: 0 <= k < |rs| && Lookup(rs[k], "Id").None? && ReportsDeletedInOrder(h, s.history, rs, k)))
    decreases |rs|
  {
    if rs != [] {
      var init := rs[..|rs| - 1];
      var s := DeleteReports(h, init);
      DeleteReportsSpec(h, init);
      assert forall i :: 0 <= i < |init| ==> rs[i] == init[i];
      if s.result.Err? {
        var k :| 0 <= k < |init| && Lookup(init[k], "Id").None? && ReportsDeletedInOrder(h, s.history, init, k);
        assert ReportsDeletedInOrder(h, s.history, rs, k);
      } else if Lookup(rs[|rs| - 1], "Id").None? {
        assert ReportsDeletedInOrder(h, s.history, rs, |rs| - 1);
      } else {
        var hist := s.history + [DeleteReport(Lookup(rs[|rs| - 1], "Id").value)];
        assert hist[..|h|] == s.history[..|h|];
        assert ReportsDeletedInOrder(h, hist, rs, |rs|);
      }
    }
  }

  /** Once a pass has failed, the rest of the loop changes nothing. */
  lemma {:induction false} DeleteReportsStuck(h: seq<Call>, rs: seq<Record>, k: nat)
    requires k <= |rs| && DeleteReports(h, rs[..k]).result.Err?
    ensures DeleteReports(h, rs) == DeleteReports(h, rs[..k])
    decreases |rs|
  {
    if k < |rs| {
      assert rs[..|rs| - 1][..k] == rs[..k];
      DeleteReportsStuck(h, rs[..|rs| - 1], k);
    } else {
      assert rs[..k] == rs;
    }
  }

  // ---------------------------------------------------------------------
  // The dataset sweep
  // ---------------------------------------------------------------------

  /** A list or an object cannot be put in a set. */
  predicate Hashable(v: Value)
  {
    !v.Arr? && !v.Obj?
  }

  /** `set(r["DatasetId"] for r in reports)`, as a list. */
  function ReferencedDatasetIds(reports: seq<Record>): (r: Result<seq<Value>>)
    ensures r.Ok? <==> forall i :: 0 <= i < |reports| ==>
      Lookup(reports[i], "DatasetId").Some? && Hashable(Lookup(reports[i], "DatasetId").value)
    ensures r.Ok? ==> forall v :: v in r.value <==> exists i :: 0 <= i < |reports| && Has(reports[i], "DatasetId", v)
  {
    if reports == [] then Ok([])
    else
      var v :- Field(reports[0], "DatasetId");
      if !Hashable(v) then Err(TypeError("unhashable type"))
      else
        var rest :- ReferencedDatasetIds(reports[1..]);
        assert forall i :: 1 <= i < |reports| ==> reports[i] == reports[1..][i - 1];
        Ok([v] + rest)
  }

  /** `[d for d in datasets if d["Id"] not in reports_dataset_ids]` */
  function DatasetsToDelete(datasets: seq<Record>, ids: seq<Value>): (r: Result<seq<Record>>)
    ensures r.Ok? <==> forall i :: 0 <= i < |datasets| ==>
      Lookup(datasets[i], "Id").Some? && Hashable(Lookup(datasets[i], "Id").value)
    ensures r.Ok? ==> forall x :: x in r.value <==> x in datasets && Lookup(x, "Id").value !in ids
  {
    if datasets == [] then Ok([])
    else
      var x := datasets[0];
      var id :- Field(x, "Id");
      if !Hashable(id) then Err(TypeError("unhashable type"))
      else
        var rest :- DatasetsToDelete(datasets[1..], ids);
        assert datasets == [x] + datasets[1..];
        Ok(if id !in ids then [x] + rest else rest)
  }

  /** One pass of the loop over `datasets_to_delete`: the log line inside the
      `try` reads `dataset["Name"]`, and the handler reads it again, so a
      dataset without a name ends the cleanup with `KeyError` before its
      deletion. */
  function DatasetPass(s: Step<()>, x: Record): Step<()>
  {
    if s.result.Err? then s
    else match Field(x, "Id")
      case Err(e) => Step(s.history, Err(e))
      case Ok(id) =>
        match Field(x, "Name")
        case Err(e) => Step(s.history, Err(e))
        case Ok(_) => Step(s.history + [DeleteDataset(id)], Ok(()))
  }

  /** The loop over `datasets_to_delete`. */
  function DeleteDatasets(h: seq<Call>, ds: seq<Record>): Step<()>
    decreases |ds|
  {
    if ds == [] then Step(h, Ok(())) else DatasetPass(DeleteDatasets(h, ds[..|ds| - 1]), ds[|ds| - 1])
  }

  lemma {:induction false} DeleteDatasetsStuck(h: seq<Call>, ds: seq<Record>, k: nat)
    requires k <= |ds| && DeleteDatasets(h, ds[..k]).result.Err?
    ensures DeleteDatasets(h, ds) == DeleteDatasets(h, ds[..k])
    decreases |ds|
  {
    if k < |ds| {
      assert ds[..|ds| - 1][..k] == ds[..k];
      DeleteDatasetsStuck(h, ds[..|ds| - 1], k);
    } else {
      assert ds[..k] == ds;
    }
  }

  predicate IdAndName(x: Record)
  {
    Lookup(x, "Id").Some? && Lookup(x, "Name").Some?
  }

  /** After the loop over `ds`: it ended normally exactly when every dataset
      has an `Id` and a `Name`, having deleted them all in order; otherwise it
      deleted those before the first one that lacks either. */
  predicate DatasetLoopEnded(h: seq<Call>, ds: seq<Record>, s: Step<()>)
  {
    (s.result.Ok? <==> forall i :: 0 <= i < |ds| ==> IdAndName(ds[i])) &&
    (s.result.Ok? ==> DatasetsDeletedInOrder(h, s.history, ds, |ds|)) &&
    (s.result.Err? ==> ((s.result.error == KeyError("Id") || s.result.error == KeyError("Name")) &&
      exists k :: 0 <= k < |ds| && !IdAndName(ds[k]) && DatasetsDeletedInOrder(h, s.history, ds, k)))
  }

  lemma DatasetPassExtends(h: seq<Call>, ds: seq<Record>, s: Step<()>)
    requires ds != [] && DatasetLoopEnded(h, ds[..|ds| - 1], s)
    ensures DatasetLoopEnded(h, ds, DatasetPass(s, ds[|ds| - 1]))
  {
    var x := ds[|ds| - 1];
    if s.result.Err? {
      DatasetPassAfterFailure(h, ds, s);
    } else if !IdAndName(x) {
      DatasetPassFails(h, ds, s);
    } else {
      DatasetPassDeletes(h, ds, s);
    }
  }

  lemma DatasetPassAfterFailure(h: seq<Call>, ds: seq<Record>, s: Step<()>)
    requires ds != [] && DatasetLoopEnded(h, ds[..|ds| - 1], s) && s.result.Err?
    ensures DatasetLoopEnded(h, ds, s)
  {
    var init := ds[..|ds| - 1];
    var k :| 0 <= k < |init| && !IdAndName(init[k]) && DatasetsDeletedInOrder(h, s.history, init, k);
    assert forall i :: 0 <= i <= k ==> ds[i] == init[i];
    assert DatasetsDeletedInOrder(h, s.history, ds, k);
  }

  lemma DatasetPassFails(h: seq<Call>, ds: seq<Record>, s: Step<()>)
    requires ds != [] && DatasetLoopEnded(h, ds[..|ds| - 1], s) && s.result.Ok? && !IdAndName(ds[|ds| - 1])
    ensures DatasetLoopEnded(h, ds, DatasetPass(s, ds[|ds| - 1]))
  {
    var init := ds[..|ds| - 1];
    assert forall i :: 0 <= i < |init| ==> ds[i] == init[i];
    assert DatasetsDeletedInOrder(h, s.history, ds, |ds| - 1);
  }

  lemma DatasetPassDeletes(h: seq<Call>, ds: seq<Record>, s: Step<()>)
    requires ds != [] && DatasetLoopEnded(h, ds[..|ds| - 1], s) && s.result.Ok? && IdAndName(ds[|ds| - 1])
    ensures DatasetLoopEnded(h, ds, DatasetPass(s, ds[|ds| - 1]))
  {
    var init := ds[..|ds| - 1];
    var x := ds[|ds| - 1];
    assert forall i :: 0 <= i < |init| ==> ds[i] == init[i];
    var hist := s.history + [DeleteDataset(Lookup(x, "Id").value)];
    assert DatasetPass(s, x) == Step(hist, Ok(()));
    assert hist[..|h|] == s.history[..|h|];
    assert DatasetsDeletedInOrder(h, hist, ds, |ds|);
  }

  /** One deletion per dataset, in order, until the first dataset without an
      `Id` or a `Name`. */
  lemma {:induction false} DeleteDatasetsSpec(h: seq<Call>, ds: seq<Record>)
    ensures DatasetLoopEnded(h, ds, DeleteDatasets(h, ds))
    decreases |ds|
  {
    if ds != [] {
      DeleteDatasetsSpec(h, ds[..|ds| - 1]);
      DatasetPassExtends(h, ds, DeleteDatasets(h, ds[..|ds| - 1]));
    }
  }

  // ---------------------------------------------------------------------
  // The whole cleanup
  // ---------------------------------------------------------------------

  /** The dataset sweep against the report and dataset lists fetched after the
      report sweep. */
  function DatasetSweep(reports: seq<Record>, datasets: seq<Record>, h: seq<Call>): Step<()>
  {
    match ReferencedDatasetIds(reports)
    case Err(e) => Step(h, Err(e))
    case Ok(ids) =>
      match DatasetsToDelete(datasets, ids)
      case Err(e) => Step(h, Err(e))
      case Ok(dd) => DeleteDatasets(h, dd)
  }

  /** `cleanup_reports(group_id, cleanup_regex, exclude_report_names)` started
      after the calls `h`. */
  function CleanupRun(remote: Remote, h: seq<Call>, matches: string -> bool, exclude: set<string>): Step<()>
  {
    match ReportsToDelete(remote.reports(h), matches, exclude)
    case Err(e) => Step(h, Err(e))
    case Ok(doomed) =>
      var s := DeleteReports(h, doomed);
      if s.result.Err? then s
      else DatasetSweep(remote.reports(s.history), remote.datasets(s.history), s.history)
  }

  /** `c` deletes a report of `reports` that the sweep selects. */
  predicate DeletesSelectedReport(reports: seq<Record>, matches: string -> bool, exclude: set<string>, c: Call)
  {
    exists x :: x in reports && Deletable(x, matches, exclude) && Lookup(x, "Id").Some? && c == DeleteReport(Lookup(x, "Id").value)
  }

  /** The report sweep made exactly the deletions of the selected reports. */
  predicate ReportSweepDone(reports: seq<Record>, matches: string -> bool, exclude: set<string>, calls: seq<Call>)
  {
    (forall i :: 0 <= i < |calls| ==> DeletesSelectedReport(reports, matches, exclude, calls[i])) &&
    (forall x :: x in reports && Deletable(x, matches, exclude) ==>
      Lookup(x, "Id").Some? && DeleteReport(Lookup(x, "Id").value) in calls)
  }

  /** No report uses the dataset `d`. */
  predicate Unreferenced(reports: seq<Record>, d: Record)
  {
    Lookup(d, "Id").Some? && forall i :: 0 <= i < |reports| ==> !Has(reports[i], "DatasetId", Lookup(d, "Id").value)
  }

  /** `c` deletes a dataset of `datasets` that no report of `reports` uses. */
  predicate DeletesUnreferenced(reports: seq<Record>, datasets: seq<Record>, c: Call)
  {
    exists d :: d in datasets && Unreferenced(reports, d) && c == DeleteDataset(Lookup(d, "Id").value)
  }

  /** The dataset sweep made exactly the deletions of the unused datasets. */
  predicate DatasetSweepDone(reports: seq<Record>, datasets: seq<Record>, calls: seq<Call>)
  {
    (forall i :: 0 <= i < |calls| ==> DeletesUnreferenced(reports, datasets, calls[i])) &&
    (forall d :: d in datasets && Unreferenced(reports, d) ==> DeleteDataset(Lookup(d, "Id").value) in calls)
  }

  lemma ReportSweepExact(h: seq<Call>, reports: seq<Record>, matches: string -> bool, exclude: set<string>, doomed: seq<Record>)
    requires ReportsToDelete(reports, matches, exclude) == Ok(doomed)
    requires DeleteReports(h, doomed).result.Ok?
    ensures var hist := DeleteReports(h, doomed).history;
      |h| <= |hist| && hist[..|h|] == h && ReportSweepDone(reports, matches, exclude, hist[|h|..])
  {
    var hist := DeleteReports(h, doomed).history;
    DeleteReportsSpec(h, doomed);
    var calls := hist[|h|..];
    forall i | 0 <= i < |calls|
      ensures DeletesSelectedReport(reports, matches, exclude, calls[i])
    {
      assert calls[i] == hist[|h| + i];
      assert doomed[i] in doomed;
    }
    forall x | x in reports && Deletable(x, matches, exclude)
      ensures Lookup(x, "Id").Some? && DeleteReport(Lookup(x, "Id").value) in calls
    {
      var i :| 0 <= i < |doomed| && doomed[i] == x;
      assert calls[i] == hist[|h| + i];
    }
  }

  /** A dataset is unused exactly when its `Id` is not among the referenced ones. */
  lemma UnreferencedIff(reports: seq<Record>, ids: seq<Value>, d: Record)
    requires ReferencedDatasetIds(reports) == Ok(ids) && Lookup(d, "Id").Some?
    ensures Unreferenced(reports, d) <==> Lookup(d, "Id").value !in ids
  {
    var id := Lookup(d, "Id").value;
    if id in ids {
      var i :| 0 <= i < |reports| && Has(reports[i], "DatasetId", id);
    }
  }

  lemma DatasetDeletionsExact(reports: seq<Record>, datasets: seq<Record>, h: seq<Call>, ids: seq<Value>, dd: seq<Record>)
    requires ReferencedDatasetIds(reports) == Ok(ids)
    requires DatasetsToDelete(datasets, ids) == Ok(dd)
    requires DeleteDatasets(h, dd).result.Ok?
    ensures var hist := DeleteDatasets(h, dd).history;
      |h| <= |hist| && hist[..|h|] == h && DatasetSweepDone(reports, datasets, hist[|h|..])
  {
    var hist := DeleteDatasets(h, dd).history;
    DeleteDatasetsSpec(h, dd);
    DeletedDatasetsUnreferenced(reports, datasets, h, ids, dd, hist);
    UnreferencedDatasetsDeleted(reports, datasets, h, ids, dd, hist);
  }

  /** Every dataset deletion is of a dataset that no report uses. */
  lemma DeletedDatasetsUnreferenced(reports: seq<Record>, datasets: seq<Record>, h: seq<Call>, ids: seq<Value>, dd: seq<Record>, hist: seq<Call>)
    requires ReferencedDatasetIds(reports) == Ok(ids)
    requires DatasetsToDelete(datasets, ids) == Ok(dd)
    requires DatasetsDeletedInOrder(h, hist, dd, |dd|)
    ensures forall i :: 0 <= i < |hist[|h|..]| ==> DeletesUnreferenced(reports, datasets, hist[|h|..][i])
  {
    var calls := hist[|h|..];
    forall i | 0 <= i < |calls|
      ensures DeletesUnreferenced(reports, datasets, calls[i])
    {
      assert calls[i] == hist[|h| + i];
      assert dd[i] in dd;
      UnreferencedIff(reports, ids, dd[i]);
    }
  }

  /** Every dataset that no report uses is deleted. */
  lemma UnreferencedDatasetsDeleted(reports: seq<Record>, datasets: seq<Record>, h: seq<Call>, ids: seq<Value>, dd: seq<Record>, hist: seq<Call>)
    requires ReferencedDatasetIds(reports) == Ok(ids)
    requires DatasetsToDelete(datasets, ids) == Ok(dd)
    requires DatasetsDeletedInOrder(h, hist, dd, |dd|)
    ensures forall d :: d in datasets && Unreferenced(reports, d) ==> DeleteDataset(Lookup(d, "Id").value) in hist[|h|..]
  {
    var calls := hist[|h|..];
    forall d | d in datasets && Unreferenced(reports, d)
      ensures DeleteDataset(Lookup(d, "Id").value) in calls
    {
      UnreferencedIff(reports, ids, d);
      var i :| 0 <= i < |dd| && dd[i] == d;
      assert calls[i] == hist[|h| + i];
    }
  }

  lemma DatasetSweepExact(reports: seq<Record>, datasets: seq<Record>, h: seq<Call>)
    requires DatasetSweep(reports, datasets, h).result.Ok?
    ensures var hist := DatasetSweep(reports, datasets, h).history;
      |h| <= |hist| && hist[..|h|] == h && DatasetSweepDone(reports, datasets, hist[|h|..])
  {
    var ids := ReferencedDatasetIds(reports).value;
    var dd := DatasetsToDelete(datasets, ids).value;
    DatasetDeletionsExact(reports, datasets, h, ids, dd);
  }

  /** A cleanup that ends normally first deletes exactly the selected reports,
      then, against the lists fetched after that, exactly the datasets that no
      report uses. */
  lemma CleanupExact(remote: Remote, h: seq<Call>, matches: string -> bool, exclude: set<string>)
    requires CleanupRun(remote, h, matches, exclude).result.Ok?
    ensures var hist := CleanupRun(remote, h, matches, exclude).history;
      exists k :: |h| <= k <= |hist| && hist[..|h|] == h &&
        ReportSweepDone(remote.reports(h), matches, exclude, hist[|h|..k]) &&
        DatasetSweepDone(remote.reports(hist[..k]), remote.datasets(hist[..k]), hist[k..])
  {
    var doomed := ReportsToDelete(remote.reports(h), matches, exclude).value;
    var s := DeleteReports(h, doomed);
    ReportSweepExact(h, remote.reports(h), matches, exclude, doomed);
    var hist := CleanupRun(remote, h, matches, exclude).history;
    DatasetSweepExact(remote.reports(s.history), remote.datasets(s.history), s.history);
    var k := |s.history|;
    assert hist[..k] == s.history;
    assert hist[|h|..k] == s.history[|h|..];
  }

  /** Whatever happens, the cleanup only deletes, and every report it
      deletes was selected: its name matches and is not excluded. */
  lemma CleanupSparesExcluded(remote: Remote, h: seq<Call>, matches: string -> bool, exclude: set<string>)
    ensures var hist := CleanupRun(remote, h, matches, exclude).history;
      |h| <= |hist| && hist[..|h|] == h &&
      (forall i :: |h| <= i < |hist| ==> hist[i].DeleteReport? || hist[i].DeleteDataset?) &&
      forall i :: |h| <= i < |hist| && hist[i].DeleteReport? ==>
        DeletesSelectedReport(remote.reports(h), matches, exclude, hist[i])
  {
    var reports := remote.reports(h);
    match ReportsToDelete(reports, matches, exclude)
    case Err(_) =>
    case Ok(doomed) =>
      var s := DeleteReports(h, doomed);
      DeleteReportsSpec(h, doomed);
      var k: nat := if s.result.Ok? then |doomed| else
        var k :| 0 <= k < |doomed| && Lookup(doomed[k], "Id").None? && ReportsDeletedInOrder(h, s.history, doomed, k); k;
      assert ReportsDeletedInOrder(h, s.history, doomed, k);
      var hist := CleanupRun(remote, h, matches, exclude).history;
      if s.result.Ok? {
        var t := DatasetSweep(remote.reports(s.history), remote.datasets(s.history), s.history);
        DatasetSweepPrefix(remote.reports(s.history), remote.datasets(s.history), s.history);
        assert hist == t.history;
      }
      assert |s.history| <= |hist| && hist[..|s.history|] == s.history;
      forall i | |h| <= i < |hist|
        ensures hist[i].DeleteReport? || hist[i].DeleteDataset?
      {
        if i < |s.history| {
          assert hist[i] == s.history[i];
          assert s.history[|h| + (i - |h|)] == DeleteReport(Lookup(doomed[i - |h|], "Id").value);
        }
      }
      forall i | |h| <= i < |hist| && hist[i].DeleteReport?
        ensures DeletesSelectedReport(reports, matches, exclude, hist[i])
      {
        assert i < |s.history|;
        assert hist[i] == s.history[i];
        assert doomed[i - |h|] in doomed;
      }
  }

  /** The dataset sweep only appends dataset deletions. */
  lemma DatasetSweepPrefix(reports: seq<Record>, datasets: seq<Record>, h: seq<Call>)
    ensures var hist := DatasetSweep(reports, datasets, h).history;
      |h| <= |hist| && hist[..|h|] == h && forall i :: |h| <= i < |hist| ==> hist[i].DeleteDataset?
  {
    match ReferencedDatasetIds(reports)
    case Err(_) =>
    case Ok(ids) =>
      match DatasetsToDelete(datasets, ids)
      case Err(_) =>
      case Ok(dd) =>
        DeleteDatasetsSpec(h, dd);
        var s := DeleteDatasets(h, dd);
        var k: nat := if s.result.Ok? then |dd| else
          var k :| 0 <= k < |dd| && !IdAndName(dd[k]) && DatasetsDeletedInOrder(h, s.history, dd, k); k;
        assert DatasetsDeletedInOrder(h, s.history, dd, k);
        forall i | |h| <= i < |s.history|
          ensures s.history[i].DeleteDataset?
        {
          assert s.history[|h| + (i - |h|)] == DeleteDataset(Lookup(dd[i - |h|], "Id").value);
        }
  }
}
