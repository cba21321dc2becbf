/** The sequence of calls `deploy_report` makes
    (powercicd/powerbi/powerbi_client.py), phase by phase: upload the staging
    report, set the dataset parameters, bind the datasources to the tenant's
    gateways, refresh the dataset, promote the staging report to the final
    one, clean up. Each phase starts after the calls `h` and returns the
    history it leaves. */
module Deploy {
  import opened Results
  import opened Json
  import opened Records
  import opened DatasourceKeys
  import opened Datasources
  import opened PowerBiApi
  import opened RefreshWait
  import opened Cleanup

  /** The arguments of `deploy_report`; the file to import is left out, and a
      refresh schedule is only present or absent. */
  datatype DeployArgs = DeployArgs(
    groupId: string,
    uploadName: string,
    finalName: string,
    parameters: Option<seq<(string, string)>>,
    schedule: bool,
    cleanup: Option<string -> bool>)

  /** `x["Id"]` on the `None` a lookup returned. */
  function NoneSubscript(): Error
  {
    TypeError("'NoneType' object is not subscriptable")
  }

  /** `h` is a prefix of `hist`. */
  predicate Extends(h: seq<Call>, hist: seq<Call>)
  {
    |h| <= |hist| && hist[..|h|] == h
  }

  /** `wait_for_end_of_any_active_dataset_refresh(group_id, d)`: records the
      end of the wait when it returns. */
  function WaitStep(remote: Remote, h: seq<Call>, d: Value): (s: Step<()>)
    ensures s.result.Ok? ==> s.history == h + [WaitEnded(d)]
    ensures s.result.Err? ==> s.history == h
    ensures s.result.Err? <==> Waited(ActiveRefreshes, remote.refreshes(h, d), remote.lag(h, d), 0).Err?
  {
    match Waited(ActiveRefreshes, remote.refreshes(h, d), remote.lag(h, d), 0)
    case Err(e) => Step(h, Err(e))
    case Ok(_) => Step(h + [WaitEnded(d)], Ok(()))
  }

  /** The wait step once the outcome of the wait is known. */
  lemma WaitStepOutcome(remote: Remote, h: seq<Call>, d: Value, outcome: Result<nat>)
    requires Waited(ActiveRefreshes, remote.refreshes(h, d), remote.lag(h, d), 0) == outcome
    ensures WaitStep(remote, h, d) ==
      if outcome.Err? then Step(h, Err(outcome.error)) else Step(h + [WaitEnded(d)], Ok(()))
  {
  }

  // ---------------------------------------------------------------------
  // Upload
  // ---------------------------------------------------------------------

  /** Take over the staging report left by an earlier run, if there is one. */
  function TakeOverBefore(h: seq<Call>, before: Option<Record>): Step<()>
  {
    match before
    case None => Step(h, Ok(()))
    case Some(rb) =>
      match Field(rb, "Id")
      case Err(e) => Step(h, Err(e))
      case Ok(id) => Step(h + [TakeOver(id)], Ok(()))
  }

  /** Read `Id` and `DatasetId` of the report a lookup returned. */
  function ReportIds(found: Option<Record>, idField: string, datasetField: string): Result<(Value, Value)>
  {
    match found
    case None => Err(NoneSubscript())
    case Some(report) =>
      var id :- Field(report, idField);
      var d :- Field(report, datasetField);
      Ok((id, d))
  }

  /** Import the staging report, then take it over and wait for its dataset;
      the result is the report's id and its dataset's id. */
  function ImportStaging(remote: Remote, h: seq<Call>, a: DeployArgs): (s: Step<(Value, Value)>)
    ensures Extends(h + [Import(a.uploadName)], s.history)
  {
    var h2 := h + [Import(a.uploadName)];
    match TryGetByName(remote.reports(h2), a.uploadName, DuplicateReport(a.uploadName, a.groupId))
    case Err(e) => Step(h2, Err(e))
    case Ok(found) =>
      match ReportIds(found, "Id", "DatasetId")
      case Err(e) => Step(h2, Err(e))
      case Ok(ids) =>
        var w := WaitStep(remote, h2 + [TakeOver(ids.0)], ids.1);
        ExtendsChain(h2, h2 + [TakeOver(ids.0)], w.history);
        if w.result.Err? then Step(w.history, Err(w.result.error)) else Step(w.history, Ok(ids))
  }

  /** Take over an earlier staging report, then import the new one. */
  function UploadPhase(remote: Remote, h: seq<Call>, a: DeployArgs): (s: Step<(Value, Value)>)
    ensures Extends(h, s.history)
  {
    match TryGetByName(remote.reports(h), a.uploadName, DuplicateReport(a.uploadName, a.groupId))
    case Err(e) => Step(h, Err(e))
    case Ok(before) =>
      var t := TakeOverBefore(h, before);
      if t.result.Err? then Step(t.history, Err(t.result.error))
      else
        var s := ImportStaging(remote, t.history, a);
        ExtendsChain(h, t.history + [Import(a.uploadName)], s.history);
        s
  }

  /** The upload once the earlier staging report is looked up. */
  lemma UploadShape(remote: Remote, h: seq<Call>, a: DeployArgs, before: Option<Record>)
    requires TryGetByName(remote.reports(h), a.uploadName, DuplicateReport(a.uploadName, a.groupId)) == Ok(before)
    ensures var t := TakeOverBefore(h, before);
      UploadPhase(remote, h, a) == if t.result.Err? then Step(t.history, Err(t.result.error)) else ImportStaging(remote, t.history, a)
  {
  }

  /** A staging report left by an earlier run is taken over before the new
      file is imported; otherwise the import is the first call. */
  lemma UploadTakesOverFirst(remote: Remote, h: seq<Call>, a: DeployArgs, rb: Record, id: Value)
    requires TryGetByName(remote.reports(h), a.uploadName, DuplicateReport(a.uploadName, a.groupId)) == Ok(Some(rb))
    requires Has(rb, "Id", id)
    ensures var hist := UploadPhase(remote, h, a).history;
      |hist| >= |h| + 2 && hist[|h|] == TakeOver(id) && hist[|h| + 1] == Import(a.uploadName)
  {
    UploadShape(remote, h, a, Some(rb));
    var t := TakeOverBefore(h, Some(rb));
    assert t == Step(h + [TakeOver(id)], Ok(()));
    var hist := ImportStaging(remote, t.history, a).history;
    var h2 := h + [TakeOver(id)] + [Import(a.uploadName)];
    assert Extends(h2, hist);
    assert hist[|h|] == h2[|h|] && hist[|h| + 1] == h2[|h| + 1];
  }

  lemma UploadImportsFirst(remote: Remote, h: seq<Call>, a: DeployArgs)
    requires TryGetByName(remote.reports(h), a.uploadName, DuplicateReport(a.uploadName, a.groupId)) == Ok(None)
    ensures var hist := UploadPhase(remote, h, a).history;
      |hist| >= |h| + 1 && hist[|h|] == Import(a.uploadName)
  {
    UploadShape(remote, h, a, None);
    var hist := ImportStaging(remote, h, a).history;
    var h2 := h + [Import(a.uploadName)];
    assert Extends(h2, hist);
    assert hist[|h|] == h2[|h|];
  }

  // ---------------------------------------------------------------------
  // Dataset parameters
  // ---------------------------------------------------------------------

  function ParameterArityError(): Error
  {
    TypeError("update_dataset_parameters() missing 1 required positional argument: 'dataset_parameters'")
  }

  /** `update_dataset_parameters(group_id, dataset_id, dataset_parameters)`
      when parameters are given. */
  function ParametersPhase(h: seq<Call>, d: Value, parameters: Option<seq<(string, string)>>): (s: Step<()>)
    ensures s.result.Ok? && Extends(h, s.history)
    ensures parameters.None? ==> s.history == h
    ensures parameters.Some? ==> s.history == h + [UpdateParameters(d, parameters.value)]
  {
    match parameters
    case None => Step(h, Ok(()))
    case Some(ps) => Step(h + [UpdateParameters(d, ps)], Ok(()))
  }

  /** The call as written, `update_dataset_parameters(dataset, dataset_parameters)`:
      two arguments for three parameters, which raises before any request. */
  function ParametersPhaseAsWritten(h: seq<Call>, d: Value, parameters: Option<seq<(string, string)>>): Step<()>
  {
    match parameters
    case None => Step(h, Ok(()))
    case Some(_) => Step(h, Err(ParameterArityError()))
  }

  /** As written, giving parameters always makes the deployment fail, and
      no parameter is ever updated. */
  lemma ParametersAsWrittenAlwaysFail(h: seq<Call>, d: Value, ps: seq<(string, string)>)
    ensures ParametersPhaseAsWritten(h, d, Some(ps)) == Step(h, Err(ParameterArityError()))
    ensures ParametersPhase(h, d, Some(ps)) == Step(h + [UpdateParameters(d, ps)], Ok(()))
  {
  }

  // ---------------------------------------------------------------------
  // Gateway binding
  // ---------------------------------------------------------------------

  /** One pass of the binding loop, for the gateway `e.0` and the tenant
      datasource `e.1`: bind the dataset to that datasource. */
  function BindPass(s: Step<()>, d: Value, e: (Value, Record)): Step<()>
  {
    if s.result.Err? then s
    else match Field(e.1, "Id")
      case Err(err) => Step(s.history, Err(err))
      case Ok(id) => Step(s.history + [BindToGateway(d, e.0, [id])], Ok(()))
  }

  /** The pass as written: `[ds["Id"] for ds in dataset_datasources]` iterates
      over the field names of the datasource and indexes a string with
      `"Id"`. */
  function BindPassAsWritten(s: Step<()>, d: Value, e: (Value, Record)): Step<()>
  {
    if s.result.Err? then s
    else if e.1 == [] then Step(s.history + [BindToGateway(d, e.0, [])], Ok(()))
    else Step(s.history, Err(TypeError("string indices must be integers")))
  }

  /** The loop over `managed_datasource_by_gateway_id.items()`. */
  function BindAll(h: seq<Call>, d: Value, dict: Dict): Step<()>
    decreases |dict|
  {
    if dict == [] then Step(h, Ok(())) else BindPass(BindAll(h, d, dict[..|dict| - 1]), d, dict[|dict| - 1])
  }

  function BindAllAsWritten(h: seq<Call>, d: Value, dict: Dict): Step<()>
    decreases |dict|
  {
    if dict == [] then Step(h, Ok(())) else BindPassAsWritten(BindAllAsWritten(h, d, dict[..|dict| - 1]), d, dict[|dict| - 1])
  }

  /** Once a pass has failed, the rest of the loop changes nothing. */
  lemma {:induction false} BindAllStuck(h: seq<Call>, d: Value, dict: Dict, k: nat)
    requires k <= |dict| && BindAll(h, d, dict[..k]).result.Err?
    ensures BindAll(h, d, dict) == BindAll(h, d, dict[..k])
    decreases |dict|
  {
    if k < |dict| {
      assert dict[..|dict| - 1][..k] == dict[..k];
      BindAllStuck(h, d, dict[..|dict| - 1], k);
    } else {
      assert dict[..k] == dict;
    }
  }

  /** After the loop over `dict`: each gateway, in order, got one binding to
      its datasource's `Id`, up to the first datasource without one. */
  predicate BoundInOrder(h: seq<Call>, hist: seq<Call>, d: Value, dict: Dict, k: int)
  {
    0 <= k <= |dict| && |hist| == |h| + k && hist[..|h|] == h &&
    forall i :: 0 <= i < k ==>
      Lookup(dict[i].1, "Id").Some? && hist[|h| + i] == BindToGateway(d, dict[i].0, [Lookup(dict[i].1, "Id").value])
  }

  predicate BindLoopEnded(h: seq<Call>, d: Value, dict: Dict, s: Step<()>)
  {
    (s.result.Ok? <==> forall i :: 0 <= i < |dict| ==> Lookup(dict[i].1, "Id").Some?) &&
    (s.result.Ok? ==> BoundInOrder(h, s.history, d, dict, |dict|)) &&
    (s.result.Err? ==> (s.result.error == KeyError("Id") &&
      exists k :: 0 <= k < |dict| && Lookup(dict[k].1, "Id").None? && BoundInOrder(h, s.history, d, dict, k)))
  }

  lemma BindPassExtends(h: seq<Call>, d: Value, dict: Dict, s: Step<()>)
    requires dict != [] && BindLoopEnded(h, d, dict[..|dict| - 1], s)
    ensures BindLoopEnded(h, d, dict, BindPass(s, d, dict[|dict| - 1]))
  {
    var e := dict[|dict| - 1];
    if s.result.Err? {
      BindPassAfterFailure(h, d, dict, s);
    } else if Lookup(e.1, "Id").None? {
      BindPassFails(h, d, dict, s);
    } else {
      BindPassBinds(h, d, dict, s);
    }
  }

  lemma BindPassAfterFailure(h: seq<Call>, d: Value, dict: Dict, s: Step<()>)
    requires dict != [] && BindLoopEnded(h, d, dict[..|dict| - 1], s) && s.result.Err?
    ensures BindLoopEnded(h, d, dict, s)
  {
    var init := dict[..|dict| - 1];
    var k :| 0 <= k < |init| && Lookup(init[k].1, "Id").None? && BoundInOrder(h, s.history, d, init, k);
    assert forall i :: 0 <= i <= k ==> dict[i] == init[i];
    assert BoundInOrder(h, s.history, d, dict, k);
  }

  lemma BindPassFails(h: seq<Call>, d: Value, dict: Dict, s: Step<()>)
    requires dict != [] && BindLoopEnded(h, d, dict[..|dict| - 1], s) && s.result.Ok?
    requires Lookup(dict[|dict| - 1].1, "Id").None?
    ensures BindLoopEnded(h, d, dict, BindPass(s, d, dict[|dict| - 1]))
  {
    var init := dict[..|dict| - 1];
    assert forall i :: 0 <= i < |init| ==> dict[i] == init[i];
    assert BoundInOrder(h, s.history, d, dict, |dict| - 1);
  }

  lemma BindPassBinds(h: seq<Call>, d: Value, dict: Dict, s: Step<()>)
    requires dict != [] && BindLoopEnded(h, d, dict[..|dict| - 1], s) && s.result.Ok?
    requires Lookup(dict[|dict| - 1].1, "Id").Some?
    ensures BindLoopEnded(h, d, dict, BindPass(s, d, dict[|dict| - 1]))
  {
    var init := dict[..|dict| - 1];
    var e := dict[|dict| - 1];
    assert forall i :: 0 <= i < |init| ==> dict[i] == init[i];
    var hist := s.history + [BindToGateway(d, e.0, [Lookup(e.1, "Id").value])];
    assert BindPass(s, d, e) == Step(hist, Ok(()));
    assert hist[..|h|] == s.history[..|h|];
    assert BoundInOrder(h, hist, d, dict, |dict|);
  }

  /** One binding per gateway, in the order of the dictionary, each to the
      `Id` of the gateway's datasource. */
  lemma {:induction false} BindAllSpec(h: seq<Call>, d: Value, dict: Dict)
    ensures BindLoopEnded(h, d, dict, BindAll(h, d, dict))
    decreases |dict|
  {
    if dict != [] {
      BindAllSpec(h, d, dict[..|dict| - 1]);
      BindPassExtends(h, d, dict, BindAll(h, d, dict[..|dict| - 1]));
    }
  }

  /** As written, the first gateway whose datasource has any field ends the
      deployment with `TypeError`, and no binding is made before it unless the
      earlier datasources are empty dictionaries. */
  lemma {:induction false} BindAsWrittenFails(h: seq<Call>, d: Value, dict: Dict, k: nat)
    requires k < |dict| && dict[k].1 != []
    ensures BindAllAsWritten(h, d, dict).result == Err(TypeError("string indices must be integers"))
    decreases |dict|
  {
    if k < |dict| - 1 {
      BindAsWrittenFails(h, d, dict[..|dict| - 1], k);
    } else {
      BindAsWrittenOnlyFailsOnStrings(h, d, dict[..|dict| - 1]);
    }
  }

  lemma {:induction false} BindAsWrittenOnlyFailsOnStrings(h: seq<Call>, d: Value, dict: Dict)
    ensures BindAllAsWritten(h, d, dict).result.Err? ==>
      BindAllAsWritten(h, d, dict).result == Err(TypeError("string indices must be integers"))
    decreases |dict|
  {
    if dict != [] {
      BindAsWrittenOnlyFailsOnStrings(h, d, dict[..|dict| - 1]);
    }
  }

  /** Every datasource in the cluster dictionary has a `ClusterId` field, so
      with any managed datasource the binding as written fails. */
  lemma ManagedBindingAsWrittenFails(tk: map<string, Record>, managed: seq<string>, dict: Dict, h: seq<Call>, d: Value)
    requires ManagedByCluster(tk, managed) == Ok(dict) && managed != []
    ensures BindAllAsWritten(h, d, dict).result == Err(TypeError("string indices must be integers"))
  {
    ManagedByClusterCovers(tk, managed, dict);
    var c := Entry(tk, managed[0]).value.0;
    assert HasEntry(dict, c);
    var i :| 0 <= i < |dict| && dict[i].0 == c;
    ManagedByClusterLastWins(tk, managed, dict);
    assert FromLastOfCluster(tk, managed, dict[i]);
    var j :| 0 <= j < |managed| && LastOfCluster(tk, managed, dict[i], j);
    assert Lookup(dict[i].1, "ClusterId").Some?;
    BindAsWrittenFails(h, d, dict, i);
  }

  /** Identify the managed datasources and bind each gateway cluster to its
      tenant datasource. */
  function BindPhase(remote: Remote, h: seq<Call>, d: Value): (s: Step<()>)
    ensures Extends(h, s.history)
  {
    match Matching(remote.gatewayDatasources(h), "GatewayType", Str("TenantCloud"))
    case Err(e) => Step(h, Err(e))
    case Ok(tenant) =>
      var p := PartitionKeys(remote.datasetDatasources(h, d), tenant);
      match ManagedByCluster(ByKey(tenant, BuildKey), p.managed)
      case Err(e) => Step(h, Err(e))
      case Ok(dict) =>
        BindAllSpec(h, d, dict);
        BindAll(h, d, dict)
  }

  // ---------------------------------------------------------------------
  // Refresh
  // ---------------------------------------------------------------------

  /** Wait, trigger a refresh, wait again, then set the schedule if one is given. */
  function RefreshPhase(remote: Remote, h: seq<Call>, d: Value, schedule: bool): (s: Step<()>)
    ensures Extends(h, s.history)
  {
    var w1 := WaitStep(remote, h, d);
    if w1.result.Err? then w1
    else
      var w2 := WaitStep(remote, w1.history + [TriggerRefresh(d)], d);
      if w2.result.Err? then w2
      else Step(w2.history + (if schedule then [SetSchedule(d)] else []), Ok(()))
  }

  /** The calls a refresh phase records: nothing when the first wait
      fails, the end of that wait and the trigger when the second fails, and
      otherwise both waits around the trigger, then the schedule. */
  lemma RefreshCalls(remote: Remote, h: seq<Call>, d: Value, schedule: bool)
    ensures var r := RefreshPhase(remote, h, d, schedule);
      RefreshRecorded(h, d, schedule, r.history, r.result.Ok?)
  {
    var w1 := WaitStep(remote, h, d);
    if w1.result.Ok? {
      Snoc2(h, WaitEnded(d), TriggerRefresh(d));
      var w2 := WaitStep(remote, w1.history + [TriggerRefresh(d)], d);
      if w2.result.Ok? {
        Snoc3(h, WaitEnded(d), TriggerRefresh(d), WaitEnded(d));
      }
    }
  }

  /** `hist` is what a refresh phase after `h` records, ending normally when `ok`. */
  predicate RefreshRecorded(h: seq<Call>, d: Value, schedule: bool, hist: seq<Call>, ok: bool)
  {
    (!ok && hist == h) ||
    (!ok && hist == h + [WaitEnded(d), TriggerRefresh(d)]) ||
    (ok && hist == h + [WaitEnded(d), TriggerRefresh(d), WaitEnded(d)] + (if schedule then [SetSchedule(d)] else []))
  }

  /** What a refresh records triggers only between waits, and ends, when the
      phase ends normally, with something other than the trigger. */
  lemma RefreshRecordedTriggers(h: seq<Call>, d: Value, schedule: bool, hist: seq<Call>, ok: bool)
    requires RefreshRecorded(h, d, schedule, hist, ok)
    ensures TriggersBracketed(h, hist) && (ok ==> |h| < |hist| && !hist[|hist| - 1].TriggerRefresh?)
  {
    RefreshCallsBracketed(h, d, hist, schedule);
    if ok {
      var extra := [WaitEnded(d), TriggerRefresh(d), WaitEnded(d)] + (if schedule then [SetSchedule(d)] else []);
      assert hist == h + extra;
      assert hist[|hist| - 1] == extra[|extra| - 1];
    }
  }

  /** In the calls of a refresh phase the only trigger is the second call,
      between two ends of waits. */
  lemma RefreshCallsBracketed(h: seq<Call>, d: Value, hist: seq<Call>, schedule: bool)
    requires hist == h || hist == h + [WaitEnded(d), TriggerRefresh(d)] ||
      hist == h + [WaitEnded(d), TriggerRefresh(d), WaitEnded(d)] + (if schedule then [SetSchedule(d)] else [])
    ensures forall i :: |h| <= i < |hist| && hist[i].TriggerRefresh? ==>
        i == |h| + 1 && hist[i - 1] == WaitEnded(d) && hist[i] == TriggerRefresh(d) &&
        (i + 1 < |hist| ==> hist[i + 1] == WaitEnded(d))
  {
    forall i | |h| <= i < |hist| && hist[i].TriggerRefresh?
      ensures i == |h| + 1 && hist[i - 1] == WaitEnded(d) && hist[i] == TriggerRefresh(d) &&
        (i + 1 < |hist| ==> hist[i + 1] == WaitEnded(d))
    {
      if hist != h + [WaitEnded(d), TriggerRefresh(d)] {
        var extra := [WaitEnded(d), TriggerRefresh(d), WaitEnded(d)] + (if schedule then [SetSchedule(d)] else []);
        assert hist == h + extra;
        assert hist[i] == extra[i - |h|];
      }
    }
  }

  /** A refresh is triggered only right after a wait on the dataset has
      ended, and the next recorded event after it is the end of the second wait. */
  lemma RefreshBracketed(remote: Remote, h: seq<Call>, d: Value, schedule: bool)
    ensures var hist := RefreshPhase(remote, h, d, schedule).history;
      forall i :: |h| <= i < |hist| && hist[i].TriggerRefresh? ==>
        i == |h| + 1 && hist[i - 1] == WaitEnded(d) && hist[i] == TriggerRefresh(d) &&
        (i + 1 < |hist| ==> hist[i + 1] == WaitEnded(d))
    ensures RefreshPhase(remote, h, d, schedule).result.Ok? ==>
      RefreshPhase(remote, h, d, schedule).history ==
        h + [WaitEnded(d), TriggerRefresh(d), WaitEnded(d)] + (if schedule then [SetSchedule(d)] else [])
  {
    RefreshCalls(remote, h, d, schedule);
    RefreshCallsBracketed(h, d, RefreshPhase(remote, h, d, schedule).history, schedule);
  }

  // ---------------------------------------------------------------------
  // Promotion to the final report
  // ---------------------------------------------------------------------

  /** The final report exists: take it over, wait for its dataset, copy the
      staging report's content into it and rebind it to the staging dataset. */
  function PromoteExisting(remote: Remote, h: seq<Call>, reportId: Value, datasetId: Value, f: Record): (s: Step<()>)
    ensures Extends(h, s.history)
  {
    match ReportIds(Some(f), "Id", "DatasetId")
    case Err(e) => Step(h, Err(e))
    case Ok(ids) =>
      var w := WaitStep(remote, h + [TakeOver(ids.0)], ids.1);
      if w.result.Err? then w
      else Step(w.history + [UpdateContent(reportId, ids.0), Rebind(ids.0, datasetId)], Ok(()))
  }

  /** The promotion onto an existing report once its ids are read. */
  lemma PromoteExistingShape(remote: Remote, h: seq<Call>, reportId: Value, datasetId: Value, f: Record, ids: (Value, Value))
    requires ReportIds(Some(f), "Id", "DatasetId") == Ok(ids)
    ensures var w := WaitStep(remote, h + [TakeOver(ids.0)], ids.1);
      PromoteExisting(remote, h, reportId, datasetId, f) ==
        if w.result.Err? then w
        else Step(w.history + [UpdateContent(reportId, ids.0), Rebind(ids.0, datasetId)], Ok(()))
  {
  }

  /** As written, `update_report_content(group_id, final_report_id, report_id)`
      passes the final report where the signature expects the source. */
  function PromoteExistingAsWritten(remote: Remote, h: seq<Call>, reportId: Value, datasetId: Value, f: Record): Step<()>
  {
    match ReportIds(Some(f), "Id", "DatasetId")
    case Err(e) => Step(h, Err(e))
    case Ok(ids) =>
      var w := WaitStep(remote, h + [TakeOver(ids.0)], ids.1);
      if w.result.Err? then w
      else Step(w.history + [UpdateContent(ids.0, reportId), Rebind(ids.0, datasetId)], Ok(()))
  }

  /** The final report is taken over and its dataset awaited before its
      content is replaced by the staging report's, and it ends bound to the
      staging dataset. As written, the content goes the other way: from the
      final report into the staging report. */
  lemma PromoteExistingOrder(remote: Remote, h: seq<Call>, reportId: Value, datasetId: Value, f: Record, fid: Value, fds: Value)
    requires Has(f, "Id", fid) && Has(f, "DatasetId", fds)
    requires PromoteExisting(remote, h, reportId, datasetId, f).result.Ok?
    ensures PromoteExisting(remote, h, reportId, datasetId, f).history ==
      h + [TakeOver(fid), WaitEnded(fds), UpdateContent(reportId, fid), Rebind(fid, datasetId)]
    ensures PromoteExistingAsWritten(remote, h, reportId, datasetId, f).history ==
      h + [TakeOver(fid), WaitEnded(fds), UpdateContent(fid, reportId), Rebind(fid, datasetId)]
  {
    PromoteExistingWaits(remote, h, reportId, datasetId, f, fid, fds);
    PromoteExistingCalls(remote, h, reportId, datasetId, f, fid, fds);
    PromoteExistingAsWrittenCalls(remote, h, reportId, datasetId, f, fid, fds);
  }

  lemma PromoteExistingWaits(remote: Remote, h: seq<Call>, reportId: Value, datasetId: Value, f: Record, fid: Value, fds: Value)
    requires Has(f, "Id", fid) && Has(f, "DatasetId", fds)
    requires PromoteExisting(remote, h, reportId, datasetId, f).result.Ok?
    ensures WaitStep(remote, h + [TakeOver(fid)], fds).result.Ok?
  {
    assert ReportIds(Some(f), "Id", "DatasetId") == Ok((fid, fds));
  }

  lemma PromoteExistingCalls(remote: Remote, h: seq<Call>, reportId: Value, datasetId: Value, f: Record, fid: Value, fds: Value)
    requires Has(f, "Id", fid) && Has(f, "DatasetId", fds)
    requires WaitStep(remote, h + [TakeOver(fid)], fds).result.Ok?
    ensures PromoteExisting(remote, h, reportId, datasetId, f).history ==
      h + [TakeOver(fid), WaitEnded(fds), UpdateContent(reportId, fid), Rebind(fid, datasetId)]
  {
    assert ReportIds(Some(f), "Id", "DatasetId") == Ok((fid, fds));
    PromotedCalls(h, fid, fds, UpdateContent(reportId, fid), Rebind(fid, datasetId));
  }

  lemma PromoteExistingAsWrittenCalls(remote: Remote, h: seq<Call>, reportId: Value, datasetId: Value, f: Record, fid: Value, fds: Value)
    requires Has(f, "Id", fid) && Has(f, "DatasetId", fds)
    requires WaitStep(remote, h + [TakeOver(fid)], fds).result.Ok?
    ensures PromoteExistingAsWritten(remote, h, reportId, datasetId, f).history ==
      h + [TakeOver(fid), WaitEnded(fds), UpdateContent(fid, reportId), Rebind(fid, datasetId)]
  {
    assert ReportIds(Some(f), "Id", "DatasetId") == Ok((fid, fds));
    PromotedCalls(h, fid, fds, UpdateContent(fid, reportId), Rebind(fid, datasetId));
  }

  /** The calls of a promotion onto an existing report, regrouped. */
  lemma PromotedCalls(h: seq<Call>, fid: Value, fds: Value, update: Call, rebind: Call)
    ensures h + [TakeOver(fid)] + [WaitEnded(fds)] + [update, rebind] ==
      h + [TakeOver(fid), WaitEnded(fds), update, rebind]
  {
  }

  /** No final report yet: clone the staging report under the final name and
      read the clone's ids; `idField` and `datasetField` are the field names
      read. */
  function PromoteNewWith(remote: Remote, h: seq<Call>, a: DeployArgs, reportId: Value, idField: string, datasetField: string): (s: Step<()>)
    ensures s.history == h + [Clone(reportId, a.finalName)]
  {
    var h1 := h + [Clone(reportId, a.finalName)];
    match TryGetByName(remote.reports(h1), a.finalName, DuplicateReport(a.finalName, a.groupId))
    case Err(e) => Step(h1, Err(e))
    case Ok(found) =>
      match ReportIds(found, idField, datasetField)
      case Err(e) => Step(h1, Err(e))
      case Ok(_) => Step(h1, Ok(()))
  }

  function PromoteNew(remote: Remote, h: seq<Call>, a: DeployArgs, reportId: Value): Step<()>
  {
    PromoteNewWith(remote, h, a, reportId, "Id", "DatasetId")
  }

  /** As written, the clone's ids are read as `"id"` and `"datasetId"`, unlike
      every other report lookup. */
  function PromoteNewAsWritten(remote: Remote, h: seq<Call>, a: DeployArgs, reportId: Value): Step<()>
  {
    PromoteNewWith(remote, h, a, reportId, "id", "datasetId")
  }

  /** A clone that the lookup finds with the `Id` and `DatasetId` fields every
      other lookup reads: the intended step succeeds, the step as written fails
      with `KeyError`. */
  lemma PromoteNewAsWrittenFails(remote: Remote, h: seq<Call>, a: DeployArgs, reportId: Value, clone: Record)
    requires TryGetByName(remote.reports(h + [Clone(reportId, a.finalName)]), a.finalName,
      DuplicateReport(a.finalName, a.groupId)) == Ok(Some(clone))
    requires Lookup(clone, "Id").Some? && Lookup(clone, "DatasetId").Some? && Lookup(clone, "id").None?
    ensures PromoteNew(remote, h, a, reportId).result.Ok?
    ensures PromoteNewAsWritten(remote, h, a, reportId).result == Err(KeyError("id"))
  {
  }

  /** Promote to the existing final report, or clone a new one. */
  function PromotePhase(remote: Remote, h: seq<Call>, a: DeployArgs, reportId: Value, datasetId: Value): (s: Step<()>)
    ensures Extends(h, s.history)
  {
    match TryGetByName(remote.reports(h), a.finalName, DuplicateReport(a.finalName, a.groupId))
    case Err(e) => Step(h, Err(e))
    case Ok(None) => PromoteNew(remote, h, a, reportId)
    case Ok(Some(f)) => PromoteExisting(remote, h, reportId, datasetId, f)
  }

  /** The promotion once the final report is looked up. */
  lemma PromotePhaseFound(remote: Remote, h: seq<Call>, a: DeployArgs, reportId: Value, datasetId: Value, found: Option<Record>)
    requires TryGetByName(remote.reports(h), a.finalName, DuplicateReport(a.finalName, a.groupId)) == Ok(found)
    ensures PromotePhase(remote, h, a, reportId, datasetId) ==
      if found.None? then PromoteNew(remote, h, a, reportId) else PromoteExisting(remote, h, reportId, datasetId, found.value)
  {
  }

  // ---------------------------------------------------------------------
  // The whole deployment
  // ---------------------------------------------------------------------

  /** Clean up with the final report's name excluded, when a pattern is given. */
  function CleanupPhase(remote: Remote, h: seq<Call>, a: DeployArgs): (s: Step<()>)
    ensures Extends(h, s.history)
  {
    match a.cleanup
    case None => Step(h, Ok(()))
    case Some(matches) =>
      CleanupSparesExcluded(remote, h, matches, {a.finalName});
      CleanupRun(remote, h, matches, {a.finalName})
  }

  /** From the refresh on, with the staging report's ids known. */
  function AfterBind(remote: Remote, h: seq<Call>, a: DeployArgs, reportId: Value, datasetId: Value): (s: Step<()>)
    ensures Extends(h, s.history)
  {
    var r := RefreshPhase(remote, h, datasetId, a.schedule);
    if r.result.Err? then r
    else
      var p := PromotePhase(remote, r.history, a, reportId, datasetId);
      if p.result.Err? then p
      else
        var c := CleanupPhase(remote, p.history, a);
        ExtendsChain(h, r.history, p.history);
        ExtendsChain(h, p.history, c.history);
        c
  }

  /** The steps after the binding, one after the other. */
  lemma AfterBindShape(remote: Remote, h: seq<Call>, a: DeployArgs, reportId: Value, datasetId: Value)
    ensures var r := RefreshPhase(remote, h, datasetId, a.schedule);
      AfterBind(remote, h, a, reportId, datasetId) ==
        if r.result.Err? then r
        else
          var p := PromotePhase(remote, r.history, a, reportId, datasetId);
          if p.result.Err? then p else CleanupPhase(remote, p.history, a)
  {
  }

  /** `deploy_report`, started after the calls `h`. */
  function DeployRun(remote: Remote, h: seq<Call>, a: DeployArgs): (s: Step<()>)
    ensures Extends(UploadPhase(remote, h, a).history, s.history)
  {
    var u := UploadPhase(remote, h, a);
    if u.result.Err? then Step(u.history, Err(u.result.error))
    else
      var ids := u.result.value;
      var pm := ParametersPhase(u.history, ids.1, a.parameters);
      var b := BindPhase(remote, pm.history, ids.1);
      ExtendsChain(u.history, pm.history, b.history);
      if b.result.Err? then b
      else
        var s := AfterBind(remote, b.history, a, ids.0, ids.1);
        ExtendsChain(u.history, b.history, s.history);
        s
  }

  lemma Snoc2(h: seq<Call>, x: Call, y: Call)
    ensures h + [x] + [y] == h + [x, y]
  {
  }

  lemma Snoc3(h: seq<Call>, x: Call, y: Call, z: Call)
    ensures h + [x] + [y] + [z] == h + [x, y, z]
  {
  }

  /** The deployment, phase by phase. */
  lemma DeployRunShape(remote: Remote, h: seq<Call>, a: DeployArgs)
    ensures var u := UploadPhase(remote, h, a);
      u.result.Err? ==> DeployRun(remote, h, a).history == u.history
    ensures var u := UploadPhase(remote, h, a);
      u.result.Ok? ==>
        var b := BindPhase(remote, ParametersPhase(u.history, u.result.value.1, a.parameters).history, u.result.value.1);
        DeployRun(remote, h, a) == if b.result.Err? then b else AfterBind(remote, b.history, a, u.result.value.0, u.result.value.1)
  {
  }

  lemma ExtendsChain(h1: seq<Call>, h2: seq<Call>, h3: seq<Call>)
    requires Extends(h1, h2) && Extends(h2, h3)
    ensures Extends(h1, h3)
  {
    assert h3[..|h1|] == h3[..|h2|][..|h1|];
  }

  // ---------------------------------------------------------------------
  // Order of the calls of a deployment
  // ---------------------------------------------------------------------

  /** No refresh is triggered after the calls `h`. */
  predicate NoTriggerSince(h: seq<Call>, hist: seq<Call>)
  {
    forall i :: |h| <= i < |hist| ==> !hist[i].TriggerRefresh?
  }

  /** Nothing is deleted after the calls `h`. */
  predicate NoDeletionSince(h: seq<Call>, hist: seq<Call>)
  {
    forall i :: |h| <= i < |hist| ==> !hist[i].DeleteReport? && !hist[i].DeleteDataset?
  }

  /** Every refresh triggered after `h` comes right after the end of a wait on
      its dataset, and is followed, if by anything, by the end of another. */
  predicate TriggersBracketed(h: seq<Call>, hist: seq<Call>)
  {
    forall i :: |h| <= i < |hist| && hist[i].TriggerRefresh? ==>
      |h| < i && hist[i - 1] == WaitEnded(hist[i].datasetId) &&
      (i + 1 < |hist| ==> hist[i + 1] == WaitEnded(hist[i].datasetId))
  }

  /** Calls that neither trigger a refresh nor delete anything. */
  predicate Quiet(extra: seq<Call>)
  {
    forall i :: 0 <= i < |extra| ==> !extra[i].TriggerRefresh? && !extra[i].DeleteReport? && !extra[i].DeleteDataset?
  }

  lemma AppendQuiet(h: seq<Call>, extra: seq<Call>)
    requires Quiet(extra)
    ensures NoTriggerSince(h, h + extra) && NoDeletionSince(h, h + extra)
  {
    forall i | |h| <= i < |h + extra|
      ensures (h + extra)[i] == extra[i - |h|]
    {
    }
  }

  lemma NoTriggerChain(h1: seq<Call>, h2: seq<Call>, h3: seq<Call>)
    requires Extends(h1, h2) && Extends(h2, h3)
    requires NoTriggerSince(h1, h2) && NoTriggerSince(h2, h3)
    ensures Extends(h1, h3) && NoTriggerSince(h1, h3)
  {
    ExtendsChain(h1, h2, h3);
    forall i | |h1| <= i < |h2|
      ensures h3[i] == h2[i]
    {
      assert h3[..|h2|][i] == h3[i];
    }
  }

  lemma NoDeletionChain(h1: seq<Call>, h2: seq<Call>, h3: seq<Call>)
    requires Extends(h1, h2) && Extends(h2, h3)
    requires NoDeletionSince(h1, h2) && NoDeletionSince(h2, h3)
    ensures Extends(h1, h3) && NoDeletionSince(h1, h3)
  {
    ExtendsChain(h1, h2, h3);
    forall i | |h1| <= i < |h2|
      ensures h3[i] == h2[i]
    {
      assert h3[..|h2|][i] == h3[i];
    }
  }

  /** Brackets that hold after `h2` hold after `h1` when nothing was
      triggered in between. */
  lemma BracketsBefore(h1: seq<Call>, h2: seq<Call>, h3: seq<Call>)
    requires Extends(h1, h2) && Extends(h2, h3)
    requires NoTriggerSince(h1, h2) && TriggersBracketed(h2, h3)
    ensures TriggersBracketed(h1, h3)
  {
    forall i | |h1| <= i < |h2|
      ensures h3[i] == h2[i]
    {
      assert h3[..|h2|][i] == h3[i];
    }
  }

  /** Brackets that hold up to `h2` still hold after calls that trigger
      nothing, unless `h2` ends with the trigger itself. */
  lemma BracketsAfter(h1: seq<Call>, h2: seq<Call>, h3: seq<Call>)
    requires Extends(h1, h2) && Extends(h2, h3)
    requires TriggersBracketed(h1, h2) && NoTriggerSince(h2, h3)
    requires |h1| < |h2| ==> !h2[|h2| - 1].TriggerRefresh?
    ensures TriggersBracketed(h1, h3)
  {
    forall i | 0 <= i < |h2|
      ensures h3[i] == h2[i]
    {
      assert h3[..|h2|][i] == h3[i];
    }
  }

  /** The wait after the import adds at most the end of the wait. */
  lemma ImportWaitKinds(remote: Remote, h: seq<Call>, a: DeployArgs, ids: (Value, Value))
    ensures var w := WaitStep(remote, h + [Import(a.uploadName)] + [TakeOver(ids.0)], ids.1);
      NoTriggerSince(h, w.history) && NoDeletionSince(h, w.history)
  {
    var w := WaitStep(remote, h + [Import(a.uploadName)] + [TakeOver(ids.0)], ids.1);
    if w.result.Ok? {
      Snoc3(h, Import(a.uploadName), TakeOver(ids.0), WaitEnded(ids.1));
      AppendQuiet(h, [Import(a.uploadName), TakeOver(ids.0), WaitEnded(ids.1)]);
    } else {
      Snoc2(h, Import(a.uploadName), TakeOver(ids.0));
      AppendQuiet(h, [Import(a.uploadName), TakeOver(ids.0)]);
    }
  }

  lemma ImportKinds(remote: Remote, h: seq<Call>, a: DeployArgs)
    ensures NoTriggerSince(h, ImportStaging(remote, h, a).history)
    ensures NoDeletionSince(h, ImportStaging(remote, h, a).history)
  {
    var h2 := h + [Import(a.uploadName)];
    match TryGetByName(remote.reports(h2), a.uploadName, DuplicateReport(a.uploadName, a.groupId))
    case Err(_) =>
      AppendQuiet(h, [Import(a.uploadName)]);
    case Ok(found) =>
      match ReportIds(found, "Id", "DatasetId")
      case Err(_) =>
        AppendQuiet(h, [Import(a.uploadName)]);
      case Ok(ids) =>
        ImportWaitKinds(remote, h, a, ids);
  }

  /** Taking over the earlier staging report adds at most that call. */
  lemma TakeOverKinds(h: seq<Call>, before: Option<Record>)
    ensures var t := TakeOverBefore(h, before);
      Extends(h, t.history) && NoTriggerSince(h, t.history) && NoDeletionSince(h, t.history)
  {
    var t := TakeOverBefore(h, before);
    var pre: seq<Call> := t.history[|h|..];
    assert t.history == h + pre && Quiet(pre);
    AppendQuiet(h, pre);
  }

  lemma UploadKinds(remote: Remote, h: seq<Call>, a: DeployArgs)
    ensures NoTriggerSince(h, UploadPhase(remote, h, a).history)
    ensures NoDeletionSince(h, UploadPhase(remote, h, a).history)
  {
    match TryGetByName(remote.reports(h), a.uploadName, DuplicateReport(a.uploadName, a.groupId))
    case Err(_) =>
    case Ok(before) =>
      UploadShape(remote, h, a, before);
      var t := TakeOverBefore(h, before);
      TakeOverKinds(h, before);
      if t.result.Ok? {
        var s := ImportStaging(remote, t.history, a);
        ImportKinds(remote, t.history, a);
        ExtendsChain(t.history, t.history + [Import(a.uploadName)], s.history);
        NoTriggerChain(h, t.history, s.history);
        NoDeletionChain(h, t.history, s.history);
      }
  }

  /** The binding loop only binds. */
  lemma BindAllKinds(h: seq<Call>, d: Value, dict: Dict)
    ensures var s := BindAll(h, d, dict);
      Extends(h, s.history) && forall i :: |h| <= i < |s.history| ==> s.history[i].BindToGateway?
  {
    var s := BindAll(h, d, dict);
    BindAllSpec(h, d, dict);
    var k: nat := if s.result.Ok? then |dict| else
      var k :| 0 <= k < |dict| && Lookup(dict[k].1, "Id").None? && BoundInOrder(h, s.history, d, dict, k); k;
    assert BoundInOrder(h, s.history, d, dict, k);
    forall i | |h| <= i < |s.history|
      ensures s.history[i].BindToGateway?
    {
      assert s.history[|h| + (i - |h|)] == BindToGateway(d, dict[i - |h|].0, [Lookup(dict[i - |h|].1, "Id").value]);
    }
  }

  lemma BindKinds(remote: Remote, h: seq<Call>, d: Value)
    ensures NoTriggerSince(h, BindPhase(remote, h, d).history)
    ensures NoDeletionSince(h, BindPhase(remote, h, d).history)
  {
    match Matching(remote.gatewayDatasources(h), "GatewayType", Str("TenantCloud"))
    case Err(_) =>
    case Ok(tenant) =>
      var p := PartitionKeys(remote.datasetDatasources(h, d), tenant);
      match ManagedByCluster(ByKey(tenant, BuildKey), p.managed)
      case Err(_) =>
      case Ok(dict) =>
        BindAllKinds(h, d, dict);
  }

  /** The promotion neither triggers nor deletes, and when it ends normally
      its last call rebinds or clones the final report. */
  predicate PromoteEnded(h: seq<Call>, p: Step<()>)
  {
    NoTriggerSince(h, p.history) && NoDeletionSince(h, p.history) &&
    (p.result.Ok? ==> |h| < |p.history| && (p.history[|p.history| - 1].Rebind? || p.history[|p.history| - 1].Clone?))
  }

  lemma PromoteNewKinds(remote: Remote, h: seq<Call>, a: DeployArgs, reportId: Value)
    ensures PromoteEnded(h, PromoteNew(remote, h, a, reportId))
  {
    AppendQuiet(h, [Clone(reportId, a.finalName)]);
  }

  lemma PromoteExistingKinds(remote: Remote, h: seq<Call>, reportId: Value, datasetId: Value, f: Record)
    ensures PromoteEnded(h, PromoteExisting(remote, h, reportId, datasetId, f))
  {
    var found := ReportIds(Some(f), "Id", "DatasetId");
    if found.Ok? {
      var ids := found.value;
      PromoteExistingShape(remote, h, reportId, datasetId, f, ids);
      var w := WaitStep(remote, h + [TakeOver(ids.0)], ids.1);
      if w.result.Err? {
        TakeOverEnded(h, ids.0, w.result.error);
      } else {
        PromotedEnded(h, ids.0, ids.1, UpdateContent(reportId, ids.0), Rebind(ids.0, datasetId));
      }
    }
  }

  /** A promotion that fails after taking the final report over. */
  lemma TakeOverEnded(h: seq<Call>, fid: Value, e: Error)
    ensures PromoteEnded(h, Step(h + [TakeOver(fid)], Err(e)))
  {
    AppendQuiet(h, [TakeOver(fid)]);
  }

  /** A promotion onto an existing report that ends normally ends quietly
      with a rebind. */
  lemma PromotedEnded(h: seq<Call>, fid: Value, fds: Value, update: Call, rebind: Call)
    requires update.UpdateContent? && rebind.Rebind?
    ensures PromoteEnded(h, Step(h + [TakeOver(fid)] + [WaitEnded(fds)] + [update, rebind], Ok(())))
  {
    PromotedCalls(h, fid, fds, update, rebind);
    AppendQuiet(h, [TakeOver(fid), WaitEnded(fds), update, rebind]);
  }

  lemma PromoteKinds(remote: Remote, h: seq<Call>, a: DeployArgs, reportId: Value, datasetId: Value)
    ensures PromoteEnded(h, PromotePhase(remote, h, a, reportId, datasetId))
  {
    match TryGetByName(remote.reports(h), a.finalName, DuplicateReport(a.finalName, a.groupId))
    case Err(_) =>
    case Ok(found) =>
      PromotePhaseFound(remote, h, a, reportId, datasetId, found);
      if found.None? {
        PromoteNewKinds(remote, h, a, reportId);
      } else {
        PromoteExistingKinds(remote, h, reportId, datasetId, found.value);
      }
  }

  /** The refresh deletes nothing. */
  lemma RefreshKinds(remote: Remote, h: seq<Call>, d: Value, schedule: bool)
    ensures NoDeletionSince(h, RefreshPhase(remote, h, d, schedule).history)
  {
    RefreshCalls(remote, h, d, schedule);
    RefreshCallsNoDeletion(h, d, RefreshPhase(remote, h, d, schedule).history, schedule);
  }

  lemma RefreshCallsNoDeletion(h: seq<Call>, d: Value, hist: seq<Call>, schedule: bool)
    requires hist == h || hist == h + [WaitEnded(d), TriggerRefresh(d)] ||
      hist == h + [WaitEnded(d), TriggerRefresh(d), WaitEnded(d)] + (if schedule then [SetSchedule(d)] else [])
    ensures NoDeletionSince(h, hist)
  {
    forall i | |h| <= i < |hist|
      ensures !hist[i].DeleteReport? && !hist[i].DeleteDataset?
    {
      if hist != h + [WaitEnded(d), TriggerRefresh(d)] {
        var extra := [WaitEnded(d), TriggerRefresh(d), WaitEnded(d)] + (if schedule then [SetSchedule(d)] else []);
        assert hist == h + extra;
        assert hist[i] == extra[i - |h|];
      }
    }
  }

  /** The refresh triggers only between waits, and when it ends normally its
      last call is not the trigger. */
  lemma RefreshTriggers(remote: Remote, h: seq<Call>, d: Value, schedule: bool)
    ensures var r := RefreshPhase(remote, h, d, schedule);
      TriggersBracketed(h, r.history) &&
      (r.result.Ok? ==> |h| < |r.history| && !r.history[|r.history| - 1].TriggerRefresh?)
  {
    var r := RefreshPhase(remote, h, d, schedule);
    RefreshCalls(remote, h, d, schedule);
    RefreshRecordedTriggers(h, d, schedule, r.history, r.result.Ok?);
  }

  /** The promotion deletes nothing and, ending normally, ends with a rebind
      or a clone. */
  lemma PromoteDeletesNothing(remote: Remote, h: seq<Call>, a: DeployArgs, reportId: Value, datasetId: Value)
    ensures var p := PromotePhase(remote, h, a, reportId, datasetId);
      NoDeletionSince(h, p.history) &&
      (p.result.Ok? ==> |h| < |p.history| && (p.history[|p.history| - 1].Rebind? || p.history[|p.history| - 1].Clone?))
  {
    PromoteKinds(remote, h, a, reportId, datasetId);
  }

  /** The promotion triggers nothing and, ending normally, ends with a rebind
      or a clone. */
  lemma PromoteTriggersNothing(remote: Remote, h: seq<Call>, a: DeployArgs, reportId: Value, datasetId: Value)
    ensures var p := PromotePhase(remote, h, a, reportId, datasetId);
      NoTriggerSince(h, p.history) &&
      (p.result.Ok? ==> |h| < |p.history| && (p.history[|p.history| - 1].Rebind? || p.history[|p.history| - 1].Clone?))
  {
    PromoteKinds(remote, h, a, reportId, datasetId);
  }

  /** The cleanup only deletes. */
  lemma CleanupKinds(remote: Remote, h: seq<Call>, a: DeployArgs)
    ensures NoTriggerSince(h, CleanupPhase(remote, h, a).history)
  {
    if a.cleanup.Some? {
      CleanupSparesExcluded(remote, h, a.cleanup.value, {a.finalName});
    }
  }

  /** From the refresh on, a refresh is triggered only between two waits. */
  lemma AfterBindBracketed(remote: Remote, h: seq<Call>, a: DeployArgs, reportId: Value, datasetId: Value)
    ensures TriggersBracketed(h, AfterBind(remote, h, a, reportId, datasetId).history)
  {
    var r := RefreshPhase(remote, h, datasetId, a.schedule);
    RefreshTriggers(remote, h, datasetId, a.schedule);
    if r.result.Ok? {
      AfterRefreshBracketed(remote, h, r.history, a, reportId, datasetId);
    }
  }

  /** The promotion and the cleanup keep the triggers of the refresh bracketed. */
  lemma AfterRefreshBracketed(remote: Remote, h: seq<Call>, hr: seq<Call>, a: DeployArgs, reportId: Value, datasetId: Value)
    requires Extends(h, hr) && TriggersBracketed(h, hr) && |h| < |hr| && !hr[|hr| - 1].TriggerRefresh?
    ensures var p := PromotePhase(remote, hr, a, reportId, datasetId);
      TriggersBracketed(h, (if p.result.Err? then p else CleanupPhase(remote, p.history, a)).history)
  {
    var p := PromotePhase(remote, hr, a, reportId, datasetId);
    PromoteTriggersNothing(remote, hr, a, reportId, datasetId);
    BracketsAfter(h, hr, p.history);
    if p.result.Ok? {
      var c := CleanupPhase(remote, p.history, a);
      CleanupKinds(remote, p.history, a);
      ExtendsChain(h, hr, p.history);
      BracketsAfter(h, p.history, c.history);
    }
  }

  /** The parameter update neither triggers nor deletes. */
  lemma ParametersKinds(h: seq<Call>, d: Value, parameters: Option<seq<(string, string)>>)
    ensures var pm := ParametersPhase(h, d, parameters);
      Extends(h, pm.history) && NoTriggerSince(h, pm.history) && NoDeletionSince(h, pm.history)
  {
    if parameters.Some? {
      AppendQuiet(h, [UpdateParameters(d, parameters.value)]);
    }
  }

  lemma QuietChain(h1: seq<Call>, h2: seq<Call>, h3: seq<Call>, h4: seq<Call>)
    requires Extends(h1, h2) && Extends(h2, h3) && Extends(h3, h4)
    requires NoTriggerSince(h1, h2) && NoTriggerSince(h2, h3) && NoTriggerSince(h3, h4)
    requires NoDeletionSince(h1, h2) && NoDeletionSince(h2, h3) && NoDeletionSince(h3, h4)
    ensures Extends(h1, h4) && NoTriggerSince(h1, h4) && NoDeletionSince(h1, h4)
  {
    NoTriggerChain(h1, h2, h3);
    NoDeletionChain(h1, h2, h3);
    NoTriggerChain(h1, h3, h4);
    NoDeletionChain(h1, h3, h4);
  }

  /** Up to the refresh, nothing is triggered or deleted. */
  lemma BeforeRefreshKinds(remote: Remote, h: seq<Call>, a: DeployArgs, u: Step<(Value, Value)>, hb: seq<Call>)
    requires u == UploadPhase(remote, h, a) && u.result.Ok?
    requires hb == BindPhase(remote, ParametersPhase(u.history, u.result.value.1, a.parameters).history, u.result.value.1).history
    ensures Extends(h, hb) && NoTriggerSince(h, hb) && NoDeletionSince(h, hb)
  {
    var d := u.result.value.1;
    var pm := ParametersPhase(u.history, d, a.parameters);
    UploadKinds(remote, h, a);
    ParametersKinds(u.history, d, a.parameters);
    BindKinds(remote, pm.history, d);
    QuietChain(h, u.history, pm.history, hb);
  }

  /** The whole deployment triggers a refresh only between two waits on its
      dataset: right after one has ended, and followed, if the deployment goes
      on, by the end of the next. */
  lemma DeployTriggersBetweenWaits(remote: Remote, h: seq<Call>, a: DeployArgs)
    ensures var hist := DeployRun(remote, h, a).history;
      Extends(h, hist) && TriggersBracketed(h, hist)
  {
    var u := UploadPhase(remote, h, a);
    DeployRunShape(remote, h, a);
    if u.result.Err? {
      UploadKinds(remote, h, a);
      NoTriggerBracketed(h, u.history);
    } else {
      var d := u.result.value.1;
      var b := BindPhase(remote, ParametersPhase(u.history, d, a.parameters).history, d);
      BeforeRefreshKinds(remote, h, a, u, b.history);
      if b.result.Err? {
        NoTriggerBracketed(h, b.history);
      } else {
        var s := AfterBind(remote, b.history, a, u.result.value.0, d);
        AfterBindBracketed(remote, b.history, a, u.result.value.0, d);
        BracketsBefore(h, b.history, s.history);
        ExtendsChain(h, b.history, s.history);
      }
    }
  }

  /** Without triggers, every trigger is bracketed. */
  lemma NoTriggerBracketed(h: seq<Call>, hist: seq<Call>)
    requires NoTriggerSince(h, hist)
    ensures TriggersBracketed(h, hist)
  {
  }

  /** The sweep at position `k` of `hist` selected the report `hist[i]` deletes. */
  predicate SelectedBefore(remote: Remote, hist: seq<Call>, i: int, matches: string -> bool, exclude: set<string>)
  {
    0 <= i < |hist| &&
    exists k :: 0 <= k <= i && DeletesSelectedReport(remote.reports(hist[..k]), matches, exclude, hist[i])
  }

  /** The final report was updated and rebound, or cloned, before position `i`. */
  predicate PromotedBefore(h: seq<Call>, hist: seq<Call>, i: int)
  {
    i <= |hist| && exists j :: |h| <= j < i && (hist[j].Rebind? || hist[j].Clone?)
  }

  /** Deletions after `h` come only from a cleanup run after the promotion,
      and delete only reports that sweep selected. */
  predicate DeletesAfterPromotion(remote: Remote, h: seq<Call>, hist: seq<Call>, a: DeployArgs)
  {
    (forall i :: |h| <= i < |hist| && (hist[i].DeleteReport? || hist[i].DeleteDataset?) ==>
      a.cleanup.Some? && PromotedBefore(h, hist, i)) &&
    (forall i :: |h| <= i < |hist| && hist[i].DeleteReport? ==>
      a.cleanup.Some? && SelectedBefore(remote, hist, i, a.cleanup.value, {a.finalName}))
  }

  /** The cleanup step: `hp` is the history when the promotion has ended
      normally. */
  lemma DeletionsInCleanup(remote: Remote, h: seq<Call>, hp: seq<Call>, a: DeployArgs)
    requires Extends(h, hp) && NoDeletionSince(h, hp)
    requires |h| < |hp| && (hp[|hp| - 1].Rebind? || hp[|hp| - 1].Clone?)
    ensures DeletesAfterPromotion(remote, h, CleanupPhase(remote, hp, a).history, a)
  {
    var hist := CleanupPhase(remote, hp, a).history;
    forall i | |h| <= i < |hp|
      ensures hist[i] == hp[i]
    {
      assert hist[..|hp|][i] == hist[i];
    }
    if a.cleanup.Some? {
      CleanupSparesExcluded(remote, hp, a.cleanup.value, {a.finalName});
      forall i | |h| <= i < |hist| && (hist[i].DeleteReport? || hist[i].DeleteDataset?)
        ensures PromotedBefore(h, hist, i)
      {
        assert hist[|hp| - 1] == hp[|hp| - 1];
      }
      forall i | |h| <= i < |hist| && hist[i].DeleteReport?
        ensures SelectedBefore(remote, hist, i, a.cleanup.value, {a.finalName})
      {
        assert hist[..|hp|] == hp;
      }
    }
  }

  /** From the refresh on, deletions come only from the cleanup. */
  lemma AfterBindDeletes(remote: Remote, h: seq<Call>, a: DeployArgs, reportId: Value, datasetId: Value)
    ensures DeletesAfterPromotion(remote, h, AfterBind(remote, h, a, reportId, datasetId).history, a)
  {
    var r := RefreshPhase(remote, h, datasetId, a.schedule);
    AfterBindShape(remote, h, a, reportId, datasetId);
    RefreshKinds(remote, h, datasetId, a.schedule);
    if r.result.Err? {
      NothingDeleted(remote, h, r.history, a);
    } else {
      var p := PromotePhase(remote, r.history, a, reportId, datasetId);
      PromoteDeletesNothing(remote, r.history, a, reportId, datasetId);
      if p.result.Err? {
        NoDeletionChain(h, r.history, p.history);
        NothingDeleted(remote, h, p.history, a);
      } else {
        DeletionsAfterPromotion(remote, h, r.history, p.history, a);
      }
    }
  }

  /** Without deletions the property holds trivially. */
  lemma NothingDeleted(remote: Remote, h: seq<Call>, hist: seq<Call>, a: DeployArgs)
    requires NoDeletionSince(h, hist)
    ensures DeletesAfterPromotion(remote, h, hist, a)
  {
  }

  /** A refresh and a promotion that delete nothing, followed by the cleanup. */
  lemma DeletionsAfterPromotion(remote: Remote, h: seq<Call>, hr: seq<Call>, hp: seq<Call>, a: DeployArgs)
    requires Extends(h, hr) && Extends(hr, hp) && NoDeletionSince(h, hr) && NoDeletionSince(hr, hp)
    requires |hr| < |hp| && (hp[|hp| - 1].Rebind? || hp[|hp| - 1].Clone?)
    ensures DeletesAfterPromotion(remote, h, CleanupPhase(remote, hp, a).history, a)
  {
    NoDeletionChain(h, hr, hp);
    DeletionsInCleanup(remote, h, hp, a);
  }

  /** Deletions with fewer calls before them carry over to a longer prefix
      that deletes nothing. */
  lemma DeletesAfterPromotionBefore(remote: Remote, h1: seq<Call>, h2: seq<Call>, hist: seq<Call>, a: DeployArgs)
    requires Extends(h1, h2) && Extends(h2, hist) && NoDeletionSince(h1, h2)
    requires DeletesAfterPromotion(remote, h2, hist, a)
    ensures DeletesAfterPromotion(remote, h1, hist, a)
  {
    forall i | |h1| <= i < |h2|
      ensures hist[i] == h2[i]
    {
      assert hist[..|h2|][i] == hist[i];
    }
  }

  /** A deployment deletes only when given a cleanup pattern, only after the
      final report was promoted, and only reports the sweep selected, so
      never a report named like the final report. */
  lemma DeployDeletesOnlyAfterPromotion(remote: Remote, h: seq<Call>, a: DeployArgs)
    ensures var hist := DeployRun(remote, h, a).history;
      Extends(h, hist) && DeletesAfterPromotion(remote, h, hist, a)
  {
    var u := UploadPhase(remote, h, a);
    DeployRunShape(remote, h, a);
    if u.result.Err? {
      UploadKinds(remote, h, a);
      NothingDeleted(remote, h, u.history, a);
    } else {
      var d := u.result.value.1;
      var b := BindPhase(remote, ParametersPhase(u.history, d, a.parameters).history, d);
      BeforeRefreshKinds(remote, h, a, u, b.history);
      if b.result.Err? {
        NothingDeleted(remote, h, b.history, a);
      } else {
        var s := AfterBind(remote, b.history, a, u.result.value.0, d);
        AfterBindDeletes(remote, b.history, a, u.result.value.0, d);
        DeletesAfterPromotionBefore(remote, h, b.history, s.history, a);
        ExtendsChain(h, b.history, s.history);
      }
    }
  }

  /** A staging report left by an earlier run is taken over before the new
      file is imported over it. */
  lemma DeployTakesOverStagingFirst(remote: Remote, h: seq<Call>, a: DeployArgs, rb: Record, id: Value)
    requires TryGetByName(remote.reports(h), a.uploadName, DuplicateReport(a.uploadName, a.groupId)) == Ok(Some(rb))
    requires Has(rb, "Id", id)
    ensures var hist := DeployRun(remote, h, a).history;
      |hist| >= |h| + 2 && hist[|h|] == TakeOver(id) && hist[|h| + 1] == Import(a.uploadName)
  {
    var u := UploadPhase(remote, h, a);
    UploadTakesOverFirst(remote, h, a, rb, id);
    var hist := DeployRun(remote, h, a).history;
    assert hist[..|u.history|][|h|] == hist[|h|] && hist[..|u.history|][|h| + 1] == hist[|h| + 1];
  }
}
