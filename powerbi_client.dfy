/** `PowerBiWebClient` (powercicd/powerbi/powerbi_client.py) as an object whose
    state is the list of calls it has made to the workspace. Each method is
    proved to make exactly the calls, and end exactly as, the function of the
    `Deploy` and `Cleanup` modules that describes it. */
module PowerBiClient {
  import opened Results
  import opened Json
  import opened Records
  import opened DatasourceKeys
  import opened Datasources
  import opened PowerBiApi
  import opened RefreshWait
  import opened Cleanup
  import opened Deploy

  class PowerBiWebClient {
    /** The workspace and the clock the client talks to. */
    const remote: Remote
    /** The calls made so far. */
    var history: seq<Call>

    constructor(remote: Remote)
      ensures this.remote == remote && history == []
    {
      this.remote := remote;
      history := [];
    }

    /** `wait_for_end_of_any_active_dataset_refresh`: poll until no refresh
        of the dataset is running, or fail once the timeout has passed. */
    method WaitForEndOfAnyActiveDatasetRefresh(datasetId: Value) returns (r: Result<()>)
      modifies this
      ensures Step(history, r) == WaitStep(remote, old(history), datasetId)
    {
      var outcome := PollUntilIdle(ActiveRefreshes, remote.refreshes(history, datasetId), remote.lag(history, datasetId));
      WaitStepOutcome(remote, history, datasetId, outcome);
      if outcome.Err? {
        return Err(outcome.error);
      }
      history := history + [WaitEnded(datasetId)];
      r := Ok(());
    }

    /** `cleanup_reports(group_id, cleanup_regex, exclude_report_names)` */
    method CleanupReports(matches: string -> bool, exclude: set<string>) returns (r: Result<()>)
      modifies this
      ensures Step(history, r) == CleanupRun(remote, old(history), matches, exclude)
    {
      var doomed :- ReportsToDelete(remote.reports(history), matches, exclude);
      var deleted :- DeleteEachReport(doomed);
      var ids :- ReferencedDatasetIds(remote.reports(history));
      var unused :- DatasetsToDelete(remote.datasets(history), ids);
      r := DeleteEachDataset(unused);
    }

    /** The loop over `reports_to_delete`. */
    method DeleteEachReport(doomed: seq<Record>) returns (r: Result<()>)
      modifies this
      ensures Step(history, r) == DeleteReports(old(history), doomed)
    {
      var i := 0;
      while i < |doomed|
        invariant 0 <= i <= |doomed|
        invariant Step(history, Ok(())) == DeleteReports(old(history), doomed[..i])
      {
        assert doomed[..i + 1][..i] == doomed[..i];
        var reportId := Field(doomed[i], "Id");
        if reportId.Err? {
          DeleteReportsStuck(old(history), doomed, i + 1);
          return Err(reportId.error);
        }
        history := history + [DeleteReport(reportId.value)];
        i := i + 1;
      }
      assert doomed[..i] == doomed;
      r := Ok(());
    }

    /** The loop over `datasets_to_delete`. */
    method DeleteEachDataset(unused: seq<Record>) returns (r: Result<()>)
      modifies this
      ensures Step(history, r) == DeleteDatasets(old(history), unused)
    {
      var j := 0;
      while j < |unused|
        invariant 0 <= j <= |unused|
        invariant Step(history, Ok(())) == DeleteDatasets(old(history), unused[..j])
      {
        assert unused[..j + 1][..j] == unused[..j];
        var datasetId := Field(unused[j], "Id");
        if datasetId.Err? {
          DeleteDatasetsStuck(old(history), unused, j + 1);
          return Err(datasetId.error);
        }
        var name := Field(unused[j], "Name");
        if name.Err? {
          DeleteDatasetsStuck(old(history), unused, j + 1);
          return Err(name.error);
        }
        history := history + [DeleteDataset(datasetId.value)];
        j := j + 1;
      }
      assert unused[..j] == unused;
      r := Ok(());
    }

    /** The start of `deploy_report`: take over an earlier staging report,
        import the file, take over the new report and wait for its dataset.
        Returns the report's id and its dataset's id. */
    method UploadStagingReport(a: DeployArgs) returns (r: Result<(Value, Value)>)
      modifies this
      ensures Step(history, r) == UploadPhase(remote, old(history), a)
    {
      var dup := DuplicateReport(a.uploadName, a.groupId);
      var before :- TryGetByName(remote.reports(history), a.uploadName, dup);
      if before.Some? {
        var beforeId :- Field(before.value, "Id");
        history := history + [TakeOver(beforeId)];
      }
      r := ImportStagingReport(a);
    }

    /** Import the file, take over the new staging report and wait for its
        dataset. */
    method ImportStagingReport(a: DeployArgs) returns (r: Result<(Value, Value)>)
      modifies this
      ensures Step(history, r) == ImportStaging(remote, old(history), a)
    {
      history := history + [Import(a.uploadName)];
      var report :- TryGetByName(remote.reports(history), a.uploadName, DuplicateReport(a.uploadName, a.groupId));
      var ids :- ReportIds(report, "Id", "DatasetId");
      history := history + [TakeOver(ids.0)];
      var waited := WaitForEndOfAnyActiveDatasetRefresh(ids.1);
      if waited.Err? {
        return Err(waited.error);
      }
      r := Ok(ids);
    }

    /** Bind each gateway cluster to its datasource among the tenant's
        datasources that the dataset uses. */
    method BindManagedDatasources(datasetId: Value) returns (r: Result<()>)
      modifies this
      ensures Step(history, r) == BindPhase(remote, old(history), datasetId)
    {
      var tenant :- Matching(remote.gatewayDatasources(history), "GatewayType", Str("TenantCloud"));
      var p := PartitionKeys(remote.datasetDatasources(history, datasetId), tenant);
      var byGateway :- ManagedByCluster(ByKey(tenant, BuildKey), p.managed);
      r := BindEachGateway(datasetId, byGateway);
    }

    /** The loop over `managed_datasource_by_gateway_id.items()`. */
    method BindEachGateway(datasetId: Value, byGateway: Dict) returns (r: Result<()>)
      modifies this
      ensures Step(history, r) == BindAll(old(history), datasetId, byGateway)
    {
      var i := 0;
      while i < |byGateway|
        invariant 0 <= i <= |byGateway|
        invariant Step(history, Ok(())) == BindAll(old(history), datasetId, byGateway[..i])
      {
        assert byGateway[..i + 1][..i] == byGateway[..i];
        var (gatewayId, datasource) := byGateway[i];
        var datasourceId := Field(datasource, "Id");
        if datasourceId.Err? {
          BindAllStuck(old(history), datasetId, byGateway, i + 1);
          return Err(datasourceId.error);
        }
        history := history + [BindToGateway(datasetId, gatewayId, [datasourceId.value])];
        i := i + 1;
      }
      assert byGateway[..i] == byGateway;
      r := Ok(());
    }

    /** Wait, trigger a refresh, wait again, then set the schedule. */
    method RefreshDataset(datasetId: Value, schedule: bool) returns (r: Result<()>)
      modifies this
      ensures Step(history, r) == RefreshPhase(remote, old(history), datasetId, schedule)
    {
      var first := WaitForEndOfAnyActiveDatasetRefresh(datasetId);
      if first.Err? {
        return first;
      }
      history := history + [TriggerRefresh(datasetId)];
      var second := WaitForEndOfAnyActiveDatasetRefresh(datasetId);
      if second.Err? {
        return second;
      }
      if schedule {
        history := history + [SetSchedule(datasetId)];
      }
      r := Ok(());
    }

    /** Copy the staging report into the final report, or clone it under the
        final name when there is none. */
    method FinalizeReport(a: DeployArgs, reportId: Value, datasetId: Value) returns (r: Result<()>)
      modifies this
      ensures Step(history, r) == PromotePhase(remote, old(history), a, reportId, datasetId)
    {
      var final :- TryGetByName(remote.reports(history), a.finalName, DuplicateReport(a.finalName, a.groupId));
      PromotePhaseFound(remote, history, a, reportId, datasetId, final);
      if final.Some? {
        r := PromoteOntoFinal(reportId, datasetId, final.value);
      } else {
        r := CloneAsFinal(a, reportId);
      }
    }

    /** The final report exists: take it over, wait for its dataset, copy the
        staging report into it and rebind it to the staging dataset. */
    method PromoteOntoFinal(reportId: Value, datasetId: Value, final: Record) returns (r: Result<()>)
      modifies this
      ensures Step(history, r) == PromoteExisting(remote, old(history), reportId, datasetId, final)
    {
      var ids :- ReportIds(Some(final), "Id", "DatasetId");
      PromoteExistingShape(remote, history, reportId, datasetId, final, ids);
      history := history + [TakeOver(ids.0)];
      var waited := WaitForEndOfAnyActiveDatasetRefresh(ids.1);
      if waited.Err? {
        return waited;
      }
      history := history + [UpdateContent(reportId, ids.0), Rebind(ids.0, datasetId)];
      r := Ok(());
    }

    /** No final report yet: clone the staging report under the final name
        and read the clone's ids. */
    method CloneAsFinal(a: DeployArgs, reportId: Value) returns (r: Result<()>)
      modifies this
      ensures Step(history, r) == PromoteNew(remote, old(history), a, reportId)
    {
      history := history + [Clone(reportId, a.finalName)];
      var clone :- TryGetByName(remote.reports(history), a.finalName, DuplicateReport(a.finalName, a.groupId));
      var ids :- ReportIds(clone, "Id", "DatasetId");
      r := Ok(());
    }

    /** `deploy_report` */
    method DeployReport(a: DeployArgs) returns (r: Result<()>)
      modifies this
      ensures Step(history, r) == DeployRun(remote, old(history), a)
    {
      var ids :- UploadStagingReport(a);
      if a.parameters.Some? {
        history := history + [UpdateParameters(ids.1, a.parameters.value)];
      }
      var bound :- BindManagedDatasources(ids.1);
      ghost var afterBind := history;
      var refreshed := RefreshDataset(ids.1, a.schedule);
      if refreshed.Err? {
        return refreshed;
      }
      var finalized := FinalizeReport(a, ids.0, ids.1);
      if finalized.Err? {
        return finalized;
      }
      if a.cleanup.Some? {
        r := CleanupReports(a.cleanup.value, {a.finalName});
      } else {
        r := Ok(());
      }
      assert Step(history, r) == AfterBind(remote, afterBind, a, ids.0, ids.1);
    }
  }
}
