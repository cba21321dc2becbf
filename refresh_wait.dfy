/** `wait_for_end_of_any_active_dataset_refresh`
    (powercicd/powerbi/powerbi_client.py): poll the refresh history of a
    dataset until no refresh is in status `Unknown`, giving up once more than
    the timeout has elapsed since the start. The clock is abstract: `lag(n)` is
    the time spent outside `sleep` before the `n`-th reading of the clock, and
    each `sleep` lasts the polling interval. */
module RefreshWait {
  import opened Results
  import opened Json
  import opened Records

  /** `active_refresh_timeout_seconds` and `active_refresh_polling_seconds` */
  const Timeout: nat := 60 * 60 * 20
  const Polling: nat := 60

  function TimeoutMessage(): Error
  {
    TimeoutError("Waiting for the end of any active dataset refresh took too long.")
  }

  /** `[r for r in refreshes if r["status"] == "Unknown"]`: the refreshes still
      running, as the loop evidently means to select them. */
  function ActiveRefreshes(refreshes: seq<Record>): Result<seq<Record>>
  {
    Matching(refreshes, "status", Str("Unknown"))
  }

  /** The selection as written, `r.status` on each refresh: a dictionary has no
      attribute `status`, so any refresh in the list raises `AttributeError`. */
  function ActiveRefreshesAsWritten(refreshes: seq<Record>): Result<seq<Record>>
  {
    if refreshes == [] then Ok([]) else Err(AttributeError("status"))
  }

  /** Seconds between the start of the wait and the `n`-th clock reading. */
  function Elapsed(lag: nat -> nat, n: nat): nat
  {
    if n == 0 then lag(0) else Elapsed(lag, n - 1) + Polling + lag(n)
  }

  /** At least one polling interval passes between two clock readings. */
  lemma {:induction false} ElapsedGrows(lag: nat -> nat, m: nat, n: nat)
    requires m <= n
    ensures Elapsed(lag, m) + (n - m) * Polling <= Elapsed(lag, n)
    decreases n
  {
    if m < n {
      ElapsedGrows(lag, m, n - 1);
    }
  }

  /** The wait from the `n`-th clock reading on, with `active` selecting the
      running refreshes of a poll; `Ok(k)` when it returns after `k` polls. */
  function Waited(active: seq<Record> -> Result<seq<Record>>, polls: nat -> seq<Record>, lag: nat -> nat, n: nat): Result<nat>
    decreases if Elapsed(lag, n) <= Timeout then Timeout + 1 - Elapsed(lag, n) else 0
  {
    if Elapsed(lag, n) > Timeout then Err(TimeoutMessage())
    else
      var running :- active(polls(n));
      if |running| == 0 then Ok(n + 1) else Waited(active, polls, lag, n + 1)
  }

  /** The outcomes of the `n`-th pass of the loop, one lemma each. */
  lemma WaitedTimesOutAt(active: seq<Record> -> Result<seq<Record>>, polls: nat -> seq<Record>, lag: nat -> nat, n: nat)
    requires Elapsed(lag, n) > Timeout
    ensures Waited(active, polls, lag, n) == Err(TimeoutMessage())
  {
  }

  lemma WaitedFailsAt(active: seq<Record> -> Result<seq<Record>>, polls: nat -> seq<Record>, lag: nat -> nat, n: nat)
    requires Elapsed(lag, n) <= Timeout && active(polls(n)).Err?
    ensures Waited(active, polls, lag, n) == Err(active(polls(n)).error)
  {
  }

  lemma WaitedEndsAt(active: seq<Record> -> Result<seq<Record>>, polls: nat -> seq<Record>, lag: nat -> nat, n: nat)
    requires Elapsed(lag, n) <= Timeout && active(polls(n)) == Ok([])
    ensures Waited(active, polls, lag, n) == Ok(n + 1)
  {
  }

  lemma WaitedGoesOnAt(active: seq<Record> -> Result<seq<Record>>, polls: nat -> seq<Record>, lag: nat -> nat, n: nat)
    requires Elapsed(lag, n) <= Timeout && active(polls(n)).Ok? && |active(polls(n)).value| > 0
    ensures Waited(active, polls, lag, n) == Waited(active, polls, lag, n + 1)
    ensures Elapsed(lag, n + 1) == Elapsed(lag, n) + Polling + lag(n + 1)
  {
  }

  /** The polling loop: reads the clock, selects the running refreshes of
      the current poll with `active`, and sleeps one interval while any runs.
      `Ok(k)` when it returns after `k` polls. */
  method PollUntilIdle(active: seq<Record> -> Result<seq<Record>>, polls: nat -> seq<Record>, lag: nat -> nat) returns (r: Result<nat>)
    ensures r == Waited(active, polls, lag, 0)
  {
    var n := 0;
    var elapsed := lag(0);
    while true
      invariant elapsed == Elapsed(lag, n)
      invariant Waited(active, polls, lag, 0) == Waited(active, polls, lag, n)
      decreases Timeout + 1 - elapsed
    {
      if elapsed > Timeout {
        WaitedTimesOutAt(active, polls, lag, n);
        return Err(TimeoutMessage());
      }
      var selected := active(polls(n));
      if selected.Err? {
        WaitedFailsAt(active, polls, lag, n);
        return Err(selected.error);
      }
      if |selected.value| == 0 {
        WaitedEndsAt(active, polls, lag, n);
        return Ok(n + 1);
      }
      WaitedGoesOnAt(active, polls, lag, n);
      n := n + 1;
      elapsed := elapsed + Polling + lag(n);
    }
  }

  /** Poll `j` came in time and found refreshes still running. */
  predicate Busy(active: seq<Record> -> Result<seq<Record>>, polls: nat -> seq<Record>, lag: nat -> nat, j: nat)
  {
    Elapsed(lag, j) <= Timeout && active(polls(j)).Ok? && |active(polls(j)).value| > 0
  }

  /** Every poll from `n` up to, not including, `k` was busy. */
  predicate BusyBetween(active: seq<Record> -> Result<seq<Record>>, polls: nat -> seq<Record>, lag: nat -> nat, n: nat, k: nat)
  {
    n <= k && forall j :: n <= j < k ==> Busy(active, polls, lag, j)
  }

  /** Busy polls change nothing: the wait from `n` ends as the wait from `k`. */
  lemma {:induction false} WaitedSkipsBusy(active: seq<Record> -> Result<seq<Record>>, polls: nat -> seq<Record>, lag: nat -> nat, n: nat, k: nat)
    requires BusyBetween(active, polls, lag, n, k)
    ensures Waited(active, polls, lag, n) == Waited(active, polls, lag, k)
    decreases k - n
  {
    if n < k {
      assert Busy(active, polls, lag, n);
      WaitedSkipsBusy(active, polls, lag, n + 1, k);
    }
  }

  /** The first poll from `n` on that is not busy decides the wait. */
  lemma {:induction false} WaitedReachesIdle(active: seq<Record> -> Result<seq<Record>>, polls: nat -> seq<Record>, lag: nat -> nat, n: nat)
    ensures exists k :: BusyBetween(active, polls, lag, n, k) && !Busy(active, polls, lag, k)
    decreases if Elapsed(lag, n) <= Timeout then Timeout + 1 - Elapsed(lag, n) else 0
  {
    if Busy(active, polls, lag, n) {
      WaitedReachesIdle(active, polls, lag, n + 1);
      var k: nat :| BusyBetween(active, polls, lag, n + 1, k) && !Busy(active, polls, lag, k);
      assert BusyBetween(active, polls, lag, n, k);
    } else {
      assert BusyBetween(active, polls, lag, n, n);
    }
  }

  /** The wait returns after `k + 1` polls exactly when polls `0` to `k - 1`
      were busy and poll `k` came in time and found nothing running. */
  lemma WaitedOk(active: seq<Record> -> Result<seq<Record>>, polls: nat -> seq<Record>, lag: nat -> nat, k: nat)
    ensures Waited(active, polls, lag, 0) == Ok(k + 1) <==>
      BusyBetween(active, polls, lag, 0, k) && Elapsed(lag, k) <= Timeout && active(polls(k)) == Ok([])
  {
    WaitedReachesIdle(active, polls, lag, 0);
    var m: nat :| BusyBetween(active, polls, lag, 0, m) && !Busy(active, polls, lag, m);
    WaitedSkipsBusy(active, polls, lag, 0, m);
    if BusyBetween(active, polls, lag, 0, k) && Elapsed(lag, k) <= Timeout && active(polls(k)) == Ok([]) {
      assert !Busy(active, polls, lag, k);
      assert m == k;
    }
  }

  /** The wait fails with the timeout once the clock passes the timeout while
      every earlier poll was busy. */
  lemma WaitedTimesOut(active: seq<Record> -> Result<seq<Record>>, polls: nat -> seq<Record>, lag: nat -> nat, k: nat)
    requires BusyBetween(active, polls, lag, 0, k) && Elapsed(lag, k) > Timeout
    ensures Waited(active, polls, lag, 0) == Err(TimeoutMessage())
  {
    WaitedSkipsBusy(active, polls, lag, 0, k);
  }

  /** A poll whose selection fails ends the wait with that failure. */
  lemma WaitedFailsWithPoll(active: seq<Record> -> Result<seq<Record>>, polls: nat -> seq<Record>, lag: nat -> nat, k: nat)
    requires BusyBetween(active, polls, lag, 0, k) && Elapsed(lag, k) <= Timeout && active(polls(k)).Err?
    ensures Waited(active, polls, lag, 0) == Err(active(polls(k)).error)
  {
    WaitedSkipsBusy(active, polls, lag, 0, k);
  }

  /** However the refreshes behave, the wait polls at most
      `Timeout / Polling + 1` times. */
  lemma WaitedPollBound(active: seq<Record> -> Result<seq<Record>>, polls: nat -> seq<Record>, lag: nat -> nat)
    ensures Waited(active, polls, lag, 0).Ok? ==> 1 <= Waited(active, polls, lag, 0).value <= Timeout / Polling + 1
  {
    var r := Waited(active, polls, lag, 0);
    if r.Ok? {
      WaitedReachesIdle(active, polls, lag, 0);
      var m: nat :| BusyBetween(active, polls, lag, 0, m) && !Busy(active, polls, lag, m);
      WaitedSkipsBusy(active, polls, lag, 0, m);
      assert r == Ok(m + 1);
      ElapsedGrows(lag, 0, m);
    }
  }

  // ---------------------------------------------------------------------
  // The selection as written
  // ---------------------------------------------------------------------

  /** With the selection as written the wait returns only when the very first
      poll finds an empty refresh history; any refresh, finished or running,
      makes it fail. */
  lemma AsWrittenWaitNeedsEmptyHistory(polls: nat -> seq<Record>, lag: nat -> nat)
    ensures Waited(ActiveRefreshesAsWritten, polls, lag, 0).Ok? <==> lag(0) <= Timeout && polls(0) == []
    ensures lag(0) <= Timeout && polls(0) != [] ==>
      Waited(ActiveRefreshesAsWritten, polls, lag, 0) == Err(AttributeError("status"))
  {
  }

  /** A history holding one finished refresh: the intended wait returns after
      one poll, the wait as written fails. */
  lemma FinishedRefreshExample(done: Record, polls: nat -> seq<Record>, lag: nat -> nat)
    requires done == [Member("status", Str("Completed"))]
    requires polls(0) == [done] && lag(0) == 0
    ensures Waited(ActiveRefreshes, polls, lag, 0) == Ok(1)
    ensures Waited(ActiveRefreshesAsWritten, polls, lag, 0) == Err(AttributeError("status"))
  {
    assert ActiveRefreshes(polls(0)) == Ok([]) by {
      assert Lookup(done, "status") == Some(Str("Completed"));
      assert Str("Completed") != Str("Unknown") by {
        assert "Completed"[0] != "Unknown"[0];
      }
      assert [done][1..] == [];
    }
    assert Elapsed(lag, 0) == 0;
    assert BusyBetween(ActiveRefreshes, polls, lag, 0, 0);
    WaitedOk(ActiveRefreshes, polls, lag, 0);
    assert BusyBetween(ActiveRefreshesAsWritten, polls, lag, 0, 0);
    WaitedFailsWithPoll(ActiveRefreshesAsWritten, polls, lag, 0);
  }
}
