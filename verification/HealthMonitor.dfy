/** Health checks of a container: what a sequence of probe results adds up to. */
module HealthMonitor {
  const MAX_LOG_ENTRIES := 5
  const DEFAULT_RETRIES := 3

  datatype ProbeResult = ProbeResult(exitCode: int, output: string)

  datatype Status = Starting | Healthy | Unhealthy

  datatype HealthState = HealthState(status: Status, failingStreak: nat, log: seq<ProbeResult>)

  /** The configured number of retries, or the default. */
  function Retries(configured: int): (r: nat)
    ensures r > 0
  {
    if configured <= 0 then DEFAULT_RETRIES else configured
  }

  predicate Succeeded(r: ProbeResult)
  {
    r.exitCode == 0
  }

  function TrailingFailures(results: seq<ProbeResult>): nat
  {
    if results == [] || Succeeded(results[|results| - 1]) then 0
    else 1 + TrailingFailures(results[..|results| - 1])
  }

  function LastEntries(results: seq<ProbeResult>): seq<ProbeResult>
  {
    if |results| <= MAX_LOG_ENTRIES then results else results[|results| - MAX_LOG_ENTRIES..]
  }

  predicate EverSucceeded(results: seq<ProbeResult>)
  {
    exists i :: 0 <= i < |results| && Succeeded(results[i])
  }

  /** What a sequence of probe results means. */
  function Meaning(results: seq<ProbeResult>, retries: nat): HealthState
  {
    var streak := TrailingFailures(results);
    HealthState(
      if streak >= retries then Unhealthy else if EverSucceeded(results) then Healthy else Starting,
      streak,
      LastEntries(results))
  }

  class Health {
    var status: Status
    var failingStreak: nat
    var log: seq<ProbeResult>

    ghost function Value(): HealthState
      reads this
    {
      HealthState(status, failingStreak, log)
    }

    constructor ()
      ensures forall retries: nat :: retries > 0 ==> Value() == Meaning([], retries)
    {
      status, failingStreak, log := Starting, 0, [];
    }

    /** One more result turns the meaning of those before into the meaning of all of them. */
    method HandleProbeResult(result: ProbeResult, configured: int, ghost results: seq<ProbeResult>)
      returns (changed: bool)
      requires Value() == Meaning(results, Retries(configured))
      modifies this
      ensures Value() == Meaning(results + [result], Retries(configured))
      ensures changed <==> status != old(status)
    {
      var retries := Retries(configured);
      var oldStatus := status;
      ghost var all := results + [result];
      MeaningSnoc(results, result);
      if |log| >= MAX_LOG_ENTRIES {
        log := log[|log| + 1 - MAX_LOG_ENTRIES..] + [result];
      } else {
        log := log + [result];
      }
      if result.exitCode == 0 {
        failingStreak := 0;
        status := Healthy;
      } else {
        failingStreak := failingStreak + 1;
        if failingStreak >= retries {
          status := Unhealthy;
        }
      }
      changed := oldStatus != status;
    }

    /** Any sequence of results leaves exactly its meaning behind. */
    method HandleAll(results: seq<ProbeResult>, configured: int)
      requires Value() == Meaning([], Retries(configured))
      modifies this
      ensures Value() == Meaning(results, Retries(configured))
    {
      for i := 0 to |results|
        invariant Value() == Meaning(results[..i], Retries(configured))
      {
        var changed := HandleProbeResult(results[i], configured, results[..i]);
        assert results[..i] + [results[i]] == results[..i + 1];
      }
      assert results[..|results|] == results;
    }
  }

  lemma MeaningSnoc(results: seq<ProbeResult>, r: ProbeResult)
    ensures TrailingFailures(results + [r]) == if Succeeded(r) then 0 else TrailingFailures(results) + 1
    ensures EverSucceeded(results + [r]) <==> EverSucceeded(results) || Succeeded(r)
    ensures LastEntries(results + [r]) ==
            var log := LastEntries(results);
            if |log| >= MAX_LOG_ENTRIES then log[|log| + 1 - MAX_LOG_ENTRIES..] + [r] else log + [r]
  {
    var all := results + [r];
    assert all[..|results|] == results && all[|results|] == r;
    if EverSucceeded(results) {
      var i :| 0 <= i < |results| && Succeeded(results[i]);
      assert Succeeded(all[i]);
    }
  }

  /** A container with an unbroken run of failures of the full length is unhealthy, and only then. */
  lemma {:induction false} StreakIsFailures(results: seq<ProbeResult>, n: nat)
    ensures TrailingFailures(results) >= n <==>
            n <= |results| && forall i :: |results| - n <= i < |results| ==> !Succeeded(results[i])
  {
    if n > 0 && results != [] {
      var last := |results| - 1;
      StreakIsFailures(results[..last], n - 1);
      if n <= |results| && forall i :: |results| - n <= i < |results| ==> !Succeeded(results[i]) {
        forall i | |results[..last]| - (n - 1) <= i < |results[..last]| ensures !Succeeded(results[..last][i]) {
          assert !Succeeded(results[i]);
        }
      }
      if TrailingFailures(results) >= n {
        forall i | |results| - n <= i < |results| ensures !Succeeded(results[i]) {
          if i < last {
            assert !Succeeded(results[..last][i]);
          }
        }
      }
    }
  }

  /**
   What a status means: unhealthy when the configured number of results, three by
   default, failed in a row at the end; otherwise healthy once a probe succeeded
   and starting until then.  The log is what was recorded last, up to five results.
   */
  lemma StatusExactly(results: seq<ProbeResult>, configured: int)
    ensures var n := if configured > 0 then configured else 3;
            var m := Meaning(results, Retries(configured));
            && (m.status == Unhealthy <==>
                  n <= |results| && forall i :: |results| - n <= i < |results| ==> results[i].exitCode != 0)
            && (m.status == Starting ==> forall i :: 0 <= i < |results| ==> results[i].exitCode != 0)
            && (m.status == Healthy ==> exists i :: 0 <= i < |results| && results[i].exitCode == 0)
            && |m.log| == (if |results| < 5 then |results| else 5) && m.log == results[|results| - |m.log|..]
  {
    StreakIsFailures(results, Retries(configured));
  }
}
