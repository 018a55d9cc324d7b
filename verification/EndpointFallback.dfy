/**
 Trying registry endpoints in turn, for a pull and for a push: which endpoints
 are tried after earlier failures, and which error is reported in the end.
 */
module EndpointFallback {
  import opened Common

  datatype Version = V1 | V2 | Unknown(number: int)

  datatype Endpoint = Endpoint(version: Version, https: bool, host: string)

  datatype Cause = NoSupport(detail: int) | Other(detail: int)

  datatype Error = Failed(cause: Cause) | UnknownVersion(number: int)
  {
    predicate IsNoSupport() { Failed? && cause.NoSupport? }
    predicate IsOther() { Failed? && cause.Other? }
  }

  /** What a pull or push from one endpoint gives. */
  datatype Attempt =
    | Succeeds
    | Fails(cause: Cause, fallback: bool, confirmedV2: bool, transportOK: bool, cancelled: bool)

  datatype Outcome = Transferred(at: nat) | Stopped(at: nat) | Exhausted(lastErr: Option<Error>)

  /** After this attempt the next endpoint is considered. */
  predicate Continues(e: Endpoint, a: Attempt)
  {
    e.version.Unknown? || (a.Fails? && a.fallback && !a.cancelled)
  }

  predicate ConfirmsV2(e: Endpoint, a: Attempt)
  {
    !e.version.Unknown? && Continues(e, a) && a.confirmedV2
  }

  predicate ConfirmsTLS(e: Endpoint, a: Attempt)
  {
    !e.version.Unknown? && Continues(e, a) && a.transportOK && e.https
  }

  /** The error an endpoint that was passed over contributes. */
  function ErrorOf(e: Endpoint, a: Attempt): Error
    requires Continues(e, a)
  {
    if e.version.Unknown? then UnknownVersion(e.version.number) else Failed(a.cause)
  }

  // ---- which endpoints are visited ----

  /** A failed earlier attempt rules endpoint j out. */
  ghost predicate Barred(es: seq<Endpoint>, attempts: seq<Attempt>, visited: seq<nat>, j: nat)
    requires |es| == |attempts| && j < |es|
  {
    exists i :: i in visited && i < j && Bars(es[i], attempts[i], es[j])
  }

  predicate Bars(e: Endpoint, a: Attempt, later: Endpoint)
  {
    || (ConfirmsV2(e, a) && later.version == V1)
    || (ConfirmsTLS(e, a) && !later.https && later.host == e.host)
  }

  ghost predicate Increasing(visited: seq<nat>)
  {
    forall a, b :: 0 <= a < b < |visited| ==> visited[a] < visited[b]
  }

  /** Of the first n endpoints exactly those that are not barred were visited. */
  ghost predicate VisitsUnbarred(es: seq<Endpoint>, attempts: seq<Attempt>, visited: seq<nat>, n: nat)
    requires |es| == |attempts| && n <= |es|
  {
    && Increasing(visited)
    && (forall i :: i in visited ==> i < n)
    && forall j :: 0 <= j < n ==> (j in visited <==> !Barred(es, attempts, visited, j))
  }

  /** Following this rule leaves no choice. */
  lemma {:induction false} VisitedUnique(es: seq<Endpoint>, attempts: seq<Attempt>, v: seq<nat>, w: seq<nat>, n: nat, j: nat)
    requires |es| == |attempts| && j < n <= |es|
    requires VisitsUnbarred(es, attempts, v, n) && VisitsUnbarred(es, attempts, w, n)
    ensures j in v <==> j in w
    decreases j
  {
    forall i: nat | i < j ensures i in v <==> i in w {
      VisitedUnique(es, attempts, v, w, n, i);
    }
    assert Barred(es, attempts, v, j) <==> Barred(es, attempts, w, j);
  }

  // ---- which error is reported ----

  ghost predicate AllContinue(es: seq<Endpoint>, attempts: seq<Attempt>, visited: seq<nat>)
    requires |es| == |attempts|
  {
    forall k :: 0 <= k < |visited| ==> visited[k] < |es| && Continues(es[visited[k]], attempts[visited[k]])
  }

  ghost function Errors(es: seq<Endpoint>, attempts: seq<Attempt>, visited: seq<nat>): seq<Error>
    requires |es| == |attempts|
    requires AllContinue(es, attempts, visited)
  {
    if visited == [] then []
    else
      var last := visited[|visited| - 1];
      Errors(es, attempts, visited[..|visited| - 1]) + [ErrorOf(es[last], attempts[last])]
  }

  function LastOf(errs: seq<Error>): Option<Error>
  {
    if errs == [] then None else Some(errs[|errs| - 1])
  }

  lemma LastOfSnoc(errs: seq<Error>, e: Error)
    ensures LastOf(errs + [e]) == Some(e)
  {
  }

  function Relevant(errs: seq<Error>): seq<Error>
  {
    if errs == [] then []
    else
      var rest := Relevant(errs[..|errs| - 1]);
      if errs[|errs| - 1].IsNoSupport() then rest else rest + [errs[|errs| - 1]]
  }

  predicate HasOther(errs: seq<Error>)
  {
    exists i :: 0 <= i < |errs| && errs[i].IsOther()
  }

  /**
   The error an exhausted pull reports: the last that is not "no support" if an
   endpoint failed for another reason, else simply the last one.
   */
  function Reported(errs: seq<Error>): Option<Error>
  {
    if HasOther(errs) then LastOf(Relevant(errs)) else LastOf(errs)
  }

  lemma ReportedSnoc(errs: seq<Error>, e: Error)
    ensures HasOther(errs + [e]) <==> HasOther(errs) || e.IsOther()
    ensures Reported(errs + [e]) == if e.IsNoSupport() && HasOther(errs) then Reported(errs) else Some(e)
  {
    var all := errs + [e];
    assert all[..|errs|] == errs;
    if HasOther(errs) {
      var i :| 0 <= i < |errs| && errs[i].IsOther();
      assert all[i].IsOther();
    }
    if e.IsOther() {
      assert all[|errs|].IsOther();
    }
  }

  /**
   Once an endpoint failed for another reason than "no support", the error
   reported is the last one that is not "no support".
   */
  lemma {:induction false} ReportedIsLastReal(errs: seq<Error>, k: nat)
    requires HasOther(errs) && k < |errs|
    requires !errs[k].IsNoSupport() && forall i :: k < i < |errs| ==> errs[i].IsNoSupport()
    ensures Reported(errs) == Some(errs[k])
    decreases |errs|
  {
    var last := |errs| - 1;
    assert errs == errs[..last] + [errs[last]];
    ReportedSnoc(errs[..last], errs[last]);
    if k < last {
      ReportedIsLastReal(errs[..last], k);
    }
  }

  // ---- the loops ----

  /** What a loop has visited, and remembers, before endpoint n. */
  ghost predicate Progress(es: seq<Endpoint>, attempts: seq<Attempt>, visited: seq<nat>, n: nat,
                           confirmedV2: bool, confirmedTLS: set<string>)
    requires |es| == |attempts| && n <= |es|
  {
    && VisitsUnbarred(es, attempts, visited, n)
    && AllContinue(es, attempts, visited)
    && (confirmedV2 <==> exists i :: i in visited && ConfirmsV2(es[i], attempts[i]))
    && (forall h :: h in confirmedTLS <==> exists i :: i in visited && ConfirmsTLS(es[i], attempts[i]) && es[i].host == h)
  }

  predicate Skips(e: Endpoint, confirmedV2: bool, confirmedTLS: set<string>)
  {
    (confirmedV2 && e.version == V1) || (!e.https && e.host in confirmedTLS)
  }

  function NoteTLS(confirmedTLS: set<string>, e: Endpoint, a: Attempt): set<string>
  {
    if ConfirmsTLS(e, a) then confirmedTLS + {e.host} else confirmedTLS
  }

  lemma SkipsIsBarred(es: seq<Endpoint>, attempts: seq<Attempt>, visited: seq<nat>, n: nat,
                      confirmedV2: bool, confirmedTLS: set<string>)
    requires |es| == |attempts| && n < |es| && Progress(es, attempts, visited, n, confirmedV2, confirmedTLS)
    ensures Skips(es[n], confirmedV2, confirmedTLS) <==> Barred(es, attempts, visited, n)
  {
  }

  lemma VisitOne(es: seq<Endpoint>, attempts: seq<Attempt>, visited: seq<nat>, n: nat)
    requires |es| == |attempts| && n < |es| && VisitsUnbarred(es, attempts, visited, n)
    ensures !Barred(es, attempts, visited, n) ==> VisitsUnbarred(es, attempts, visited + [n], n + 1)
    ensures Barred(es, attempts, visited, n) ==> VisitsUnbarred(es, attempts, visited, n + 1)
  {
    assert n !in visited;
    assert forall k :: 0 <= k < |visited| ==> visited[k] in visited;
    forall j | 0 <= j <= n ensures Barred(es, attempts, visited + [n], j) <==> Barred(es, attempts, visited, j) {
      if Barred(es, attempts, visited, j) {
        var i :| i in visited && i < j && Bars(es[i], attempts[i], es[j]);
        assert i in visited + [n];
      }
    }
  }

  lemma SkipStep(es: seq<Endpoint>, attempts: seq<Attempt>, visited: seq<nat>, n: nat,
                 confirmedV2: bool, confirmedTLS: set<string>)
    requires |es| == |attempts| && n < |es| && Progress(es, attempts, visited, n, confirmedV2, confirmedTLS)
    requires Skips(es[n], confirmedV2, confirmedTLS)
    ensures Progress(es, attempts, visited, n + 1, confirmedV2, confirmedTLS)
  {
  }

  lemma EndStep(es: seq<Endpoint>, attempts: seq<Attempt>, visited: seq<nat>, n: nat,
                confirmedV2: bool, confirmedTLS: set<string>)
    requires |es| == |attempts| && n < |es| && Progress(es, attempts, visited, n, confirmedV2, confirmedTLS)
    requires !Skips(es[n], confirmedV2, confirmedTLS) && !Continues(es[n], attempts[n])
    ensures EndsAt(es, attempts, visited + [n], n)
  {
    SkipsIsBarred(es, attempts, visited, n, confirmedV2, confirmedTLS);
    VisitOne(es, attempts, visited, n);
    assert forall i :: i in visited + [n] <==> i in visited || i == n;
    assert forall i :: i in visited ==> exists k :: 0 <= k < |visited| && visited[k] == i;
  }

  lemma ContinueStep(es: seq<Endpoint>, attempts: seq<Attempt>, visited: seq<nat>, n: nat,
                     confirmedV2: bool, confirmedTLS: set<string>)
    requires |es| == |attempts| && n < |es| && Progress(es, attempts, visited, n, confirmedV2, confirmedTLS)
    requires !Skips(es[n], confirmedV2, confirmedTLS) && Continues(es[n], attempts[n])
    ensures Progress(es, attempts, visited + [n], n + 1, confirmedV2 || ConfirmsV2(es[n], attempts[n]),
                     NoteTLS(confirmedTLS, es[n], attempts[n]))
    ensures Errors(es, attempts, visited + [n]) == Errors(es, attempts, visited) + [ErrorOf(es[n], attempts[n])]
  {
    SkipsIsBarred(es, attempts, visited, n, confirmedV2, confirmedTLS);
    VisitOne(es, attempts, visited, n);
    assert forall i :: i in visited + [n] <==> i in visited || i == n;
    assert (visited + [n])[..|visited|] == visited;
    assert n in visited + [n];
  }

  /** How a loop over the endpoints can end. */
  ghost predicate Ends(es: seq<Endpoint>, attempts: seq<Attempt>, visited: seq<nat>, outcome: Outcome)
    requires |es| == |attempts|
  {
    match outcome
    case Exhausted(_) =>
      && VisitsUnbarred(es, attempts, visited, |es|)
      && AllContinue(es, attempts, visited)
    case Transferred(n) => EndsAt(es, attempts, visited, n) && attempts[n].Succeeds?
    case Stopped(n) => EndsAt(es, attempts, visited, n) && attempts[n].Fails?
  }

  /** Endpoint n was the last visited, and the only one not followed by another. */
  ghost predicate EndsAt(es: seq<Endpoint>, attempts: seq<Attempt>, visited: seq<nat>, n: nat)
    requires |es| == |attempts|
  {
    && n < |es|
    && VisitsUnbarred(es, attempts, visited, n + 1)
    && n in visited && !Continues(es[n], attempts[n])
    && forall i :: i in visited && i != n ==> Continues(es[i], attempts[i])
  }

  /**
   The pull loop.  attempts[i] is what pulling from endpoint i gives.  An
   endpoint is visited exactly when no failure before it bars it.
   */
  method Pull(es: seq<Endpoint>, attempts: seq<Attempt>) returns (outcome: Outcome, visited: seq<nat>)
    requires |es| == |attempts|
    ensures Ends(es, attempts, visited, outcome)
    ensures outcome.Exhausted? ==> outcome.lastErr == Reported(Errors(es, attempts, visited))
  {
    visited := [];
    var lastErr: Option<Error> := None;
    var discardNoSupport, confirmedV2 := false, false;
    var confirmedTLS: set<string> := {};
    for n := 0 to |es|
      invariant Progress(es, attempts, visited, n, confirmedV2, confirmedTLS)
      invariant lastErr == Reported(Errors(es, attempts, visited))
      invariant discardNoSupport == HasOther(Errors(es, attempts, visited))
    {
      var e, a := es[n], attempts[n];
      if Skips(e, confirmedV2, confirmedTLS) {
        SkipStep(es, attempts, visited, n, confirmedV2, confirmedTLS);
        continue;
      }
      if !Continues(e, a) {
        EndStep(es, attempts, visited, n, confirmedV2, confirmedTLS);
        return if a.Succeeds? then Transferred(n) else Stopped(n), visited + [n];
      }
      ContinueStep(es, attempts, visited, n, confirmedV2, confirmedTLS);
      ReportedSnoc(Errors(es, attempts, visited), ErrorOf(e, a));
      visited := visited + [n];
      confirmedV2 := confirmedV2 || ConfirmsV2(e, a);
      confirmedTLS := NoteTLS(confirmedTLS, e, a);
      if e.version.Unknown? {
        lastErr := Some(UnknownVersion(e.version.number));
      } else if !a.cause.NoSupport? {
        discardNoSupport := true;
        lastErr := Some(Failed(a.cause));
      } else if !discardNoSupport {
        lastErr := Some(Failed(a.cause));
      }
    }
    outcome := Exhausted(lastErr);
  }

  /** The push loop: the same visits, but the last error is always the one kept. */
  method Push(es: seq<Endpoint>, attempts: seq<Attempt>) returns (outcome: Outcome, visited: seq<nat>)
    requires |es| == |attempts|
    ensures Ends(es, attempts, visited, outcome)
    ensures outcome.Exhausted? ==> outcome.lastErr == LastOf(Errors(es, attempts, visited))
  {
    visited := [];
    var lastErr: Option<Error> := None;
    var confirmedV2 := false;
    var confirmedTLS: set<string> := {};
    for n := 0 to |es|
      invariant Progress(es, attempts, visited, n, confirmedV2, confirmedTLS)
      invariant lastErr == LastOf(Errors(es, attempts, visited))
    {
      var e, a := es[n], attempts[n];
      if Skips(e, confirmedV2, confirmedTLS) {
        SkipStep(es, attempts, visited, n, confirmedV2, confirmedTLS);
        continue;
      }
      if !Continues(e, a) {
        EndStep(es, attempts, visited, n, confirmedV2, confirmedTLS);
        return if a.Succeeds? then Transferred(n) else Stopped(n), visited + [n];
      }
      ContinueStep(es, attempts, visited, n, confirmedV2, confirmedTLS);
      LastOfSnoc(Errors(es, attempts, visited), ErrorOf(e, a));
      visited := visited + [n];
      confirmedV2 := confirmedV2 || ConfirmsV2(e, a);
      confirmedTLS := NoteTLS(confirmedTLS, e, a);
      lastErr := Some(ErrorOf(e, a));
    }
    outcome := Exhausted(lastErr);
  }

  // ---- what the loops promise, on the attempts themselves ----

  /**
   Whoever is visited before another fell back; after it confirmed v2 no v1
   endpoint is visited, and after it answered over TLS no plaintext one of its host.
   */
  lemma NoDowngrade(es: seq<Endpoint>, attempts: seq<Attempt>, visited: seq<nat>, outcome: Outcome, i: nat, j: nat)
    requires |es| == |attempts| && Ends(es, attempts, visited, outcome)
    requires i in visited && j in visited && i < j && !es[i].version.Unknown?
    ensures attempts[i].Fails? && attempts[i].fallback && !attempts[i].cancelled
    ensures attempts[i].confirmedV2 ==> es[j].version != V1
    ensures attempts[i].transportOK && es[i].https && es[i].host == es[j].host ==> es[j].https
  {
  }

  /** Only these two reasons make the loops pass over an endpoint, ahead of where they end. */
  lemma SkippedOnlyFor(es: seq<Endpoint>, attempts: seq<Attempt>, visited: seq<nat>, outcome: Outcome, j: nat)
    requires |es| == |attempts| && Ends(es, attempts, visited, outcome)
    requires j < |es| && j !in visited && (outcome.Exhausted? || j < outcome.at)
    ensures exists i :: && i in visited && 0 <= i < j && !es[i].version.Unknown? && attempts[i].Fails?
                        && ((attempts[i].confirmedV2 && es[j].version == V1)
                            || (attempts[i].transportOK && es[i].https && es[i].host == es[j].host && !es[j].https))
  {
    assert Barred(es, attempts, visited, j);
    var i :| i in visited && i < j && Bars(es[i], attempts[i], es[j]);
  }

  /**
   How it ends: with the first visited attempt at a known version that succeeded,
   or with the first that failed without falling back or was cancelled; exhausted
   only if every endpoint visited fell back or has an unknown version.
   */
  lemma EndsBecause(es: seq<Endpoint>, attempts: seq<Attempt>, visited: seq<nat>, outcome: Outcome)
    requires |es| == |attempts| && Ends(es, attempts, visited, outcome)
    ensures match outcome
            case Transferred(n) => n < |es| && n in visited && !es[n].version.Unknown? && attempts[n].Succeeds?
            case Stopped(n) => && n < |es| && n in visited && !es[n].version.Unknown? && attempts[n].Fails?
                               && (!attempts[n].fallback || attempts[n].cancelled)
            case Exhausted(_) => forall i :: i in visited ==>
              i < |es| && (es[i].version.Unknown? || (attempts[i].Fails? && attempts[i].fallback && !attempts[i].cancelled))
  {
    if outcome.Exhausted? {
      forall i | i in visited
        ensures i < |es| && (es[i].version.Unknown? || (attempts[i].Fails? && attempts[i].fallback && !attempts[i].cancelled))
      {
        var k :| 0 <= k < |visited| && visited[k] == i;
      }
    }
  }

  /** The errors collected are those of the visited endpoints, in order. */
  lemma {:induction false} ErrorsAre(es: seq<Endpoint>, attempts: seq<Attempt>, visited: seq<nat>)
    requires |es| == |attempts| && AllContinue(es, attempts, visited)
    ensures |Errors(es, attempts, visited)| == |visited|
    ensures forall k :: 0 <= k < |visited| ==>
              Errors(es, attempts, visited)[k] ==
              match es[visited[k]].version
              case Unknown(number) => UnknownVersion(number)
              case _ => Failed(attempts[visited[k]].cause)
    decreases |visited|
  {
    if visited != [] {
      ErrorsAre(es, attempts, visited[..|visited| - 1]);
    }
  }
}
