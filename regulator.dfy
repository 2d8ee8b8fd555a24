/**
 * The regulator stage (2_find_unregulated_companies.py): the register search with its retry
 * and back-off rules, attaching the search result to each suspect company, and pruning the
 * results down to firms whose normalised name is the company's.
 *
 * The register is reached over the network; here it is a scripted list of responses, one per
 * call, and the sleeps the search would take are recorded in a log instead of being taken.
 */
module Regulator {
  import opened Wrappers
  import opened Seqs
  import opened Text
  import opened Records
  import opened Names

  /** The search's default retry budget and back-off factor. */
  const MaxRetries: int := 3
  const BackoffFactor: int := 2

  /** The pause after a rate-limit answer, in seconds. */
  const RateLimitPause: int := 65

  // ================================================================ search_firms

  /** The body of an HTTP response, as far as the search reads it. */
  datatype Body =
    | DataList(records: seq<RegMatch>)  // a JSON object whose `Data` is a list
    | DataOther                         // a JSON object whose `Data` is missing or not a list
    | NotObject                         // JSON that is not an object: `.get` raises
    | NotJson                           // not JSON at all: decoding raises a request exception

  /** What one call of the register returns. */
  datatype Response =
    | Http(status: int, body: Body)
    | Timeout
    | TransportError  // any other request exception

  /** How the search ends. */
  datatype Outcome =
    | Found(records: seq<RegMatch>)  // status 200 with a list: returned as it is
    | NoData                         // status 200 without a list: returns []
    | Rejected(status: int)          // a status that is not retried: returns []
    | GaveUp                         // the retry budget is spent: returns []
    | Raised                         // the error escapes the search
    | ScriptEnded                    // the scripted responses ran out

  /** The outcome, the number of calls made and the sleeps taken, in order. */
  datatype Run = Run(outcome: Outcome, calls: nat, sleeps: seq<int>)

  /** A response that spends one retry: a server error, a timeout, or any other request exception. */
  predicate Consumes(r: Response) {
    match r
    case Http(status, body) =>
      if status == 200 then body == NotJson
      else status != 429 && 500 <= status < 600
    case Timeout => true
    case TransportError => true
  }

  predicate RateLimited(r: Response) {
    r.Http? && r.status == 429
  }

  /** The number of retry-spending responses in `s`. */
  function Spent(s: seq<Response>): nat {
    |Filter(s, Consumes)|
  }

  /** `calls` calls and `sleeps` already taken, then `run`. */
  function Then(calls: nat, sleeps: seq<int>, run: Run): Run {
    Run(run.outcome, calls + run.calls, sleeps + run.sleeps)
  }

  /**
   * The search loop from a state with `retryCount` retries spent and the next back-off
   * `wait`, over the responses still to come.
   */
  function SearchFrom(script: seq<Response>, maxRetries: int, backoff: int, retryCount: nat, wait: int): (run: Run)
    ensures run.calls <= |script|
    decreases |script|
  {
    if retryCount > maxRetries then Run(GaveUp, 0, [])
    else if script == [] then Run(ScriptEnded, 0, [])
    else
      var rest := script[1..];
      var retry := Then(1, [wait], SearchFrom(rest, maxRetries, backoff, retryCount + 1, wait * backoff));
      match script[0]
      case Http(status, body) =>
        if status == 200 then
          match body
          case DataList(records) => Run(Found(records), 1, [])
          case DataOther => Run(NoData, 1, [])
          case NotObject => Run(Raised, 1, [])
          case NotJson => retry
        else if status == 429 then Then(1, [RateLimitPause], SearchFrom(rest, maxRetries, backoff, retryCount, wait))
        else if 500 <= status < 600 then retry
        else Run(Rejected(status), 1, [])
      case Timeout => retry
      case TransportError => retry
  }

  /** `search_firms`: no retry spent yet, and a first back-off of one second. */
  function Search(script: seq<Response>, maxRetries: int, backoff: int): Run {
    SearchFrom(script, maxRetries, backoff, 0, 1)
  }

  lemma ThenThen(calls: nat, sleeps: seq<int>, more: seq<int>, run: Run)
    ensures Then(calls, sleeps, Then(1, more, run)) == Then(calls + 1, sleeps + more, run)
  {
    assert sleeps + (more + run.sleeps) == (sleeps + more) + run.sleeps;
  }

  /**
   * One attempt of the search loop on `response`: either the search stops with `outcome`, or
   * it sleeps `pause` and goes on with the new retry count and wait, whatever responses follow.
   */
  method Attempt(response: Response, maxRetries: int, backoffFactor: int, retryCount: nat, waitTime: int)
    returns (stop: bool, outcome: Outcome, pause: seq<int>, retryCount': nat, waitTime': int)
    requires retryCount <= maxRetries
    ensures forall rest: seq<Response> ::
              SearchFrom([response] + rest, maxRetries, backoffFactor, retryCount, waitTime)
              == if stop then Run(outcome, 1, [])
                 else Then(1, pause, SearchFrom(rest, maxRetries, backoffFactor, retryCount', waitTime'))
  {
    stop, outcome, pause, retryCount', waitTime' := false, GaveUp, [], retryCount, waitTime;
    assert forall rest: seq<Response> :: ([response] + rest)[1..] == rest;
    match response {
      case Http(status, body) =>
        if status == 200 {
          match body {
            case DataList(records) =>
              stop, outcome := true, Found(records);
            case DataOther =>
              stop, outcome := true, NoData;
            case NotObject =>
              stop, outcome := true, Raised;
            case NotJson =>
              pause, retryCount', waitTime' := [waitTime], retryCount + 1, waitTime * backoffFactor;
          }
        } else if status == 429 {
          pause := [RateLimitPause];
        } else if 500 <= status < 600 {
          pause, retryCount', waitTime' := [waitTime], retryCount + 1, waitTime * backoffFactor;
        } else {
          stop, outcome := true, Rejected(status);
        }
      case Timeout =>
        pause, retryCount', waitTime' := [waitTime], retryCount + 1, waitTime * backoffFactor;
      case TransportError =>
        pause, retryCount', waitTime' := [waitTime], retryCount + 1, waitTime * backoffFactor;
    }
  }

  /** The search loop, consuming the scripted responses one call at a time. */
  method SearchFirms(script: seq<Response>, maxRetries: int, backoffFactor: int)
    returns (outcome: Outcome, calls: nat, sleeps: seq<int>)
    ensures Run(outcome, calls, sleeps) == Search(script, maxRetries, backoffFactor)
  {
    var retryCount: nat := 0;
    var waitTime := 1;
    calls := 0;
    sleeps := [];
    while retryCount <= maxRetries
      invariant calls <= |script|
      invariant Search(script, maxRetries, backoffFactor)
                == Then(calls, sleeps, SearchFrom(script[calls..], maxRetries, backoffFactor, retryCount, waitTime))
      decreases |script| - calls
    {
      if calls == |script| {
        outcome := ScriptEnded;
        assert sleeps + [] == sleeps;
        return;
      }
      var response := script[calls];
      ghost var rest := script[calls + 1..];
      assert script[calls..] == [response] + rest;
      var stop, result, pause, nextRetryCount, nextWait := Attempt(response, maxRetries, backoffFactor, retryCount, waitTime);
      calls := calls + 1;
      if stop {
        outcome := result;
        assert sleeps + [] == sleeps;
        return;
      }
      ThenThen(calls - 1, sleeps, pause, SearchFrom(rest, maxRetries, backoffFactor, nextRetryCount, nextWait));
      sleeps := sleeps + pause;
      retryCount, waitTime := nextRetryCount, nextWait;
    }
    outcome := GaveUp;
    assert sleeps + [] == sleeps;
  }

  // ---------------------------------------------------------------- properties of the search

  /** Two server errors, then a list: three calls, back-offs of 1 and 2 seconds, the third call's data. */
  lemma ServerErrorsThenData(b1: Body, b2: Body, records: seq<RegMatch>)
    ensures Search([Http(500, b1), Http(500, b2), Http(200, DataList(records))], MaxRetries, BackoffFactor)
            == Run(Found(records), 3, [1, 2])
  {
    var script := [Http(500, b1), Http(500, b2), Http(200, DataList(records))];
    var last := [Http(200, DataList(records))];
    assert script[1..] == [Http(500, b2)] + last;
    assert ([Http(500, b2)] + last)[1..] == last;
    assert SearchFrom(last, 3, 2, 2, 4) == Run(Found(records), 1, []);
    assert SearchFrom([Http(500, b2)] + last, 3, 2, 1, 2) == Run(Found(records), 2, [2]);
  }

  /** A rate-limit answer pauses 65 seconds and spends no retry, whatever the budget left. */
  lemma RateLimitSpendsNoRetry(b: Body, script: seq<Response>, maxRetries: int, backoff: int, retryCount: nat, wait: int)
    requires retryCount <= maxRetries
    ensures SearchFrom([Http(429, b)] + script, maxRetries, backoff, retryCount, wait)
            == Then(1, [RateLimitPause], SearchFrom(script, maxRetries, backoff, retryCount, wait))
  {
    assert ([Http(429, b)] + script)[1..] == script;
  }

  /** A rate-limit answer, then a list: two calls and one 65-second pause. */
  lemma RateLimitThenData(b: Body, records: seq<RegMatch>)
    ensures Search([Http(429, b), Http(200, DataList(records))], MaxRetries, BackoffFactor)
            == Run(Found(records), 2, [65])
  {
    var script := [Http(429, b), Http(200, DataList(records))];
    var last := [Http(200, DataList(records))];
    assert script[1..] == last;
    assert SearchFrom(last, 3, 2, 0, 1) == Run(Found(records), 1, []);
  }

  /** A status other than 200, 429 or a server error ends the search at once, with []. */
  lemma OtherStatusRejected(status: int, b: Body, script: seq<Response>, maxRetries: int, backoff: int)
    requires status != 200 && status != 429 && !(500 <= status < 600)
    requires maxRetries >= 0
    ensures Search([Http(status, b)] + script, maxRetries, backoff) == Run(Rejected(status), 1, [])
  {
  }

  /** A negative budget makes no call at all. */
  lemma NoBudgetNoCall(script: seq<Response>, maxRetries: int, backoff: int)
    requires maxRetries < 0
    ensures Search(script, maxRetries, backoff) == Run(GaveUp, 0, [])
  {
  }

  /** A call that spends a retry or is rate limited sleeps and the search goes on with the rest. */
  lemma SleptStep(script: seq<Response>, maxRetries: int, backoff: int, retryCount: nat, wait: int)
    requires retryCount <= maxRetries && script != []
    requires Consumes(script[0]) || RateLimited(script[0])
    ensures var c := Consumes(script[0]);
            SearchFrom(script, maxRetries, backoff, retryCount, wait)
            == Then(1, [if c then wait else RateLimitPause],
                    SearchFrom(script[1..], maxRetries, backoff, if c then retryCount + 1 else retryCount, if c then wait * backoff else wait))
  {
  }

  lemma SpentCons(r: Response, s: seq<Response>)
    ensures Spent([r] + s) == (if Consumes(r) then 1 else 0) + Spent(s)
  {
    FilterConcat([r], s, Consumes);
    assert [r] == [] + [r];
    FilterAppend([], r, Consumes);
  }

  /** The responses a run consumed are the first ones of the script. */
  lemma ConsumedCons(script: seq<Response>, k: nat)
    requires 0 < |script| && k < |script|
    ensures script[..k + 1] == [script[0]] + script[1..][..k]
  {
  }

  /**
   * The retry budget: from a state with `retryCount` retries spent, the search spends at
   * most the rest of the budget, and it gives up exactly when it has spent all of it.
   */
  lemma {:induction false} BudgetFrom(script: seq<Response>, maxRetries: int, backoff: int, retryCount: nat, wait: int)
    requires retryCount <= maxRetries + 1
    ensures var run := SearchFrom(script, maxRetries, backoff, retryCount, wait);
            && retryCount + Spent(script[..run.calls]) <= maxRetries + 1
            && (run.outcome == GaveUp <==> retryCount + Spent(script[..run.calls]) == maxRetries + 1)
    decreases |script|
  {
    var run := SearchFrom(script, maxRetries, backoff, retryCount, wait);
    if retryCount > maxRetries {
      assert script[..0] == [];
    } else if script == [] {
      assert script[..0] == [];
    } else {
      var r := script[0];
      var rest := script[1..];
      var next := if Consumes(r) then retryCount + 1 else retryCount;
      var nextWait := if Consumes(r) then wait * backoff else wait;
      if Consumes(r) || RateLimited(r) {
        var tail := SearchFrom(rest, maxRetries, backoff, next, nextWait);
        SleptStep(script, maxRetries, backoff, retryCount, wait);
        BudgetFrom(rest, maxRetries, backoff, next, nextWait);
        ConsumedCons(script, tail.calls);
        SpentCons(r, rest[..tail.calls]);
      } else {
        assert run.calls == 1 && run.outcome != GaveUp;
        ConsumedCons(script, 0);
        SpentCons(r, rest[..0]);
        assert rest[..0] == [];
      }
    }
  }

  /**
   * The search spends at most `maxRetries + 1` retries, and it gives up exactly when it has
   * spent that many.
   */
  lemma Budget(script: seq<Response>, maxRetries: int, backoff: int)
    requires maxRetries >= 0
    ensures var run := Search(script, maxRetries, backoff);
            && Spent(script[..run.calls]) <= maxRetries + 1
            && (run.outcome == GaveUp <==> Spent(script[..run.calls]) == maxRetries + 1)
  {
    BudgetFrom(script, maxRetries, backoff, 0, 1);
  }

  /** `b` to the power `k`. */
  function Power(b: int, k: nat): int {
    if k == 0 then 1 else b * Power(b, k - 1)
  }

  /** The wait before the search resumes after the `i`-th consumed response. */
  function PauseAfter(script: seq<Response>, i: nat, backoff: int, wait: int): int
    requires i < |script|
  {
    if RateLimited(script[i]) then RateLimitPause else wait * Power(backoff, Spent(script[..i]))
  }

  lemma PowerStep(wait: int, backoff: int, k: nat)
    ensures (wait * backoff) * Power(backoff, k) == wait * Power(backoff, k + 1)
  {
    assert Power(backoff, k + 1) == backoff * Power(backoff, k);
  }

  /** The pause after a later call, seen from the script that starts one call earlier. */
  lemma PauseShift(r: Response, rest: seq<Response>, i: nat, backoff: int, wait: int)
    requires 0 < i <= |rest|
    requires Consumes(r) || RateLimited(r)
    ensures ([r] + rest)[i] == rest[i - 1]
    ensures PauseAfter([r] + rest, i, backoff, wait)
         == PauseAfter(rest, i - 1, backoff, if Consumes(r) then wait * backoff else wait)
  {
    var script := [r] + rest;
    assert script[..i] == [r] + rest[..i - 1];
    SpentCons(r, rest[..i - 1]);
    if Consumes(r) {
      PowerStep(wait, backoff, Spent(rest[..i - 1]));
    }
  }

  /** Prepending a call that sleeps keeps the pause at every later index. */
  lemma ScheduleCons(r: Response, rest: seq<Response>, backoff: int, wait: int, sleeps: seq<int>)
    requires Consumes(r) || RateLimited(r)
    requires |sleeps| <= |rest|
    requires forall i | 0 <= i < |sleeps| ::
               (Consumes(rest[i]) || RateLimited(rest[i]))
               && sleeps[i] == PauseAfter(rest, i, backoff, if Consumes(r) then wait * backoff else wait)
    ensures var all := [if Consumes(r) then wait else RateLimitPause] + sleeps;
            forall i | 0 <= i < |all| ::
              (Consumes(([r] + rest)[i]) || RateLimited(([r] + rest)[i]))
              && all[i] == PauseAfter([r] + rest, i, backoff, wait)
  {
    var all := [if Consumes(r) then wait else RateLimitPause] + sleeps;
    forall i | 0 <= i < |all|
      ensures (Consumes(([r] + rest)[i]) || RateLimited(([r] + rest)[i]))
              && all[i] == PauseAfter([r] + rest, i, backoff, wait)
    {
      if i == 0 {
        assert ([r] + rest)[..0] == [];
      } else {
        ScheduleConsAt(r, rest, backoff, wait, sleeps[i - 1], i);
      }
    }
  }

  /** One later index of `ScheduleCons`. */
  lemma ScheduleConsAt(r: Response, rest: seq<Response>, backoff: int, wait: int, pause: int, i: nat)
    requires Consumes(r) || RateLimited(r)
    requires 0 < i <= |rest|
    requires Consumes(rest[i - 1]) || RateLimited(rest[i - 1])
    requires pause == PauseAfter(rest, i - 1, backoff, if Consumes(r) then wait * backoff else wait)
    ensures Consumes(([r] + rest)[i]) || RateLimited(([r] + rest)[i])
    ensures pause == PauseAfter([r] + rest, i, backoff, wait)
  {
    PauseShift(r, rest, i, backoff, wait);
  }

  /**
   * The sleep schedule: every call but a final answer is followed by a sleep, 65 seconds after
   * a rate-limit answer and otherwise the back-off, which starts at `wait` and is multiplied
   * by the factor at each retry spent.
   */
  lemma {:induction false} ScheduleFrom(script: seq<Response>, maxRetries: int, backoff: int, retryCount: nat, wait: int)
    ensures var run := SearchFrom(script, maxRetries, backoff, retryCount, wait);
            && |run.sleeps| == run.calls - (if run.outcome.GaveUp? || run.outcome.ScriptEnded? then 0 else 1)
            && forall i | 0 <= i < |run.sleeps| ::
                 (Consumes(script[i]) || RateLimited(script[i])) && run.sleeps[i] == PauseAfter(script, i, backoff, wait)
    decreases |script|
  {
    var run := SearchFrom(script, maxRetries, backoff, retryCount, wait);
    if retryCount <= maxRetries && script != [] {
      var r := script[0];
      var rest := script[1..];
      if Consumes(r) || RateLimited(r) {
        var next := if Consumes(r) then retryCount + 1 else retryCount;
        var nextWait := if Consumes(r) then wait * backoff else wait;
        var tail := SearchFrom(rest, maxRetries, backoff, next, nextWait);
        SleptStep(script, maxRetries, backoff, retryCount, wait);
        ScheduleFrom(rest, maxRetries, backoff, next, nextWait);
        assert script == [r] + rest;
        ScheduleCons(r, rest, backoff, wait, tail.sleeps);
      }
    }
  }

  lemma Schedule(script: seq<Response>, maxRetries: int, backoff: int)
    ensures var run := Search(script, maxRetries, backoff);
            && |run.sleeps| == run.calls - (if run.outcome.GaveUp? || run.outcome.ScriptEnded? then 0 else 1)
            && forall i | 0 <= i < |run.sleeps| ::
                 (Consumes(script[i]) || RateLimited(script[i])) && run.sleeps[i] == PauseAfter(script, i, backoff, 1)
  {
    ScheduleFrom(script, maxRetries, backoff, 0, 1);
  }

  /**
   * A list found is the `Data` of the last call, which answered 200; a search that rejects
   * ends on the status it rejects.
   */
  lemma {:induction false} AnswerFrom(script: seq<Response>, maxRetries: int, backoff: int, retryCount: nat, wait: int)
    ensures var run := SearchFrom(script, maxRetries, backoff, retryCount, wait);
            && (run.outcome.Found? ==> 0 < run.calls && script[run.calls - 1] == Http(200, DataList(run.outcome.records)))
            && (run.outcome.Rejected? ==> 0 < run.calls && script[run.calls - 1].Http? && script[run.calls - 1].status == run.outcome.status)
    decreases |script|
  {
    var run := SearchFrom(script, maxRetries, backoff, retryCount, wait);
    if retryCount <= maxRetries && script != [] {
      var r := script[0];
      var rest := script[1..];
      if Consumes(r) || RateLimited(r) {
        var next := if Consumes(r) then retryCount + 1 else retryCount;
        var nextWait := if Consumes(r) then wait * backoff else wait;
        var tail := SearchFrom(rest, maxRetries, backoff, next, nextWait);
        assert run == Then(1, [if Consumes(r) then wait else RateLimitPause], tail);
        AnswerFrom(rest, maxRetries, backoff, next, nextWait);
        if 0 < tail.calls {
          assert script[run.calls - 1] == rest[tail.calls - 1];
        }
      }
    }
  }

  // ================================================================ add_reg_status

  /** A company with a name and a number, once stripped: the only ones that are searched. */
  predicate HasIdentity(c: SuspectEntry) {
    Strip(c.companyName) != "" && Strip(c.companyNumber) != ""
  }

  /**
   * The company after its search: `search` stands for the list `search_firms` returns for a
   * name.
   */
  function WithRegStatus(c: SuspectEntry, search: string -> seq<RegMatch>): SuspectEntry {
    if HasIdentity(c) then c.(regulatoryStatus := Some(search(Strip(c.companyName)))) else c
  }

  /** The status is set on every company with a name and a number, and on no other one. */
  lemma RegStatusSetExactly(c: SuspectEntry, search: string -> seq<RegMatch>)
    ensures HasIdentity(c) ==> WithRegStatus(c, search).regulatoryStatus == Some(search(Strip(c.companyName)))
    ensures !HasIdentity(c) ==> WithRegStatus(c, search) == c
    ensures WithRegStatus(c, search).(regulatoryStatus := c.regulatoryStatus) == c
  {
  }

  /** The body of the loop: one company, searched when it has a name and a number. */
  method AddRegStatusAt(companies: array<SuspectEntry>, index: nat, search: string -> seq<RegMatch>)
    requires index < companies.Length
    modifies companies
    ensures companies[index] == WithRegStatus(old(companies[index]), search)
    ensures forall i | 0 <= i < companies.Length && i != index :: companies[i] == old(companies[i])
  {
    var company := companies[index];
    var companyName := Strip(company.companyName);
    var companyNumber := Strip(company.companyNumber);
    if companyName != "" && companyNumber != "" {
      var regulatoryStatus := search(companyName);
      companies[index] := company.(regulatoryStatus := Some(regulatoryStatus));
    }
  }

  /** Each company dictionary is updated in place. */
  method AddRegStatus(companies: array<SuspectEntry>, search: string -> seq<RegMatch>)
    modifies companies
    ensures forall i | 0 <= i < companies.Length :: companies[i] == WithRegStatus(old(companies[i]), search)
  {
    var index := 0;
    while index < companies.Length
      invariant 0 <= index <= companies.Length
      invariant forall i | 0 <= i < index :: companies[i] == WithRegStatus(old(companies[i]), search)
      invariant forall i | index <= i < companies.Length :: companies[i] == old(companies[i])
    {
      AddRegStatusAt(companies, index, search);
      index := index + 1;
    }
  }

  // ================================================================ prune_regulatory_info_in_company_list

  /** A register entry whose stripped, normalised name is `target`. */
  predicate SameName(target: string, m: RegMatch) {
    NormalizeName(Strip(MatchName(m))) == target
  }

  /** The entries kept for a company whose normalised name is `target`, in their order. */
  function Pruned(entries: seq<RegMatch>, target: string): seq<RegMatch> {
    Filter(entries, (m: RegMatch) => SameName(target, m))
  }

  /** The company after pruning: its status (missing reads as []) keeps the same-name entries. */
  function PrunedEntry(c: SuspectEntry): SuspectEntry {
    if HasIdentity(c) then
      c.(regulatoryStatus := Some(Pruned(c.regulatoryStatus.GetOr([]), NormalizeName(Strip(c.companyName)))))
    else c
  }

  lemma PrunedStep(entries: seq<RegMatch>, k: nat, target: string)
    requires k < |entries|
    ensures Pruned(entries[..k + 1], target)
            == Pruned(entries[..k], target) + (if SameName(target, entries[k]) then [entries[k]] else [])
  {
    assert entries[..k + 1] == entries[..k] + [entries[k]];
    FilterAppend(entries[..k], entries[k], (m: RegMatch) => SameName(target, m));
  }

  /** The inner loop: the same-name entries, appended in the order met. */
  method PruneEntries(entries: seq<RegMatch>, target: string) returns (pruned: seq<RegMatch>)
    ensures pruned == Pruned(entries, target)
  {
    pruned := [];
    var k := 0;
    while k < |entries|
      invariant 0 <= k <= |entries|
      invariant pruned == Pruned(entries[..k], target)
    {
      var entry := entries[k];
      var normalizedEntryName := NormalizeName(Strip(MatchName(entry)));
      PrunedStep(entries, k, target);
      if normalizedEntryName == target {
        pruned := pruned + [entry];
      }
      k := k + 1;
    }
    assert entries[..|entries|] == entries;
  }

  /** The body of the outer loop: one company's entries pruned when it has a name and a number. */
  method PruneAt(companies: array<SuspectEntry>, index: nat)
    requires index < companies.Length
    modifies companies
    ensures companies[index] == PrunedEntry(old(companies[index]))
    ensures forall i | 0 <= i < companies.Length && i != index :: companies[i] == old(companies[i])
  {
    var company := companies[index];
    var companyName := Strip(company.companyName);
    var companyNumber := Strip(company.companyNumber);
    var regulatoryStatus := company.regulatoryStatus.GetOr([]);
    if companyName != "" && companyNumber != "" {
      var normalizedCompanyName := NormalizeName(companyName);
      var prunedRegulatoryStatus := PruneEntries(regulatoryStatus, normalizedCompanyName);
      companies[index] := company.(regulatoryStatus := Some(prunedRegulatoryStatus));
    }
  }

  /** Each company dictionary is updated in place; the list keeps its length. */
  method PruneRegulatoryInfo(companies: array<SuspectEntry>)
    modifies companies
    ensures forall i | 0 <= i < companies.Length :: companies[i] == PrunedEntry(old(companies[i]))
  {
    var index := 0;
    while index < companies.Length
      invariant 0 <= index <= companies.Length
      invariant forall i | 0 <= i < index :: companies[i] == PrunedEntry(old(companies[i]))
      invariant forall i | index <= i < companies.Length :: companies[i] == old(companies[i])
    {
      PruneAt(companies, index);
      index := index + 1;
    }
  }

  // ---------------------------------------------------------------- properties of pruning

  /** The kept entries are exactly the same-name ones, in their original order. */
  lemma PrunedExactly(entries: seq<RegMatch>, target: string)
    ensures IsSubsequence(Pruned(entries, target), entries)
    ensures forall m :: m in Pruned(entries, target) <==> m in entries && SameName(target, m)
  {
    var p := (m: RegMatch) => SameName(target, m);
    FilterIsSubsequence(entries, p);
    forall m | m in entries && SameName(target, m) ensures m in Pruned(entries, target) {
      var i :| 0 <= i < |entries| && entries[i] == m;
    }
  }

  /** Pruning a second time changes nothing, and a company without a name or number is left alone. */
  lemma PruneIdempotent(c: SuspectEntry)
    ensures PrunedEntry(PrunedEntry(c)) == PrunedEntry(c)
    ensures !HasIdentity(c) ==> PrunedEntry(c) == c
  {
    if HasIdentity(c) {
      var target := NormalizeName(Strip(c.companyName));
      FilterIdempotent(c.regulatoryStatus.GetOr([]), (m: RegMatch) => SameName(target, m));
    }
  }

  /**
   * After the search and the pruning, a company with a name and a number holds the entries of
   * its search result that carry its normalised name, in the order the register gave them.
   */
  lemma SearchedThenPruned(c: SuspectEntry, search: string -> seq<RegMatch>)
    requires HasIdentity(c)
    ensures var status := PrunedEntry(WithRegStatus(c, search)).regulatoryStatus;
            && status.Some?
            && IsSubsequence(status.value, search(Strip(c.companyName)))
            && forall m :: m in status.value <==>
                 m in search(Strip(c.companyName)) && SameName(NormalizeName(Strip(c.companyName)), m)
  {
    PrunedExactly(search(Strip(c.companyName)), NormalizeName(Strip(c.companyName)));
  }

  // ---------------------------------------------------------------- the corrected pruning

  /** A register entry whose name normalises to `target` under the corrected normaliser. */
  predicate SameNameCorrected(target: string, m: RegMatch) {
    NormalizeNameCorrected(Strip(MatchName(m))) == target
  }

  /** The pruning filter with the corrected normaliser. */
  function PrunedCorrected(entries: seq<RegMatch>, target: string): seq<RegMatch> {
    Filter(entries, (m: RegMatch) => SameNameCorrected(target, m))
  }

  /**
   * The register entry "Acme Ltd." and the company "Acme (UK) Limited": as written their names
   * normalise apart; corrected, alike.
   */
  lemma AcmeLtdDotSameName(m: RegMatch)
    requires MatchName(m) == "Acme Ltd."
    ensures !SameName(NormalizeName("Acme (UK) Limited"), m)
    ensures SameNameCorrected(NormalizeNameCorrected("Acme (UK) Limited"), m)
  {
    StripUnchanged("Acme Ltd.");
    AcmeLtdDot();
  }

  /** As written, the entry "Acme Ltd." is deleted from the status of "Acme (UK) Limited". */
  lemma LtdDotEntryDropped(m: RegMatch)
    requires MatchName(m) == "Acme Ltd."
    ensures Pruned([m], NormalizeName("Acme (UK) Limited")) == []
  {
    var target := NormalizeName("Acme (UK) Limited");
    AcmeLtdDotSameName(m);
    assert [m] == [] + [m];
    FilterAppend([], m, (e: RegMatch) => SameName(target, e));
  }

  /** With the corrected normaliser the entry is kept. */
  lemma LtdDotEntryKept(m: RegMatch)
    requires MatchName(m) == "Acme Ltd."
    ensures PrunedCorrected([m], NormalizeNameCorrected("Acme (UK) Limited")) == [m]
  {
    var target := NormalizeNameCorrected("Acme (UK) Limited");
    AcmeLtdDotSameName(m);
    assert [m] == [] + [m];
    FilterAppend([], m, (e: RegMatch) => SameNameCorrected(target, e));
  }
}
