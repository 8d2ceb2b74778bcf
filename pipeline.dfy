/**
 * `fetchAndCheckIps`: the sources are fetched in order and their candidates
 * appended, the candidates are deduplicated, the counters initialised, one probe
 * task per candidate is run by `runConcurrent`, the `null` results are dropped and
 * the hosts that passed are joined into the text of the output file.
 */
module Pipeline {
  import opened Wrappers
  import opened Text
  import opened Parser
  import opened Distinct
  import opened Scheduler
  import opened Progress
  import opened Scenario

  /** `config.CONCURRENCY`. */
  const CONCURRENCY: int := 30

  /** What one source adds to `allIps`: nothing when its fetch failed, its parsed lines otherwise. */
  function Contribution(fetched: Option<string>): seq<string>
  {
    match fetched
    case None => []
    case Some(text) => ParseText(text)
  }

  /** `allIps` once every source has been handled, in source order. */
  function AllCandidates(fetched: seq<Option<string>>): seq<string>
  {
    if fetched == [] then [] else Contribution(fetched[0]) + AllCandidates(fetched[1..])
  }

  lemma {:induction false} AllCandidatesAppend(a: seq<Option<string>>, b: seq<Option<string>>)
    ensures AllCandidates(a + b) == AllCandidates(a) + AllCandidates(b)
    decreases |a|
  {
    if a == [] {
      assert a + b == b;
    } else {
      assert (a + b)[0] == a[0] && (a + b)[1..] == a[1..] + b;
      AllCandidatesAppend(a[1..], b);
    }
  }

  /** A source whose fetch fails adds nothing, and the sources after it are still read. */
  lemma {:induction false} FailedSourceAddsNothing(a: seq<Option<string>>, b: seq<Option<string>>)
    ensures AllCandidates(a + [None] + b) == AllCandidates(a) + AllCandidates(b)
  {
    var failed: seq<Option<string>> := [None];
    AllCandidatesAppend(a + failed, b);
    AllCandidatesAppend(a, failed);
    FailedAlone();
    assert AllCandidates(a) + AllCandidates(failed) == AllCandidates(a);
  }

  lemma FailedAlone()
    ensures AllCandidates([None]) == []
  {
    var failed: seq<Option<string>> := [None];
    assert failed[1..] == [];
  }

  /** `allIps` holds a value exactly when some fetched source's text yields it. */
  lemma {:induction false} AllCandidatesMember(fetched: seq<Option<string>>, x: string)
    ensures x in AllCandidates(fetched) <==>
      exists k :: 0 <= k < |fetched| && fetched[k].Some? && x in ParseText(fetched[k].value)
    decreases |fetched|
  {
    if fetched != [] {
      AllCandidatesMember(fetched[1..], x);
      if exists k :: 0 <= k < |fetched| && fetched[k].Some? && x in ParseText(fetched[k].value) {
        var k :| 0 <= k < |fetched| && fetched[k].Some? && x in ParseText(fetched[k].value);
        if k > 0 {
          assert fetched[1..][k - 1] == fetched[k];
        }
      }
      if x in AllCandidates(fetched[1..]) {
        var k :| 0 <= k < |fetched| - 1 && fetched[1..][k].Some? && x in ParseText(fetched[1..][k].value);
        assert fetched[k + 1] == fetched[1..][k];
      }
    }
  }

  /** The loop over the sources: each fetched text's candidates are pushed onto `allIps`. */
  method CollectCandidates(fetched: seq<Option<string>>) returns (allIps: seq<string>)
    ensures allIps == AllCandidates(fetched)
  {
    allIps := [];
    for i := 0 to |fetched|
      invariant allIps == AllCandidates(fetched[..i])
    {
      match fetched[i] {
        case Some(text) =>
          allIps := allIps + ParseText(text);
        case None =>
      }
      AllCandidatesStep(fetched, i);
    }
    assert fetched[..|fetched|] == fetched;
  }

  /** Handling one more source adds its contribution at the end. */
  lemma AllCandidatesStep(fetched: seq<Option<string>>, i: nat)
    requires i < |fetched|
    ensures AllCandidates(fetched[..i + 1]) == AllCandidates(fetched[..i]) + Contribution(fetched[i])
  {
    assert fetched[..i + 1] == fetched[..i] + [fetched[i]];
    AllCandidatesAppend(fetched[..i], [fetched[i]]);
    assert [fetched[i]][1..] == [];
  }

  /** The task list of index.js:108, one task per unique candidate: how each probe task settles. */
  function ProbeTasks(uniqueIps: seq<string>, probe: string -> ProbeResult): seq<Settled<string>>
  {
    seq(|uniqueIps|, k requires 0 <= k < |uniqueIps| => Fulfilled(ProbeValue(uniqueIps[k], probe(uniqueIps[k]))))
  }

  /** The filter of index.js:114: the results that are not `null`, in order. */
  function ValidIps(results: seq<Option<string>>): (r: seq<string>)
    ensures |r| <= |results|
  {
    if results == [] then []
    else
      (match results[0] { case None => [] case Some(ip) => [ip] }) + ValidIps(results[1..])
  }

  /** The filter keeps a value exactly when it was a non-null result. */
  lemma {:induction false} ValidIpsMember(results: seq<Option<string>>, x: string)
    ensures x in ValidIps(results) <==> Some(x) in results
    decreases |results|
  {
    if results != [] {
      ValidIpsMember(results[1..], x);
      assert results == [results[0]] + results[1..];
    }
  }

  /** The filter keeps the order of the results: it distributes over concatenation. */
  lemma {:induction false} ValidIpsAppend(a: seq<Option<string>>, b: seq<Option<string>>)
    ensures ValidIps(a + b) == ValidIps(a) + ValidIps(b)
    decreases |a|
  {
    if a == [] {
      assert a + b == b;
    } else {
      assert (a + b)[0] == a[0] && (a + b)[1..] == a[1..] + b;
      ValidIpsAppend(a[1..], b);
    }
  }

  /** The number of non-null results. */
  function NonNull(results: seq<Option<string>>): nat
  {
    if results == [] then 0 else (if results[0].Some? then 1 else 0) + NonNull(results[1..])
  }

  /** The filter keeps every non-null result and nothing else. */
  lemma {:induction false} ValidIpsLength(results: seq<Option<string>>)
    ensures |ValidIps(results)| == NonNull(results)
    decreases |results|
  {
    if results != [] {
      ValidIpsLength(results[1..]);
    }
  }

  /** How many of the candidates pass the browser check. */
  function PassCount(candidates: seq<string>, probe: string -> ProbeResult): nat
  {
    if candidates == [] then 0
    else PassCount(candidates[..|candidates| - 1], probe) + (if probe(candidates[|candidates| - 1]) == Passed then 1 else 0)
  }

  /** The values `runConcurrent` returns for the probe tasks of `candidates`. */
  function ProbeResults(candidates: seq<string>, probe: string -> ProbeResult): seq<Option<string>>
  {
    seq(|candidates|, k requires 0 <= k < |candidates| => ProbeValue(candidates[k], probe(candidates[k])))
  }

  /** Exactly the candidates that pass have a non-null result. */
  lemma {:induction false} NonNullIsPassCount(candidates: seq<string>, probe: string -> ProbeResult)
    ensures NonNull(ProbeResults(candidates, probe)) == PassCount(candidates, probe)
    decreases |candidates|
  {
    if candidates != [] {
      var n := |candidates|;
      var p := candidates[..n - 1];
      NonNullIsPassCount(p, probe);
      var last := ProbeValue(candidates[n - 1], probe(candidates[n - 1]));
      assert ProbeResults(candidates, probe) == ProbeResults(p, probe) + [last];
      NonNullAppend(ProbeResults(p, probe), [last]);
    }
  }

  lemma {:induction false} NonNullAppend(a: seq<Option<string>>, b: seq<Option<string>>)
    ensures NonNull(a + b) == NonNull(a) + NonNull(b)
    decreases |a|
  {
    if a == [] {
      assert a + b == b;
    } else {
      assert (a + b)[0] == a[0] && (a + b)[1..] == a[1..] + b;
      NonNullAppend(a[1..], b);
    }
  }

  /** The deduplicated candidates of a run. */
  function UniqueIps(fetched: seq<Option<string>>): seq<string>
  {
    Dedup(AllCandidates(fetched))
  }

  /** `validIps` of a run: the hosts of the candidates that passed, in candidate order. */
  function ResultList(fetched: seq<Option<string>>, probe: string -> ProbeResult): seq<string>
  {
    ValidIps(ProbeResults(UniqueIps(fetched), probe))
  }

  /**
   * A host is in the result list exactly when it is the host of a candidate that
   * passed; hosts carry no port. There is one entry per passing candidate.
   */
  lemma ResultListSpec(fetched: seq<Option<string>>, probe: string -> ProbeResult, x: string)
    ensures x in ResultList(fetched, probe) <==>
      exists k :: 0 <= k < |UniqueIps(fetched)| && probe(UniqueIps(fetched)[k]) == Passed && Host(UniqueIps(fetched)[k]) == x
    ensures x in ResultList(fetched, probe) ==> ':' !in x
    ensures |ResultList(fetched, probe)| == PassCount(UniqueIps(fetched), probe)
  {
    var u := UniqueIps(fetched);
    var rs := ProbeResults(u, probe);
    ValidIpsMember(rs, x);
    ValidIpsLength(rs);
    NonNullIsPassCount(u, probe);
    if Some(x) in rs {
      var k :| 0 <= k < |rs| && rs[k] == Some(x);
      assert probe(u[k]) == Passed && Host(u[k]) == x;
    }
    if exists k :: 0 <= k < |u| && probe(u[k]) == Passed && Host(u[k]) == x {
      var k :| 0 <= k < |u| && probe(u[k]) == Passed && Host(u[k]) == x;
      assert rs[k] == Some(x);
    }
  }

  /** A probe that never passes (every page challenged, every probe timing out) leaves an empty result list. */
  lemma NothingPasses(fetched: seq<Option<string>>, probe: string -> ProbeResult)
    requires forall c :: probe(c) != Passed
    ensures ResultList(fetched, probe) == []
    ensures Join(ResultList(fetched, probe), '\n') == ""
  {
    var u := UniqueIps(fetched);
    ValidIpsLength(ProbeResults(u, probe));
    NonNullIsPassCount(u, probe);
    NoPasses(u, probe);
  }

  lemma {:induction false} NoPasses(candidates: seq<string>, probe: string -> ProbeResult)
    requires forall c :: probe(c) != Passed
    ensures PassCount(candidates, probe) == 0
    decreases |candidates|
  {
    if candidates != [] {
      NoPasses(candidates[..|candidates| - 1], probe);
    }
  }

  /** The output file holds one result per line: splitting it gives back a non-empty result list. */
  lemma OutputLines(validIps: seq<string>)
    requires |validIps| >= 1
    requires forall k :: 0 <= k < |validIps| ==> '\n' !in validIps[k]
    ensures Split(Join(validIps, '\n'), '\n') == validIps
  {
    SplitJoin(validIps, '\n');
  }

  /** Every unique candidate is a parsed line of some fetched source: it holds no line break. */
  lemma UniqueIpsUnbroken(fetched: seq<Option<string>>, k: nat)
    requires k < |UniqueIps(fetched)|
    ensures '\n' !in UniqueIps(fetched)[k]
  {
    var x := UniqueIps(fetched)[k];
    assert x in AllCandidates(fetched);
    AllCandidatesMember(fetched, x);
    var i :| 0 <= i < |fetched| && fetched[i].Some? && x in ParseText(fetched[i].value);
    ParsedAreClean(fetched[i].value, x);
  }

  /** The output text holds one result per line: splitting it at line breaks gives back a non-empty `validIps`. */
  lemma OutputIsResultLines(fetched: seq<Option<string>>, probe: string -> ProbeResult)
    requires |ResultList(fetched, probe)| >= 1
    ensures Split(Join(ResultList(fetched, probe), '\n'), '\n') == ResultList(fetched, probe)
  {
    var rl := ResultList(fetched, probe);
    var u := UniqueIps(fetched);
    forall j | 0 <= j < |rl| ensures '\n' !in rl[j] {
      ResultListSpec(fetched, probe, rl[j]);
      var k :| 0 <= k < |u| && probe(u[k]) == Passed && Host(u[k]) == rl[j];
      UniqueIpsUnbroken(fetched, k);
      assert Host(u[k]) == u[k][..|Host(u[k])|];
    }
    SplitJoin(rl, '\n');
  }

  /** Counting one more candidate. */
  lemma PassCountStep(candidates: seq<string>, t: nat, probe: string -> ProbeResult)
    requires t < |candidates|
    ensures PassCount(candidates[..t + 1], probe) ==
      PassCount(candidates[..t], probe) + (if probe(candidates[t]) == Passed then 1 else 0)
  {
    assert candidates[..t + 1][..t] == candidates[..t];
  }

  /** What `runConcurrent` settles the probe tasks to are the probe results. */
  lemma SettledProbeResults(candidates: seq<string>, probe: string -> ProbeResult, results: seq<Option<string>>)
    requires |results| == |candidates|
    requires forall k :: 0 <= k < |results| ==> results[k] == CatchNull(ProbeTasks(candidates, probe)[k])
    ensures results == ProbeResults(candidates, probe)
  {
  }

  /**
   * The whole run: collect, deduplicate, initialise the counters, run the probe
   * tasks in batches of `concurrency`, drop the `null` results and join the rest.
   * The counters end with one `processed` per candidate plus one more per pass.
   */
  method FetchAndCheckIps(tracker: Tracker, fetched: seq<Option<string>>, probe: string -> ProbeResult, concurrency: int)
    returns (uniqueIps: seq<string>, validIps: seq<string>, output: string)
    requires concurrency >= 1 || UniqueIps(fetched) == []
    modifies tracker
    ensures uniqueIps == UniqueIps(fetched)
    ensures validIps == ResultList(fetched, probe)
    ensures output == Join(validIps, '\n')
    ensures tracker.total == |uniqueIps|
    ensures tracker.validCount == PassCount(uniqueIps, probe) == |validIps|
    ensures tracker.processed == |uniqueIps| + PassCount(uniqueIps, probe)
    ensures |validIps| >= 1 ==> Split(output, '\n') == validIps
  {
    var allIps := CollectCandidates(fetched);
    uniqueIps := Dedup(allIps);
    tracker.InitProgress(|uniqueIps|);
    var tasks := ProbeTasks(uniqueIps, probe);
    var results, batches := RunConcurrent(tasks, concurrency);
    // Each probe task also updates the counters when it runs. The batches start
    // the tasks in index order (`Scheduler.PlanStartsEachTaskOnce`), so the
    // counters are updated in that order.
    var t := 0;
    while t < |uniqueIps|
      invariant 0 <= t <= |uniqueIps|
      invariant tracker.total == |uniqueIps|
      invariant tracker.validCount == PassCount(uniqueIps[..t], probe)
      invariant tracker.processed == t + PassCount(uniqueIps[..t], probe)
    {
      var r := tracker.CheckProxy(uniqueIps[t], probe(uniqueIps[t]));
      assert r == results[t];
      PassCountStep(uniqueIps, t, probe);
      t := t + 1;
    }
    assert uniqueIps[..t] == uniqueIps;
    SettledProbeResults(uniqueIps, probe, results);
    validIps := ValidIps(results);
    output := Join(validIps, '\n');
    ResultListSpec(fetched, probe, "");
    if |validIps| >= 1 {
      OutputIsResultLines(fetched, probe);
    }
  }

  /** The configured concurrency meets the scheduler's requirement. */
  lemma ConcurrencyIsPositive()
    ensures CONCURRENCY >= 1
  {
  }

  /** The scenario's browser check: only `1.1.1.1` gets through. */
  function ScenarioProbe(candidate: string): ProbeResult
  {
    if candidate == "1.1.1.1" then Passed else Errored
  }

  lemma SingleSource(text: string)
    ensures AllCandidates([Some(text)]) == ParseText(text)
  {
    assert [Some(text)][1..] == [];
  }

  lemma TwoDistinct(a: string, b: string)
    requires a != b
    ensures Dedup([a, b]) == [a, b]
  {
    DedupUnchanged([a, b]);
  }

  /** The scenario's single source yields two distinct candidates. */
  lemma ScenarioUnique()
    ensures UniqueIps([Some(ScenarioText)]) == ["1.1.1.1", "2.2.2.2:8080"]
  {
    SingleSource(ScenarioText);
    ScenarioParse();
    TwoDistinct("1.1.1.1", "2.2.2.2:8080");
  }

  /** Only the first candidate's task resolves to a host. */
  lemma ScenarioResults()
    ensures ProbeResults(["1.1.1.1", "2.2.2.2:8080"], ScenarioProbe) == [Some("1.1.1.1"), None]
  {
    ProbeResultsOfTwo("1.1.1.1", "2.2.2.2:8080", ScenarioProbe);
    ScenarioProbeValues();
  }

  lemma ProbeResultsOfTwo(a: string, b: string, probe: string -> ProbeResult)
    ensures ProbeResults([a, b], probe) == [ProbeValue(a, probe(a)), ProbeValue(b, probe(b))]
  {
  }

  lemma ScenarioProbeValues()
    ensures ProbeValue("1.1.1.1", ScenarioProbe("1.1.1.1")) == Some("1.1.1.1")
    ensures ProbeValue("2.2.2.2:8080", ScenarioProbe("2.2.2.2:8080")) == None
  {
    SplitWithoutSeparator("1.1.1.1", ':');
  }

  /**
   * The end-to-end scenario: one source holding two endpoints, a comment line and
   * a malformed line; only `1.1.1.1` passes, so the output file holds that one line.
   */
  lemma EndToEndScenario()
    ensures UniqueIps([Some(ScenarioText)]) == ["1.1.1.1", "2.2.2.2:8080"]
    ensures ResultList([Some(ScenarioText)], ScenarioProbe) == ["1.1.1.1"]
    ensures Join(ResultList([Some(ScenarioText)], ScenarioProbe), '\n') == "1.1.1.1"
  {
    ScenarioUnique();
    ScenarioResults();
    var rs: seq<Option<string>> := [Some("1.1.1.1"), None];
    assert rs[1..][1..] == [];
    assert ValidIps(rs[1..]) == [];
  }
}
