# Proxy checker core, modelled in Dafny

This project models the core of a tool that collects candidate proxy endpoints
(`IP` or `IP:port`) from several text sources and checks each one in a headless
browser. Every endpoint that loads a test page without the Cloudflare
"Just a moment..." challenge is kept. The hosts that pass are written to the output
file, one per line. All of the logic is in `index.js` (`fetchAndCheckIps`,
`checkProxy`, `runConcurrent` and the progress counters). The model follows that
code step by step:

- `Text` — JavaScript's `split` and `join` with a one-character separator, and
  `trim` over the ECMAScript whitespace and line-terminator set. `split` is proved
  to be the inverse of `join`.
- `Parser` — the candidate parser of `index.js:91-94`. It splits a source's text into
  lines, cuts each line at its first `#`, trims it, and keeps only the lines that pass
  the pattern test: four dot-separated runs of one to three digits, then optionally
  `:` and one or more digits, and nothing else. The regular expression
  is written out by hand as the matcher `ParseEndpoint`. `WellFormed` and `Render`
  give its language independently, as four 1–3 digit octets plus an optional port
  of one or more digits. Two round-trip lemmas prove the matcher accepts exactly
  that language. As in the code, there is no range check: `999.999.999.999` and
  `1.2.3.4:99999` are accepted. `\d` means ASCII digits only.
- `Distinct` — `[...new Set(allIps)]`. A JavaScript `Set` keeps insertion order, so
  the result holds the first occurrence of each value, in first-occurrence order.
  The model proves these properties, plus the converse: any list with them is the
  deduplicated list.
- `Scheduler` — `runConcurrent` as a `method` with the source's two loops. Each task
  is given as its settled outcome: fulfilled with a value or `null`, or rejected.
  A caught rejection (`index.js:141`) becomes `null`. The method also returns, as a
  ghost value, the batches it started. Lemmas prove:
  - every task is started exactly once, in index order;
  - every batch has between 1 and `concurrency` tasks, and only the last can be short;
  - the number of batches is the ceiling of `n / concurrency`.
- `Progress` — the module-level counters `total`, `processed` and `validCount` as a
  class, `Tracker`, with `initProgress` and `updateProgress` as its methods.
  `checkProxy` is modelled once the browser has answered: the answer is a
  parameter (`Passed`, `Challenged`, `Errored`). The model covers the host split,
  the value returned and the counter updates.
- `Pipeline` — `fetchAndCheckIps`:
  - the source loop, where each fetch is given as `Option<string>` and a failed fetch is `None`;
  - deduplication and counter initialisation;
  - one probe task per candidate, run by `RunConcurrent`;
  - the counter updates of each task, in the order the tasks are started;
  - the `null` filter and the `join('\n')` that forms the output file's text.
- `Scenario` (with `Pipeline.EndToEndScenario`) works one input through the whole
  chain. One source text holds two endpoints, a comment line and a malformed line;
  only `1.1.1.1` passes. The lemmas prove the exact candidate list and the exact
  output text.

In three places the code does something a reader might not expect; the model
follows the code each time:

- **`processed` after a pass.** One might expect `processed` to end equal to the
  number of candidates, one per probe. In the code a passing `checkProxy` calls
  `updateProgress(true)` at `index.js:65` and `updateProgress()` again in `finally`
  at `index.js:73`. So `processed` ends at the number of candidates plus the
  number of passes, and `Tracker.CheckProxy` and `FetchAndCheckIps` state exactly
  that. The progress line can therefore show more than 100%.
- **Result order.** The tasks of a batch run in parallel and may finish in any
  order, but `runConcurrent` returns the results in task order, and the model
  proves that.
- **`Set` order.** A `Set` used only to remove duplicates might seem to lose
  order, but a JavaScript `Set` keeps insertion order. The model keeps and proves
  it, because the result order depends on it.

## Model

| member | source | states |
|---|---|---|
| Text.Split | index.js:92-93 | splitting at a one-character separator gives at least one piece, and no piece holds the separator; `Text.JoinSplit` and `Text.SplitJoin` state its partnership with `Join` |
| Text.Join | index.js:118 | definition of joining with a one-character separator; `Text.JoinSplit` and `Text.SplitJoin` state its properties |
| Text.IsSpace | index.js:93 | definition of the ECMAScript whitespace and line-terminator characters that `trim` removes; used by the trim lemmas below |
| Text.TrimStart | index.js:93 | definition of dropping leading whitespace; `Text.TrimStartSpec` states its properties |
| Text.TrimEnd | index.js:93 | definition of dropping trailing whitespace; `Text.TrimEndSpec` states its properties |
| Text.Trim | index.js:93 | definition of `trim` as both of the above; `Text.TrimSlice`, `Text.TrimAllSpace` and `Text.TrimUnchanged` state its properties |
| Text.JoinSplit | index.js:92 | joining the pieces of `s.split(c)` with `c` gives back `s` |
| Text.SplitJoin | index.js:118 | splitting a `join(c)` of one or more pieces that contain no `c` gives back the pieces (the output file's lines are the results) |
| Text.SplitWithoutSeparator | index.js:93 | a string without the separator splits into itself alone |
| Text.SplitAfterPiece | index.js:92 | splitting `a + c + rest`, where `a` holds no `c`, gives `a` followed by the pieces of `rest` |
| Text.FirstPiece | index.js:93 | `split(c)[0]` is a prefix of the string that ends at the first `c` or at the end |
| Text.FirstPieceIsPrefix | index.js:93 | `split(c)[0]` is exactly the text before the first `c` |
| Text.IndexOf | index.js:93 | the position of the first `c`, or the length when there is none |
| Text.TrimStartSpec | index.js:93 | leading trim drops a whitespace prefix and leaves a string that is empty or starts with a non-space |
| Text.TrimEndSpec | index.js:93 | trailing trim drops a whitespace suffix and leaves a string that is empty or ends with a non-space |
| Text.TrimSlice | index.js:93 | `trim()` is a slice of the string with only whitespace on either side and no whitespace at either end |
| Text.TrimAllSpace | index.js:93 | a string of whitespace only trims to `""` |
| Text.TrimUnchanged | index.js:93 | a string with no whitespace at either end is left as it is |
| Parser.DigitRun | index.js:94 | the run of ASCII digits at the front of a string is maximal and holds digits only |
| Parser.ParseDotted | index.js:94 | definition of the matcher for the dotted octets; `Parser.ParseDottedSound` and `Parser.ParseDottedComplete` state its properties |
| Parser.ParseDottedSound | index.js:94 | the dotted part of the match is one or more 1–3 digit octets joined by `.`, followed by a rest that is empty or starts with neither a digit nor `.` |
| Parser.ParsePort | index.js:94 | definition of the matcher for the optional port and the end of the line; `Parser.ParsePortSpec` states its properties |
| Parser.ParsePortSpec | index.js:94 | the empty rest is accepted with no port; a rest of `:` followed by one or more digits is accepted with those digits as the port; whatever is accepted with a port has that form |
| Parser.ParseEndpoint | index.js:94 | definition of the whole pattern: dotted octets, exactly four of them, then the port matcher; `Parser.ParseSound` and `Parser.ParseComplete` state its properties |
| Parser.IsEndpoint | index.js:94 | definition of the pattern test; `Parser.IsEndpointIff` states the language it accepts |
| Parser.ParseSound | index.js:94 | whatever the pattern accepts is a well-formed endpoint whose text is the input exactly |
| Parser.ParseComplete | index.js:94 | every well-formed endpoint, written out, is accepted and read back as itself |
| Parser.IsEndpointIff | index.js:94 | a line passes the pattern test if and only if it is the text of a well-formed endpoint |
| Parser.ParseDottedComplete | index.js:94 | any joined list of octets followed by a non-digit, non-dot rest is read back exactly |
| Parser.EndpointChars | index.js:93-94 | an accepted line holds only digits, `.` and `:`, starts and ends with a digit, has no `#` and no surrounding whitespace |
| Parser.NoOctetRange | index.js:94 | `999.999.999.999` matches: the pattern has no octet range check |
| Parser.NoPortRange | index.js:94 | `1.2.3.4:99999` matches: the pattern has no port range check |
| Parser.CleanLine | index.js:93 | definition of cleaning one line; `Parser.CleanLineSpec` and `Parser.CleanLineBlank` state its properties |
| Parser.CleanLineSpec | index.js:93 | a cleaned line is the trimmed text before the first `#`; it holds no `#` and has no whitespace at either end |
| Parser.CleanLineBlank | index.js:93 | a line that is empty, blank or blank up to a `#` cleans to `""` |
| Parser.EmptyIsNotEndpoint | index.js:94 | the filter drops `""` |
| Parser.ParseLines | index.js:92-94 | the filter keeps at most as many lines as there are |
| Parser.ParseLinesMatch | index.js:94 | every kept line passes the pattern test |
| Parser.ParseLinesMember | index.js:92-94 | a string is kept exactly when it passes the pattern test and is the cleaned form of some line |
| Parser.ParseLinesAppend | index.js:92-94 | the chain works line by line: it distributes over concatenation, so order is kept |
| Parser.ParseText | index.js:91-94 | definition of the whole parse chain of one source text; `Parser.ParsedAreClean` states its properties, with `Parser.ParseLinesMember` and `Parser.ParseLinesAppend` |
| Parser.ParsedAreClean | index.js:91-94 | every candidate parsed from a text passes the pattern test and holds no `#`, no line break and no surrounding whitespace |
| Distinct.Dedup | index.js:102 | the result is no longer than the input, holds exactly the input's values and has no duplicates |
| Distinct.FirstIndex | index.js:102 | the position of a value's first occurrence |
| Distinct.DedupOrder | index.js:102 | the kept values are in the order of their first occurrences in the input |
| Distinct.DedupUnchanged | index.js:102 | a list without duplicates is left as it is |
| Distinct.DedupIdempotent | index.js:102 | deduplicating twice is deduplicating once |
| Distinct.DedupCharacterised | index.js:102 | a list holds the input's values, once each, in first-occurrence order, if and only if it is the deduplicated input |
| Scheduler.CatchNull | index.js:141 | definition of what a task contributes once a rejection is caught; `Scheduler.RunConcurrent` states that each result is this of its task |
| Scheduler.BatchSize | index.js:139-141 | with `concurrency >= 1` a batch takes `min(concurrency, remaining)` tasks: no more than either, and equal to one of them; it is empty exactly when `concurrency <= 0` or nothing remains |
| Scheduler.Range | index.js:140 | the task indices `lo` to `hi - 1`, in order |
| Scheduler.Plan | index.js:137-145 | definition of the batches the loop starts; `Scheduler.PlanStartsEachTaskOnce`, `Scheduler.PlanBatchSizes` and `Scheduler.PlanBatchCount` state its properties |
| Scheduler.Flatten | index.js:137-145 | definition of the batches' task indices one after the other; `Scheduler.PlanStartsEachTaskOnce` states what it gives for the plan |
| Scheduler.RunConcurrent | index.js:133-148 | the loop ends with one result per task, result `k` being task `k`'s value or `null` if it rejected, and the batches it starts are the plan; with no tasks it returns at once whatever `concurrency` is |
| Scheduler.RangeSplit | index.js:140 | consecutive index ranges concatenate |
| Scheduler.PlanStartsEachTaskOnce | index.js:137-145 | the batches, one after the other, start every task exactly once, in index order |
| Scheduler.PlanBatchSizes | index.js:139-142 | every batch holds 1 to `concurrency` tasks, and every batch but the last holds exactly `concurrency` |
| Scheduler.PlanBatchCount | index.js:137-145 | the number of batches is the ceiling of the task count over `concurrency` |
| Scheduler.NoProgressWithoutConcurrency | index.js:139 | with `concurrency <= 0` a batch takes no task, so the outer loop cannot advance |
| Progress.Host | index.js:34 | the host part has no `:` and is the prefix of the candidate up to the first `:` |
| Progress.PortText | index.js:34 | definition of the port part, the default port when there is none; `Progress.ProxyServerOfEndpoint` states its effect on parsed candidates |
| Progress.ProxyServer | index.js:41 | definition of the proxy address handed to the browser; `Progress.ProxyServerOfEndpoint` states its properties |
| Progress.ProxyServerOfEndpoint | index.js:34-41 | for a parsed candidate the host is its dotted part and the proxy address is the candidate itself with a port, otherwise the candidate with `:443` |
| Progress.ProbeValue | index.js:64-77 | `checkProxy` resolves to a value exactly when the check passed, and that value is a `:`-free prefix of the candidate |
| Progress.Tracker.constructor | index.js:9-11 | all counters start at 0 |
| Progress.Tracker.InitProgress | index.js:13-17 | `total` is set and both other counters are reset to 0 |
| Progress.Tracker.UpdateProgress | index.js:19-22 | `processed` rises by 1, and `validCount` by 1 exactly when `valid`; `total` is unchanged |
| Progress.Tracker.CheckProxy | index.js:33-78 | the return value is the host on a pass and `null` otherwise; a pass adds 2 to `processed` and 1 to `validCount`, anything else adds 1 to `processed` only |
| Pipeline.Contribution | index.js:88-98 | definition of what one source adds; `Pipeline.FailedSourceAddsNothing` and `Pipeline.AllCandidatesMember` state its properties |
| Pipeline.AllCandidates | index.js:87-99 | definition of `allIps` after the source loop; `Pipeline.CollectCandidates`, `Pipeline.AllCandidatesAppend` and `Pipeline.AllCandidatesMember` state its properties |
| Pipeline.AllCandidatesAppend | index.js:87-99 | the candidates of consecutive groups of sources concatenate in source order |
| Pipeline.FailedSourceAddsNothing | index.js:88-98 | a failed fetch adds no candidate and the later sources are still read |
| Pipeline.AllCandidatesMember | index.js:87-99 | a value is a candidate exactly when some fetched source's text parses to it |
| Pipeline.CollectCandidates | index.js:84-99 | the source loop builds `allIps` as every fetched source's parsed lines, in source order |
| Pipeline.UniqueIps | index.js:102 | definition of the deduplicated candidates of a run; `Distinct.Dedup`, `Distinct.DedupOrder` and `Distinct.DedupCharacterised` state its properties |
| Pipeline.ProbeTasks | index.js:108 | definition of the task list, one task per unique candidate; `Pipeline.SettledProbeResults` states what running it gives |
| Pipeline.SettledProbeResults | index.js:108-111 | results that are, one by one, the caught outcomes of the probe tasks are the probe results |
| Pipeline.ValidIps | index.js:114 | the filter keeps at most as many values as there are results |
| Pipeline.ValidIpsMember | index.js:114 | a value is kept exactly when it is a non-null result |
| Pipeline.ValidIpsAppend | index.js:114 | the filter keeps the order of the results |
| Pipeline.ValidIpsLength | index.js:114 | the filter keeps one value per non-null result |
| Pipeline.NonNullIsPassCount | index.js:114 | the number of non-null results equals the number of candidates that passed |
| Pipeline.ProbeResults | index.js:108-111 | definition of the results of the probe tasks, one per candidate in candidate order; `Pipeline.NonNullIsPassCount` and `Pipeline.ResultListSpec` state its properties |
| Pipeline.ResultList | index.js:114 | definition of `validIps` of a run; `Pipeline.ResultListSpec` and `Pipeline.OutputIsResultLines` state its properties |
| Pipeline.ResultListSpec | index.js:102-114 | a host is in `validIps` exactly when it is the host of a unique candidate that passed; it has no `:`; there is one entry per passing candidate |
| Pipeline.NothingPasses | index.js:114-118 | when no probe passes, `validIps` is empty and the output text is `""` |
| Pipeline.OutputLines | index.js:118 | any non-empty list of entries without line breaks, joined with line breaks and split again, is given back |
| Pipeline.OutputIsResultLines | index.js:118 | the output text of a run with at least one pass, split at line breaks, gives back exactly that run's `validIps`: one result per line |
| Pipeline.FetchAndCheckIps | index.js:83-118 | the run ends with the unique candidates, the result list and its joined text; `total` is the number of unique candidates, `validCount` the number of passes, and `processed` the number of candidates plus the number of passes; a non-empty output text splits back into `validIps` |
| Pipeline.EndToEndScenario | index.js:87-118 | for one source with two endpoints, a comment line and a malformed line, where only `1.1.1.1` passes, the unique candidates are `1.1.1.1` and `2.2.2.2:8080` and the output text is `1.1.1.1` |
| Scenario.ScenarioParse | index.js:91-94 | the scenario text parses to its two endpoint lines, dropping the comment, the malformed line and the empty last piece |
| Scenario.ScenarioCommentLine | index.js:93-94 | a line starting with `#` cleans to `""` and is dropped |
| Scenario.ScenarioMalformedLine | index.js:94 | `not-an-ip` is dropped |

## Left out

- The browser check (`index.js:40-64`): launching Puppeteer with the proxy, the user agent and headers, navigating to the test page and looking for the challenge text are browser and network I/O. Their outcome is a parameter: a `ProbeResult` for `Tracker.CheckProxy`, a `probe` function for the pipeline. The navigation timeout is part of that outcome.
- `Pipeline.Contribution`: the source pushes a source's parsed lines onto `allIps` by spreading them into the arguments of one call (`index.js:95`). When a source yields more lines than the JavaScript engine allows as call arguments, that call throws a `RangeError`. The `catch` at `index.js:96` then swallows it, and that source adds nothing. The engine's limit is not part of the language, so the model always adds every parsed line.
- `fetch(source)` and `res.text()` (`index.js:89-90`) are network I/O; each source's outcome is given as `Option<string>`. `ip_sources.js` is not part of this model.
- `fs.writeFile` and the `git` commit and push through `exec` (`index.js:118-125`) write files and run a shell. Only the text written, the results joined with line breaks, is modelled.
- `printProgress` (`index.js:24-27`) uses floating-point division, `Math.round` and console output. It is called only at the end of a probe (`index.js:74`), so `total` is then at least 1 and it never divides by zero. Because a pass adds 2 to `processed`, the percentage it prints can exceed 100. The progress messages and the error logging (`index.js:97`, `:103`, `:115`, `:119`) are console output.
- Real concurrency: `Promise.all` runs a batch's tasks at once. The model runs them in index order, which gives the same results and the same final counters, because the counter updates only add. Interleavings within a batch are not modelled.
- `Pipeline.FetchAndCheckIps`: a task's counter updates are applied by the pipeline in the order the tasks are started. They are not applied inside `RunConcurrent`, because Dafny has no closures with side effects. So `RunConcurrent` takes the tasks' settled values, not functions that run them.
- `Progress.Tracker.CheckProxy` never rejects. The one way `checkProxy` can reject is `browser.close()` throwing inside `finally` (`index.js:72`). That would skip the `finally` update and turn the result into `null` through `.catch`. This case is not modelled.
- `Scheduler.RunConcurrent` requires `concurrency >= 1` or no tasks, and `Pipeline.FetchAndCheckIps` requires `concurrency >= 1` or no unique candidates. With `concurrency <= 0` and at least one task the source loops forever (`index.js:137-142`), which a terminating method cannot model; `Scheduler.NoProgressWithoutConcurrency` shows why. With no tasks the source returns `[]` at once whatever `concurrency` is, and the model does the same. The configured value, 30 (`config.js:12`), meets the requirement (`Pipeline.ConcurrencyIsPositive`).
- `trim` works on UTF-16 code units. The model trims Dafny characters (Unicode scalar values), so lone surrogates are not modelled.
- `config.DEBUG`, `config.TIMEOUT`, `config.TEST_URL` and `config.OUTPUT_FILE` only configure the browser and the output file, so they are left out with those.
