# updateProxyIP: a verified model of the address updater

updateProxyIP keeps a DNS "A" record pointed at a fast proxy address. For
each configured domain `name.domain` it:

1. pings the domain's current address;
2. if the average latency is above 200 ms, downloads an archive of candidate
   address lists;
3. walks the archive's entries in order;
4. for each entry, pings every address the entry lists and picks the
   lowest-latency address whose loss rate is at most 0.35;
5. asks the DNS provider's API to repoint the record at the first address
   so picked.

The update (step 5) is a retry loop over a zone lookup, a record lookup and
a record update, given up when its counter reaches five.

This project models that core in Dafny, in five modules:

- `Probe` (probe.dfy) is `getLatency`. It turns one ping outcome into a
  `LatencyResult`.
- `Text` (text.dfy) is `strings.Trim` and `strings.Split` on `"\n"`, and
  `strings.Contains`. It also defines `Join` with `strings.Join(xs, "\n")`'s
  meaning. The program never joins; `Join` exists to state what Split
  returns, as its inverse.
- `Select` (select.dfy) is `getIP`. It splits, probes every candidate once,
  collects the results in arrival order, sorts them in place by latency (an
  array insertion sort), and scans for the first result that passes the loss
  filter.
- `Upload` (upload.dfy) is `uploadIP`, as a `while` loop over the counter
  `retry` and the variable `url`. `Upload.Upload` is a functional reading of
  the same loop that the lemmas reason about.
- `Orchestrate` (handle.dfy) is `handleMain`. It applies the 200 ms
  threshold, walks the entries with early exits, and calls the updater at
  most once.

### How the environment is modelled

- **Ping.** The ping library is a `ProbeOutcome`: either no pinger could be
  built, or the average round trip and the packet loss it measured.
- **Loss rates.** They are integers in hundredths of the stored value. The
  library reports loss as a percentage, so 25 % is 2500, the cut-off "35" is
  3500, the filter "0.35" is 35, and the sentinel 1.00 is 100.
- **Concurrency.** The goroutine fan-out is replaced by its state after the
  join. `arrival` is any permutation of the candidate indices, giving the
  order in which results came out of the channel. The selector's contract
  does not mention `arrival`, so it holds for every arrival order. It also
  holds for every order of equal latencies, which covers the library's
  unstable sort.
- **Network.** The DNS provider is a sequence of `Attempt` values. One is
  consumed per pass of the retry loop, and each says how far that pass got:
  - the zone lookup failed to build, send or read;
  - the record lookup failed;
  - or the records were listed, with the records and the PUT's outcome.

  The loop also ends when that sequence runs out.
- **Archive.** The archive download is a `Download`: one of three failures,
  or the list of entries. Each entry carries:
  - its name;
  - the outcome of opening and reading it;
  - the probe outcomes and arrival order its content meets.

### Points where the code does less than it appears to

- **Entry filter.** A third `domainInfo` element looks like a preference
  for archive entries whose name contains it. Both branches of that test at
  main.go:247-271 are identical, so entries are walked in archive order
  whatever the filter says. `Orchestrate.Handled` mentions neither the
  filter nor the entry names.
- **High-loss result.** A measurement with loss of at least 35 does not
  keep its measured loss: it is replaced by the sentinel 1.00
  (main.go:53-60).
- **Tie order.** Results are collected in completion order (main.go:80-82)
  and sorted with the unstable `sort.Slice` (main.go:84-86), so any
  address tied for the lowest passing latency may be chosen.
- **Trimming.** Only leading and trailing newlines of the whole content
  are stripped (main.go:65). A `"\r"` stays part of a candidate, and a
  blank line in the middle becomes an empty candidate of its own
  (`"a\n\nb"` gives `["a", "", "b"]`).

### Behaviour kept as written

- **URL reuse.** `url` is set to the zone lookup URL only once, before the
  loop (main.go:100). An attempt that got past the zone lookup overwrites it
  (main.go:140, 188), so every later attempt starts its "zone lookup" with a
  GET of the last dns_records URL (`Upload.ZoneUrlNeverRevisited`).
- **Uncounted restart.** An attempt whose record lookup finds no "A"
  record, or whose first "A" record has an empty id, restarts the loop
  without incrementing `retry` (main.go:171-175, 184-186). An endless supply of
  such answers would never end the loop (`Upload.RestartKeepsCounter`, `Upload.RestartsAreNotCounted`).
- **Two loss thresholds.** The prober keeps any measurement with loss below
  35 (a percentage). The selector accepts only loss at most 0.35 on that same
  percentage value. So a loss of, say, 10 % is kept by the prober and refused
  by the selector (`Probe.LossBetweenThresholdsIsKeptButRefused`).

## Model

| member | source | states |
|---|---|---|
| Probe.GetLatency | main.go:35-61 | The result carries the probed address. No pinger gives latency 9999 with loss 1.00. Loss at or above 35 gives the same sentinel. Loss below 35 gives the average round trip in milliseconds and the loss. |
| Probe.AcceptedProbeIff | main.go:53-60 | A probe result passes the selector's filter exactly when a pinger was built and the reported loss is at most 0.35. |
| Probe.SentinelNeverAcceptable | main.go:43 | The sentinel result never passes the filter. |
| Probe.HighLossIsDiscarded | main.go:58-60 | A measurement at or above the cut-off gives the same result as any other such measurement or a failed pinger: its latency and loss are discarded. |
| Probe.LossBetweenThresholdsIsKeptButRefused | main.go:53-57 | A loss strictly between 0.35 and 35 keeps its latency in the result, yet the result never passes the filter. |
| Text.TrimIsInnerPart | main.go:65 | The trimmed content is a slice of the content that neither starts nor ends with a newline. Everything cut off before and after it is newlines. |
| Text.Split | main.go:65 | Splitting on newlines gives at least one piece, and no piece contains a newline. |
| Text.JoinSplit | main.go:65 | Joining the pieces with newlines gives back the split string. |
| Text.ContainsIff | main.go:247 | The substring test holds exactly when `sub` occurs in `s` at some position, in both directions. |
| Text.SplitJoin | main.go:65 | A non-empty list of newline-free pieces, joined and split again, is itself: split and join are inverse. |
| Select.Candidates | main.go:65 | The candidate list is never empty and has no element containing a newline. Joined with newlines, it equals the content with leading and trailing newlines removed. |
| Select.BlankContentIsOneEmptyCandidate | main.go:65 | Empty or newline-only content yields exactly one empty candidate. |
| Select.ProbeAll | main.go:68-73 | Each candidate gets exactly one probe: result k is the classification of candidate k's probe and carries candidate k's address. |
| Select.ArrivalIsInjective | main.go:76-82 | An arrival order that covers every index visits no index twice. |
| Select.CollectedCoversPool | main.go:76-82 | Draining the channel in any arrival order collects every probe result exactly once and nothing else: the collected sequence and the probe results have equal multisets. |
| Select.Collect | main.go:64-82 | The fan-out and drain fill a fresh array whose contents are a permutation of the probe results. |
| Select.SortByLatency | main.go:84-86 | The in-place sort leaves the results in non-decreasing latency and is a permutation of them. |
| Select.FirstAcceptableOfSorted | main.go:88-93 | The first result of the sorted list that passes the filter has a latency no greater than any passing result of the pool. |
| Select.NoneAcceptableOfSorted | main.go:95 | When no sorted result passes the filter, "" is the answer for the pool. |
| Select.FirstAcceptable | main.go:88-95 | Scanning a latency-sorted permutation of the pool returns an answer the selector may give: the first passing address, or "" when none passes. |
| Select.GetIP | main.go:63-96 | For every arrival order, the answer is either "" with no result passing the filter, or the address of a passing result whose latency is minimal among the passing results. |
| Select.NoWinnerIffNoneAcceptable | main.go:88-95 | When passing results have non-empty addresses, "" is a possible answer exactly when no result passes, both directions. |
| Select.DistinctLatenciesDetermineWinner | main.go:84-93 | When the passing results have pairwise distinct latencies, all possible answers are the same address. |
| Select.UnreachablePoolSelectsNothing | main.go:40-44 | If no pinger could be built for any candidate, the selector answers "". |
| Upload.VerdictIff | main.go:110-213 | An attempt restarts exactly when the record lookup found no "A" record, or the first one has an empty id. It succeeds exactly when the first "A" record has a non-empty id and the PUT got 200. Every other attempt increments the counter. |
| Upload.ARecordIdIsFirstA | main.go:170-176 | The chosen record id is "" when no record has type "A", and otherwise the id of the first record of type "A". |
| Upload.ChooseRecord | main.go:170-176 | The record scan with its early break returns the id of the first "A" record, or "". |
| Upload.IssuedByShape | main.go:110-205 | An attempt's first request is a GET of the `url` it started with. It sends a PUT exactly when the records were listed, an "A" record with a non-empty id was found, and the PUT request could be built. |
| Upload.RunAttempt | main.go:110-213 | One pass of the loop body increments the counter exactly on build, transport and read errors and on a non-200 PUT. It restarts without incrementing on an empty rid and breaks on 200. It leaves `url` and the requests sent as the reference step functions say. |
| Upload.UploadIP | main.go:98-219 | The loop's final counter, attempts run, success flag, failure log, `url` and request log are those of the functional reading, and satisfy Describes (see UploadFacts). |
| Upload.ResumeFacts | main.go:109-214 | From any state the loop reaches without a 200, the rest of the loop ends in a state that the reference folds describe. |
| Upload.UploadFacts | main.go:109-218 | The loop runs the number of attempts at which StopsAt holds: stop on 200, at retry 5, or when outcomes run out. The counter equals the number of counted failures among them and is at most 5. Success is reported exactly when the last attempt got 200. The failure is logged exactly when retry reached 5, so never after a 200. `url` and the requests sent are those of folding the attempts. |
| Upload.CountedMonotone | main.go:109-213 | The counter never decreases from one attempt to the next. |
| Upload.StopPointUnique | main.go:109-214 | Exactly one attempt count satisfies the loop's exit condition for a given run. |
| Upload.RestartKeepsCounter | main.go:184-186 | In any run, an attempt that restarts leaves the counter unchanged. |
| Upload.RestartsAreNotCounted | main.go:184-186 | A run made only of restarting attempts (no "A" record, or a first "A" record with an empty id) keeps the counter at 0. |
| Upload.RestartsRunToTheEnd | main.go:184-186 | A run made only of such attempts is consumed to its end, so the loop terminates only because the outcomes run out. |
| Upload.ZoneUrlNeverRevisited | main.go:100-140 | Once an attempt has passed the zone lookup, `url` never again holds the zone lookup URL. |
| Upload.PutsCarryAddress | main.go:178-190 | Every PUT targets a record by a non-empty id. Its body has the zone id as "id", type "A", name `name.domain` and the new address as content. |
| Upload.NoPutWithoutRecords | main.go:110-138 | Attempts that all fail at the zone lookup send no PUT. |
| Upload.ZoneLookupAlwaysFailing | main.go:109-218 | With every zone lookup failing, the loop stops after exactly five attempts, logs the failure, reports no success and sends no PUT. |
| Upload.SuccessOnThirdAttempt | main.go:207-213 | Two counted failures followed by a 200 end the loop after the third attempt with success, counter 2 and no failure log. |
| Orchestrate.HandleMain | main.go:221-282 | A possible end of handleMain. Fast: kept, no upload. Download failure: stop. Otherwise entries are walked in archive order; an unreadable entry stops the walk; uploadIP is called once, for an entry read after earlier ones that all answered "", with an address the selector may pick; or no entry gives an address. |
| Orchestrate.TooSlowIff | main.go:224-225 | The archive walk starts exactly when the current address has no pinger, loses at least the cut-off, or averages more than 200 ms. |
| Orchestrate.FastDomainIsKept | main.go:278-279 | A current address measured at 200 ms or less with loss below the cut-off fetches nothing and makes no upload. |
| Orchestrate.AtMostOneUpload | main.go:272-276 | uploadIP is called at most once, exactly when an entry gave an address. That entry and every earlier one were read. The address belongs to a result that passes the filter and has the least latency among that entry's passing results. |
| Orchestrate.SkippedEntriesHadNoPassingResult | main.go:244-277 | An entry walked past before the upload had no passing result, as long as passing results carry non-empty addresses. |
| Orchestrate.EntryNamesAreIgnored | main.go:247-271 | Renaming the archive's entries changes no possible outcome: the substring filter does not change which entry wins. |

## Left out

- **Ping machinery.** This covers `runtime.GOOS`, privileged mode, count
  and timeout (main.go:40-52). They are replaced by the `ProbeOutcome`
  input.
- **Float work.** The conversion of `AvgRtt` to milliseconds and the
  two-decimal rounding of the loss (main.go:54-56) are absorbed into the
  integer inputs.
- **Goroutines, WaitGroup and channel** (main.go:64-82). Only the joined
  state is modelled, as an arbitrary arrival permutation.
- **HTTP details.** Request headers, the email and key credentials, the
  URL strings' exact text, the client timeout and the archive URL are left
  out. URLs are the abstract `Url` values the code assigns.
- **JSON decoding** (main.go:136-138, 167-173). Its unchecked type
  assertions panic on unexpected bodies. The model takes the decoded zone
  id and record list as given: it assumes well-formed bodies and does not
  model the panic.
- **Zip parsing and entry reading.** These are replaced by the `Download`
  and `EntryRead` outcomes.
- **Logging, timestamps, `main`, flags and configuration loading**
  (main.go:284-314).
- **Short domainInfo.** Indexing a `domainInfo` with fewer than two
  elements panics. `Orchestrate.HandleMain` requires at least two.
- **Upload.UploadIP** runs over a finite sequence of attempt outcomes, so
  the model's loop also ends when the outcomes run out. The program itself
  would keep trying; `Upload.RestartsRunToTheEnd` states what that means
  for endless restarts.
- **Select.GetIP** requires one probe outcome per candidate and a valid
  arrival order. This is part of modelling the probes as an input, not a
  demand on callers of the program.
