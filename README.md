# broken_links_history, modelled in Dafny

broken_links_history finds pages of a web site that used to exist and now
answer 404. It asks the Wayback Machine's CDX index for every archived URL
of a domain (`get_wayback_urls`). It keeps the contentful ones (`.php`,
`.html`, `.pdf`, `/`), each once (`filter_urls`). It probes each kept URL
with an HTTP `HEAD` request (`check_availability`). The discovery loop
(`waybackmachine_pages`) repeats this for a number of rounds and gathers
the `(url, status)` pairs in a set. In broken-only mode it keeps only the
404s. The package's command-line entry point (`main.py`) runs a second
checker on the URLs whose first check failed and saves the result.

The repository ships two versions of three modules:
- the package `waybackmachine_site_pages/`;
- an older top-level copy.

The model covers both. It is split into these modules:

- `Common` holds the shared records:
  - a `(url, status)` pair, with `None` as a status;
  - an HTTP attempt, which is a response code or a `RequestException`;
  - the network oracle `Prober`, which maps a URL and an attempt number to
    an `Attempt`;
  - order-preserving filters over sequences.
- `History` holds `get_wayback_urls` in both versions, which turns a CDX
  reply into a table. It also holds the `df["original"]` column lookup and
  `filter_urls`.
- `Checker` models the package availability checker:
  - `check_url`, with its `http://` to `https://` upgrade and its retry loop
    with backoff `2 ** retry`;
  - `check_availability`, which drops `None` statuses.
- `RootChecker` models the top-level checker: one request per URL, and
  `None` statuses kept in the default mode.
- `Rounds` gives the meaning of the discovery loop as a fold over the
  round outcomes (`Accumulate`). It also holds the inner loop that adds
  pairs to the set (`AddPairs`). Both loop versions share them.
- `Pages` and `RootPages` are the two round loops, as imperative methods
  proved against `Accumulate`:
  - the package loop catches an exception and stops;
  - in the top-level loop an exception escapes the whole call.
- `Audit` models `main.py`:
  - the split of the first check's records into failed URLs and
    successful records;
  - the escalation of the failed URLs to a second checker;
  - the empty save on any exception;
  - the command-line parsing of `sys.argv`, including the base-10 `int()`
    and the `lower() == "true"` flag.

The network is an oracle, as are the CDX reply of each round and the
probe results of each round. Every result is therefore a function of
those parameters. A round's probes are the oracle `probers(i)`. The thread
pool is read back in submission order, so the probes are a sequential map
over the URL list.

## Model

| member | source | states |
|---|---|---|
| Checker.Upgrade | waybackmachine_site_pages/availability_checker.py:23-25 | an `http://` URL becomes `https://` with the same rest; any other URL passes through unchanged; the result never starts with `http://` |
| Checker.UpgradeIdempotent | waybackmachine_site_pages/availability_checker.py:23-25 | upgrading twice is the same as upgrading once |
| Checker.RetryFrom | waybackmachine_site_pages/availability_checker.py:27-35 | the status the retry loop reports from attempt `i` on: the first response's code, or `None` after the last attempt; characterised by `Checker.RetryFromNone` and `Checker.RetryFromFirst` |
| Checker.RetryStatus | waybackmachine_site_pages/availability_checker.py:27-35 | `check_url`'s status with `n` attempts on the upgraded URL; characterised by `Checker.RetryStatusIsFirstResponse` |
| Checker.RetryFromNone | waybackmachine_site_pages/availability_checker.py:27-35 | the retry loop from attempt `i` reports no status exactly when every remaining attempt raised |
| Checker.RetryFromFirst | waybackmachine_site_pages/availability_checker.py:27-31 | the retry loop reports the status code of the first remaining attempt that got a response |
| Checker.RetryStatusIsFirstResponse | waybackmachine_site_pages/availability_checker.py:27-35 | `check_url`'s status is `None` iff all `max_retries` attempts raised; otherwise it is the code of the first response, whatever the code |
| Checker.Doublings | waybackmachine_site_pages/availability_checker.py:33 | the backoff multipliers: entry `i` is `2 ** i` |
| Checker.AttemptsFrom | waybackmachine_site_pages/availability_checker.py:27-35 | the requests the retry loop makes from attempt `i` on; characterised by `Checker.AttemptsFromFacts` |
| Checker.Attempts | waybackmachine_site_pages/availability_checker.py:27-35 | the requests `check_url` makes; characterised by `Checker.AttemptsCharacterised` |
| Checker.AttemptsFromFacts | waybackmachine_site_pages/availability_checker.py:27-35 | from attempt `i`, the requests made stay within `i..n`; all of them are made and all raise when no status comes back; otherwise the last one made is the response reported |
| Checker.AttemptsCharacterised | waybackmachine_site_pages/availability_checker.py:27-35 | `check_url` makes at most `max_retries` requests: all of them, each raising, when the status is `None`; otherwise the requests up to the reported response, every earlier one raising |
| Checker.NoRetriesNoStatus | waybackmachine_site_pages/availability_checker.py:27-35 | with `max_retries <= 0` no request is made and the status is `None` |
| Checker.CheckUrl | waybackmachine_site_pages/availability_checker.py:11-35 | returns the upgraded URL with the retry loop's status; the requests made are those the retry loop specifies; the sleeps are `2 ** 0, 2 ** 1, ...`, one per failed attempt |
| Checker.Probed | waybackmachine_site_pages/availability_checker.py:52-54 | the pair a future yields: the upgraded URL and the retry status with the default three attempts |
| Checker.ProbeAll | waybackmachine_site_pages/availability_checker.py:52-54 | one result per submitted URL, in submission order, each the result of `check_url` with its default retries |
| Checker.SubmitCheck | waybackmachine_site_pages/availability_checker.py:52-54 | a future's result is `check_url(url)` with the default three attempts |
| Checker.Kept | waybackmachine_site_pages/availability_checker.py:55-59 | the test in front of `append`: a status is present, and it is 404 in broken-only mode |
| Checker.Select | waybackmachine_site_pages/availability_checker.py:53-59 | holds exactly the results that pass the test, and no more of them than results |
| Checker.SelectStep | waybackmachine_site_pages/availability_checker.py:53-59 | handling one more future appends its pair exactly when the pair has a status, and in broken-only mode that status is 404 |
| Checker.SelectedResults | waybackmachine_site_pages/availability_checker.py:49-61 | every returned pair has a status, which is 404 in broken-only mode; no kept result is missing; the results keep input order; at most one result per input URL |
| Checker.CheckAvailability | waybackmachine_site_pages/availability_checker.py:37-61 | returns exactly the probe results in input order, minus the `None` statuses, and only the 404s in broken-only mode |
| RootChecker.CheckUrl | availability_checker.py:6-19 | the URL comes back as given; a status is present iff the request got a response, and it is the response's code (the 200 and 404 branches return the same code as the fallback branch) |
| RootChecker.Probed | availability_checker.py:10-19 | the single request's result for a URL, as attempt 0 of the oracle |
| RootChecker.ProbeAll | availability_checker.py:28-30 | one result per submitted URL, in order, each from a single request |
| RootChecker.Kept | availability_checker.py:31-35 | the test in front of `append`: anything in the default mode, only a 404 in broken-only mode |
| RootChecker.Select | availability_checker.py:29-35 | holds exactly the results that pass the test, and no more of them than results |
| RootChecker.SelectStep | availability_checker.py:29-35 | one more future appends its pair when broken-only is off, and otherwise only a 404 |
| RootChecker.SelectedResults | availability_checker.py:25-37 | at most one result per URL; broken-only gives only 404s and every URL answering 404; otherwise every result is returned, `None` statuses included |
| RootChecker.CheckAvailability | availability_checker.py:21-37 | the selected results; in the default mode one pair per URL, in order, each the single request's result |
| History.GetWaybackUrls | waybackmachine_site_pages/get_history.py:37-49 | a reply with more than the header row and no error gives the header as columns and the remaining rows as data; every error or short reply gives the empty `original` table |
| History.RootGetWaybackUrls | get_history.py:24-35 | a transport failure or undecodable body raises; any status other than 200 gives the empty table; a 200 gives the header and rows, or the empty table for a short reply |
| History.RootAgreesOnSuccess | get_history.py:24-32 | on a decodable status-200 reply both versions build the same table |
| History.ColumnOf | waybackmachine_site_pages/get_history.py:56 | the `original` column exists iff the header names it exactly once and the rows fit the header; it then holds each row's cell in that column, missing cells as `None` |
| History.EmptyFrameColumn | waybackmachine_site_pages/get_history.py:46-56 | the empty table has an `original` column with no cells |
| History.Contentful | waybackmachine_site_pages/get_history.py:55-56 | a URL ends in `.php`, `.html`, `/` or `.pdf` |
| History.ContentfulCell | waybackmachine_site_pages/get_history.py:56 | the row mask: a present value that is contentful; missing values are dropped (`na=False`) |
| History.Dedup | waybackmachine_site_pages/get_history.py:57 | `drop_duplicates`: no repeats, the same members as the input, and no longer than it |
| History.DedupKeepsFirstOrder | waybackmachine_site_pages/get_history.py:57 | the survivors stand in the order of their first occurrences |
| History.DedupOfNoDup | waybackmachine_site_pages/get_history.py:57 | a list without repeats is left unchanged |
| History.DedupIsSubsequence | waybackmachine_site_pages/get_history.py:57 | the survivors keep input order |
| History.FilterUrls | waybackmachine_site_pages/get_history.py:51-58 | the result holds exactly the present input values ending in `.php`, `.html`, `/` or `.pdf`, with no repeats |
| History.FilterUrlsSoundComplete | waybackmachine_site_pages/get_history.py:55-56 | a URL is kept iff it is in the column and contentful; missing values (`na=False`) are never kept |
| History.FilterUrlsOrder | waybackmachine_site_pages/get_history.py:56-57 | the kept URLs keep input order and stand in the order of their first occurrences |
| History.FilterPreservesFirstOrder | waybackmachine_site_pages/get_history.py:56 | the row mask does not reorder first occurrences |
| History.FilterUrlsIdempotent | get_history.py:37-44 | running `filter_urls` on its own output changes nothing |
| History.Values | waybackmachine_site_pages/waybackmachine_pages.py:31 | `tolist()`: the column's values, one per cell, in order |
| Rounds.KeepSnoc | waybackmachine_site_pages/waybackmachine_pages.py:34-39 | one more pair reaches the set exactly when it passes the broken-only test |
| Rounds.Wanted | waybackmachine_site_pages/waybackmachine_pages.py:36-39 | the test in front of `links_set.add`: anything in the default mode, only a 404 in broken-only mode |
| Rounds.Keep | waybackmachine_site_pages/waybackmachine_pages.py:34-39 | holds exactly the pairs that pass the test |
| Rounds.AddPairs | waybackmachine_site_pages/waybackmachine_pages.py:34-39 | the set afterwards is the old set plus the round's pairs that pass the broken-only test |
| Rounds.Tabulate | waybackmachine_site_pages/waybackmachine_pages.py:25 | the outcomes of rounds `0..n-1`, round `i` at position `i` |
| Rounds.TabulatePrefix | waybackmachine_site_pages/waybackmachine_pages.py:25 | the first `k` of `n` rounds are the first `k` rounds |
| Rounds.Step | waybackmachine_site_pages/waybackmachine_pages.py:26-46 | a running loop counts the round; the set only grows; the loop keeps running iff the round reached the checker (a non-empty contentful URL list, whatever pairs came back); a loop already left is unchanged |
| Rounds.Accumulate | waybackmachine_site_pages/waybackmachine_pages.py:23-48 | no more rounds run than offered; a running loop has run every round; a catching loop never raises |
| Rounds.AccumulateSnoc | waybackmachine_site_pages/waybackmachine_pages.py:25-46 | one more round is one more pass of the loop body |
| Rounds.AccumulateTabulateStep | waybackmachine_site_pages/waybackmachine_pages.py:25-46 | round `i` is the `i`-th pass of the loop body |
| Rounds.StopInRound | waybackmachine_site_pages/waybackmachine_pages.py:42-46 | leaving the loop in round `i` fixes the result: the set so far, `i + 1` rounds, and `Raised` only for an uncaught exception |
| Rounds.ContinueRound | waybackmachine_site_pages/waybackmachine_pages.py:30-41 | a round whose contentful URL list is non-empty adds the wanted pairs among the checker's (possibly none) and keeps the loop running |
| Rounds.AccumulateSticky | waybackmachine_site_pages/waybackmachine_pages.py:42-46 | once the loop is left, later rounds change nothing |
| Rounds.AccumulateMonotone | waybackmachine_site_pages/waybackmachine_pages.py:36-39 | the set only grows from round to round |
| Rounds.AccumulateAllContinue | waybackmachine_site_pages/waybackmachine_pages.py:25-41 | while every round has a non-empty contentful URL list, the loop runs every round |
| Rounds.AccumulateFirstStop | waybackmachine_site_pages/waybackmachine_pages.py:25-46 | the loop ends at the first round that raised or whose contentful URL list is empty, counts it, and keeps exactly the earlier rounds' set; a failed round raises only when not caught |
| Rounds.AddedBeforeSnoc | waybackmachine_site_pages/waybackmachine_pages.py:25 | added in the first `k + 1` rounds iff added in the first `k` or in round `k` |
| Rounds.AddedInPrefix | waybackmachine_site_pages/waybackmachine_pages.py:25 | what the first `n` rounds added depends only on those rounds |
| Rounds.AccumulateMembers | waybackmachine_site_pages/waybackmachine_pages.py:23-48 | a pair is in the result iff the checker returned it in a round that ran and it passed the broken-only test |
| Rounds.BrokenOnlyAll404 | waybackmachine_site_pages/waybackmachine_pages.py:36-37 | in broken-only mode every pair of the result has status 404 |
| Pages.FrameUrls | waybackmachine_site_pages/waybackmachine_pages.py:28-31 | a URL list handed on is non-empty and has no repeats |
| Pages.RoundUrls | waybackmachine_site_pages/waybackmachine_pages.py:27-31 | a URL list handed on is non-empty and has no repeats; every failed or short CDX reply gives a round without URLs, not an exception |
| Pages.Round | waybackmachine_site_pages/waybackmachine_pages.py:26-46 | a round reaches the checker iff it has a URL list, and fails iff the column lookup raised |
| Pages.CheckRound | waybackmachine_site_pages/waybackmachine_pages.py:27-32 | one round's body gives the round's specified outcome: raised, no contentful URL, or the checker's pairs |
| Pages.WaybackmachinePages | waybackmachine_site_pages/waybackmachine_pages.py:11-48 | the returned set and round count are those of the fold over the rounds; at most `iterations` rounds; in broken-only mode only 404s |
| Pages.RoundPairsKept | waybackmachine_site_pages/waybackmachine_pages.py:32 | every pair a round hands over passed the checker's test |
| Pages.RoundAddsProbed | waybackmachine_site_pages/waybackmachine_pages.py:31-39 | a URL of the round is added in that round iff its probed pair passes the checker's test |
| Pages.SelectThenKeep | waybackmachine_site_pages/waybackmachine_pages.py:34-39 | the loop's broken-only test lets through exactly what the checker kept |
| Pages.ProbedPairAdded | waybackmachine_site_pages/waybackmachine_pages.py:25-48 | a URL probed in a round that ran is in the result with its probed status iff that status is present, and is 404 in broken-only mode |
| Pages.FirstStopKeepsEarlier | waybackmachine_site_pages/waybackmachine_pages.py:25-46 | at the first round that raises or finds no contentful URL the loop stops; that round is counted and the earlier pairs are kept |
| RootPages.RootRoundUrls | waybackmachine_pages.py:22-27 | a URL list handed on is non-empty and has no repeats; a transport failure raises |
| RootPages.RootRound | waybackmachine_pages.py:21-45 | a round reaches the checker iff it has a URL list, and fails iff its request, JSON decoding or column lookup raised |
| RootPages.CheckRound | waybackmachine_pages.py:22-29 | one round's body gives the round's specified outcome |
| RootPages.WaybackmachinePages | waybackmachine_pages.py:7-47 | no set comes back iff an exception escaped; otherwise the set of the fold; at most `iterations` rounds; in broken-only mode only 404s |
| RootPages.RootRoundPairsKept | waybackmachine_pages.py:29 | every pair a round hands over passed the top-level checker's test |
| RootPages.RootSelectThenKeep | waybackmachine_pages.py:32-39 | the loop's broken-only test lets through exactly what the checker kept |
| RootPages.RootRoundAddsProbed | waybackmachine_pages.py:27-39 | a URL of the round is added in that round iff its pair passes the checker's test |
| RootPages.RootProbedPairAdded | waybackmachine_pages.py:21-47 | a URL probed in a round that ran is in the result iff broken-only is off or its single request answered 404; `None` statuses are kept in the default mode |
| RootPages.RootFirstStop | waybackmachine_pages.py:21-47 | the loop ends at the first round without a URL list, counting it; the call raises iff that round's request, JSON decoding or table lookup raised, and otherwise returns the earlier rounds' set |
| Audit.UrlsOf | waybackmachine_site_pages/main.py:52 | the URLs of the discovered pairs, one per pair, in order |
| Audit.FailedUrls | waybackmachine_site_pages/main.py:58 | no more failed URLs than records |
| Audit.FailedRecords | waybackmachine_site_pages/main.py:58 | holds exactly the records without a status |
| Audit.Successful | waybackmachine_site_pages/main.py:59 | holds exactly the records with a status |
| Audit.PartitionExact | waybackmachine_site_pages/main.py:58-59 | every record is on exactly one side: the successful side holds exactly the records with a status; the failed side holds exactly the URLs of those without one |
| Audit.PartitionOrder | waybackmachine_site_pages/main.py:58-59 | both sides keep the checker's order |
| Audit.NoFailureSavesAll | waybackmachine_site_pages/main.py:58-67 | when no check failed, every record is saved as it came and nothing is escalated |
| Audit.Run | waybackmachine_site_pages/main.py:37-75 | any exception saves `[]`; the second checker runs iff some check failed, on exactly the failed URLs; the save is the successful records followed by the second checker's records |
| Audit.IsSpace | waybackmachine_site_pages/main.py:83 | the whitespace `int()` skips on ASCII text: tab, line feed, vertical tab, form feed, carriage return, space |
| Audit.TrimStart | waybackmachine_site_pages/main.py:83 | removes exactly the leading whitespace `int()` skips (tab to carriage return, space) |
| Audit.TrimEnd | waybackmachine_site_pages/main.py:83 | removes exactly the trailing whitespace `int()` skips |
| Audit.ParseStripped | waybackmachine_site_pages/main.py:83 | only a non-empty text can be read as a number |
| Audit.Strip | waybackmachine_site_pages/main.py:83 | the stripped text has no whitespace at either end, and is empty only when the text is all whitespace |
| Audit.ParseInt | waybackmachine_site_pages/main.py:83 | a number is read only from text that is not all whitespace |
| Audit.DigitsValueShowNat | waybackmachine_site_pages/main.py:83 | the digits of `n` have value `n` |
| Audit.GroupValueShowNat | waybackmachine_site_pages/main.py:83 | the decimal form of `n` is a valid digit group with value `n` |
| Audit.StripUnpadded | waybackmachine_site_pages/main.py:83 | text without surrounding whitespace is not changed by stripping |
| Audit.ParseStrippedShowNat | waybackmachine_site_pages/main.py:83 | reading back the decimal form of `n` gives `n` |
| Audit.ParseStrippedShowNegative | waybackmachine_site_pages/main.py:83 | reading back `-` and the digits of `n` gives `-n` |
| Audit.ParseStrippedShowInt | waybackmachine_site_pages/main.py:83 | reading back `str(n)` gives `n` |
| Audit.ParseShowInt | waybackmachine_site_pages/main.py:83 | `int(str(n)) == n` for every integer |
| Audit.TrimStartPadded | waybackmachine_site_pages/main.py:83 | leading whitespace is all removed |
| Audit.ParseIgnoresLeadingSpace | waybackmachine_site_pages/main.py:83 | leading whitespace does not change what `int()` reads |
| Audit.NonSpaceLeadRejected | waybackmachine_site_pages/main.py:83 | `int()` raises on any text whose first character is neither whitespace, a sign nor a digit, for example an information separator `\x1c`–`\x1f` |
| Audit.Lower | waybackmachine_site_pages/main.py:84 | letter by letter, upper-case ASCII letters become lower case |
| Audit.IsTrueFlag | waybackmachine_site_pages/main.py:84 | the flag is set iff the lower-cased argument is `true`; characterised by `Audit.TrueFlagSpellings` |
| Audit.TrueFlagSpellings | waybackmachine_site_pages/main.py:84 | the flag is set exactly by `true` with each letter in either case |
| Audit.ParseArgs | waybackmachine_site_pages/main.py:78-84 | fewer than four entries give the usage exit; otherwise a bad count fails, and anything else starts with `argv[1]`, `int(argv[2])` and the flag from `argv[3]` |
| Audit.ExitStatus | waybackmachine_site_pages/main.py:78-85 | exit status 0 exactly when `main` is called; the usage exit and the uncaught `int()` error both exit with 1 |

## Left out

- Thread pools: `max_workers` and concurrency are not modelled. Futures are read in submission order, so the result is a sequential map.
- Sleeps and logging are not modelled:
  - `time.sleep` appears only as the backoff multipliers that `Checker.CheckUrl` reports, and `backoff_factor` is not modelled;
  - the one-second pause between rounds, `logging` and `print` are left out.
- The network is an oracle. A probe result is a function of the URL and the attempt number, so the model cannot express a server whose answers depend on anything else.
- `History.GetWaybackUrls`: an undecodable body gives the empty table. That holds for `requests` 2.27 and later, where `Response.json()` raises `requests.JSONDecodeError`, a `RequestException`. With an older `requests` it raises a `ValueError` that the package function does not catch. No version is pinned. In the round loop both outcomes end the loop, so nothing after `get_wayback_urls` changes.
- The CDX request's parameters are not modelled: the date range, the `urllib3` retry policy and the timeouts. The reply is a parameter.
- pandas is modelled for one column only. `drop_duplicates()` is modelled on the `original` column alone: the CDX query asks only for the `original` field, so a table with more columns is not modelled. Header rows inside the data and dtype handling are not modelled either.
- `Audit.Run`: both checkers and the discovery step are parameters. As written, `main.py` cannot run:
  - it imports `get_non_existing_page_redirect`, which the package does not define;
  - it calls `check_availability` with keyword arguments and expects dict records, neither of which the package's checker supports.
  The model therefore describes `main` for any checkers that return URL/status records. An exception from them is the `CheckRaised` case.
- The redirect lookup (`get_non_existing_page_redirect`) is not part of this model.
- `save_to_json` and the files it writes are not part of this model. `Audit.Run` returns the list it would save.
- `Audit.ParseInt`: the interpreter's limit on the digits of an integer string (4300 by default, since CPython 3.11 and the 3.7.14, 3.8.14, 3.9.14 and 3.10.7 security releases) is not modelled. Any number of digits is read, as CPython 3.6 to 3.10.6 does.
- `Audit.ParseArgs`: an iteration count of more than 4300 digits gives `Start`. A CPython with the digit limit raises ValueError at `int()` and exits with status 1 instead.
- `Audit.ParseShowInt`: the round trip holds for integers of any length. A CPython with the digit limit refuses `str(n)` and `int()` for integers of more than 4300 digits.
- `Audit.ParseStrippedShowInt`: like `Audit.ParseShowInt`, it does not model the 4300-digit limit.
- `Audit.ParseInt`: only ASCII digits and the six ASCII whitespace characters `int()` skips are read. Python's `int()` also accepts other Unicode decimal digits and Unicode whitespace in non-ASCII text.
- `Audit.ParseIgnoresLeadingSpace`: covers leading whitespace only. Trailing whitespace is handled by `Audit.Strip` but no separate lemma states it.
- `Audit.Lower`: only ASCII letters are folded. Python's `str.lower` folds all of Unicode.
- Audit: the set returned by `waybackmachine_pages` is listed in an unspecified iteration order. The model takes that listing as a parameter.
- `broken_links_history.py`, `display_urls`, `setup.py` and the package `__init__.py` are not part of this model. They only print or re-export.
