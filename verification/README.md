# apache_logpipe core, modelled in Dafny

apache_logpipe is a pipe that Apache feeds its access log into. It does four things:

- Input loop: reads log lines from standard input, writes each one to a log file whose name is a strftime pattern, and parses it with a line regex.
- Accounting: aggregates every accepted request into per-virtual-host, per-request-class buckets. A bucket holds a count, a sum of response times, a histogram of status codes and a histogram of response-time classes.
- Consumer: a loop receives the requests over a channel. On a timer it sends low-level discovery items and metrics to a Zabbix server.
- Configuration: settings come from command-line flags, an ini file and built-in defaults, with flags taking precedence.

This project models the parts that decide what gets counted, what gets written and what gets sent:

- `Accounting` (`accounting.dfy`): performance classes, `addAccounting`, `AccountRequest` with its request mappings, `GetStatistics` and `collectCodes`. The accounting table is a map from vhost to a map from request class to bucket.
- `Export` (`export.dfy`): Zabbix keys and values, `sendDiscovery`, `sendData`, `sendZabbixMetrics` and `SubmitData`. The Zabbix server appears only as a delivered / not-delivered answer per send.
- `Dispatcher` (`dispatcher.dfy`): the consumer loop `consumePerfSets` with `CompleteStream`, as a fold over the wake-ups it sees. A wake-up is a signal, a perf set or a timeout, together with the clock reading after it.
- `Logfile` (`logfile.dfy`): `fileExists`, `getFileDescriptor`, `WriteLogLine` and `CloseLogfile`. The file system is a map from path to node. strftime is a pair of parameters: whether a pattern compiles, and how it formats for a clock reading.
- `Configuration` (`configuration.dfy`): `getStringValue`, `getIntValue`, `getRegexValue` and `LoadFile`. The ini file is a map from (section, key) to text.
- `Ingest` (`ingest.dfy`): the `parseInput` loop, composed with the `Logfile` writer it calls for every line. The line regex and the static-content regex are parameters. Each line read carries the clock the writer reads for it and whether the operating system accepts its write.
- Helper modules:
  - `Strconv` (`strconv.dfy`): Go's `strconv.Atoi` and `FormatInt`.
  - `Sets` (`sets.dfy`): set images and cardinalities.
  - `Wrappers` (`wrappers.dfy`): `Option` and `Result`.

Go maps are iterated in random order. So the model represents map contents as sets, or proves that the result does not depend on the order; `Accounting.AccountRequestInOrder` walks the mappings in any given enumeration. Every `log.Fatal`/`glog.Fatalf` in the modelled code that ends the process becomes an error value (`Logfile.Fatal`, `Configuration.LoadError`, `Ingest.Stop`).

## Model

| member | source | states |
|---|---|---|
| Strconv.Atoi | processing/accounting.go:356-360 | the conversion succeeds iff the text is an optional sign followed by a non-empty run of decimal digits whose signed value fits in int64, and it then yields that value; a negative value only comes after a '-' |
| Strconv.DigitsValueLeadingZeros | processing/accounting.go:356 | leading zeros do not change the value of a digit string |
| Strconv.AtoiOfDigits | processing/accounting.go:356-360 | an in-range digit string converts to its value, with or without a leading '+' |
| Strconv.AtoiPaddedItoa | processing/accounting.go:356-360 | any non-negative int64, printed with any number of leading zeros and with or without a '+', converts back to itself |
| Strconv.AtoiItoa | processing/accounting.go:356 | parsing the decimal text of any int64 gives the number back (round trip of FormatInt and Atoi) |
| Strconv.ItoaInjective | processing/accounting.go:198-202 | distinct numbers print as distinct decimal texts, so class and code keys never collide |
| Strconv.AtoiRejectsNonDigit | processing/accounting.go:356-360 | any character other than a digit, except a leading sign, makes the conversion fail |
| Strconv.AtoiExamples | processing/accounting_test.go:97 | "HONK0", "" and "12a" are rejected; signed texts such as "-5" and "+007" are accepted |
| Accounting.PerfClass | processing/accounting.go:107-115 | the class is the first threshold in list order that the response time reaches, or 0 when none does |
| Accounting.PerfClassDescending | processing/accounting.go:107-115 | for a strictly descending threshold list, the class is the largest threshold the response time reaches |
| Accounting.PerfClassListOrder | processing/accounting.go:108-110 | for an unsorted list, a smaller threshold earlier in the list shadows larger ones later; no match gives 0 |
| Accounting.PerfClassLeadingZero | processing/accounting.go:108-110 | a list starting with threshold 0 puts every non-negative response time in class 0 |
| Accounting.Bump | processing/accounting.go:349-350 | a histogram increment adds the key if missing, raises its bucket by one and leaves every other bucket unchanged |
| Accounting.TotalBump | processing/accounting.go:349-350 | a histogram increment raises the histogram total by exactly one |
| Accounting.NewBucket | processing/accounting.go:336-346 | a new bucket has zero counters, no codes, and exactly the configured thresholds as class keys, each at 0 |
| Accounting.Record | processing/accounting.go:347-350 | recording adds one to the count and the response time to the sum, bumps the code and the performance class, and keeps the snapshot fields |
| Accounting.AddAccounting | processing/accounting.go:332-352 | the vhost is added if missing; only the named bucket changes, being created if missing and then recorded into |
| Accounting.NewBucketWellFormed | processing/accounting.go:336-346 | a new bucket satisfies the bucket invariant: the count equals both histogram totals and every threshold is a class key |
| Accounting.RecordWellFormed | processing/accounting.go:347-350 | recording a request keeps the bucket invariant |
| Accounting.AddAccountingWellFormed | processing/accounting.go:332-352 | addAccounting keeps the invariant in every bucket of the table |
| Accounting.AccountAllCounts | processing/accounting.go:332-352 | after a sequence of accountings from an empty table, a bucket exists iff some request was routed to it, and its count and sum are the number and the response-time total of those requests |
| Accounting.MatchingMappings | processing/accounting.go:366-372 | the names chosen are exactly the request mappings whose regex matches the URI |
| Accounting.FanOut | processing/accounting.go:366-372 | accounting under a set of names changes exactly the buckets of those names under the domain, each recorded once |
| Accounting.AddAccountingIsFanOut | processing/accounting.go:332-352 | accounting under one name is a fan-out to the singleton set |
| Accounting.FanOutStep | processing/accounting.go:366-372 | a fan-out to one more name is the fan-out to the others followed by one addAccounting under that name |
| Accounting.AccountRequest | processing/accounting.go:355-374 | the request is accepted iff its time converts; a rejected request leaves the table unchanged; an accepted one records into "NOT MATCHED" for static content and otherwise into every matching mapping, and adds the vhost to the table iff some bucket is chosen |
| Accounting.AccountRequestStatic | processing/accounting.go:361-365 | static content is accounted once under "NOT MATCHED", whatever the mappings say |
| Accounting.AccountRequestNoMapping | processing/accounting.go:366-373 | a non-static URI that no mapping matches is accepted but changes nothing |
| Accounting.AccountRequestWellFormed | processing/accounting.go:355-374 | AccountRequest keeps the invariant in every bucket |
| Accounting.AccountRequestInOrder | processing/accounting.go:366-372 | walking the mappings in any enumeration of their names gives the same result as the order-free definition |
| Accounting.BucketsOfStep | processing/accounting.go:395-399 | adding one vhost's buckets adds that vhost's number of request classes to the bucket total |
| Accounting.GetStatistics | processing/accounting.go:392-402 | returns the number of vhosts and the number of (vhost, request class) buckets |
| Accounting.CollectCodes | processing/accounting.go:209-226 | the result is strictly ascending and holds exactly the status codes seen in some bucket |
| Export.SuffixInjective | processing/accounting.go:181-203 | distinct columns of a bucket (count, sum, req_s, class t, code c) have distinct key suffixes |
| Export.MetricKeyShape | processing/accounting.go:161-165 | a metric key is the base key followed by the vhost, the request class and the column, comma-joined in brackets |
| Export.ColumnMetricInjective | processing/accounting.go:179-203 | two metrics of one bucket with the same key are for the same column |
| Export.Quo | processing/accounting.go:191 | int64 division truncates toward zero: the remainder has the sign of the dividend and is smaller than the divisor |
| Export.Columns | processing/accounting.go:181-203 | a bucket exports count, sum and req_s, one column per class key and one per code key, and nothing else |
| Export.ColumnsCard | processing/accounting.go:181-203 | a bucket exports 3 + (number of class keys) + (number of code keys) columns |
| Export.BucketMetrics | processing/accounting.go:179-203 | a bucket's metrics are one per column, with pairwise distinct keys and 3 + classes + codes metrics in all |
| Export.BucketMetricsTotals | processing/accounting.go:181-195 | the count and sum metrics carry the counters in decimal, and the req_s metric carries the rate value |
| Export.BucketMetricsHistograms | processing/accounting.go:197-203 | each class and code key yields a metric whose key ends in "class,t" / "code,c" and whose value is the histogram count in decimal |
| Export.SendZabbixMetrics | processing/accounting.go:147-159 | a send counts one failure exactly when the sender is enabled and the packet is not delivered; the table is untouched |
| Export.SendDiscovery | processing/accounting.go:117-145 | a disabled sender sends nothing; an enabled one sends exactly the set of (vhost, request class) buckets |
| Export.SnapshotAll | processing/accounting.go:193-194 | after an export every bucket's snapshot equals its counters; nothing else in the table changes |
| Export.AllMetrics | processing/accounting.go:179-205 | the export covers every bucket of every vhost, each with 3 + classes + codes metrics |
| Export.SendData | processing/accounting.go:167-207 | a disabled sender changes nothing and sends nothing; an enabled one sends the metrics of the table before the snapshot, snapshots every bucket, and counts a failure iff the packet is not delivered |
| Export.SubmitDataAttempts | processing/accounting.go:327-330 | SubmitData counts one failure per undelivered packet (discovery, then data), and none when disabled; an enabled one leaves every bucket snapshotted |
| Export.SecondExportRateZero | processing/accounting.go:187-192 | an export right after an export reports req_s "0" for every bucket |
| Export.RateAfterRequests | processing/accounting.go:187-192 | after one request since the last export, req_s is that request's response time printed with six decimals |
| Export.SendDataWellFormed | processing/accounting.go:167-207 | an export keeps the bucket invariant (the snapshot never runs ahead of the count) |
| Dispatcher.Periodic | processing/accounting.go:311-321 | a timer is reset (and its send made) iff more whole seconds than the interval have passed; afterwards it is not due; a disabled sender is untouched; failures grow by the undelivered sends made; a due data export snapshots every bucket |
| Dispatcher.Accepted | processing/accounting.go:300-303 | a received set is handed to AccountRequest: the table becomes the one it returns, and the count grows by one exactly when the set's time converts |
| Dispatcher.Step | processing/accounting.go:284-322 | a signal exits, and the end marker completes with the current count, both after a final SubmitData (every bucket snapshotted, one failure per undelivered send, nothing when disabled); any other received set is accounted and then runs both timer checks exactly as a timeout does (so its table is snapshotted iff the data timer is due and the sender is enabled); a timeout only runs the timers; the count grows by one iff a received set's time converts |
| Dispatcher.StopAt | processing/accounting.go:284-298 | the position of the first signal or end marker, with no stop before it |
| Dispatcher.RunOutcome | processing/accounting.go:278-324 | a run exits at a first signal, completes at a first end marker and otherwise keeps running; its count is the start count plus the accepted sets before that point |
| Dispatcher.CompletedCount | processing/accounting.go:268-298 | a run that reaches CompleteStream's marker sends, on CompleteChan, the count of accepted sets before it |
| Dispatcher.AcceptedInAppend | processing/accounting.go:300-303 | the accepted-set count is additive over concatenated runs |
| Dispatcher.BrokenPairAccepted | processing/accounting_test.go:93-106 | of a "HONKn" time and an "n" time, exactly one set is accepted and neither stops the loop |
| Dispatcher.BrokenRoundsAccepted | processing/accounting_test.go:92-106 | the four rounds of the broken-data run give four accepted sets and no stop |
| Dispatcher.BrokenDataCount | processing/accounting_test.go:87-110 | four broken and four valid sets followed by the end marker complete with count 4 |
| Dispatcher.DisabledRunNeverFails | processing/accounting.go:147-150 | with the sender disabled, no run ever counts a failed send |
| Dispatcher.QuietRunFailures | processing/accounting.go:294-297 | when no timer fires, the failures counted at completion are exactly those of the final SubmitData |
| Dispatcher.StepOutOfBand | processing/accounting.go:292-304 | with the end of the stream signalled apart from the sets, every received set is accounted and runs the timers, whatever its domain; every other wake-up is the loop's own pass |
| Dispatcher.OutOfBandCount | processing/accounting.go:292-304 | with the end signalled out of band, received sets whose times all convert complete with the count raised by one per set |
| Dispatcher.TwoFailingSubmits | processing/accounting_test.go:64-84 | two SubmitData calls against an unreachable server count four failures |
| Logfile.FileExists | processing/logfile.go:19-28 | a missing path gives false, a regular file true, and a directory is fatal |
| Logfile.Compiled | processing/logfile.go:32-38 | the pattern is compiled once and then kept; a pattern that does not compile is fatal |
| Logfile.GetFileDescriptor | processing/logfile.go:30-63 | the descriptor is reused, with the pattern compiled and the files untouched, exactly when the formatted name is unchanged (on the first call too); otherwise it is a directory error, an open error, or a switch to the new name (creating the file if missing, appending otherwise) |
| Logfile.Append | processing/logfile.go:70 | a successful write appends the text to the open file only; a failed write or no descriptor changes nothing |
| Logfile.WriteLogLine | processing/logfile.go:66-74 | writing first obtains the descriptor; its errors are the only fatal outcomes, and a failed write is only logged, leaving the files as obtaining the descriptor left them |
| Logfile.CloseLogfile | processing/logfile.go:77-83 | closing drops the descriptor and forgets the file name, and does nothing when no file is open |
| Logfile.WriteLogLineValid | processing/logfile.go:66-74 | writing keeps the state consistent: a descriptor is open iff a name is remembered, and it points at that regular file |
| Logfile.CloseLogfileValid | processing/logfile.go:77-83 | closing keeps the state consistent |
| Logfile.InitialValid | processing/logfile.go:14-17 | the initial state is consistent |
| Logfile.WriteAppendsLine | processing/logfile.go:66-74 | a successful write appends the line and a newline to the current file and leaves every other path unchanged |
| Logfile.ReuseKeepsState | processing/logfile.go:59-61 | with an unchanged name, getFileDescriptor changes neither the state nor the files |
| Logfile.PatternCompiledOnce | processing/logfile.go:32-38 | once the pattern is compiled, a later pattern change does not affect the file name |
| Logfile.CloseIdempotent | processing/logfile.go:77-83 | closing twice is closing once |
| Logfile.FatalCases | processing/logfile.go:30-58 | a pattern that does not compile, a directory at the new name, and an open that fails (or an empty new name) each end the write with their own error |
| Logfile.EmptyNameWritesNothing | processing/logfile.go:41 | a pattern that formats to the empty name on a fresh state reuses the missing descriptor and writes nothing |
| Logfile.WriteStep | processing/logfile.go:66-74 | a successful write within one period keeps the writer on that period's file and appends the line and a newline to it |
| Logfile.WriteAllAppends | processing/logfile_test.go:51-84 | writing lines in a row appends each line with a newline to the same file, in order |
| Logfile.CloseThenReopenAccumulates | processing/logfile_test.go:75-84 | closing and writing again to the same name appends after the earlier lines |
| Logfile.WriteAllCompiled | processing/logfile.go:32-38 | a successful write of at least one line leaves the compiled pattern in the state |
| Configuration.GetStringValue | processing/configuration.go:89-98 | a non-empty flag wins; else a non-empty file value; else the default |
| Configuration.GetIntValue | processing/configuration.go:100-109 | a non-zero flag wins; else a present file key (converted, or the default); else the default |
| Configuration.GetRegexValue | processing/configuration.go:78-87 | with a non-empty current value or no file key, the default pattern is compiled; otherwise a non-empty file value is compiled and an empty one gives the default; a pattern that does not compile is fatal |
| Configuration.FirstNonEmpty | processing/configuration.go:89-98 | the result is the first non-empty candidate, or empty when all are |
| Configuration.StringPrecedence | processing/configuration.go:89-98 | a string setting is the first non-empty of flag, file value, default |
| Configuration.FirstSome | processing/configuration.go:100-109 | the result is the first present candidate, or none when all are missing |
| Configuration.IntPrecedence | processing/configuration.go:100-109 | an int setting is the first of non-zero flag, converted file value, default |
| Configuration.ZeroFlagNeverWins | processing/configuration.go:103-108 | a zero flag is treated as unset |
| Configuration.RegexAlwaysDefault | processing/configuration.go:72-75 | as LoadFile calls it, with the default also as the current value, getRegexValue always yields the built-in default |
| Configuration.LoadFileReading | processing/configuration.go:51-76 | an unreadable config file is fatal, then a built-in line regex that does not compile; otherwise each string setting (output file, symlink, zabbix server, zabbix host) is the first non-empty of flag, file value and default, each integer setting (sending interval 120, timeout 5, discovery interval 900) the first of non-zero flag, converted file value and default, the disable flag is kept, and both regexes are the built-in defaults |
| Configuration.Defaults | processing/configuration.go:64-75 | without flags or file, the settings are "/dev/null", "", 120, 5, 900, "zabbix", the host name and the two built-in regexes |
| Configuration.FileAndFlagPrecedence | processing/configuration_test.go:23-29 | the file's zabbix_server beats the default, and a discovery_interval flag of 22 beats the file |
| Configuration.MisspeltOutputKeyIgnored | processing/configuration.go:64 | as written, an output_logfile key in the file is ignored and the output stays "/dev/null" |
| Configuration.OutputKeyHonoured | processing/configuration.go:64 | with the key spelt as the flag is, a non-empty output_logfile in the file becomes the output file |
| Ingest.RouteOf | apache_logpipe.go:41-68 | an unmatched line is not-matched; a code that does not convert is fatal; a code outside [200, 400) is filtered; anything else is accounted under its domain and time, as "NOT MATCHED" for static URIs |
| Ingest.Scan | apache_logpipe.go:37-69 | lines are read and counted in input order; the whole input is read unless the process stops, and then the stop is at the last line read (a code stop carries that line's code), with no earlier line's code failing to convert |
| Ingest.StepExtends | apache_logpipe.go:37-59 | a pass from a running loop that has read all but the last line reads that line too; only that line can carry a code stop, and it is that line's code |
| Ingest.StepShape | apache_logpipe.go:38-59 | one pass counts and records the line; a fatal log write ends the process before the line is parsed; otherwise the writer advances and only a code that does not convert ends the process |
| Ingest.ScanWrites | apache_logpipe.go:37-40 | the writer the loop carries is what the log writer's own operations produce from the lines that were logged, and a stop in the writer is the error writing the lines read produces |
| Ingest.ScanCounts | apache_logpipe.go:39-68 | the not-matched and filtered counters are the numbers of parsed lines of those routes, the calls are the accounted perf sets in input order, and every line read is counted exactly once |
| Ingest.StepCounts | apache_logpipe.go:38-68 | one pass keeps the counters in agreement with the routes of the lines that reached the line regex |
| Ingest.ParseInput | apache_logpipe.go:30-69 | the loop, which stops at the first fatal line, computes the same tally as the fold |
| Ingest.ScanStopsAtFatal | apache_logpipe.go:37-59 | once a line ends the process, no later line is read |
| Ingest.RoutesSnoc | apache_logpipe.go:41-68 | one more line read adds one to the not-matched or filtered count of its route, and appends its perf set to the calls when it is accounted |
| Ingest.EveryLineLogged | apache_logpipe.go:37-40 | when no code is fatal and the log writer never fails, every input line is read and counted, in order, and the writer ends as writing all of them leaves it |
| Ingest.LogFatalStops | apache_logpipe.go:38-41 | a line whose log write is fatal is counted and ends the process without being parsed; nothing else changes |
| Ingest.NotMatchedOnly | apache_logpipe.go:41-48 | after its log write, an unmatched line moves only the line and not-matched counters |
| Ingest.StatusFilterDrops | apache_logpipe.go:60-62 | a filtered line is neither counted as not-matched nor accounted, and does not stop the loop |
| Ingest.AccountedOnce | apache_logpipe.go:63-68 | a line with a status in [200, 400) makes exactly one accounting call |
| Ingest.Feed | processing/accounting.go:268-275 | the accounted sets handed to the consumer in order, followed by CompleteStream's marker (an assumed composition, see Left out) |
| Ingest.AllAccepted | processing/accounting.go:300-303 | when every set is accepted, the accepted count is the number of sets |
| Ingest.InputCountReachesConsumer | apache_logpipe.go:63-68 | if the accounted lines reach the consumer as `Feed` hands them over, every one has a time that converts and none is for a vhost named "COMPLETE", the count on CompleteChan is the number of accounted lines |
| Ingest.CompleteVhostEndsEarly | processing/accounting.go:292-298 | as written, when the first accounted set is for a vhost named "COMPLETE", the consumer completes at once with none of the sets counted |
| Ingest.InputCountOutOfBand | processing/accounting.go:292-304 | with the end of the stream signalled out of band, the count on CompleteChan is the number of accounted lines whenever their times convert, whatever their vhosts |
| Sets.SortedElements | processing/accounting.go:219-224 | a set's elements listed strictly ascending, each exactly once |

## Left out

- Integer width: `Count`, `Sum`, the histogram counts and the consumer count are int64 in the source and unbounded here. Overflow after 2^63 requests or microseconds is not modelled.
- Export.RateValue: `%f` of the float64 of an int64 quotient prints exactly only below 2^53. Beyond that the float rounds, which the model does not reproduce.
- Zabbix network I/O, packet encoding and the JSON marshalling of discovery items are not modelled. Discovery is the set of (vhost, request class) pairs, and each send's result is a boolean parameter.
- `sendMutex`, the goroutines and the channels are not modelled: the consumer is a sequential fold over wake-ups. `os.Exit` is the `Exited` outcome, and the timeout of `time.After` is a `Timeout` wake-up.
- The clock is a parameter: each wake-up carries one reading, used both to test a timer and to reset it. The source reads the clock twice. In the input loop each line carries the reading the log writer formats its file name with.
- glog and log output are not modelled, including the elapsed time and lines-per-second report and the verbose not-matched message in `parseInput`.
- `DumpAccountingData` (a tablewriter table), `ShowStats` and `GetJsonStats` are not modelled, because they only print.
- `NewRequestAccounting`, `SetRequestMappings`, `DisableZabbixSender` and `GetFailedZabbixSends` are constructors and field accessors. The `Setup` and `Aggregator` records stand for them.
- ini.v1 parsing is not modelled: the loaded file is a map. `MustInt` is modelled with decimal `Atoi`; recent ini.v1 also accepts 0x/0o/0b prefixes, leading-zero octal and underscores.
- Regular-expression matching and strftime formatting are parameters. A regex is a predicate on strings, the line regex is a function to its named groups, and strftime is a compile predicate plus a formatter.
- `fileExists`: `os.Stat` errors other than not-exist (where the source would dereference a nil info) are not modelled.
- The output symlink (`OutputLogfileSymlink`) and the `LogSink` API the tests use are not part of this model.
- `GetHostname` is not part of this model: the host name is a parameter.
- `webinterface.go` and `utils.go` are not part of this model.
- Ingest.Feed / Ingest.InputCountReachesConsumer: the hand-over from the input loop to the consumer is assumed, not taken from the code. `parseInput` calls a package-level four-argument `AccountRequest` (apache_logpipe.go:65, 67) that is not part of this model, `main` returns right after `parseInput` (apache_logpipe.go:100), and `CompleteStream` is called only by the accounting tests (processing/accounting_test.go:49, 78, 107). The two members state what the consumer would report if the accounted sets reached it in order, followed by the end marker. They also require that no accounted set is for a vhost named "COMPLETE": the line regex's domain group accepts that name, and the consumer would take such a set for the end marker (see Findings).
- Ingest.Scan: `bufio.Scanner`'s 64 KiB token limit is not modelled. A longer line makes `scanner.Scan()` return false, which ends the loop silently because the scanner's error is never checked (apache_logpipe.go:32, 37). The model reads every line of its input. A line is what `scanner.Text()` returns, without its line ending.
- The configuration test reads `ResponstimeClasses` and `RequestMappings` fields that the configuration code does not define. The model takes classes and mappings from `Setup`.

Notes on the code as written:

- The performance classes are scanned in list order and the first threshold reached wins. So the list only behaves as a histogram when it is descending, and a list starting with 0 puts everything in class 0.
- The value exported as `req_s` is the mean response time since the last export (sum delta divided by count delta), not a request rate.
- `getRegexValue` returns the built-in default at both of its call sites, because `LoadFile` passes the default as the current value.

## Findings

| source | as written | input that shows it | evidently intended | confidence | as-written member | corrected member |
|---|---|---|---|---|---|---|
| processing/accounting.go:292-298 | the end of the stream is a perf set whose domain is "COMPLETE", sent on the same channel as the requests, and the consumer tests only the domain | an access-log line for a vhost named COMPLETE (the line regex's domain group accepts it) ahead of a line for vhost d, both with times that convert: the consumer completes at the first set and reports 0 instead of 2 | the end of the stream is signalled apart from the requests, so every accounted request is counted whatever its vhost | low, not executed | Ingest.CompleteVhostEndsEarly | Ingest.InputCountOutOfBand |
| processing/configuration.go:64 | the output file is read from the ini key "output_logile" | a config file whose [global] section sets output_logfile = /var/log/x and no flag: the output stays "/dev/null" | the key is "output_logfile", the same name as the command-line flag | medium, not executed | Configuration.MisspeltOutputKeyIgnored | Configuration.OutputKeyHonoured |
