/**
 * The input loop of the pipe (parseInput): every line read from standard
 * input is counted and handed to the log writer, then parsed with the line
 * regex; lines that do not match are counted as not matched, lines whose
 * status is outside [200, 400) are dropped, and every other line is
 * accounted once, under "NOT MATCHED" when its URI is static content and
 * under the URI itself otherwise. The process ends inside the loop when the
 * log writer stops it or when a status code does not convert. The line
 * regex and the static regex are parameters; so are, per line, the clock the
 * writer reads and whether the operating system accepts the write.
 */
module Ingest {
  import opened Wrappers
  import Strconv
  import opened Accounting
  import Dispatcher
  import Logfile

  /** The named groups of the line regex. */
  datatype Fields = Fields(domain: string, uri: string, code: string, time: string)

  /** The line regex (None when the line does not match) and the static-content regex. */
  datatype Parser = Parser(lineRe: string -> Option<Fields>, isStatic: string -> bool)

  /**
   * One line as the scanner returns it, with the clock the log writer reads
   * for it and whether the operating system accepts its write.
   */
  datatype Read = Read(line: string, now: int, writeOk: bool)

  /** Where one line goes. */
  datatype Route = NotMatched | Filtered | Account(perf: PerfSet) | BadCode(code: string)

  /** What ends the process inside the loop: the log writer, or a status code that does not convert. */
  datatype Stop = LogFatal(reason: Logfile.Fatal) | CodeFatal(code: string)

  /** The decision parseInput makes for one line. */
  function RouteOf(p: Parser, line: string): (r: Route)
    ensures r.NotMatched? <==> p.lineRe(line).None?
    ensures r.BadCode? <==> p.lineRe(line).Some? && Strconv.Atoi(p.lineRe(line).value.code).None?
    ensures r.Filtered? ==> var code := Strconv.Atoi(p.lineRe(line).value.code).value; code < 200 || code >= 400
    ensures r.Account? ==>
              var f := p.lineRe(line).value;
              && 200 <= r.perf.code < 400 && Strconv.Atoi(f.code) == Some(r.perf.code)
              && r.perf.domain == f.domain && r.perf.time == f.time
              && r.perf.ident == (if p.isStatic(f.uri) then NotMatchedIdent else f.uri)
  {
    match p.lineRe(line)
    case None => NotMatched
    case Some(f) =>
      match Strconv.Atoi(f.code)
      case None => BadCode(f.code)
      case Some(code) =>
        if code >= 400 || code < 200 then Filtered
        else Account(PerfSet(f.domain, if p.isStatic(f.uri) then NotMatchedIdent else f.uri, f.time, code))
  }

  /**
   * The loop's counters and effects: lines read, lines not matched, lines
   * dropped by the status filter (a count the program does not keep), the
   * reads consumed so far, the accounting calls made, the log writer's state
   * and file system, and what stopped the process, if anything did.
   */
  datatype Tally = Tally(lines: nat, notMatched: nat, filtered: nat, read: seq<Read>,
                         calls: seq<PerfSet>, writer: Logfile.Opened, fatal: Option<Stop>)

  function Start(w: Logfile.Opened): Tally {
    Tally(0, 0, 0, [], [], w, None)
  }

  /** The log writer's result for one read. */
  function WriteOf(env: Logfile.Env, w: Logfile.Opened, r: Read): Result<Logfile.Opened, Logfile.Fatal> {
    Logfile.WriteLogLine(env, w.state, w.fs, r.now, r.line, r.writeOk)
  }

  /** One pass of the loop: count, log (which may end the process), then route. */
  function Step(p: Parser, env: Logfile.Env, t: Tally, r: Read): Tally {
    var counted := t.(lines := t.lines + 1, read := t.read + [r]);
    match WriteOf(env, t.writer, r)
    case Err(e) => counted.(fatal := Some(LogFatal(e)))
    case Ok(w) =>
      var logged := counted.(writer := w);
      match RouteOf(p, r.line)
      case NotMatched => logged.(notMatched := logged.notMatched + 1)
      case Filtered => logged.(filtered := logged.filtered + 1)
      case Account(perf) => logged.(calls := logged.calls + [perf])
      case BadCode(code) => logged.(fatal := Some(CodeFatal(code)))
  }

  /** What one pass does to the reads, the line counter and the stop, whatever the line. */
  lemma StepShape(p: Parser, env: Logfile.Env, t: Tally, r: Read)
    ensures var n := Step(p, env, t, r);
            && n.lines == t.lines + 1 && n.read == t.read + [r]
            && (WriteOf(env, t.writer, r).Err? ==> n.fatal == Some(LogFatal(WriteOf(env, t.writer, r).error)))
            && (WriteOf(env, t.writer, r).Ok? ==>
                  && n.writer == WriteOf(env, t.writer, r).value
                  && (RouteOf(p, r.line).BadCode? ==> n.fatal == Some(CodeFatal(RouteOf(p, r.line).code)))
                  && (!RouteOf(p, r.line).BadCode? ==> n.fatal == t.fatal))
  {
  }

  // ---------------------------------------------------------------------------
  // Reference definitions
  // ---------------------------------------------------------------------------

  /** The log writer after writing a sequence of reads in order, or the first fatal. */
  function Writes(env: Logfile.Env, w: Logfile.Opened, rs: seq<Read>): Result<Logfile.Opened, Logfile.Fatal>
    decreases |rs|
  {
    if |rs| == 0 then Ok(w)
    else
      match Writes(env, w, rs[..|rs| - 1])
      case Err(e) => Err(e)
      case Ok(v) => WriteOf(env, v, rs[|rs| - 1])
  }

  /** The log writer ended the process. */
  predicate LogStopped(t: Tally) {
    t.fatal.Some? && t.fatal.value.LogFatal?
  }

  /** The reads that reached the line regex: all of them but one the log writer stopped at. */
  function Routed(t: Tally): seq<Read> {
    if LogStopped(t) && |t.read| > 0 then t.read[..|t.read| - 1] else t.read
  }

  /** The number of reads of a sequence whose line takes route `kind`, compared by constructor. */
  function CountRoutes(p: Parser, rs: seq<Read>, kind: Route): nat {
    if |rs| == 0 then 0
    else CountRoutes(p, rs[..|rs| - 1], kind) + (if SameKind(RouteOf(p, rs[|rs| - 1].line), kind) then 1 else 0)
  }

  predicate SameKind(a: Route, b: Route) {
    (a.NotMatched? && b.NotMatched?) || (a.Filtered? && b.Filtered?) || (a.Account? && b.Account?) || (a.BadCode? && b.BadCode?)
  }

  /** The perf sets of the accounted reads, in input order. */
  function AccountedSets(p: Parser, rs: seq<Read>): seq<PerfSet> {
    if |rs| == 0 then []
    else
      var last := RouteOf(p, rs[|rs| - 1].line);
      AccountedSets(p, rs[..|rs| - 1]) + (if last.Account? then [last.perf] else [])
  }

  // ---------------------------------------------------------------------------
  // The loop
  // ---------------------------------------------------------------------------

  /**
   * The loop over a whole input from writer state `w`, stopping at the first
   * read the log writer fails on or whose status code does not convert.
   */
  function Scan(p: Parser, env: Logfile.Env, w: Logfile.Opened, input: seq<Read>): (t: Tally)
    ensures t.lines == |t.read|
    ensures t.read <= input
    ensures t.fatal.None? ==> t.read == input
    ensures t.fatal.Some? ==> |t.read| > 0
    ensures t.fatal.Some? && t.fatal.value.CodeFatal? ==>
              RouteOf(p, t.read[|t.read| - 1].line) == BadCode(t.fatal.value.code)
    ensures forall k :: 0 <= k < |t.read| - 1 ==> !RouteOf(p, t.read[k].line).BadCode?
    ensures t.fatal.None? ==> forall k :: 0 <= k < |t.read| ==> !RouteOf(p, t.read[k].line).BadCode?
    decreases |input|
  {
    if |input| == 0 then Start(w)
    else
      var before := Scan(p, env, w, input[..|input| - 1]);
      if before.fatal.Some? then
        assert before.read <= input[..|input| - 1] <= input;
        before
      else
        StepExtends(p, env, before, input);
        Step(p, env, before, input[|input| - 1])
  }

  /** A running loop that has read all but the last line of `input` reads it with one more pass. */
  lemma StepExtends(p: Parser, env: Logfile.Env, before: Tally, input: seq<Read>)
    requires |input| > 0 && before.fatal.None? && before.read == input[..|input| - 1] && before.lines == |before.read|
    requires forall k :: 0 <= k < |before.read| ==> !RouteOf(p, before.read[k].line).BadCode?
    ensures var t := Step(p, env, before, input[|input| - 1]);
            && t.lines == |t.read| && t.read == input
            && (t.fatal.Some? && t.fatal.value.CodeFatal? ==>
                  RouteOf(p, t.read[|t.read| - 1].line) == BadCode(t.fatal.value.code))
            && (forall k :: 0 <= k < |t.read| - 1 ==> !RouteOf(p, t.read[k].line).BadCode?)
            && (t.fatal.None? ==> forall k :: 0 <= k < |t.read| ==> !RouteOf(p, t.read[k].line).BadCode?)
  {
    var r := input[|input| - 1];
    StepShape(p, env, before, r);
    var t := Step(p, env, before, r);
    assert t.read == input;
    assert forall k :: 0 <= k < |t.read| - 1 ==> t.read[k] == before.read[k];
  }

  /**
   * The writer the loop carries is the one the log writer's own operations
   * produce: after the reads consumed when the loop runs out or stops at a
   * status code, after all but the last when the writer stopped it, in which
   * case writing the last read fails with the reason recorded.
   */
  lemma {:induction false} ScanWrites(p: Parser, env: Logfile.Env, w: Logfile.Opened, input: seq<Read>)
    ensures var t := Scan(p, env, w, input);
            && Writes(env, w, Routed(t)) == Ok(t.writer)
            && (LogStopped(t) ==> Writes(env, w, t.read) == Err(t.fatal.value.reason))
    decreases |input|
  {
    if |input| > 0 {
      var prefix := input[..|input| - 1];
      ScanWrites(p, env, w, prefix);
      var before := Scan(p, env, w, prefix);
      if before.fatal.None? {
        var r := input[|input| - 1];
        var t := Scan(p, env, w, input);
        assert t == Step(p, env, before, r);
        StepShape(p, env, before, r);
        assert before.read == prefix == input[..|input| - 1];
        assert Writes(env, w, input) == WriteOf(env, before.writer, r);
      }
    }
  }

  /**
   * The counters agree with the routes of the reads that reached the line
   * regex: each counter is the number of reads of its kind, the calls are
   * the accounted perf sets in order, and every line read is counted exactly
   * once, the one that ended the process included.
   */
  lemma {:induction false} ScanCounts(p: Parser, env: Logfile.Env, w: Logfile.Opened, input: seq<Read>)
    ensures var t := Scan(p, env, w, input);
            && t.notMatched == CountRoutes(p, Routed(t), NotMatched)
            && t.filtered == CountRoutes(p, Routed(t), Filtered)
            && t.calls == AccountedSets(p, Routed(t))
            && t.lines == t.notMatched + t.filtered + |t.calls| + (if t.fatal.Some? then 1 else 0)
    decreases |input|
  {
    if |input| > 0 {
      var prefix := input[..|input| - 1];
      ScanCounts(p, env, w, prefix);
      var before := Scan(p, env, w, prefix);
      if before.fatal.None? {
        assert Routed(before) == before.read;
        assert Scan(p, env, w, input) == Step(p, env, before, input[|input| - 1]);
        StepCounts(p, env, before, input[|input| - 1]);
      }
    }
  }

  /** One pass from a running loop whose counters agree with its reads keeps them in agreement. */
  lemma StepCounts(p: Parser, env: Logfile.Env, t: Tally, r: Read)
    requires t.fatal.None? && t.lines == |t.read|
    requires t.notMatched == CountRoutes(p, t.read, NotMatched) && t.filtered == CountRoutes(p, t.read, Filtered)
    requires t.calls == AccountedSets(p, t.read)
    requires t.lines == t.notMatched + t.filtered + |t.calls|
    ensures var n := Step(p, env, t, r);
            && n.notMatched == CountRoutes(p, Routed(n), NotMatched)
            && n.filtered == CountRoutes(p, Routed(n), Filtered)
            && n.calls == AccountedSets(p, Routed(n))
            && n.lines == n.notMatched + n.filtered + |n.calls| + (if n.fatal.Some? then 1 else 0)
  {
    var n := Step(p, env, t, r);
    StepShape(p, env, t, r);
    if WriteOf(env, t.writer, r).Err? {
      assert Routed(n) == t.read;
    } else {
      assert Routed(n) == t.read + [r];
      RoutesSnoc(p, t.read, r);
    }
  }

  /** The reference counts of a sequence extended by one read. */
  lemma RoutesSnoc(p: Parser, rs: seq<Read>, r: Read)
    ensures CountRoutes(p, rs + [r], NotMatched) == CountRoutes(p, rs, NotMatched) + (if RouteOf(p, r.line).NotMatched? then 1 else 0)
    ensures CountRoutes(p, rs + [r], Filtered) == CountRoutes(p, rs, Filtered) + (if RouteOf(p, r.line).Filtered? then 1 else 0)
    ensures AccountedSets(p, rs + [r])
         == AccountedSets(p, rs) + (if RouteOf(p, r.line).Account? then [RouteOf(p, r.line).perf] else [])
  {
    assert (rs + [r])[..|rs|] == rs;
  }

  /** parseInput's loop, with the log writer and the status-code conversion able to end the process. */
  method ParseInput(p: Parser, env: Logfile.Env, w: Logfile.Opened, input: seq<Read>) returns (t: Tally)
    ensures t == Scan(p, env, w, input)
  {
    t := Start(w);
    var i := 0;
    while i < |input| && t.fatal.None?
      invariant 0 <= i <= |input|
      invariant t == Scan(p, env, w, input[..i])
      invariant t.fatal.Some? ==> t == Scan(p, env, w, input)
    {
      assert input[..i + 1][..i] == input[..i];
      t := Step(p, env, t, input[i]);
      i := i + 1;
      if t.fatal.Some? {
        ScanStopsAtFatal(p, env, w, input, i);
      }
    }
    if t.fatal.None? {
      assert input[..i] == input;
    }
  }

  /** Once a prefix ends the process, the rest of the input is never read. */
  lemma {:induction false} ScanStopsAtFatal(p: Parser, env: Logfile.Env, w: Logfile.Opened, input: seq<Read>, i: nat)
    requires i <= |input|
    requires Scan(p, env, w, input[..i]).fatal.Some?
    ensures Scan(p, env, w, input) == Scan(p, env, w, input[..i])
    decreases |input| - i
  {
    if i < |input| {
      var prev := input[..|input| - 1];
      assert prev[..i] == input[..i];
      ScanStopsAtFatal(p, env, w, prev, i);
      assert Scan(p, env, w, prev).fatal.Some?;
    } else {
      assert input[..i] == input;
    }
  }

  // ---------------------------------------------------------------------------
  // Properties
  // ---------------------------------------------------------------------------

  /**
   * When every status code converts and the log writer never fails, every
   * line is read, in order, and the writer ends as writing them all leaves it.
   */
  lemma {:induction false} EveryLineLogged(p: Parser, env: Logfile.Env, w: Logfile.Opened, input: seq<Read>)
    requires forall k :: 0 <= k < |input| ==> !RouteOf(p, input[k].line).BadCode?
    requires Writes(env, w, input).Ok?
    ensures Scan(p, env, w, input).read == input && Scan(p, env, w, input).lines == |input|
    ensures Scan(p, env, w, input).fatal.None?
    ensures Ok(Scan(p, env, w, input).writer) == Writes(env, w, input)
    decreases |input|
  {
    if |input| > 0 {
      var prefix := input[..|input| - 1];
      assert forall k :: 0 <= k < |prefix| ==> prefix[k] == input[k];
      EveryLineLogged(p, env, w, prefix);
    }
  }

  /** A read the log writer fails on ends the process before the line regex sees it. */
  lemma LogFatalStops(p: Parser, env: Logfile.Env, t: Tally, r: Read, e: Logfile.Fatal)
    requires WriteOf(env, t.writer, r) == Err(e)
    ensures Step(p, env, t, r) == t.(lines := t.lines + 1, read := t.read + [r], fatal := Some(LogFatal(e)))
  {
  }

  /** A line the line regex rejects only moves the not-matched counter (and the line counter). */
  lemma NotMatchedOnly(p: Parser, env: Logfile.Env, t: Tally, r: Read, w: Logfile.Opened)
    requires WriteOf(env, t.writer, r) == Ok(w)
    requires p.lineRe(r.line).None?
    ensures Step(p, env, t, r)
         == t.(lines := t.lines + 1, notMatched := t.notMatched + 1, read := t.read + [r], writer := w)
  {
  }

  /** A line with a status outside [200, 400) is neither not-matched nor accounted, and does not stop the loop. */
  lemma StatusFilterDrops(p: Parser, env: Logfile.Env, t: Tally, r: Read, f: Fields, code: int)
    requires WriteOf(env, t.writer, r).Ok?
    requires p.lineRe(r.line) == Some(f) && Strconv.Atoi(f.code) == Some(code)
    requires code < 200 || code >= 400
    ensures Step(p, env, t, r).notMatched == t.notMatched
    ensures Step(p, env, t, r).calls == t.calls
    ensures Step(p, env, t, r).fatal == t.fatal
  {
  }

  /** A line with a status in [200, 400) makes exactly one accounting call. */
  lemma AccountedOnce(p: Parser, env: Logfile.Env, t: Tally, r: Read, f: Fields, code: int)
    requires WriteOf(env, t.writer, r).Ok?
    requires p.lineRe(r.line) == Some(f) && Strconv.Atoi(f.code) == Some(code)
    requires 200 <= code < 400
    ensures Step(p, env, t, r).calls
         == t.calls + [PerfSet(f.domain, if p.isStatic(f.uri) then NotMatchedIdent else f.uri, f.time, code)]
    ensures Step(p, env, t, r).notMatched == t.notMatched
  {
  }

  // ---------------------------------------------------------------------------
  // From the input loop to the consumer
  // ---------------------------------------------------------------------------

  /** The perf sets handed to the consumer, one wake-up each, followed by the end marker. */
  function Feed(calls: seq<PerfSet>, now: nat): (ticks: seq<Dispatcher.Tick>)
    ensures |ticks| == |calls| + 1
    ensures forall k :: 0 <= k < |calls| ==> ticks[k] == Dispatcher.Tick(Dispatcher.Received(calls[k]), now, true, true)
    ensures ticks[|calls|].event == Dispatcher.Received(Dispatcher.CompleteMarker)
  {
    seq(|calls|, k requires 0 <= k < |calls| => Dispatcher.Tick(Dispatcher.Received(calls[k]), now, true, true))
      + [Dispatcher.Tick(Dispatcher.Received(Dispatcher.CompleteMarker), now, true, true)]
  }

  /** Every perf set has a time that converts and a domain other than the end marker's. */
  predicate Deliverable(calls: seq<PerfSet>) {
    forall k :: 0 <= k < |calls| ==> Strconv.Atoi(calls[k].time).Some? && calls[k].domain != Dispatcher.CompleteDomain
  }

  lemma {:induction false} AllAccepted(ticks: seq<Dispatcher.Tick>)
    requires forall k :: 0 <= k < |ticks| ==> Dispatcher.Accepts(ticks[k])
    ensures Dispatcher.AcceptedIn(ticks) == |ticks|
    decreases |ticks|
  {
    if |ticks| > 0 {
      AllAccepted(ticks[1..]);
    }
  }

  /**
   * Reconciliation: when every accounted line has a time that converts and
   * no accounted domain is the end marker's, the count the consumer reports
   * equals the number of accounted lines.
   */
  lemma InputCountReachesConsumer(p: Parser, env: Logfile.Env, w: Logfile.Opened, input: seq<Read>, c: Dispatcher.Consumer, setup: Setup,
                                  iv: Dispatcher.Intervals, host: string, now: nat)
    requires Deliverable(Scan(p, env, w, input).calls)
    ensures var t := Scan(p, env, w, input);
            var r := Dispatcher.Run(c, setup, iv, host, Feed(t.calls, now));
            r.Completed? && r.count == c.count + |t.calls|
  {
    var calls := Scan(p, env, w, input).calls;
    var ticks := Feed(calls, now);
    assert ticks[..|calls|] == ticks[..|ticks| - 1];
    forall k | 0 <= k < |calls|
      ensures Dispatcher.Accepts(ticks[..|calls|][k]) && !Dispatcher.Stops(ticks[k])
    {
      assert ticks[..|calls|][k] == ticks[k];
      assert ticks[k] == Dispatcher.Tick(Dispatcher.Received(calls[k]), now, true, true);
      assert Strconv.Atoi(calls[k].time).Some? && calls[k].domain != Dispatcher.CompleteDomain;
    }
    AllAccepted(ticks[..|calls|]);
    Dispatcher.CompletedCount(c, setup, iv, host, ticks, |calls|);
  }

  /**
   * As written, the end of the stream travels in band: when the first
   * accounted set is for a vhost named like the marker, the consumer
   * completes at once and reports none of the sets.
   */
  lemma CompleteVhostEndsEarly(calls: seq<PerfSet>, c: Dispatcher.Consumer, setup: Setup,
                               iv: Dispatcher.Intervals, host: string, now: nat)
    requires |calls| > 0 && calls[0].domain == Dispatcher.CompleteDomain
    ensures var r := Dispatcher.Run(c, setup, iv, host, Feed(calls, now));
            r.Completed? && r.count == c.count
  {
    var ticks := Feed(calls, now);
    assert ticks[0].event == Dispatcher.Received(calls[0]);
  }

  /**
   * With the end of the stream signalled out of band, every accounted line
   * whose time converts is counted, whatever its vhost: the count on
   * CompleteChan is the number of accounted lines.
   */
  lemma InputCountOutOfBand(p: Parser, env: Logfile.Env, w: Logfile.Opened, input: seq<Read>, c: Dispatcher.Consumer,
                            setup: Setup, iv: Dispatcher.Intervals, host: string, now: nat)
    requires forall k :: 0 <= k < |Scan(p, env, w, input).calls| ==> Strconv.Atoi(Scan(p, env, w, input).calls[k].time).Some?
    ensures var calls := Scan(p, env, w, input).calls;
            var ticks := Feed(calls, now);
            var r := Dispatcher.RunOutOfBand(c, setup, iv, host, ticks[..|calls|], ticks[|calls|]);
            r.Completed? && r.count == c.count + |calls|
  {
    var calls := Scan(p, env, w, input).calls;
    var ticks := Feed(calls, now);
    forall k | 0 <= k < |calls|
      ensures ticks[..|calls|][k].event.Received? && Strconv.Atoi(ticks[..|calls|][k].event.perf.time).Some?
    {
      assert ticks[..|calls|][k] == ticks[k];
    }
    Dispatcher.OutOfBandCount(c, setup, iv, host, ticks[..|calls|], ticks[|calls|]);
  }
}
