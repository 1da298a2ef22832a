/**
 * The consumer loop of the aggregator (consumePerfSets), as a fold over the
 * sequence of wake-ups it sees. Each wake-up is a signal, a received perf
 * set or a timeout; it carries the clock reading taken after it (in
 * nanoseconds) and the outcome of the send attempts it may trigger.
 */
module Dispatcher {
  import opened Accounting
  import opened Export
  import opened Wrappers
  import Strconv

  /** The domain of the end-of-stream marker. */
  const CompleteDomain: string := "COMPLETE"

  /** The perf set CompleteStream sends. */
  const CompleteMarker: PerfSet := PerfSet(CompleteDomain, CompleteDomain, "0", 1)

  const NanosPerSecond: int := 1_000_000_000

  datatype Event = Signal | Received(perf: PerfSet) | Timeout

  /**
   * One wake-up: what woke the loop, the clock right after it, and whether
   * the discovery and the data packet sent during it (if any) get through.
   */
  datatype Tick = Tick(event: Event, now: nat, discoveryDelivered: bool, dataDelivered: bool)

  /** The discovery and the data interval, in whole seconds. */
  datatype Intervals = Intervals(discovery: int, sending: int)

  /** The loop's local state: the aggregator, the count of accepted sets and the two timers. */
  datatype Consumer = Consumer(agg: Aggregator, count: int, lastDiscovery: nat, lastStats: nat)

  /**
   * What the loop does after a wake-up: keep running, return the count on
   * CompleteChan, or exit the process after a final export on a signal.
   */
  datatype Outcome = Running(consumer: Consumer) | Completed(count: int, agg: Aggregator) | Exited(agg: Aggregator)

  /** The Unix seconds of a nanosecond clock reading. */
  function Seconds(now: nat): int {
    now / NanosPerSecond
  }

  /** An export is due when the whole seconds since the last one exceed the interval. */
  predicate Due(last: nat, now: nat, interval: int) {
    Quo(now - last, NanosPerSecond) > interval
  }

  /**
   * The two timer checks at the end of every loop pass: first discovery,
   * then data, each resetting its own timer when it fires.
   */
  function Periodic(c: Consumer, iv: Intervals, host: string, tick: Tick): (r: Consumer)
    ensures r.count == c.count
    ensures r.lastDiscovery == (if Due(c.lastDiscovery, tick.now, iv.discovery) then tick.now else c.lastDiscovery)
    ensures r.lastStats == (if Due(c.lastStats, tick.now, iv.sending) then tick.now else c.lastStats)
    ensures iv.discovery >= 0 ==> !Due(r.lastDiscovery, tick.now, iv.discovery)
    ensures iv.sending >= 0 ==> !Due(r.lastStats, tick.now, iv.sending)
    ensures r.agg.disabled == c.agg.disabled
    ensures c.agg.disabled ==> r.agg == c.agg
    ensures r.agg.failedSends == c.agg.failedSends
      + (if !c.agg.disabled && Due(c.lastDiscovery, tick.now, iv.discovery) && !tick.discoveryDelivered then 1 else 0)
      + (if !c.agg.disabled && Due(c.lastStats, tick.now, iv.sending) && !tick.dataDelivered then 1 else 0)
    ensures !Due(c.lastStats, tick.now, iv.sending) ==> r.agg.stats == c.agg.stats
    ensures !c.agg.disabled && Due(c.lastStats, tick.now, iv.sending) ==> r.agg.stats == SnapshotAll(c.agg.stats)
  {
    var afterDiscovery :=
      if Due(c.lastDiscovery, tick.now, iv.discovery)
      then c.(agg := SendDiscovery(c.agg, tick.discoveryDelivered).agg, lastDiscovery := tick.now)
      else c;
    if Due(afterDiscovery.lastStats, tick.now, iv.sending)
    then afterDiscovery.(agg := SendData(afterDiscovery.agg, host, Seconds(tick.now), tick.dataDelivered).agg,
                         lastStats := tick.now)
    else afterDiscovery
  }

  /**
   * A final export (discovery, then data) took `before` to `after`: nothing
   * when the sender is disabled; otherwise every bucket's delta snapshot is
   * taken and each undelivered packet counts one failure.
   */
  predicate FinalExport(before: Aggregator, after: Aggregator, tick: Tick) {
    && after.disabled == before.disabled
    && (before.disabled ==> after == before)
    && (!before.disabled ==>
          && after.stats == SnapshotAll(before.stats)
          && after.failedSends == before.failedSends
               + (if tick.discoveryDelivered then 0 else 1) + (if tick.dataDelivered then 0 else 1))
  }

  /**
   * A received set handed to AccountRequest: the table is the one it
   * returns, and the count grows by one exactly when the set's time converts.
   */
  function Accepted(c: Consumer, setup: Setup, p: PerfSet): (r: Consumer)
    ensures r.count == c.count + (if Strconv.Atoi(p.time).Some? then 1 else 0)
    ensures r.agg == c.agg.(stats := AccountRequest(setup, c.agg.stats, p.domain, p.ident, p.time, p.code).stats)
    ensures r.lastDiscovery == c.lastDiscovery && r.lastStats == c.lastStats
  {
    var accounted := AccountRequest(setup, c.agg.stats, p.domain, p.ident, p.time, p.code);
    c.(agg := c.agg.(stats := accounted.stats), count := c.count + if accounted.ok then 1 else 0)
  }

  /** One pass of the select loop. */
  function Step(c: Consumer, setup: Setup, iv: Intervals, host: string, tick: Tick): (r: Outcome)
    ensures tick.event.Signal? ==> r.Exited? && FinalExport(c.agg, r.agg, tick)
    ensures tick.event.Received? && tick.event.perf.domain == CompleteDomain ==>
              r.Completed? && r.count == c.count && FinalExport(c.agg, r.agg, tick)
    ensures tick.event.Received? && tick.event.perf.domain != CompleteDomain ==>
              r == Running(Periodic(Accepted(c, setup, tick.event.perf), iv, host, tick))
    ensures tick.event.Timeout? ==> r == Running(Periodic(c, iv, host, tick))
    ensures r.Running? ==>
      r.consumer.count == c.count + (if tick.event.Received? && Strconv.Atoi(tick.event.perf.time).Some? then 1 else 0)
    ensures r.Running? && tick.event.Received? ==>
              var p := tick.event.perf;
              var accounted := AccountRequest(setup, c.agg.stats, p.domain, p.ident, p.time, p.code).stats;
              && (!Due(c.lastStats, tick.now, iv.sending) || c.agg.disabled ==> r.consumer.agg.stats == accounted)
              && (!c.agg.disabled && Due(c.lastStats, tick.now, iv.sending) ==> r.consumer.agg.stats == SnapshotAll(accounted))
  {
    match tick.event
    case Signal =>
      var discovered := SendDiscovery(c.agg, tick.discoveryDelivered).agg;
      Exited(SendData(discovered, host, Seconds(tick.now), tick.dataDelivered).agg)
    case Received(p) =>
      if p.domain == CompleteDomain then
        Completed(c.count, SubmitData(c.agg, host, Seconds(tick.now), tick.discoveryDelivered, tick.dataDelivered).agg)
      else
        Running(Periodic(Accepted(c, setup, p), iv, host, tick))
    case Timeout =>
      Running(Periodic(c, iv, host, tick))
  }

  /** The loop over a finite run of wake-ups; it stops at the first Completed or Exited. */
  function Run(c: Consumer, setup: Setup, iv: Intervals, host: string, ticks: seq<Tick>): Outcome
    decreases |ticks|
  {
    if |ticks| == 0 then Running(c)
    else
      match Step(c, setup, iv, host, ticks[0])
      case Running(next) => Run(next, setup, iv, host, ticks[1..])
      case stopped => stopped
  }

  // ---------------------------------------------------------------------------
  // Reconciliation count
  // ---------------------------------------------------------------------------

  /** Whether a wake-up ends the loop. */
  predicate Stops(t: Tick) {
    t.event.Signal? || (t.event.Received? && t.event.perf.domain == CompleteDomain)
  }

  /** The position of the first wake-up that ends the loop, or |ticks| if none does. */
  function StopAt(ticks: seq<Tick>): (k: nat)
    ensures k <= |ticks|
    ensures forall j :: 0 <= j < k ==> !Stops(ticks[j])
    ensures k < |ticks| ==> Stops(ticks[k])
  {
    if |ticks| == 0 then 0
    else if Stops(ticks[0]) then 0
    else 1 + StopAt(ticks[1..])
  }

  /** Whether a wake-up carries a perf set whose time AccountRequest accepts. */
  predicate Accepts(t: Tick) {
    t.event.Received? && Strconv.Atoi(t.event.perf.time).Some?
  }

  /** The number of accepted perf sets in a run of wake-ups. */
  function AcceptedIn(ticks: seq<Tick>): nat {
    if |ticks| == 0 then 0
    else (if Accepts(ticks[0]) then 1 else 0) + AcceptedIn(ticks[1..])
  }

  /**
   * The loop ends exactly at the first stopping wake-up: Completed if that
   * is the end marker, Exited if it is a signal, still Running if there is
   * none; and the count it reports is the initial count plus the number of
   * accepted perf sets before the marker.
   */
  lemma {:induction false} RunOutcome(c: Consumer, setup: Setup, iv: Intervals, host: string, ticks: seq<Tick>)
    ensures var r := Run(c, setup, iv, host, ticks);
            var k := StopAt(ticks);
            && (r.Running? <==> k == |ticks|)
            && (r.Exited? <==> k < |ticks| && ticks[k].event.Signal?)
            && (r.Completed? <==> k < |ticks| && ticks[k].event.Received?)
            && (r.Completed? ==> r.count == c.count + AcceptedIn(ticks[..k]))
            && (r.Running? ==> r.consumer.count == c.count + AcceptedIn(ticks))
    decreases |ticks|
  {
    if |ticks| > 0 {
      var k := StopAt(ticks);
      if !Stops(ticks[0]) {
        var next := Step(c, setup, iv, host, ticks[0]).consumer;
        RunOutcome(next, setup, iv, host, ticks[1..]);
        assert StopAt(ticks[1..]) == k - 1;
        assert ticks[1..][k - 1..] == ticks[k..];
        if k < |ticks| {
          assert ticks[..k][1..] == ticks[1..][..k - 1];
        }
        assert ticks[..|ticks|] == ticks;
      } else {
        assert ticks[..0] == [];
      }
    }
  }

  /** The count CompleteChan receives, for a run that reaches the end marker. */
  lemma CompletedCount(c: Consumer, setup: Setup, iv: Intervals, host: string, ticks: seq<Tick>, k: nat)
    requires k < |ticks| && ticks[k].event == Received(CompleteMarker)
    requires forall j :: 0 <= j < k ==> !Stops(ticks[j])
    ensures var r := Run(c, setup, iv, host, ticks);
            r.Completed? && r.count == c.count + AcceptedIn(ticks[..k])
  {
    RunOutcome(c, setup, iv, host, ticks);
  }

  lemma {:induction false} AcceptedInAppend(a: seq<Tick>, b: seq<Tick>)
    ensures AcceptedIn(a + b) == AcceptedIn(a) + AcceptedIn(b)
    decreases |a|
  {
    if |a| > 0 {
      assert (a + b)[1..] == a[1..] + b;
      AcceptedInAppend(a[1..], b);
    } else {
      assert a + b == b;
    }
  }

  /** A perf set of the broken-data run, all under dom1/theFoo with status 200. */
  function Dom1(time: string, now: nat): Tick {
    Tick(Received(PerfSet("dom1", "theFoo", time, 200)), now, true, true)
  }

  /** One round of the broken-data run: a time "HONK<n>", then the time "<n>". */
  function BrokenPair(n: nat, now: nat): seq<Tick> {
    [Dom1("HONK" + Strconv.Itoa(n), now), Dom1(Strconv.Itoa(n), now)]
  }

  /** The broken-data run: four rounds, n = 0..3, then the end marker. */
  function BrokenData(now: nat): seq<Tick> {
    BrokenPair(0, now) + BrokenPair(1, now) + BrokenPair(2, now) + BrokenPair(3, now)
      + [Tick(Received(CompleteMarker), now, true, true)]
  }

  /** Each round of the broken-data run contributes exactly one accepted set. */
  lemma BrokenPairAccepted(n: nat, now: nat)
    requires Strconv.InInt64(n)
    ensures AcceptedIn(BrokenPair(n, now)) == 1
    ensures forall j :: 0 <= j < 2 ==> !Stops(BrokenPair(n, now)[j])
  {
    var pair := BrokenPair(n, now);
    Strconv.AtoiRejectsNonDigit("HONK" + Strconv.Itoa(n), 0);
    Strconv.AtoiItoa(n);
    assert !Accepts(pair[0]) && Accepts(pair[1]);
    assert pair[1..][1..] == [];
    assert AcceptedIn(pair[1..]) == 1;
  }

  /** The four rounds together: four accepted sets and no stop. */
  lemma BrokenRoundsAccepted(now: nat)
    ensures var rounds := BrokenPair(0, now) + BrokenPair(1, now) + BrokenPair(2, now) + BrokenPair(3, now);
            |rounds| == 8 && AcceptedIn(rounds) == 4 && forall j :: 0 <= j < 8 ==> !Stops(rounds[j])
  {
    var p0, p1, p2, p3 := BrokenPair(0, now), BrokenPair(1, now), BrokenPair(2, now), BrokenPair(3, now);
    BrokenPairAccepted(0, now);
    BrokenPairAccepted(1, now);
    BrokenPairAccepted(2, now);
    BrokenPairAccepted(3, now);
    AcceptedInAppend(p0, p1);
    AcceptedInAppend(p0 + p1, p2);
    AcceptedInAppend(p0 + p1 + p2, p3);
    var rounds := p0 + p1 + p2 + p3;
    forall j | 0 <= j < 8
      ensures !Stops(rounds[j])
    {
      if j < 2 { assert rounds[j] == p0[j]; }
      else if j < 4 { assert rounds[j] == p1[j - 2]; }
      else if j < 6 { assert rounds[j] == p2[j - 4]; }
      else { assert rounds[j] == p3[j - 6]; }
    }
  }

  /** Only the four numeric times are accepted: the loop reports 4. */
  lemma BrokenDataCount(c: Consumer, setup: Setup, iv: Intervals, host: string, now: nat)
    ensures var r := Run(c, setup, iv, host, BrokenData(now));
            r.Completed? && r.count == c.count + 4
  {
    var rounds := BrokenPair(0, now) + BrokenPair(1, now) + BrokenPair(2, now) + BrokenPair(3, now);
    BrokenRoundsAccepted(now);
    CompletedAfter(c, setup, iv, host, rounds, now);
  }

  /** Sets none of which stops the loop, followed by the end marker, complete with their accepted count. */
  lemma CompletedAfter(c: Consumer, setup: Setup, iv: Intervals, host: string, sets: seq<Tick>, now: nat)
    requires forall j :: 0 <= j < |sets| ==> !Stops(sets[j])
    ensures var r := Run(c, setup, iv, host, sets + [Tick(Received(CompleteMarker), now, true, true)]);
            r.Completed? && r.count == c.count + AcceptedIn(sets)
  {
    var ticks := sets + [Tick(Received(CompleteMarker), now, true, true)];
    assert ticks[..|sets|] == sets;
    assert forall j :: 0 <= j < |sets| ==> ticks[j] == sets[j];
    CompletedCount(c, setup, iv, host, ticks, |sets|);
  }

  // ---------------------------------------------------------------------------
  // Send attempts
  // ---------------------------------------------------------------------------

  /** A disabled sender stays disabled and never counts a failure, whatever the run. */
  lemma {:induction false} DisabledRunNeverFails(c: Consumer, setup: Setup, iv: Intervals, host: string, ticks: seq<Tick>)
    requires c.agg.disabled
    ensures var r := Run(c, setup, iv, host, ticks);
            match r
            case Running(next) => next.agg.disabled && next.agg.failedSends == c.agg.failedSends
            case Completed(_, agg) => agg.disabled && agg.failedSends == c.agg.failedSends
            case Exited(agg) => agg.disabled && agg.failedSends == c.agg.failedSends
    decreases |ticks|
  {
    if |ticks| > 0 {
      match Step(c, setup, iv, host, ticks[0])
      case Running(next) => DisabledRunNeverFails(next, setup, iv, host, ticks[1..]);
      case _ =>
    }
  }

  /** No timer expires during the run: only the final SubmitData sends anything. */
  predicate Quiet(c: Consumer, iv: Intervals, ticks: seq<Tick>) {
    forall j :: 0 <= j < |ticks| ==>
      !Due(c.lastDiscovery, ticks[j].now, iv.discovery) && !Due(c.lastStats, ticks[j].now, iv.sending)
  }

  /**
   * In a run where no timer expires, the failures the completed loop has
   * counted are exactly those of its final SubmitData.
   */
  lemma {:induction false} QuietRunFailures(c: Consumer, setup: Setup, iv: Intervals, host: string, ticks: seq<Tick>)
    requires !c.agg.disabled
    requires Quiet(c, iv, ticks)
    requires StopAt(ticks) < |ticks| && ticks[StopAt(ticks)].event.Received?
    ensures var r := Run(c, setup, iv, host, ticks);
            var last := ticks[StopAt(ticks)];
            r.Completed? &&
            r.agg.failedSends == c.agg.failedSends
              + (if last.discoveryDelivered then 0 else 1) + (if last.dataDelivered then 0 else 1)
    decreases |ticks|
  {
    var t := ticks[0];
    if Stops(t) {
      SubmitDataAttempts(c.agg, host, Seconds(t.now), t.discoveryDelivered, t.dataDelivered);
    } else {
      var next := Step(c, setup, iv, host, t).consumer;
      assert next.lastDiscovery == c.lastDiscovery && next.lastStats == c.lastStats;
      assert next.agg.failedSends == c.agg.failedSends;
      assert Quiet(next, iv, ticks[1..]) by {
        forall j | 0 <= j < |ticks[1..]|
          ensures !Due(next.lastDiscovery, ticks[1..][j].now, iv.discovery)
          ensures !Due(next.lastStats, ticks[1..][j].now, iv.sending)
        {
          assert ticks[1..][j] == ticks[j + 1];
        }
      }
      assert StopAt(ticks[1..]) == StopAt(ticks) - 1;
      QuietRunFailures(next, setup, iv, host, ticks[1..]);
    }
  }

  /**
   * Against an unreachable collector, the SubmitData that ends the loop and
   * the one the caller makes afterwards count four failed sends.
   */
  lemma TwoFailingSubmits(agg: Aggregator, host: string, t1: int, t2: int)
    requires !agg.disabled
    ensures SubmitData(SubmitData(agg, host, t1, false, false).agg, host, t2, false, false).agg.failedSends
            == agg.failedSends + 4
  {
    SubmitDataAttempts(agg, host, t1, false, false);
    var once := SubmitData(agg, host, t1, false, false).agg;
    SubmitDataAttempts(once, host, t2, false, false);
  }

  // ---------------------------------------------------------------------------
  // The end of the stream signalled out of band
  // ---------------------------------------------------------------------------

  /**
   * One pass with the end of the stream signalled apart from the perf sets:
   * every received set is accounted, whatever its domain. On every wake-up
   * that is not a set under the marker's domain it is the loop's own pass.
   */
  function StepOutOfBand(c: Consumer, setup: Setup, iv: Intervals, host: string, tick: Tick): (r: Outcome)
    ensures !(tick.event.Received? && tick.event.perf.domain == CompleteDomain) ==> r == Step(c, setup, iv, host, tick)
    ensures tick.event.Received? ==> r == Running(Periodic(Accepted(c, setup, tick.event.perf), iv, host, tick))
  {
    match tick.event
    case Received(p) => Running(Periodic(Accepted(c, setup, p), iv, host, tick))
    case _ => Step(c, setup, iv, host, tick)
  }

  /**
   * A run of wake-ups followed by the end of the stream, which completes
   * after a final SubmitData at the clock and delivery outcomes of `end`.
   */
  function RunOutOfBand(c: Consumer, setup: Setup, iv: Intervals, host: string, ticks: seq<Tick>, end: Tick): Outcome
    decreases |ticks|
  {
    if |ticks| == 0 then
      Completed(c.count, SubmitData(c.agg, host, Seconds(end.now), end.discoveryDelivered, end.dataDelivered).agg)
    else
      match StepOutOfBand(c, setup, iv, host, ticks[0])
      case Running(next) => RunOutOfBand(next, setup, iv, host, ticks[1..], end)
      case stopped => stopped
  }

  /**
   * With the end signalled out of band, a run of received sets whose times
   * all convert completes with one more count per set, whatever the domains.
   */
  lemma {:induction false} OutOfBandCount(c: Consumer, setup: Setup, iv: Intervals, host: string, ticks: seq<Tick>, end: Tick)
    requires forall k :: 0 <= k < |ticks| ==> ticks[k].event.Received? && Strconv.Atoi(ticks[k].event.perf.time).Some?
    ensures var r := RunOutOfBand(c, setup, iv, host, ticks, end);
            r.Completed? && r.count == c.count + |ticks|
    decreases |ticks|
  {
    if |ticks| > 0 {
      var next := Periodic(Accepted(c, setup, ticks[0].event.perf), iv, host, ticks[0]);
      assert StepOutOfBand(c, setup, iv, host, ticks[0]) == Running(next);
      assert forall k :: 0 <= k < |ticks| - 1 ==> ticks[1..][k] == ticks[k + 1];
      OutOfBandCount(next, setup, iv, host, ticks[1..], end);
    }
  }
}
