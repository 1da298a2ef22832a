/**
 * The zabbix export of processing/accounting.go: the discovery record, the
 * data metrics of every bucket with their destructive delta read, and the
 * failed-delivery counter. The zabbix sender itself is an oracle: each send
 * attempt is told whether the collector accepted the packet.
 */
module Export {
  import opened Wrappers
  import Strconv
  import Sets
  import opened Accounting

  /** One zabbix item value: host, item key, value text and Unix timestamp. */
  datatype Metric = Metric(host: string, key: string, value: string, clock: int)

  /** The constant part of zabbixConfigSetting. */
  const BaseKey: string := "apache.acc"
  const DiscoveryKey: string := "apache.discovery"
  const ServerPort: int := 10050

  /** The mutable part of a RequestAccounting instance. */
  datatype Aggregator = Aggregator(stats: Stats, failedSends: int, disabled: bool)

  // ---------------------------------------------------------------------------
  // Metric keys
  // ---------------------------------------------------------------------------

  /** strings.Join */
  function Join(parts: seq<string>, sep: string): string
    decreases |parts|
  {
    if |parts| == 0 then ""
    else if |parts| == 1 then parts[0]
    else parts[0] + sep + Join(parts[1..], sep)
  }

  /** The key createZabbixMetric builds: BaseKey[part1,part2,...]. */
  function MetricKey(parts: seq<string>): string {
    BaseKey + "[" + Join(parts, ",") + "]"
  }

  /** createZabbixMetric */
  function CreateMetric(host: string, dataTime: int, value: string, parts: seq<string>): Metric {
    Metric(host, MetricKey(parts), value, dataTime)
  }

  /** The metrics sendData emits per bucket. */
  datatype Column = Count | Sum | Rate | Class(threshold: int) | Code(status: int)

  /** The key parts after vhost and accset. */
  function ColumnParts(col: Column): (parts: seq<string>)
    ensures |parts| > 0
  {
    match col
    case Count => ["count"]
    case Sum => ["sum"]
    case Rate => ["req_s"]
    case Class(t) => ["class", Strconv.Itoa(t)]
    case Code(c) => ["code", Strconv.Itoa(c)]
  }

  /** The text the column parts contribute to the key. */
  function Suffix(col: Column): string {
    Join(ColumnParts(col), ",")
  }

  lemma JoinCons(x: string, rest: seq<string>, sep: string)
    requires |rest| > 0
    ensures Join([x] + rest, sep) == x + sep + Join(rest, sep)
  {
    assert ([x] + rest)[1..] == rest;
  }

  /** The column texts: "count", "sum", "req_s", "class,<threshold>", "code,<status>". */
  lemma SuffixText(col: Column)
    ensures Suffix(col) == match col
      case Count => "count"
      case Sum => "sum"
      case Rate => "req_s"
      case Class(t) => "class," + Strconv.Itoa(t)
      case Code(c) => "code," + Strconv.Itoa(c)
  {
    match col
    case Class(t) => JoinCons("class", [Strconv.Itoa(t)], ",");
    case Code(c) => JoinCons("code", [Strconv.Itoa(c)], ",");
    case _ =>
  }

  /** The key of one column of a bucket: apache.acc[vhost,accset,column]. */
  function BucketKey(vhost: string, accset: string, column: string): string {
    BaseKey + "[" + vhost + "," + accset + "," + column + "]"
  }

  /** Every key of a bucket is its vhost and accset prefix, then the column. */
  lemma MetricKeyShape(vhost: string, accset: string, col: Column)
    ensures MetricKey([vhost, accset] + ColumnParts(col))
         == BucketKey(vhost, accset, Suffix(col))
  {
    var tail := ColumnParts(col);
    JoinCons(accset, tail, ",");
    assert [vhost, accset] + tail == [vhost] + ([accset] + tail);
    JoinCons(vhost, [accset] + tail, ",");
  }

  lemma PrefixCancel(p: string, x: string, y: string, q: string)
    requires p + x + q == p + y + q
    ensures x == y
  {
    assert |x| == |y|;
    assert x == (p + x + q)[|p|..|p| + |x|];
    assert y == (p + y + q)[|p|..|p| + |y|];
  }

  /** The first three characters of a column's text. */
  function Tag(col: Column): string {
    match col
    case Count => "cou"
    case Sum => "sum"
    case Rate => "req"
    case Class(_) => "cla"
    case Code(_) => "cod"
  }

  lemma SuffixTag(col: Column)
    ensures |Suffix(col)| >= 3 && Suffix(col)[..3] == Tag(col)
  {
    SuffixText(col);
  }

  /** Different columns never share a key text. */
  lemma SuffixInjective(a: Column, b: Column)
    requires Suffix(a) == Suffix(b)
    ensures a == b
  {
    SuffixText(a);
    SuffixText(b);
    if a.Class? && b.Class? {
      var x, y := Strconv.Itoa(a.threshold), Strconv.Itoa(b.threshold);
      assert "class," + x + "" == "class," + y + "";
      PrefixCancel("class,", x, y, "");
      Strconv.ItoaInjective(a.threshold, b.threshold);
    } else if a.Code? && b.Code? {
      var x, y := Strconv.Itoa(a.status), Strconv.Itoa(b.status);
      assert "code," + x + "" == "code," + y + "";
      PrefixCancel("code,", x, y, "");
      Strconv.ItoaInjective(a.status, b.status);
    } else {
      SuffixTag(a);
      SuffixTag(b);
    }
  }

  // ---------------------------------------------------------------------------
  // Data metrics of one bucket
  // ---------------------------------------------------------------------------

  /** Go's `/` on int64: the quotient truncated toward zero. */
  function Quo(a: int, b: int): (q: int)
    requires b > 0
    ensures a >= 0 ==> 0 <= a - q * b < b
    ensures a < 0 ==> -b < a - q * b <= 0
  {
    if a >= 0 then a / b else -((-a) / b)
  }

  /**
   * The req_s value: the mean response time of the requests since the last
   * export, "0" when there were none. `%f` of the integral quotient prints it
   * with six zero decimals.
   */
  function RateValue(b: AccountingSet): string {
    var processed := b.count - b.lastCount;
    if processed > 0 then Strconv.Itoa(Quo(b.sum - b.lastSum, processed)) + ".000000" else "0"
  }

  /** A Go map read, where a missing key reads as 0. */
  function Get(m: map<int, int>, k: int): int {
    if k in m then m[k] else 0
  }

  function ColumnValue(b: AccountingSet, col: Column): string {
    match col
    case Count => Strconv.Itoa(b.count)
    case Sum => Strconv.Itoa(b.sum)
    case Rate => RateValue(b)
    case Class(t) => Strconv.Itoa(Get(b.classes, t))
    case Code(c) => Strconv.Itoa(Get(b.codes, c))
  }

  function ClassColumn(t: int): Column { Class(t) }

  function CodeColumn(c: int): Column { Code(c) }

  /** The columns of a bucket: count, sum, req_s, one per class, one per status code. */
  function Columns(b: AccountingSet): (cols: set<Column>)
    ensures forall col :: col in cols <==>
      (col.Count? || col.Sum? || col.Rate? ||
       (col.Class? && col.threshold in b.classes) || (col.Code? && col.status in b.codes))
  {
    {Count, Sum, Rate} + Sets.Image(b.classes.Keys, ClassColumn) + Sets.Image(b.codes.Keys, CodeColumn)
  }

  lemma FixedColumnsCard()
    ensures |{Count, Sum, Rate}| == 3
  {
    assert {Count, Sum, Rate} == {Count} + {Sum} + {Rate};
  }

  lemma ClassColumnsCard(keys: set<int>)
    ensures |Sets.Image(keys, ClassColumn)| == |keys|
    ensures forall c :: c in Sets.Image(keys, ClassColumn) ==> c.Class?
  {
    Sets.InjectiveImageCard(keys, ClassColumn);
  }

  lemma CodeColumnsCard(keys: set<int>)
    ensures |Sets.Image(keys, CodeColumn)| == |keys|
    ensures forall c :: c in Sets.Image(keys, CodeColumn) ==> c.Code?
  {
    Sets.InjectiveImageCard(keys, CodeColumn);
  }

  lemma ColumnsCard(b: AccountingSet)
    ensures |Columns(b)| == 3 + |b.classes| + |b.codes|
  {
    var fixed: set<Column> := {Count, Sum, Rate};
    var classCols := Sets.Image(b.classes.Keys, ClassColumn);
    var codeCols := Sets.Image(b.codes.Keys, CodeColumn);
    FixedColumnsCard();
    ClassColumnsCard(b.classes.Keys);
    CodeColumnsCard(b.codes.Keys);
    assert fixed * classCols == {} by {
      forall c | c in classCols ensures c !in fixed { assert c.Class?; }
    }
    Sets.DisjointUnionCard(fixed, classCols);
    assert (fixed + classCols) * codeCols == {} by {
      forall c | c in codeCols ensures c !in fixed + classCols { assert c.Code?; }
    }
    Sets.DisjointUnionCard(fixed + classCols, codeCols);
    assert |b.classes.Keys| == |b.classes| && |b.codes.Keys| == |b.codes|;
  }

  function ColumnMetric(host: string, t: int, vhost: string, accset: string, b: AccountingSet, col: Column): Metric {
    CreateMetric(host, t, ColumnValue(b, col), [vhost, accset] + ColumnParts(col))
  }

  /** Within one bucket, the metric key determines the column. */
  lemma ColumnMetricInjective(host: string, t: int, vhost: string, accset: string, b: AccountingSet, c1: Column, c2: Column)
    requires ColumnMetric(host, t, vhost, accset, b, c1).key == ColumnMetric(host, t, vhost, accset, b, c2).key
    ensures c1 == c2
  {
    MetricKeyShape(vhost, accset, c1);
    MetricKeyShape(vhost, accset, c2);
    PrefixCancel(BaseKey + "[" + vhost + "," + accset + ",", Suffix(c1), Suffix(c2), "]");
    SuffixInjective(c1, c2);
  }

  /**
   * The metrics sendData creates for one bucket: 3 + |Classes| + |Codes| of
   * them, with pairwise distinct keys of the form apache.acc[vhost,accset,...].
   */
  function BucketMetrics(host: string, t: int, vhost: string, accset: string, b: AccountingSet): (ms: set<Metric>)
    ensures |ms| == 3 + |b.classes| + |b.codes|
    ensures forall col :: col in Columns(b) ==> ColumnMetric(host, t, vhost, accset, b, col) in ms
    ensures forall m1, m2 :: m1 in ms && m2 in ms && m1.key == m2.key ==> m1 == m2
  {
    var f := (col: Column) => ColumnMetric(host, t, vhost, accset, b, col);
    var cols := Columns(b);
    forall c1, c2 | c1 in cols && c2 in cols && f(c1).key == f(c2).key
      ensures c1 == c2
    {
      ColumnMetricInjective(host, t, vhost, accset, b, c1, c2);
    }
    Sets.InjectiveImageCard(cols, f);
    ColumnsCard(b);
    Sets.Image(cols, f)
  }

  /** The metric of one column of a bucket, keyed apache.acc[vhost,accset,<column>]. */
  lemma ColumnMetricIn(host: string, t: int, vhost: string, accset: string, b: AccountingSet, col: Column)
    requires col in Columns(b)
    ensures Metric(host, BucketKey(vhost, accset, Suffix(col)), ColumnValue(b, col), t)
            in BucketMetrics(host, t, vhost, accset, b)
  {
    MetricKeyShape(vhost, accset, col);
    assert ColumnMetric(host, t, vhost, accset, b, col) in BucketMetrics(host, t, vhost, accset, b);
  }

  /** The count, sum and req_s metrics of a bucket, keyed as createZabbixMetric keys them. */
  lemma BucketMetricsTotals(host: string, t: int, vhost: string, accset: string, b: AccountingSet)
    ensures Metric(host, BucketKey(vhost, accset, "count"), Strconv.Itoa(b.count), t)
            in BucketMetrics(host, t, vhost, accset, b)
    ensures Metric(host, BucketKey(vhost, accset, "sum"), Strconv.Itoa(b.sum), t)
            in BucketMetrics(host, t, vhost, accset, b)
    ensures Metric(host, BucketKey(vhost, accset, "req_s"), RateValue(b), t)
            in BucketMetrics(host, t, vhost, accset, b)
  {
    ColumnMetricIn(host, t, vhost, accset, b, Count);
    ColumnMetricIn(host, t, vhost, accset, b, Sum);
    ColumnMetricIn(host, t, vhost, accset, b, Rate);
    SuffixText(Count);
    SuffixText(Sum);
    SuffixText(Rate);
  }

  /** One metric per performance class and per status code, carrying its histogram count. */
  lemma BucketMetricsHistograms(host: string, t: int, vhost: string, accset: string, b: AccountingSet, c: int)
    ensures c in b.classes ==>
              Metric(host, BucketKey(vhost, accset, "class," + Strconv.Itoa(c)),
                     Strconv.Itoa(b.classes[c]), t) in BucketMetrics(host, t, vhost, accset, b)
    ensures c in b.codes ==>
              Metric(host, BucketKey(vhost, accset, "code," + Strconv.Itoa(c)),
                     Strconv.Itoa(b.codes[c]), t) in BucketMetrics(host, t, vhost, accset, b)
  {
    if c in b.classes {
      ColumnMetricIn(host, t, vhost, accset, b, Class(c));
      SuffixText(Class(c));
    }
    if c in b.codes {
      ColumnMetricIn(host, t, vhost, accset, b, Code(c));
      SuffixText(Code(c));
    }
  }

  // ---------------------------------------------------------------------------
  // Sending
  // ---------------------------------------------------------------------------

  /**
   * sendZabbixMetrics: when enabled, one send attempt; a failed attempt
   * adds exactly one to the failure counter. Nothing else changes.
   */
  function SendZabbixMetrics(agg: Aggregator, delivered: bool): (r: Aggregator)
    ensures r.stats == agg.stats && r.disabled == agg.disabled
    ensures r.failedSends == agg.failedSends + (if !agg.disabled && !delivered then 1 else 0)
  {
    if agg.disabled then agg
    else if delivered then agg
    else agg.(failedSends := agg.failedSends + 1)
  }

  /** The discovery payload: every known (vhost, accset) pair. */
  datatype Discovery = Discovery(agg: Aggregator, items: Option<set<(string, string)>>)

  /**
   * sendDiscovery: disabled, nothing happens; enabled, one packet listing
   * every (vhost, accset) pair is sent.
   */
  function SendDiscovery(agg: Aggregator, delivered: bool): (r: Discovery)
    ensures agg.disabled ==> r == Discovery(agg, None)
    ensures !agg.disabled ==> r.items == Some(Buckets(agg.stats))
    ensures r.agg == SendZabbixMetrics(agg, delivered)
  {
    if agg.disabled then Discovery(agg, None)
    else Discovery(SendZabbixMetrics(agg, delivered), Some(Buckets(agg.stats)))
  }

  /** The bucket after its delta has been read. */
  function Snapshot(b: AccountingSet): AccountingSet {
    b.(lastCount := b.count, lastSum := b.sum)
  }

  /** Every bucket with its delta snapshot taken: lastCount := Count, lastSum := Sum. */
  function SnapshotAll(s: Stats): (r: Stats)
    ensures r.Keys == s.Keys
    ensures forall d :: d in s ==> r[d].Keys == s[d].Keys
    ensures forall d, i :: d in s && i in s[d] ==>
      && r[d][i].lastCount == s[d][i].count && r[d][i].lastSum == s[d][i].sum
      && r[d][i] == s[d][i].(lastCount := r[d][i].lastCount, lastSum := r[d][i].lastSum)
  {
    map d | d in s :: map i | i in s[d] :: Snapshot(s[d][i])
  }

  /** The metrics of every bucket, grouped as the table is. */
  function AllMetrics(host: string, t: int, s: Stats): (m: map<string, map<string, set<Metric>>>)
    ensures m.Keys == s.Keys
    ensures forall d :: d in s ==> m[d].Keys == s[d].Keys
    ensures forall d, i :: d in s && i in s[d] ==> |m[d][i]| == 3 + |s[d][i].classes| + |s[d][i].codes|
  {
    map d | d in s :: map i | i in s[d] :: BucketMetrics(host, t, d, i, s[d][i])
  }

  /** The result of sendData: the new aggregator state and the metrics sent per bucket. */
  datatype DataExport = DataExport(agg: Aggregator, metrics: map<string, map<string, set<Metric>>>)

  /**
   * sendData: when enabled, every bucket's metrics are built from the
   * current counters, then every bucket's delta snapshot is taken and one
   * send attempt is made. When disabled nothing is touched.
   */
  function SendData(agg: Aggregator, host: string, t: int, delivered: bool): (r: DataExport)
    ensures agg.disabled ==> r == DataExport(agg, map[])
    ensures !agg.disabled ==> r.agg.failedSends == agg.failedSends + (if delivered then 0 else 1)
    ensures !agg.disabled ==> r.agg.disabled == agg.disabled
    ensures !agg.disabled ==> r.agg.stats == SnapshotAll(agg.stats)
    ensures !agg.disabled ==> r.metrics == AllMetrics(host, t, agg.stats)
  {
    if agg.disabled then DataExport(agg, map[])
    else DataExport(SendZabbixMetrics(agg.(stats := SnapshotAll(agg.stats)), delivered), AllMetrics(host, t, agg.stats))
  }

  /** SubmitData: discovery, then data. */
  function SubmitData(agg: Aggregator, host: string, t: int, discoveryDelivered: bool, dataDelivered: bool): DataExport {
    SendData(SendDiscovery(agg, discoveryDelivered).agg, host, t, dataDelivered)
  }

  /**
   * Disabled, SubmitData changes nothing at all; enabled, it makes exactly
   * two send attempts and each failed one adds 1 to the failure counter.
   */
  lemma SubmitDataAttempts(agg: Aggregator, host: string, t: int, discoveryDelivered: bool, dataDelivered: bool)
    ensures agg.disabled ==> SubmitData(agg, host, t, discoveryDelivered, dataDelivered) == DataExport(agg, map[])
    ensures !agg.disabled ==>
      SubmitData(agg, host, t, discoveryDelivered, dataDelivered).agg.failedSends
        == agg.failedSends + (if discoveryDelivered then 0 else 1) + (if dataDelivered then 0 else 1)
    ensures !agg.disabled ==> SubmitData(agg, host, t, discoveryDelivered, dataDelivered).agg.stats == SnapshotAll(agg.stats)
  {
  }

  /**
   * The delta read is destructive: right after a data export every bucket
   * reports a req_s of "0" until new requests arrive.
   */
  lemma SecondExportRateZero(agg: Aggregator, host: string, t: int, delivered: bool, d: string, i: string)
    requires !agg.disabled
    requires d in agg.stats && i in agg.stats[d]
    ensures var again := SendData(agg, host, t, delivered).agg;
            d in again.stats && i in again.stats[d] && RateValue(again.stats[d][i]) == "0"
  {
  }

  /** The rate is the truncated mean of the response times added since the last export. */
  lemma RateAfterRequests(b: AccountingSet, classes: seq<int>, rt: int, code: int)
    requires b.lastCount == b.count && b.lastSum == b.sum
    ensures RateValue(Record(classes, b, rt, code)) == Strconv.Itoa(rt) + ".000000"
  {
    var r := Record(classes, b, rt, code);
    assert r.count - r.lastCount == 1 && r.sum - r.lastSum == rt;
    QuoByOne(rt);
    assert RateValue(r) == Strconv.Itoa(Quo(rt, 1)) + ".000000";
  }

  lemma QuoByOne(a: int)
    ensures Quo(a, 1) == a
  {
  }

  /** sendData keeps the bucket invariant: the snapshot never runs ahead of the count. */
  lemma SendDataWellFormed(agg: Aggregator, classes: seq<int>, host: string, t: int, delivered: bool)
    requires StatsWellFormed(classes, agg.stats)
    ensures StatsWellFormed(classes, SendData(agg, host, t, delivered).agg.stats)
  {
    var r := SendData(agg, host, t, delivered).agg.stats;
    forall d, i | d in r && i in r[d]
      ensures WellFormed(classes, r[d][i])
    {
      assert WellFormed(classes, agg.stats[d][i]);
    }
  }
}
