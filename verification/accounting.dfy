/**
 * The request accounting aggregator of processing/accounting.go: a two-level
 * table domain -> ident -> accounting set, filled one request at a time.
 *
 * The compiled regular expressions of the configuration (the static-content
 * regex and the named request mappings) are abstract predicates on the URI.
 */
module Accounting {
  import opened Wrappers
  import Strconv
  import Sets

  /** One dataset as sent over the PerfSet channel. */
  datatype PerfSet = PerfSet(domain: string, ident: string, time: string, code: int)

  /** The counters kept for one (domain, ident) pair. */
  datatype AccountingSet = AccountingSet(
    count: int,
    lastCount: int,
    sum: int,
    lastSum: int,
    codes: map<int, int>,
    classes: map<int, int>)

  /** The statistics table: domain -> ident -> accounting set. */
  type Stats = map<string, map<string, AccountingSet>>

  /** A compiled regular expression, reduced to "does it match this string". */
  type Matcher = string -> bool

  /** The read-only part of a RequestAccounting instance. */
  datatype Setup = Setup(
    classes: seq<int>,
    requestMappings: map<string, Matcher>,
    staticContent: Matcher)

  /** The ident under which static content is accounted. */
  const NotMatchedIdent: string := "NOT MATCHED"

  // ---------------------------------------------------------------------------
  // Performance classes
  // ---------------------------------------------------------------------------

  /** No configured threshold is at or below the response time. */
  predicate NoClassMatches(classes: seq<int>, rt: int) {
    forall k :: 0 <= k < |classes| ==> rt < classes[k]
  }

  /** `classes[j]` is the first threshold, in list order, that `rt` reaches. */
  ghost predicate IsFirstMatch(classes: seq<int>, rt: int, j: int) {
    0 <= j < |classes| && rt >= classes[j] && forall k :: 0 <= k < j ==> rt < classes[k]
  }

  /** getPerfclass: a first-match scan over the configured thresholds, in list order. */
  function PerfClass(classes: seq<int>, rt: int): (c: int)
    ensures NoClassMatches(classes, rt) ==> c == 0
    ensures !NoClassMatches(classes, rt) ==> exists j :: IsFirstMatch(classes, rt, j) && c == classes[j]
  {
    if |classes| == 0 then 0
    else if rt >= classes[0] then (assert IsFirstMatch(classes, rt, 0); classes[0])
    else
      var c := PerfClass(classes[1..], rt);
      assert !NoClassMatches(classes, rt) ==> !NoClassMatches(classes[1..], rt) by {
        if !NoClassMatches(classes, rt) {
          var k :| 0 <= k < |classes| && rt >= classes[k];
          assert classes[1..][k - 1] == classes[k];
        }
      }
      assert !NoClassMatches(classes, rt) ==> exists j :: IsFirstMatch(classes, rt, j) && c == classes[j] by {
        if !NoClassMatches(classes, rt) {
          var j :| IsFirstMatch(classes[1..], rt, j) && c == classes[1..][j];
          assert IsFirstMatch(classes, rt, j + 1);
        }
      }
      c
  }

  /**
   * When the thresholds happen to be listed in strictly decreasing order, the
   * first match is the largest threshold the response time reaches.
   */
  lemma {:induction false} PerfClassDescending(classes: seq<int>, rt: int)
    requires forall i, j :: 0 <= i < j < |classes| ==> classes[i] > classes[j]
    requires !NoClassMatches(classes, rt)
    ensures rt >= PerfClass(classes, rt)
    ensures forall k :: 0 <= k < |classes| && rt >= classes[k] ==> classes[k] <= PerfClass(classes, rt)
  {
    var c := PerfClass(classes, rt);
    var j :| IsFirstMatch(classes, rt, j) && c == classes[j];
    assert forall k :: 0 <= k < |classes| && rt >= classes[k] ==> j <= k;
  }

  /**
   * List order, not numeric order, decides: with these thresholds a time of
   * 6000000 is classified as 500000 although 5000000 is reached as well.
   */
  lemma PerfClassListOrder()
    ensures PerfClass([500000, 10000000, 5000000], 6000000) == 500000
    ensures PerfClass([500000, 10000000, 5000000], 400000) == 0
    ensures PerfClass([], 7) == 0
  {
  }

  /** A list that starts with threshold 0 puts every non-negative time into class 0. */
  lemma PerfClassLeadingZero(classes: seq<int>, rt: int)
    requires |classes| > 0 && classes[0] == 0
    requires rt >= 0
    ensures PerfClass(classes, rt) == 0
  {
  }

  // ---------------------------------------------------------------------------
  // Sums over histogram maps and the bucket invariant
  // ---------------------------------------------------------------------------

  /** The sum of all values of a histogram map. */
  ghost function Total(m: map<int, int>): int
    decreases |m|
  {
    if exists k :: k in m then
      var k :| k in m;
      m[k] + Total(m - {k})
    else 0
  }

  /** Total may be unfolded at any key, not only at the one its definition picks. */
  lemma {:induction false} TotalPick(m: map<int, int>, k: int)
    requires k in m
    ensures Total(m) == m[k] + Total(m - {k})
    decreases |m|
  {
    var j :| j in m && Total(m) == m[j] + Total(m - {j});
    if j != k {
      TotalPick(m - {j}, k);
      TotalPick(m - {k}, j);
      assert m - {j} - {k} == m - {k} - {j};
    }
  }

  lemma {:induction false} TotalZeros(m: map<int, int>)
    requires forall k :: k in m ==> m[k] == 0
    ensures Total(m) == 0
    decreases |m|
  {
    if k :| k in m {
      TotalPick(m, k);
      TotalZeros(m - {k});
    }
  }

  /** `m[k]++` on a Go map, where a missing key reads as 0. */
  function Bump(m: map<int, int>, k: int): (r: map<int, int>)
    ensures r.Keys == m.Keys + {k}
    ensures r[k] == (if k in m then m[k] else 0) + 1
    ensures forall j :: j in m && j != k ==> r[j] == m[j]
  {
    m[k := (if k in m then m[k] else 0) + 1]
  }

  lemma TotalBump(m: map<int, int>, k: int)
    ensures Total(Bump(m, k)) == Total(m) + 1
  {
    var b := Bump(m, k);
    TotalPick(b, k);
    assert b - {k} == m - {k};
    if k in m {
      TotalPick(m, k);
    } else {
      assert m - {k} == m;
    }
  }

  /**
   * The bucket invariant: Count equals the sum of the status-code histogram
   * and the sum of the performance-class histogram, the delta snapshot never
   * runs ahead of the count, and every configured threshold has a column.
   */
  ghost predicate WellFormed(classes: seq<int>, b: AccountingSet) {
    && b.count == Total(b.codes)
    && b.count == Total(b.classes)
    && 0 <= b.lastCount <= b.count
    && forall t :: t in classes ==> t in b.classes
  }

  ghost predicate StatsWellFormed(classes: seq<int>, s: Stats) {
    forall d, i :: d in s && i in s[d] ==> WellFormed(classes, s[d][i])
  }

  // ---------------------------------------------------------------------------
  // addAccounting
  // ---------------------------------------------------------------------------

  /** The bucket of (d, i), if the table has one. */
  function Lookup(s: Stats, d: string, i: string): Option<AccountingSet> {
    if d in s && i in s[d] then Some(s[d][i]) else None
  }

  /** Two tables are equal when they have the same domains and the same buckets. */
  lemma StatsExt(a: Stats, b: Stats)
    requires a.Keys == b.Keys
    requires forall d, i :: Lookup(a, d, i) == Lookup(b, d, i)
    ensures a == b
  {
    forall d | d in a
      ensures a[d] == b[d]
    {
      assert forall i :: i in a[d] <==> i in b[d] by {
        forall i
          ensures i in a[d] <==> i in b[d]
        {
          assert Lookup(a, d, i) == Lookup(b, d, i);
        }
      }
      forall i | i in a[d]
        ensures a[d][i] == b[d][i]
      {
        assert Lookup(a, d, i) == Lookup(b, d, i);
      }
    }
  }

  /** A fresh bucket: zero counters, Classes seeded with every configured threshold at 0. */
  function NewBucket(classes: seq<int>): (b: AccountingSet)
    ensures b.count == 0 && b.lastCount == 0 && b.sum == 0 && b.lastSum == 0
    ensures b.codes == map[]
    ensures forall t :: t in b.classes <==> t in classes
    ensures forall t :: t in b.classes ==> b.classes[t] == 0
  {
    AccountingSet(0, 0, 0, 0, map[], map t | t in classes :: 0)
  }

  /** The existing bucket of (d, i), or the bucket addAccounting would create. */
  function BucketOrNew(classes: seq<int>, s: Stats, d: string, i: string): AccountingSet {
    match Lookup(s, d, i)
    case Some(b) => b
    case None => NewBucket(classes)
  }

  /** What one addAccounting call does to the counters of one bucket. */
  function Record(classes: seq<int>, b: AccountingSet, rt: int, code: int): (r: AccountingSet)
    ensures r.count == b.count + 1 && r.sum == b.sum + rt
    ensures r.lastCount == b.lastCount && r.lastSum == b.lastSum
    ensures r.codes == Bump(b.codes, code)
    ensures r.classes == Bump(b.classes, PerfClass(classes, rt))
  {
    b.(count := b.count + 1, sum := b.sum + rt,
       codes := Bump(b.codes, code),
       classes := Bump(b.classes, PerfClass(classes, rt)))
  }

  /**
   * addAccounting: create the bucket lazily, then count one request of
   * response time `rt` and status `code`. Every other bucket is unchanged.
   */
  function AddAccounting(classes: seq<int>, s: Stats, d: string, i: string, rt: int, code: int): (r: Stats)
    ensures r.Keys == s.Keys + {d}
    ensures forall d', i' :: Lookup(r, d', i') == (
              if d' == d && i' == i then Some(Record(classes, BucketOrNew(classes, s, d, i), rt, code))
              else Lookup(s, d', i'))
  {
    var inner := if d in s then s[d] else map[];
    s[d := inner[i := Record(classes, BucketOrNew(classes, s, d, i), rt, code)]]
  }

  lemma NewBucketWellFormed(classes: seq<int>)
    ensures WellFormed(classes, NewBucket(classes))
  {
    TotalZeros(NewBucket(classes).codes);
    TotalZeros(NewBucket(classes).classes);
  }

  lemma RecordWellFormed(classes: seq<int>, b: AccountingSet, rt: int, code: int)
    requires WellFormed(classes, b)
    ensures WellFormed(classes, Record(classes, b, rt, code))
  {
    TotalBump(b.codes, code);
    TotalBump(b.classes, PerfClass(classes, rt));
  }

  /** addAccounting keeps Count == sum(Codes) == sum(Classes) in every bucket. */
  lemma AddAccountingWellFormed(classes: seq<int>, s: Stats, d: string, i: string, rt: int, code: int)
    requires StatsWellFormed(classes, s)
    ensures StatsWellFormed(classes, AddAccounting(classes, s, d, i, rt, code))
  {
    var r := AddAccounting(classes, s, d, i, rt, code);
    var b := BucketOrNew(classes, s, d, i);
    if Lookup(s, d, i).None? {
      NewBucketWellFormed(classes);
    }
    RecordWellFormed(classes, b, rt, code);
    forall d', i' | d' in r && i' in r[d']
      ensures WellFormed(classes, r[d'][i'])
    {
      assert Lookup(r, d', i') == Some(r[d'][i']);
    }
  }

  // ---------------------------------------------------------------------------
  // Reference: buckets count exactly the requests routed to them
  // ---------------------------------------------------------------------------

  /** One addAccounting call, as an argument tuple. */
  datatype Sample = Sample(domain: string, ident: string, rt: int, code: int)

  /** addAccounting applied to each sample in turn. */
  function AccountAll(classes: seq<int>, s: Stats, samples: seq<Sample>): Stats
    decreases |samples|
  {
    if |samples| == 0 then s
    else
      var last := samples[|samples| - 1];
      AddAccounting(classes, AccountAll(classes, s, samples[..|samples| - 1]),
                    last.domain, last.ident, last.rt, last.code)
  }

  /** How many samples name the pair (d, i). */
  function Routed(samples: seq<Sample>, d: string, i: string): nat
    decreases |samples|
  {
    if |samples| == 0 then 0
    else
      var last := samples[|samples| - 1];
      Routed(samples[..|samples| - 1], d, i) + (if last.domain == d && last.ident == i then 1 else 0)
  }

  /** The response times of the samples that name (d, i), added up. */
  function RoutedSum(samples: seq<Sample>, d: string, i: string): int
    decreases |samples|
  {
    if |samples| == 0 then 0
    else
      var last := samples[|samples| - 1];
      RoutedSum(samples[..|samples| - 1], d, i) + (if last.domain == d && last.ident == i then last.rt else 0)
  }

  /**
   * Starting from an empty table, a bucket exists exactly for the pairs some
   * sample was routed to, and its Count and Sum are the number of those
   * samples and the sum of their response times.
   */
  lemma {:induction false} AccountAllCounts(classes: seq<int>, samples: seq<Sample>, d: string, i: string)
    ensures Lookup(AccountAll(classes, map[], samples), d, i).Some? <==> Routed(samples, d, i) > 0
    ensures Routed(samples, d, i) > 0 ==>
      && Lookup(AccountAll(classes, map[], samples), d, i).value.count == Routed(samples, d, i)
      && Lookup(AccountAll(classes, map[], samples), d, i).value.sum == RoutedSum(samples, d, i)
    ensures Routed(samples, d, i) == 0 ==> RoutedSum(samples, d, i) == 0
    decreases |samples|
  {
    if |samples| > 0 {
      var prefix := samples[..|samples| - 1];
      var last := samples[|samples| - 1];
      AccountAllCounts(classes, prefix, d, i);
      var prev := AccountAll(classes, map[], prefix);
      var r := AccountAll(classes, map[], samples);
      assert r == AddAccounting(classes, prev, last.domain, last.ident, last.rt, last.code);
      if last.domain == d && last.ident == i {
        assert Lookup(r, d, i) == Some(Record(classes, BucketOrNew(classes, prev, d, i), last.rt, last.code));
      } else {
        assert Lookup(r, d, i) == Lookup(prev, d, i);
      }
    }
  }

  // ---------------------------------------------------------------------------
  // AccountRequest
  // ---------------------------------------------------------------------------

  /** The names of the request mappings whose regex matches the URI. */
  function MatchingMappings(setup: Setup, uri: string): (names: set<string>)
    ensures forall n :: n in names <==> n in setup.requestMappings && setup.requestMappings[n](uri)
  {
    set n | n in setup.requestMappings && setup.requestMappings[n](uri)
  }

  /** The idents one accepted request is accounted under. */
  function Targets(setup: Setup, uri: string): set<string> {
    if setup.staticContent(uri) then {NotMatchedIdent} else MatchingMappings(setup, uri)
  }

  /**
   * One addAccounting call per name in `names`, in whichever order: the
   * buckets of (d, n) for n in `names` each count the request once.
   */
  function FanOut(classes: seq<int>, s: Stats, d: string, names: set<string>, rt: int, code: int): (r: Stats)
    ensures r.Keys == if names == {} then s.Keys else s.Keys + {d}
    ensures forall d', i' :: Lookup(r, d', i') == (
              if d' == d && i' in names then Some(Record(classes, BucketOrNew(classes, s, d, i'), rt, code))
              else Lookup(s, d', i'))
  {
    if names == {} then s
    else
      var inner := if d in s then s[d] else map[];
      s[d := map i | i in inner.Keys + names ::
              if i in names then Record(classes, BucketOrNew(classes, s, d, i), rt, code) else inner[i]]
  }

  /** A single addAccounting is the fan-out over one name. */
  lemma AddAccountingIsFanOut(classes: seq<int>, s: Stats, d: string, i: string, rt: int, code: int)
    ensures AddAccounting(classes, s, d, i, rt, code) == FanOut(classes, s, d, {i}, rt, code)
  {
    StatsExt(AddAccounting(classes, s, d, i, rt, code), FanOut(classes, s, d, {i}, rt, code));
  }

  /** Adding one more name to a fan-out is one more addAccounting call. */
  lemma FanOutStep(classes: seq<int>, s: Stats, d: string, names: set<string>, n: string, rt: int, code: int)
    requires n !in names
    ensures FanOut(classes, s, d, names + {n}, rt, code)
         == AddAccounting(classes, FanOut(classes, s, d, names, rt, code), d, n, rt, code)
  {
    var before := FanOut(classes, s, d, names, rt, code);
    assert Lookup(before, d, n) == Lookup(s, d, n);
    StatsExt(FanOut(classes, s, d, names + {n}, rt, code), AddAccounting(classes, before, d, n, rt, code));
  }

  /** The result of AccountRequest: whether the dataset was counted, and the new table. */
  datatype Accounted = Accounted(ok: bool, stats: Stats)

  /**
   * AccountRequest: a time that is not an Atoi integer is rejected and leaves
   * the table alone; otherwise the request is counted once under "NOT
   * MATCHED" if the URI is static content, else once under every request
   * mapping whose regex matches, and nothing else changes.
   */
  function AccountRequest(setup: Setup, s: Stats, domain: string, uri: string, time: string, code: int): (r: Accounted)
    ensures r.ok <==> Strconv.Atoi(time).Some?
    ensures !r.ok ==> r.stats == s
    ensures r.ok ==> r.stats.Keys == s.Keys + (if Targets(setup, uri) == {} then {} else {domain})
    ensures r.ok ==> (
              forall d', i' :: Lookup(r.stats, d', i') == (
                if d' == domain && i' in Targets(setup, uri)
                then Some(Record(setup.classes, BucketOrNew(setup.classes, s, domain, i'), Strconv.Atoi(time).value, code))
                else Lookup(s, d', i')))
  {
    match Strconv.Atoi(time)
    case None => Accounted(false, s)
    case Some(rt) =>
      if setup.staticContent(uri) then
        Accounted(true, AddAccounting(setup.classes, s, domain, NotMatchedIdent, rt, code))
      else
        Accounted(true, FanOut(setup.classes, s, domain, MatchingMappings(setup, uri), rt, code))
  }

  /** A static URI gets exactly one addAccounting, under "NOT MATCHED"; the mappings are not consulted. */
  lemma AccountRequestStatic(setup: Setup, s: Stats, domain: string, uri: string, time: string, code: int,
                             otherMappings: map<string, Matcher>)
    requires setup.staticContent(uri) && Strconv.Atoi(time).Some?
    ensures AccountRequest(setup, s, domain, uri, time, code).stats
         == AddAccounting(setup.classes, s, domain, NotMatchedIdent, Strconv.Atoi(time).value, code)
    ensures AccountRequest(setup, s, domain, uri, time, code)
         == AccountRequest(setup.(requestMappings := otherMappings), s, domain, uri, time, code)
  {
  }

  /** A non-static URI that no mapping matches is still reported as accounted, with the table unchanged. */
  lemma AccountRequestNoMapping(setup: Setup, s: Stats, domain: string, uri: string, time: string, code: int)
    requires !setup.staticContent(uri) && Strconv.Atoi(time).Some?
    requires forall n :: n in setup.requestMappings ==> !setup.requestMappings[n](uri)
    ensures AccountRequest(setup, s, domain, uri, time, code) == Accounted(true, s)
  {
    assert MatchingMappings(setup, uri) == {};
  }

  /** AccountRequest keeps the bucket invariant. */
  lemma AccountRequestWellFormed(setup: Setup, s: Stats, domain: string, uri: string, time: string, code: int)
    requires StatsWellFormed(setup.classes, s)
    ensures StatsWellFormed(setup.classes, AccountRequest(setup, s, domain, uri, time, code).stats)
  {
    var r := AccountRequest(setup, s, domain, uri, time, code);
    if r.ok {
      NewBucketWellFormed(setup.classes);
      forall d, i | d in r.stats && i in r.stats[d]
        ensures WellFormed(setup.classes, r.stats[d][i])
      {
        assert Lookup(r.stats, d, i) == Some(r.stats[d][i]);
        if d == domain && i in Targets(setup, uri) {
          RecordWellFormed(setup.classes, BucketOrNew(setup.classes, s, domain, i), Strconv.Atoi(time).value, code);
        } else {
          assert Lookup(s, d, i) == Some(r.stats[d][i]);
        }
      }
    }
  }

  /** `order` lists every key of the mapping table exactly once, as a Go map range does. */
  ghost predicate IsEnumeration(order: seq<string>, keys: set<string>) {
    && (forall n :: n in order <==> n in keys)
    && (forall a, b :: 0 <= a < b < |order| ==> order[a] != order[b])
  }

  /**
   * AccountRequest as the Go loop runs it: range over the request mappings
   * in the map's iteration order and call addAccounting for each match.
   * Whatever the order, the outcome is the same.
   */
  method AccountRequestInOrder(setup: Setup, s: Stats, domain: string, uri: string, time: string, code: int,
                               order: seq<string>)
    returns (ok: bool, r: Stats)
    requires IsEnumeration(order, setup.requestMappings.Keys)
    ensures Accounted(ok, r) == AccountRequest(setup, s, domain, uri, time, code)
  {
    var parsed := Strconv.Atoi(time);
    if parsed.None? {
      return false, s;
    }
    var rt := parsed.value;
    if setup.staticContent(uri) {
      return true, AddAccounting(setup.classes, s, domain, NotMatchedIdent, rt, code);
    }
    r := s;
    var k := 0;
    ghost var matching := MatchingMappings(setup, uri);
    ghost var done: set<string> := {};
    while k < |order|
      invariant 0 <= k <= |order|
      invariant done <= matching
      invariant forall n :: n in done ==> n in order[..k]
      invariant forall a :: 0 <= a < k && order[a] in matching ==> order[a] in done
      invariant r == FanOut(setup.classes, s, domain, done, rt, code)
    {
      var name := order[k];
      if setup.requestMappings[name](uri) {
        assert name !in done;
        FanOutStep(setup.classes, s, domain, done, name, rt, code);
        r := AddAccounting(setup.classes, r, domain, name, rt, code);
        done := done + {name};
      }
      k := k + 1;
    }
    assert done == matching;
    ok := true;
  }

  // ---------------------------------------------------------------------------
  // GetStatistics and collectCodes
  // ---------------------------------------------------------------------------

  /** Every (domain, ident) pair that has a bucket. */
  function Buckets(s: Stats): set<(string, string)> {
    set d, i | d in s && i in s[d] :: (d, i)
  }

  /** The buckets of the domains in `ds`. */
  ghost function BucketsOf(s: Stats, ds: set<string>): set<(string, string)> {
    set d, i | d in ds && d in s && i in s[d] :: (d, i)
  }

  lemma BucketsOfStep(s: Stats, ds: set<string>, d: string)
    requires d in s && d !in ds
    ensures |BucketsOf(s, ds + {d})| == |BucketsOf(s, ds)| + |s[d]|
  {
    var keys := s[d].Keys;
    var pair := (i: string) => (d, i);
    var one := Sets.Image(keys, pair);
    Sets.InjectiveImageCard(keys, pair);
    assert BucketsOf(s, ds + {d}) == BucketsOf(s, ds) + one;
    assert BucketsOf(s, ds) * one == {};
  }

  /** GetStatistics: the number of domains and the number of (domain, ident) buckets. */
  method GetStatistics(s: Stats) returns (vhosts: int, accountedClasses: int)
    ensures vhosts == |s|
    ensures accountedClasses == |Buckets(s)|
  {
    vhosts := 0;
    accountedClasses := 0;
    var todo := s.Keys;
    ghost var seen: set<string> := {};
    while exists d :: d in todo
      invariant todo + seen == s.Keys && todo !! seen
      invariant vhosts == |seen|
      invariant accountedClasses == |BucketsOf(s, seen)|
      decreases |todo|
    {
      var d :| d in todo;
      BucketsOfStep(s, seen, d);
      vhosts := vhosts + 1;
      accountedClasses := accountedClasses + |s[d]|;
      todo := todo - {d};
      seen := seen + {d};
    }
    assert seen == s.Keys;
    assert BucketsOf(s, seen) == Buckets(s);
  }

  /** Every status code that some bucket has seen. */
  function AllCodes(s: Stats): set<int> {
    set d, i, c | d in s && i in s[d] && c in s[d][i].codes :: c
  }

  /** collectCodes: each status code seen anywhere, once, in ascending order. */
  method CollectCodes(s: Stats) returns (codes: seq<int>)
    ensures forall a, b :: 0 <= a < b < |codes| ==> codes[a] < codes[b]
    ensures forall c :: c in codes <==> exists d, i :: d in s && i in s[d] && c in s[d][i].codes
  {
    codes := Sets.SortedElements(AllCodes(s));
  }
}
