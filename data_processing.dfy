/**
  RFM feature derivation (src/data_processing.py, create_rfm_features).

  The transaction table is an array of rows. The start-time column is first
  normalised in place to naive UTC instants; the table is then grouped by
  customer and each group is reduced to one feature record:
  Recency (whole days from the fixed reference instant back to the latest
  transaction), Frequency (number of transactions) and Monetary (sum of values).
*/
module DataProcessing {
  import opened Wrappers

  const SecondsPerDay: int := 86400

  /** 2018-11-16 00:00:00, in seconds since 1970-01-01 00:00:00 UTC: the fixed "current date". */
  const ReferenceInstant: int := 1542326400

  /** A parsed start time: wall-clock seconds since the epoch, and the UTC offset
      in seconds when the timestamp carries one (None for a naive timestamp). */
  datatype Timestamp = Timestamp(wallSeconds: int, utcOffset: Option<int>)

  datatype Transaction = Transaction(
    transactionId: int,
    customerId: int,
    startTime: Timestamp,
    value: int,
    fraudResult: int)

  /** One row of the aggregated table, columns in the order reset_index produces. */
  datatype CustomerFeatures = CustomerFeatures(
    customerId: int,
    recency: int,
    frequency: nat,
    monetary: int)

  // ---------------------------------------------------------------------------
  // Timestamp normalisation (line 12)
  // ---------------------------------------------------------------------------

  /** The UTC instant a timestamp denotes; a naive timestamp is read as UTC. */
  function UtcSeconds(t: Timestamp): int {
    match t.utcOffset
    case None => t.wallSeconds
    case Some(offset) => t.wallSeconds - offset
  }

  /** to_datetime(utc=True) followed by tz_localize(None): the same instant, as a naive UTC timestamp. */
  function Normalize(t: Timestamp): (r: Timestamp)
    ensures r.utcOffset == None
    ensures UtcSeconds(r) == UtcSeconds(t)
  {
    Timestamp(UtcSeconds(t), None)
  }

  /** Two representations of one instant normalise to the same value, and only those do. */
  lemma NormalizeIdentifiesInstants(a: Timestamp, b: Timestamp)
    ensures Normalize(a) == Normalize(b) <==> UtcSeconds(a) == UtcSeconds(b)
    ensures Normalize(Normalize(a)) == Normalize(a)
  {
  }

  /** Overwrites the start-time column of the caller's table with normalised values. */
  method NormalizeStartTimes(df: array<Transaction>)
    modifies df
    ensures forall i :: 0 <= i < df.Length ==>
      df[i] == old(df[i]).(startTime := Normalize(old(df[i]).startTime))
  {
    for i := 0 to df.Length
      invariant forall k :: 0 <= k < i ==>
        df[k] == old(df[k]).(startTime := Normalize(old(df[k]).startTime))
      invariant forall k :: i <= k < df.Length ==> df[k] == old(df[k])
    {
      df[i] := df[i].(startTime := Normalize(df[i].startTime));
    }
  }

  // ---------------------------------------------------------------------------
  // Group keys: the distinct customer ids in ascending order (groupby sorts)
  // ---------------------------------------------------------------------------

  predicate StrictlyAscending(ks: seq<int>) {
    forall i, j :: 0 <= i < j < |ks| ==> ks[i] < ks[j]
  }

  function CustomerIds(ts: seq<Transaction>): set<int> {
    set t | t in ts :: t.customerId
  }

  /** Adds k to a strictly ascending key list, keeping it strictly ascending. */
  function Insert(ks: seq<int>, k: int): (r: seq<int>)
    requires StrictlyAscending(ks)
    ensures StrictlyAscending(r)
    ensures forall x :: x in r <==> x in ks || x == k
  {
    if ks == [] then [k]
    else if k < ks[0] then [k] + ks
    else if k == ks[0] then ks
    else
      var rest := Insert(ks[1..], k);
      assert forall x :: x in ks[1..] ==> ks[0] < x;
      assert forall j :: 0 <= j < |rest| ==> rest[j] in rest;
      assert forall j :: 0 <= j < |rest| ==> ks[0] < rest[j];
      [ks[0]] + rest
  }

  /** The group keys of groupby('CustomerId'): every customer id once, ascending. */
  function GroupKeys(ts: seq<Transaction>): (ks: seq<int>)
    ensures StrictlyAscending(ks)
    ensures forall k :: k in ks <==> k in CustomerIds(ts)
  {
    if ts == [] then []
    else
      assert CustomerIds(ts) == {ts[0].customerId} + CustomerIds(ts[1..]) by {
        assert ts == [ts[0]] + ts[1..];
      }
      Insert(GroupKeys(ts[1..]), ts[0].customerId)
  }

  // ---------------------------------------------------------------------------
  // Groups and their reductions (lines 15-19)
  // ---------------------------------------------------------------------------

  /** The rows of customer c, in table order. */
  function Group(ts: seq<Transaction>, c: int): seq<Transaction> {
    if ts == [] then []
    else if ts[0].customerId == c then [ts[0]] + Group(ts[1..], c)
    else Group(ts[1..], c)
  }

  /** A group holds exactly the customer's rows, each as often as in the table. */
  lemma {:induction false} GroupMultiset(ts: seq<Transaction>, c: int)
    ensures forall t :: multiset(Group(ts, c))[t] == if t.customerId == c then multiset(ts)[t] else 0
  {
    if ts != [] {
      GroupMultiset(ts[1..], c);
      assert ts == [ts[0]] + ts[1..];
    }
  }

  lemma GroupMembers(ts: seq<Transaction>, c: int, t: Transaction)
    ensures t in Group(ts, c) <==> t in ts && t.customerId == c
  {
    GroupMultiset(ts, c);
    assert t in Group(ts, c) <==> t in multiset(Group(ts, c));
  }

  lemma GroupNonEmpty(ts: seq<Transaction>, c: int)
    requires c in CustomerIds(ts)
    ensures Group(ts, c) != []
  {
    var t :| t in ts && t.customerId == c;
    GroupMembers(ts, c, t);
  }

  /** 'Value': 'sum'. */
  function SumValues(g: seq<Transaction>): int {
    if g == [] then 0 else g[0].value + SumValues(g[1..])
  }

  /** x.max() over the normalised start times of a non-empty group. */
  function Latest(g: seq<Transaction>): (l: int)
    requires g != []
    ensures exists i :: 0 <= i < |g| && UtcSeconds(g[i].startTime) == l
    ensures forall i :: 0 <= i < |g| ==> UtcSeconds(g[i].startTime) <= l
  {
    if |g| == 1 then UtcSeconds(g[0].startTime)
    else
      var rest := Latest(g[1..]);
      if UtcSeconds(g[0].startTime) > rest then UtcSeconds(g[0].startTime) else rest
  }

  /** The sum of the values of customer c's rows, read straight off the table. */
  function ValueTally(ts: seq<Transaction>, c: int): int {
    if ts == [] then 0
    else (if ts[0].customerId == c then ts[0].value else 0) + ValueTally(ts[1..], c)
  }

  lemma {:induction false} GroupSumIsTally(ts: seq<Transaction>, c: int)
    ensures SumValues(Group(ts, c)) == ValueTally(ts, c)
  {
    if ts != [] {
      GroupSumIsTally(ts[1..], c);
      if ts[0].customerId == c {
        assert ([ts[0]] + Group(ts[1..], c))[1..] == Group(ts[1..], c);
      }
    }
  }

  /** The record of customer c: (current_date - latest).days, the row count and the value sum.
      Frequency is the number of occurrences of c in the CustomerId column and Monetary the
      sum of the values of c's rows, whatever order the rows come in. */
  function Features(ts: seq<Transaction>, c: int): (f: CustomerFeatures)
    requires c in CustomerIds(ts)
    ensures f.customerId == c
    ensures f.frequency == multiset(CustomerIdColumn(ts))[c] && f.frequency >= 1
    ensures f.monetary == ValueTally(ts, c)
  {
    GroupNonEmpty(ts, c);
    GroupSizeIsOccurrences(ts, c);
    GroupSumIsTally(ts, c);
    var g := Group(ts, c);
    CustomerFeatures(c, (ReferenceInstant - Latest(g)) / SecondsPerDay, |g|, SumValues(g))
  }

  function Records(ts: seq<Transaction>, ks: seq<int>): (rfm: seq<CustomerFeatures>)
    requires forall k :: k in ks ==> k in CustomerIds(ts)
    ensures |rfm| == |ks|
    ensures forall i :: 0 <= i < |ks| ==> rfm[i].customerId == ks[i]
  {
    if ks == [] then [] else [Features(ts, ks[0])] + Records(ts, ks[1..])
  }

  lemma {:induction false} RecordsAt(ts: seq<Transaction>, ks: seq<int>, i: nat)
    requires forall k :: k in ks ==> k in CustomerIds(ts)
    requires i < |ks|
    ensures Records(ts, ks)[i] == Features(ts, ks[i])
  {
    if i > 0 {
      RecordsAt(ts, ks[1..], i - 1);
    }
  }

  /** groupby('CustomerId').agg(...).reset_index(): one record per customer, ascending ids. */
  function Aggregate(ts: seq<Transaction>): (rfm: seq<CustomerFeatures>)
    ensures forall i, j :: 0 <= i < j < |rfm| ==> rfm[i].customerId < rfm[j].customerId
    ensures forall c :: c in CustomerIds(ts) <==> exists i :: 0 <= i < |rfm| && rfm[i].customerId == c
  {
    Records(ts, GroupKeys(ts))
  }

  /** create_rfm_features: normalises the caller's start-time column, then aggregates. */
  method CreateRfmFeatures(df: array<Transaction>) returns (rfm: seq<CustomerFeatures>)
    modifies df
    ensures forall i :: 0 <= i < df.Length ==>
      df[i] == old(df[i]).(startTime := Normalize(old(df[i]).startTime))
    ensures rfm == Aggregate(old(df[..]))
  {
    NormalizeStartTimes(df);
    AggregateIgnoresRepresentation(old(df[..]), df[..]);
    rfm := Aggregate(df[..]);
  }

  // ---------------------------------------------------------------------------
  // Cardinality
  // ---------------------------------------------------------------------------

  function Elements(ks: seq<int>): (s: set<int>)
    ensures forall x :: x in s <==> x in ks
  {
    if ks == [] then {} else {ks[0]} + Elements(ks[1..])
  }

  lemma {:induction false} AscendingCardinality(ks: seq<int>)
    requires StrictlyAscending(ks)
    ensures |Elements(ks)| == |ks|
  {
    if ks != [] {
      AscendingCardinality(ks[1..]);
      assert ks[0] !in ks[1..];
    }
  }

  lemma GroupKeyCount(ts: seq<Transaction>)
    ensures |GroupKeys(ts)| == |CustomerIds(ts)|
  {
    var ks := GroupKeys(ts);
    AscendingCardinality(ks);
    assert Elements(ks) == CustomerIds(ts);
  }

  /** Exactly as many records as distinct customer ids. */
  lemma RecordCount(ts: seq<Transaction>)
    ensures |Aggregate(ts)| == |CustomerIds(ts)|
  {
    GroupKeyCount(ts);
  }

  // ---------------------------------------------------------------------------
  // Frequency
  // ---------------------------------------------------------------------------

  function CustomerIdColumn(ts: seq<Transaction>): (col: seq<int>)
    ensures |col| == |ts| && forall j :: 0 <= j < |ts| ==> col[j] == ts[j].customerId
  {
    seq(|ts|, j requires 0 <= j < |ts| => ts[j].customerId)
  }

  lemma {:induction false} GroupSizeIsOccurrences(ts: seq<Transaction>, c: int)
    ensures |Group(ts, c)| == multiset(CustomerIdColumn(ts))[c]
  {
    if ts != [] {
      GroupSizeIsOccurrences(ts[1..], c);
      assert CustomerIdColumn(ts) == [ts[0].customerId] + CustomerIdColumn(ts[1..]);
    }
  }

  /** Frequency counts the occurrences of the customer's id in the CustomerId column, so it is at least 1. */
  lemma FrequencyIsOccurrences(ts: seq<Transaction>, i: nat)
    requires i < |Aggregate(ts)|
    ensures Aggregate(ts)[i].frequency == multiset(CustomerIdColumn(ts))[Aggregate(ts)[i].customerId]
    ensures Aggregate(ts)[i].frequency >= 1
  {
    RecordsAt(ts, GroupKeys(ts), i);
  }

  /** Monetary is the sum of the values of the record's own customer: no value moves between customers. */
  lemma MonetaryIsSum(ts: seq<Transaction>, i: nat)
    requires i < |Aggregate(ts)|
    ensures Aggregate(ts)[i].monetary == ValueTally(ts, Aggregate(ts)[i].customerId)
  {
    RecordsAt(ts, GroupKeys(ts), i);
  }

  // ---------------------------------------------------------------------------
  // Partition: every transaction counted and summed exactly once
  // ---------------------------------------------------------------------------

  function TotalFrequency(rfm: seq<CustomerFeatures>): int {
    if rfm == [] then 0 else rfm[0].frequency + TotalFrequency(rfm[1..])
  }

  function TotalMonetary(rfm: seq<CustomerFeatures>): int {
    if rfm == [] then 0 else rfm[0].monetary + TotalMonetary(rfm[1..])
  }

  function GroupSizes(ts: seq<Transaction>, ks: seq<int>): int {
    if ks == [] then 0 else |Group(ts, ks[0])| + GroupSizes(ts, ks[1..])
  }

  function GroupSums(ts: seq<Transaction>, ks: seq<int>): int {
    if ks == [] then 0 else SumValues(Group(ts, ks[0])) + GroupSums(ts, ks[1..])
  }

  lemma {:induction false} RecordTotals(ts: seq<Transaction>, ks: seq<int>)
    requires forall k :: k in ks ==> k in CustomerIds(ts)
    ensures TotalFrequency(Records(ts, ks)) == GroupSizes(ts, ks)
    ensures TotalMonetary(Records(ts, ks)) == GroupSums(ts, ks)
  {
    if ks != [] {
      RecordTotals(ts, ks[1..]);
      assert Records(ts, ks)[1..] == Records(ts, ks[1..]);
    }
  }

  /** Adding one transaction in front adds it to exactly the group of its customer. */
  lemma {:induction false} GroupTotalsStep(t: Transaction, ts: seq<Transaction>, ks: seq<int>)
    requires StrictlyAscending(ks)
    ensures GroupSizes([t] + ts, ks) == GroupSizes(ts, ks) + (if t.customerId in ks then 1 else 0)
    ensures GroupSums([t] + ts, ks) == GroupSums(ts, ks) + (if t.customerId in ks then t.value else 0)
  {
    if ks != [] {
      GroupTotalsStep(t, ts, ks[1..]);
      assert ([t] + ts)[1..] == ts;
      assert t.customerId == ks[0] ==> t.customerId !in ks[1..];
      assert t.customerId in ks <==> t.customerId == ks[0] || t.customerId in ks[1..];
    }
  }

  lemma {:induction false} GroupTotalsCover(ts: seq<Transaction>, ks: seq<int>)
    requires StrictlyAscending(ks)
    requires forall k :: k in CustomerIds(ts) ==> k in ks
    ensures GroupSizes(ts, ks) == |ts|
    ensures GroupSums(ts, ks) == SumValues(ts)
  {
    if ts == [] {
      ZeroTotals([], ks);
    } else {
      assert ts == [ts[0]] + ts[1..];
      assert ts[0].customerId in CustomerIds(ts);
      assert CustomerIds(ts[1..]) <= CustomerIds(ts);
      GroupTotalsCover(ts[1..], ks);
      GroupTotalsStep(ts[0], ts[1..], ks);
    }
  }

  lemma {:induction false} ZeroTotals(ts: seq<Transaction>, ks: seq<int>)
    requires ts == []
    ensures GroupSizes(ts, ks) == 0 && GroupSums(ts, ks) == 0
  {
    if ks != [] {
      ZeroTotals(ts, ks[1..]);
    }
  }

  /** The frequencies add up to the number of transactions: none dropped, none counted twice. */
  lemma FrequencyPartition(ts: seq<Transaction>)
    ensures TotalFrequency(Aggregate(ts)) == |ts|
  {
    RecordTotals(ts, GroupKeys(ts));
    GroupTotalsCover(ts, GroupKeys(ts));
  }

  /** The monetary values add up to the sum of all values, negative sums included (no clamping). */
  lemma MonetaryPartition(ts: seq<Transaction>)
    ensures TotalMonetary(Aggregate(ts)) == SumValues(ts)
  {
    RecordTotals(ts, GroupKeys(ts));
    GroupTotalsCover(ts, GroupKeys(ts));
  }

  // ---------------------------------------------------------------------------
  // Recency
  // ---------------------------------------------------------------------------

  /** Recency is the floor of the days from the latest of the customer's transactions to the reference. */
  lemma RecencyOfLatest(ts: seq<Transaction>, i: nat)
    requires i < |Aggregate(ts)|
    ensures var f := Aggregate(ts)[i];
      exists j :: 0 <= j < |ts| && ts[j].customerId == f.customerId
        && (forall k :: 0 <= k < |ts| && ts[k].customerId == f.customerId ==>
              UtcSeconds(ts[k].startTime) <= UtcSeconds(ts[j].startTime))
        && f.recency * SecondsPerDay <= ReferenceInstant - UtcSeconds(ts[j].startTime)
        && ReferenceInstant - UtcSeconds(ts[j].startTime) < (f.recency + 1) * SecondsPerDay
  {
    RecordsAt(ts, GroupKeys(ts), i);
    var f := Aggregate(ts)[i];
    var c := f.customerId;
    var g := Group(ts, c);
    var l := Latest(g);
    var m :| 0 <= m < |g| && UtcSeconds(g[m].startTime) == l;
    GroupMembers(ts, c, g[m]);
    var j :| 0 <= j < |ts| && ts[j] == g[m];
    forall k | 0 <= k < |ts| && ts[k].customerId == c
      ensures UtcSeconds(ts[k].startTime) <= l
    {
      GroupMembers(ts, c, ts[k]);
      var n :| 0 <= n < |g| && g[n] == ts[k];
    }
  }

  /** Recency is non-negative exactly when none of the customer's transactions is after the
      reference; a future-dated transaction raises nothing and yields a negative Recency. */
  lemma RecencySign(ts: seq<Transaction>, i: nat)
    requires i < |Aggregate(ts)|
    ensures var f := Aggregate(ts)[i];
      f.recency >= 0 <==> forall k :: 0 <= k < |ts| && ts[k].customerId == f.customerId ==>
        UtcSeconds(ts[k].startTime) <= ReferenceInstant
  {
    RecencyOfLatest(ts, i);
  }

  // ---------------------------------------------------------------------------
  // Independence from row order and from the timestamp representation
  // ---------------------------------------------------------------------------

  lemma AscendingTail(a: seq<int>, x: int)
    requires StrictlyAscending(a) && a != []
    ensures x in a[1..] <==> x in a && x != a[0]
    ensures x in a ==> a[0] <= x
  {
    if x in a[1..] {
      var j :| 0 <= j < |a| - 1 && a[1..][j] == x;
      assert a[j + 1] == x;
    }
    if x in a {
      var j :| 0 <= j < |a| && a[j] == x;
      if j > 0 {
        assert a[1..][j - 1] == x;
      }
    }
  }

  /** A strictly ascending sequence is determined by its elements. */
  lemma {:induction false} AscendingDetermined(a: seq<int>, b: seq<int>)
    requires StrictlyAscending(a) && StrictlyAscending(b)
    requires forall x :: x in a <==> x in b
    ensures a == b
  {
    if a == [] || b == [] {
      AscendingCardinality(a);
      AscendingCardinality(b);
      assert Elements(a) == Elements(b);
    } else {
      assert a[0] in a && b[0] in b;
      AscendingTail(a, b[0]);
      AscendingTail(b, a[0]);
      forall x
        ensures x in a[1..] <==> x in b[1..]
      {
        AscendingTail(a, x);
        AscendingTail(b, x);
      }
      AscendingDetermined(a[1..], b[1..]);
      assert a == [a[0]] + a[1..] && b == [b[0]] + b[1..];
    }
  }

  lemma {:induction false} SumValuesRemove(g: seq<Transaction>, i: nat)
    requires i < |g|
    ensures SumValues(g) == g[i].value + SumValues(g[..i] + g[i+1..])
  {
    if i == 0 {
      assert g[..0] + g[1..] == g[1..];
    } else {
      SumValuesRemove(g[1..], i - 1);
      assert (g[..i] + g[i+1..])[1..] == g[1..][..i-1] + g[1..][i..];
    }
  }

  /** Taking the same element out of two permutations of each other leaves permutations. */
  lemma MultisetRemove(a: seq<Transaction>, b: seq<Transaction>, i: nat)
    requires a != [] && i < |b| && b[i] == a[0]
    requires multiset(a) == multiset(b)
    ensures multiset(a[1..]) == multiset(b[..i] + b[i+1..])
  {
    assert a == [a[0]] + a[1..];
    assert b == b[..i] + [b[i]] + b[i+1..];
    assert multiset(a) == multiset{a[0]} + multiset(a[1..]);
    assert multiset(b) == multiset(b[..i]) + multiset{b[i]} + multiset(b[i+1..]);
    assert multiset(b[..i] + b[i+1..]) == multiset(b[..i]) + multiset(b[i+1..]);
    assert multiset(a[1..]) == multiset(a) - multiset{a[0]};
    assert multiset(b[..i] + b[i+1..]) == multiset(b) - multiset{b[i]};
  }

  lemma {:induction false} SumValuesPermutation(a: seq<Transaction>, b: seq<Transaction>)
    requires multiset(a) == multiset(b)
    ensures SumValues(a) == SumValues(b)
  {
    if a == [] {
      assert |b| == |multiset(b)| == 0;
    } else {
      assert a[0] in multiset(b);
      var i :| 0 <= i < |b| && b[i] == a[0];
      SumValuesRemove(b, i);
      MultisetRemove(a, b, i);
      SumValuesPermutation(a[1..], b[..i] + b[i+1..]);
    }
  }

  lemma LatestPermutation(a: seq<Transaction>, b: seq<Transaction>)
    requires a != [] && b != []
    requires multiset(a) == multiset(b)
    ensures Latest(a) == Latest(b)
  {
    var i :| 0 <= i < |a| && UtcSeconds(a[i].startTime) == Latest(a);
    assert a[i] in multiset(b);
    var j :| 0 <= j < |b| && UtcSeconds(b[j].startTime) == Latest(b);
    assert b[j] in multiset(a);
  }

  lemma FeaturesPermutation(a: seq<Transaction>, b: seq<Transaction>, c: int)
    requires multiset(a) == multiset(b)
    requires c in CustomerIds(a) && c in CustomerIds(b)
    ensures Features(a, c) == Features(b, c)
  {
    var ga, gb := Group(a, c), Group(b, c);
    GroupMultiset(a, c);
    GroupMultiset(b, c);
    GroupNonEmpty(a, c);
    GroupNonEmpty(b, c);
    assert multiset(ga) == multiset(gb);
    assert |ga| == |multiset(ga)| == |multiset(gb)| == |gb|;
    SumValuesPermutation(ga, gb);
    LatestPermutation(ga, gb);
  }

  lemma SameCustomers(a: seq<Transaction>, b: seq<Transaction>)
    requires multiset(a) == multiset(b)
    ensures CustomerIds(a) == CustomerIds(b)
  {
    forall c ensures c in CustomerIds(a) ==> c in CustomerIds(b) {
      if c in CustomerIds(a) {
        var t :| t in a && t.customerId == c;
        assert t in multiset(b);
      }
    }
    forall c ensures c in CustomerIds(b) ==> c in CustomerIds(a) {
      if c in CustomerIds(b) {
        var t :| t in b && t.customerId == c;
        assert t in multiset(a);
      }
    }
  }

  /** The output does not depend on the order of the input rows. */
  lemma AggregatePermutation(a: seq<Transaction>, b: seq<Transaction>)
    requires multiset(a) == multiset(b)
    ensures Aggregate(a) == Aggregate(b)
  {
    SameCustomers(a, b);
    AscendingDetermined(GroupKeys(a), GroupKeys(b));
    var ks := GroupKeys(a);
    forall i | 0 <= i < |ks|
      ensures Aggregate(a)[i] == Aggregate(b)[i]
    {
      RecordsAt(a, ks, i);
      RecordsAt(b, ks, i);
      FeaturesPermutation(a, b, ks[i]);
    }
  }

  /** Rows that differ at most in how their start time represents the same instant. */
  ghost predicate SameInstant(t: Transaction, n: Transaction) {
    && n.transactionId == t.transactionId
    && n.customerId == t.customerId
    && n.value == t.value
    && n.fraudResult == t.fraudResult
    && UtcSeconds(n.startTime) == UtcSeconds(t.startTime)
  }

  ghost predicate SameInstantRows(ts: seq<Transaction>, ns: seq<Transaction>) {
    |ns| == |ts| && forall i :: 0 <= i < |ts| ==> SameInstant(ts[i], ns[i])
  }

  lemma SameInstantCons(t: Transaction, n: Transaction, ts: seq<Transaction>, ns: seq<Transaction>)
    requires SameInstant(t, n) && SameInstantRows(ts, ns)
    ensures SameInstantRows([t] + ts, [n] + ns)
  {
    forall i | 0 <= i < |ts| + 1
      ensures SameInstant(([t] + ts)[i], ([n] + ns)[i])
    {
      if i > 0 {
        assert ([t] + ts)[i] == ts[i - 1] && ([n] + ns)[i] == ns[i - 1];
      }
    }
  }

  lemma {:induction false} GroupSameInstant(ts: seq<Transaction>, ns: seq<Transaction>, c: int)
    requires SameInstantRows(ts, ns)
    ensures SameInstantRows(Group(ts, c), Group(ns, c))
  {
    if ts != [] {
      assert SameInstant(ts[0], ns[0]);
      assert SameInstantRows(ts[1..], ns[1..]) by {
        forall i | 0 <= i < |ts| - 1
          ensures SameInstant(ts[1..][i], ns[1..][i])
        {
          assert SameInstant(ts[i + 1], ns[i + 1]);
        }
      }
      GroupSameInstant(ts[1..], ns[1..], c);
      if ts[0].customerId == c {
        SameInstantCons(ts[0], ns[0], Group(ts[1..], c), Group(ns[1..], c));
      }
    }
  }

  lemma {:induction false} SumValuesSameInstant(ts: seq<Transaction>, ns: seq<Transaction>)
    requires SameInstantRows(ts, ns)
    ensures SumValues(ts) == SumValues(ns)
  {
    if ts != [] {
      assert SameInstant(ts[0], ns[0]);
      assert SameInstantRows(ts[1..], ns[1..]) by {
        forall i | 0 <= i < |ts| - 1
          ensures SameInstant(ts[1..][i], ns[1..][i])
        {
          assert SameInstant(ts[i + 1], ns[i + 1]);
        }
      }
      SumValuesSameInstant(ts[1..], ns[1..]);
    }
  }

  lemma {:induction false} LatestSameInstant(ts: seq<Transaction>, ns: seq<Transaction>)
    requires ts != [] && SameInstantRows(ts, ns)
    ensures Latest(ts) == Latest(ns)
  {
    assert SameInstant(ts[0], ns[0]);
    if |ts| > 1 {
      assert SameInstantRows(ts[1..], ns[1..]) by {
        forall i | 0 <= i < |ts| - 1
          ensures SameInstant(ts[1..][i], ns[1..][i])
        {
          assert SameInstant(ts[i + 1], ns[i + 1]);
        }
      }
      LatestSameInstant(ts[1..], ns[1..]);
    }
  }

  /** Normalising the start times (or any other change of representation of the same
      instants) leaves the aggregate unchanged. */
  lemma AggregateIgnoresRepresentation(ts: seq<Transaction>, ns: seq<Transaction>)
    requires SameInstantRows(ts, ns)
    ensures Aggregate(ns) == Aggregate(ts)
  {
    assert CustomerIds(ts) == CustomerIds(ns) by {
      forall c ensures c in CustomerIds(ts) <==> c in CustomerIds(ns) {
        if c in CustomerIds(ts) {
          var t :| t in ts && t.customerId == c;
          var i :| 0 <= i < |ts| && ts[i] == t;
          assert ns[i] in ns;
        }
        if c in CustomerIds(ns) {
          var t :| t in ns && t.customerId == c;
          var i :| 0 <= i < |ns| && ns[i] == t;
          assert ts[i] in ts;
        }
      }
    }
    AscendingDetermined(GroupKeys(ts), GroupKeys(ns));
    var ks := GroupKeys(ts);
    forall i | 0 <= i < |ks|
      ensures Aggregate(ts)[i] == Aggregate(ns)[i]
    {
      RecordsAt(ts, ks, i);
      RecordsAt(ns, ks, i);
      GroupSameInstant(ts, ns, ks[i]);
      SumValuesSameInstant(Group(ts, ks[i]), Group(ns, ks[i]));
      LatestSameInstant(Group(ts, ks[i]), Group(ns, ks[i]));
    }
  }

  // ---------------------------------------------------------------------------
  // Worked examples
  // ---------------------------------------------------------------------------

  /** Customer 1 with transactions on 2018-11-10 (value 100, written with a +03:00 offset)
      and on 2018-11-01 (value 50): Recency 6, Frequency 2, Monetary 150. */
  lemma HandExample()
    ensures Aggregate([
      Transaction(1, 1, Timestamp(1541808000 + 3 * 3600, Some(3 * 3600)), 100, 0),
      Transaction(2, 1, Timestamp(1541030400, None), 50, 0)
    ]) == [CustomerFeatures(1, 6, 2, 150)]
  {
    var t1 := Transaction(1, 1, Timestamp(1541808000 + 3 * 3600, Some(3 * 3600)), 100, 0);
    var t2 := Transaction(2, 1, Timestamp(1541030400, None), 50, 0);
    var ts := [t1, t2];
    assert ts[1..] == [t2] && [t2][1..] == [];
    assert GroupKeys(ts) == [1] by {
      assert GroupKeys([t2]) == Insert([], 1) == [1];
    }
    assert 1 in CustomerIds(ts) by {
      assert t1 in ts;
    }
    assert Features(ts, 1) == CustomerFeatures(1, 6, 2, 150) by {
      assert Group(ts, 1) == ts by {
        assert Group([t2], 1) == [t2];
      }
      assert Latest(ts) == 1541808000 by {
        assert Latest([t2]) == 1541030400;
        assert UtcSeconds(t1.startTime) == 1541808000;
      }
      assert SumValues(ts) == 150 by {
        assert SumValues([t2]) == 50;
      }
    }
    assert Records(ts, [1]) == [Features(ts, 1)];
  }

  /** A transaction dated 2018-12-01 raises no error: its customer gets Recency -15. */
  lemma FutureDatedExample()
    ensures Aggregate([Transaction(7, 2, Timestamp(1543622400, None), 10, 0)])
      == [CustomerFeatures(2, -15, 1, 10)]
  {
    var t := Transaction(7, 2, Timestamp(1543622400, None), 10, 0);
    var ts := [t];
    assert ts[1..] == [];
    assert GroupKeys(ts) == Insert([], 2) == [2];
    assert Group(ts, 2) == ts;
    assert 2 in CustomerIds(ts) by {
      assert t in ts;
    }
    assert Latest(ts) == 1543622400;
    assert SumValues(ts) == 10;
    assert (ReferenceInstant - 1543622400) / SecondsPerDay == -15;
    assert Features(ts, 2) == CustomerFeatures(2, -15, 1, 10);
    assert Records(ts, [2]) == [Features(ts, 2)];
  }
}
