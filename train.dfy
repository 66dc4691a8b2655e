/**
  The data preparation of train_model (src/train.py:16-21): one label per
  customer as the mode of its FraudResult values, the feature table reordered
  to the label order with .loc, and each row projected to the feature vector
  [Recency, Frequency, Monetary]. The serving endpoint (src/api/main.py:15)
  selects the same column list from a request payload.
*/
module Train {
  import opened Wrappers
  import opened DataProcessing

  // ---------------------------------------------------------------------------
  // Label resolution (line 17)
  // ---------------------------------------------------------------------------

  datatype CustomerLabel = CustomerLabel(customerId: int, fraudResult: int)

  /** What x.mode()[0] returns: a value of vs that no other value outnumbers,
      the smallest of them when several tie (mode() lists the modes sorted). */
  ghost predicate IsSmallestMode(vs: seq<int>, r: int) {
    && r in vs
    && (forall v :: multiset(vs)[v] <= multiset(vs)[r])
    && (forall v :: multiset(vs)[v] == multiset(vs)[r] ==> r <= v)
  }

  /** The candidate that occurs most often in vs, the smallest one on a tie. */
  function BestCandidate(cands: seq<int>, vs: seq<int>): (r: int)
    requires cands != []
    ensures r in cands
    ensures forall i :: 0 <= i < |cands| ==>
      multiset(vs)[cands[i]] < multiset(vs)[r]
      || (multiset(vs)[cands[i]] == multiset(vs)[r] && r <= cands[i])
  {
    if |cands| == 1 then cands[0]
    else
      var best := BestCandidate(cands[1..], vs);
      var c := cands[0];
      if multiset(vs)[c] > multiset(vs)[best] || (multiset(vs)[c] == multiset(vs)[best] && c < best)
      then c
      else best
  }

  /** x.mode()[0] on a group's FraudResult values. */
  function ModeLabel(frauds: seq<int>): (mode: int)
    requires frauds != []
    ensures IsSmallestMode(frauds, mode)
    ensures (forall i :: 0 <= i < |frauds| ==> frauds[i] == frauds[0]) ==> mode == frauds[0]
  {
    var mode := BestCandidate(frauds, frauds);
    assert forall v :: v !in frauds ==> multiset(frauds)[v] == 0;
    mode
  }

  /** The label depends only on how often each value occurs, not on the row order. */
  lemma ModeOrderIndependent(a: seq<int>, b: seq<int>)
    requires a != [] && multiset(a) == multiset(b)
    ensures b != [] && ModeLabel(a) == ModeLabel(b)
  {
    assert a[0] in multiset(b);
    var ra, rb := ModeLabel(a), ModeLabel(b);
    assert rb in multiset(a);
    assert multiset(a)[ra] <= multiset(a)[rb] && multiset(a)[rb] <= multiset(a)[ra];
  }

  function FraudResults(g: seq<Transaction>): (vs: seq<int>)
    ensures |vs| == |g| && forall i :: 0 <= i < |g| ==> vs[i] == g[i].fraudResult
  {
    seq(|g|, i requires 0 <= i < |g| => g[i].fraudResult)
  }

  /** The label of customer c: the mode of the FraudResult values of its group. */
  function LabelOf(ts: seq<Transaction>, c: int): (y: CustomerLabel)
    requires c in CustomerIds(ts)
    ensures y.customerId == c
  {
    GroupNonEmpty(ts, c);
    CustomerLabel(c, ModeLabel(FraudResults(Group(ts, c))))
  }

  function LabelRecords(ts: seq<Transaction>, ks: seq<int>): (y: seq<CustomerLabel>)
    requires forall k :: k in ks ==> k in CustomerIds(ts)
    ensures |y| == |ks|
    ensures forall i :: 0 <= i < |ks| ==> y[i].customerId == ks[i]
  {
    if ks == [] then [] else [LabelOf(ts, ks[0])] + LabelRecords(ts, ks[1..])
  }

  lemma {:induction false} LabelRecordsAt(ts: seq<Transaction>, ks: seq<int>, i: nat)
    requires forall k :: k in ks ==> k in CustomerIds(ts)
    requires i < |ks|
    ensures LabelRecords(ts, ks)[i] == LabelOf(ts, ks[i])
  {
    if i > 0 {
      LabelRecordsAt(ts, ks[1..], i - 1);
    }
  }

  /** df.groupby('CustomerId')['FraudResult'].agg(mode): one label per customer, ascending ids. */
  function ResolveLabels(ts: seq<Transaction>): (y: seq<CustomerLabel>)
    ensures forall i, j :: 0 <= i < j < |y| ==> y[i].customerId < y[j].customerId
    ensures forall c :: c in CustomerIds(ts) <==> exists i :: 0 <= i < |y| && y[i].customerId == c
  {
    var ks := GroupKeys(ts);
    LabelRecords(ts, ks)
  }

  /** How many of customer c's transactions carry FraudResult v. */
  function Tally(ts: seq<Transaction>, c: int, v: int): nat {
    if ts == [] then 0
    else (if ts[0].customerId == c && ts[0].fraudResult == v then 1 else 0) + Tally(ts[1..], c, v)
  }

  lemma {:induction false} TallyIsOccurrences(ts: seq<Transaction>, c: int, v: int)
    ensures Tally(ts, c, v) == multiset(FraudResults(Group(ts, c)))[v]
  {
    if ts != [] {
      TallyIsOccurrences(ts[1..], c, v);
      var rest := FraudResults(Group(ts[1..], c));
      if ts[0].customerId == c {
        assert FraudResults(Group(ts, c)) == [ts[0].fraudResult] + rest;
        assert multiset([ts[0].fraudResult] + rest) == multiset{ts[0].fraudResult} + multiset(rest);
      } else {
        assert Group(ts, c) == Group(ts[1..], c);
      }
    }
  }

  lemma TallyPositive(ts: seq<Transaction>, c: int, v: int)
    requires v in FraudResults(Group(ts, c))
    ensures exists j :: 0 <= j < |ts| && ts[j].customerId == c && ts[j].fraudResult == v
  {
    var g := Group(ts, c);
    var m :| 0 <= m < |g| && g[m].fraudResult == v;
    GroupMembers(ts, c, g[m]);
    assert g[m] in ts;
  }

  /** Each customer's label is one of its own FraudResult values, no value occurs more
      often among that customer's transactions, and the smallest value wins a tie. */
  lemma LabelIsSmallestMode(ts: seq<Transaction>, i: nat)
    requires i < |ResolveLabels(ts)|
    ensures var y := ResolveLabels(ts)[i];
      && (exists j :: 0 <= j < |ts| && ts[j].customerId == y.customerId && ts[j].fraudResult == y.fraudResult)
      && (forall v :: Tally(ts, y.customerId, v) <= Tally(ts, y.customerId, y.fraudResult))
      && (forall v :: Tally(ts, y.customerId, v) == Tally(ts, y.customerId, y.fraudResult) ==> y.fraudResult <= v)
  {
    LabelRecordsAt(ts, GroupKeys(ts), i);
    var y := ResolveLabels(ts)[i];
    var c := y.customerId;
    TallyPositive(ts, c, y.fraudResult);
    TallyIsOccurrences(ts, c, y.fraudResult);
    forall v
      ensures Tally(ts, c, v) <= Tally(ts, c, y.fraudResult)
      ensures Tally(ts, c, v) == Tally(ts, c, y.fraudResult) ==> y.fraudResult <= v
    {
      TallyIsOccurrences(ts, c, v);
    }
  }

  /** A customer whose transactions all carry FraudResult v is labelled v. */
  lemma UniformLabel(ts: seq<Transaction>, i: nat, v: int)
    requires i < |ResolveLabels(ts)|
    requires forall j :: 0 <= j < |ts| && ts[j].customerId == ResolveLabels(ts)[i].customerId ==>
      ts[j].fraudResult == v
    ensures ResolveLabels(ts)[i].fraudResult == v
  {
    LabelIsSmallestMode(ts, i);
  }

  // ---------------------------------------------------------------------------
  // Alignment: X.loc[y.index] (line 18)
  // ---------------------------------------------------------------------------

  predicate HasRow(x: seq<CustomerFeatures>, c: int) {
    exists i :: 0 <= i < |x| && x[i].customerId == c
  }

  predicate DistinctIds(x: seq<CustomerFeatures>) {
    forall i, j :: 0 <= i < j < |x| ==> x[i].customerId != x[j].customerId
  }

  /** The rows indexed by c, in table order. */
  function Lookup(x: seq<CustomerFeatures>, c: int): (rows: seq<CustomerFeatures>)
    ensures forall f :: f in rows ==> f in x && f.customerId == c
    ensures HasRow(x, c) <==> rows != []
    ensures DistinctIds(x) && HasRow(x, c) ==> |rows| == 1
  {
    if x == [] then []
    else
      var rest := Lookup(x[1..], c);
      assert HasRow(x, c) <==> x[0].customerId == c || HasRow(x[1..], c) by {
        if HasRow(x, c) {
          var i :| 0 <= i < |x| && x[i].customerId == c;
          if i > 0 {
            assert x[1..][i - 1].customerId == c;
          }
        }
        if HasRow(x[1..], c) {
          var i :| 0 <= i < |x| - 1 && x[1..][i].customerId == c;
          assert x[i + 1].customerId == c;
        }
      }
      assert DistinctIds(x) ==> DistinctIds(x[1..]);
      assert DistinctIds(x) && x[0].customerId == c ==> !HasRow(x[1..], c);
      if x[0].customerId == c then [x[0]] + rest else rest
  }

  /** The requested labels that have no row, in request order. */
  function MissingKeys(x: seq<CustomerFeatures>, ids: seq<int>): (missing: seq<int>)
    ensures forall k :: k in missing ==> k in ids && !HasRow(x, k)
    ensures forall k :: k in ids && !HasRow(x, k) ==> k in missing
  {
    if ids == [] then []
    else (if HasRow(x, ids[0]) then [] else [ids[0]]) + MissingKeys(x, ids[1..])
  }

  function Gather(x: seq<CustomerFeatures>, ids: seq<int>): (rows: seq<CustomerFeatures>)
    requires forall k :: k in ids ==> HasRow(x, k)
    ensures DistinctIds(x) ==>
      |rows| == |ids| && forall i :: 0 <= i < |ids| ==> rows[i].customerId == ids[i] && rows[i] in x
  {
    if ids == [] then []
    else
      var rows := Lookup(x, ids[0]) + Gather(x, ids[1..]);
      assert DistinctIds(x) ==> rows[0] in Lookup(x, ids[0]);
      rows
  }

  /** X.loc[ids]: the rows of each requested customer, in request order; a KeyError naming
      the missing labels when some requested customer has no row (no inner join). */
  function Align(x: seq<CustomerFeatures>, ids: seq<int>): (r: Result<seq<CustomerFeatures>, seq<int>>)
    ensures r.Err? <==> exists i :: 0 <= i < |ids| && !HasRow(x, ids[i])
    ensures r.Err? ==> forall k :: k in r.error <==> k in ids && !HasRow(x, k)
    ensures r.Ok? && DistinctIds(x) ==>
      |r.value| == |ids| && forall i :: 0 <= i < |ids| ==> r.value[i].customerId == ids[i] && r.value[i] in x
  {
    var missing := MissingKeys(x, ids);
    if missing != [] then
      var first := missing[0];
      assert first in missing;
      assert first in ids && !HasRow(x, first);
      Err(missing)
    else
      assert forall i :: 0 <= i < |ids| ==> ids[i] in ids && ids[i] !in missing;
      Ok(Gather(x, ids))
  }

  // ---------------------------------------------------------------------------
  // Feature projection (line 21) and the serving column list (api/main.py:15)
  // ---------------------------------------------------------------------------

  /** X[['Recency', 'Frequency', 'Monetary']] in train_model. */
  const TrainingColumns: seq<string> := ["Recency", "Frequency", "Monetary"]

  /** df[['Recency', 'Frequency', 'Monetary']] in the prediction endpoint. */
  const ServingColumns: seq<string> := ["Recency", "Frequency", "Monetary"]

  /** A feature-table row after set_index('CustomerId'): the id is the index, not a column. */
  function FeatureRow(f: CustomerFeatures): map<string, int> {
    map["Recency" := f.recency, "Frequency" := f.frequency, "Monetary" := f.monetary]
  }

  /** row[cols]: the named values in the order asked for, or a KeyError naming the absent columns. */
  function SelectColumns(row: map<string, int>, cols: seq<string>): (r: Result<seq<int>, seq<string>>)
    ensures r.Ok? <==> forall i :: 0 <= i < |cols| ==> cols[i] in row
    ensures r.Ok? ==> |r.value| == |cols| && forall i :: 0 <= i < |cols| ==> r.value[i] == row[cols[i]]
    ensures r.Err? ==> forall c :: c in r.error <==> c in cols && c !in row
  {
    if cols == [] then Ok([])
    else
      var rest := SelectColumns(row, cols[1..]);
      if cols[0] !in row then Err([cols[0]] + (if rest.Err? then rest.error else []))
      else if rest.Err? then rest
      else Ok([row[cols[0]]] + rest.value)
  }

  /** The training feature vector of one customer: Recency, Frequency, Monetary, in that order. */
  function ProjectRow(f: CustomerFeatures): (v: seq<int>)
    ensures v == [f.recency, f.frequency, f.monetary]
  {
    var r := SelectColumns(FeatureRow(f), TrainingColumns);
    assert TrainingColumns[0] in FeatureRow(f) && TrainingColumns[1] in FeatureRow(f)
      && TrainingColumns[2] in FeatureRow(f);
    r.value
  }

  /** The endpoint's feature vector for a request payload. */
  function ServingVector(payload: map<string, int>): (r: Result<seq<int>, seq<string>>)
    ensures r.Ok? <==> "Recency" in payload && "Frequency" in payload && "Monetary" in payload
    ensures r.Ok? ==> r.value == [payload["Recency"], payload["Frequency"], payload["Monetary"]]
  {
    assert ServingColumns[0] == "Recency" && ServingColumns[1] == "Frequency" && ServingColumns[2] == "Monetary";
    SelectColumns(payload, ServingColumns)
  }

  /** A payload carrying a customer's three features (extra keys allowed) is turned into
      the very vector the classifier was trained on for that customer. */
  lemma TrainServeAgree(f: CustomerFeatures, payload: map<string, int>)
    requires forall c :: c in FeatureRow(f) ==> c in payload && payload[c] == FeatureRow(f)[c]
    ensures ServingVector(payload) == Ok(ProjectRow(f))
  {
    var row := FeatureRow(f);
    assert "Recency" in row && row["Recency"] == f.recency;
    assert "Frequency" in row && row["Frequency"] == f.frequency;
    assert "Monetary" in row && row["Monetary"] == f.monetary;
    var r := ServingVector(payload);
    assert ServingColumns[0] in payload && ServingColumns[1] in payload && ServingColumns[2] in payload;
    assert r.Ok?;
    assert r.value == [f.recency, f.frequency, f.monetary];
  }

  /** A payload lacking a feature is refused with a KeyError naming exactly the absent features. */
  lemma ServingMissingFeature(payload: map<string, int>)
    requires "Monetary" !in payload
    ensures ServingVector(payload).Err?
    ensures forall c :: c in ServingVector(payload).error <==> c in ServingColumns && c !in payload
  {
    assert ServingColumns[2] !in payload;
  }

  // ---------------------------------------------------------------------------
  // Lines 16-21 together
  // ---------------------------------------------------------------------------

  function LabelIds(y: seq<CustomerLabel>): (ids: seq<int>)
    ensures |ids| == |y| && forall i :: 0 <= i < |y| ==> ids[i] == y[i].customerId
  {
    seq(|y|, i requires 0 <= i < |y| => y[i].customerId)
  }

  lemma LabelIdsAreGroupKeys(ts: seq<Transaction>)
    ensures LabelIds(ResolveLabels(ts)) == GroupKeys(ts)
  {
  }

  function DesignMatrix(rows: seq<CustomerFeatures>): (m: seq<seq<int>>)
    ensures |m| == |rows| && forall i :: 0 <= i < |rows| ==> m[i] == ProjectRow(rows[i])
  {
    seq(|rows|, i requires 0 <= i < |rows| => ProjectRow(rows[i]))
  }

  lemma KeysCoveredIff(x: seq<CustomerFeatures>, ts: seq<Transaction>)
    ensures (forall k :: k in CustomerIds(ts) ==> HasRow(x, k))
      <==> (forall i :: 0 <= i < |GroupKeys(ts)| ==> HasRow(x, GroupKeys(ts)[i]))
  {
    var ks := GroupKeys(ts);
    if forall k :: k in CustomerIds(ts) ==> HasRow(x, k) {
      forall i | 0 <= i < |ks|
        ensures HasRow(x, ks[i])
      {
        assert ks[i] in ks;
      }
    } else {
      var k :| k in CustomerIds(ts) && !HasRow(x, k);
      assert k in ks;
      var i :| 0 <= i < |ks| && ks[i] == k;
    }
  }

  /** X.loc[y.index] projected to the feature columns, paired with the labels y. */
  function Assemble(x: seq<CustomerFeatures>, y: seq<CustomerLabel>)
    : (r: Result<(seq<seq<int>>, seq<int>), seq<int>>)
    ensures r.Ok? <==> forall i :: 0 <= i < |y| ==> HasRow(x, LabelIds(y)[i])
    ensures r.Err? ==> forall k :: k in r.error <==> k in LabelIds(y) && !HasRow(x, k)
    ensures r.Ok? && DistinctIds(x) ==> |r.value.0| == |r.value.1| == |y|
    ensures r.Ok? && DistinctIds(x) ==> forall i :: 0 <= i < |y| ==>
      && r.value.1[i] == y[i].fraudResult
      && exists f :: f in x && f.customerId == y[i].customerId && r.value.0[i] == ProjectRow(f)
  {
    var ids := LabelIds(y);
    match Align(x, ids)
    case Err(missing) => Err(missing)
    case Ok(rows) =>
      var m := DesignMatrix(rows);
      Ok((m, seq(|y|, i requires 0 <= i < |y| => y[i].fraudResult)))
  }

  /** The design matrix and the label vector handed to train_test_split, or the KeyError
      of the alignment naming the labelled customers that have no feature row. With a
      unique index, row i is the feature vector of the customer that label i belongs to. */
  function TrainingSet(x: seq<CustomerFeatures>, ts: seq<Transaction>)
    : (r: Result<(seq<seq<int>>, seq<int>), seq<int>>)
    ensures r.Ok? <==> forall k :: k in CustomerIds(ts) ==> HasRow(x, k)
    ensures r.Err? ==> forall k :: k in r.error <==> k in CustomerIds(ts) && !HasRow(x, k)
    ensures r.Ok? && DistinctIds(x) ==>
      |r.value.0| == |r.value.1| == |ResolveLabels(ts)| == |CustomerIds(ts)|
    ensures r.Ok? && DistinctIds(x) ==> forall i :: 0 <= i < |ResolveLabels(ts)| ==>
      && r.value.1[i] == ResolveLabels(ts)[i].fraudResult
      && exists f :: f in x && f.customerId == ResolveLabels(ts)[i].customerId && r.value.0[i] == ProjectRow(f)
  {
    LabelIdsAreGroupKeys(ts);
    GroupKeyCount(ts);
    KeysCoveredIff(x, ts);
    Assemble(x, ResolveLabels(ts))
  }

  lemma UniqueRow(x: seq<CustomerFeatures>, f: CustomerFeatures, i: nat)
    requires DistinctIds(x) && i < |x| && f in x && f.customerId == x[i].customerId
    ensures f == x[i]
  {
  }

  /** On a feature table produced by the aggregation from the same transactions, alignment
      cannot fail, and row i of the design matrix is the feature vector of the customer
      that label i belongs to. */
  lemma PipelineTrainingSet(ts: seq<Transaction>)
    ensures TrainingSet(Aggregate(ts), ts).Ok?
    ensures var r := TrainingSet(Aggregate(ts), ts).value;
      && |r.0| == |r.1| == |Aggregate(ts)| == |ResolveLabels(ts)|
      && forall i :: 0 <= i < |r.0| ==>
        && ResolveLabels(ts)[i].customerId == Aggregate(ts)[i].customerId
        && r.0[i] == [Aggregate(ts)[i].recency, Aggregate(ts)[i].frequency, Aggregate(ts)[i].monetary]
        && r.1[i] == ResolveLabels(ts)[i].fraudResult
  {
    var x := Aggregate(ts);
    var ks := GroupKeys(ts);
    LabelIdsAreGroupKeys(ts);
    assert forall k :: k in CustomerIds(ts) ==> HasRow(x, k);
    var a := Align(x, ks);
    assert a.Ok?;
    assert DistinctIds(x);
    forall i | 0 <= i < |ks|
      ensures a.value[i] == x[i]
    {
      UniqueRow(x, a.value[i], i);
    }
  }
}
