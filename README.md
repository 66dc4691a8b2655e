# Credit-risk RFM features and training labels

This project models the logic of a small credit-risk scoring repository. That logic sits between the raw
transaction CSV and the random-forest classifier:

- **RFM aggregation** (`create_rfm_features`, src/data_processing.py).
  - First, every transaction's start time is normalised in place to a naive UTC instant.
  - Then the transactions are grouped by customer. Each customer gets one record:
    - **Recency**: whole days from the fixed reference date 2018-11-16 00:00 back to the customer's latest transaction.
    - **Frequency**: the number of the customer's transactions.
    - **Monetary**: the sum of their values.
- **Training set assembly** (`train_model`, src/train.py lines 16-21).
  - Each customer's label is the mode of its `FraudResult` values. A tie goes to the smallest value.
  - The feature table is aligned with the labels using `.loc`. This raises a `KeyError` when a labelled customer has no feature row.
  - Each row is projected to the vector `[Recency, Frequency, Monetary]`.
- **Serving column list** (src/api/main.py:15). The prediction endpoint selects the same three columns.

Modules:

- `Wrappers`: `Option` and `Result`. A `Result`'s `Err` carries what the program would raise, e.g. the labels of a `KeyError`.
- `DataProcessing`: timestamps, the transaction table, and the aggregation.
  - The table is an `array<Transaction>`. Normalisation overwrites it in place (`NormalizeStartTimes`, `CreateRfmFeatures`).
  - The aggregation is a pure function over the rows (`Aggregate`).
- `Train`: label resolution, `.loc` alignment, column selection and the assembled training set.

Representation choices:

- A timestamp is already parsed: wall-clock seconds since the epoch, plus an optional UTC offset in seconds.
- A naive timestamp is read as UTC, as `to_datetime(..., utc=True)` does.
- Recency is `(reference − latest) / 86400`. Dafny's `/` by a positive divisor is floor division, which is what `timedelta.days` gives.
- Values and `FraudResult`s are integers.

Three behaviours of the code are worth stating outright:

- **Future-dated transactions.** A transaction after the reference date raises nothing; its customer gets a negative Recency (`RecencySign`, `FutureDatedExample`).
- **Alignment.** `.loc` does not drop customers: a labelled customer without a feature row makes it raise a `KeyError` naming the missing customers (`Align`, `TrainingSet`).
- **Mode tie-break.** `x.mode()` returns the modes sorted, so `[0]` picks the smallest of the most frequent values, and the label does not depend on row order (`ModeLabel`, `ModeOrderIndependent`).

## Model

| member | source | states |
|---|---|---|
| DataProcessing.Normalize | src/data_processing.py:12 | The result is naive and denotes the same UTC instant (`UtcSeconds`) as the input. An offset is subtracted; a naive time is kept as UTC. |
| DataProcessing.NormalizeIdentifiesInstants | src/data_processing.py:12 | Two timestamps normalise to the same value exactly when they denote the same instant. Normalising twice changes nothing. |
| DataProcessing.NormalizeStartTimes | src/data_processing.py:12 | The caller's table is overwritten in place. Row i gets the normalised start time. Its other columns are unchanged, and so is the row count. |
| DataProcessing.Insert | src/data_processing.py:15 | Adding a key to a strictly ascending key list keeps it strictly ascending. The key set gains exactly that key. |
| DataProcessing.GroupKeys | src/data_processing.py:15 | The group keys are strictly ascending, as `groupby` sorts them. They are exactly the distinct customer ids of the input. |
| DataProcessing.GroupMultiset | src/data_processing.py:15 | A customer's group holds exactly that customer's transactions, each as often as it occurs in the table. |
| DataProcessing.Latest | src/data_processing.py:16 | `x.max()` is one of the group's UTC instants, and none of them is later. |
| DataProcessing.Aggregate | src/data_processing.py:15-20 | The records are in strictly ascending customer order. A customer id has a record exactly when it occurs in the input: none is dropped and none is invented. |
| DataProcessing.Features | src/data_processing.py:15-18 | The record of one customer (the `agg` dictionary): it carries that customer's id, its Frequency is the number of occurrences of the id in the CustomerId column (at least 1), and its Monetary is the sum of that customer's values (`ValueTally`). Recency is computed from `Latest` of the group and characterised by `RecencyOfLatest`. |
| DataProcessing.RecordCount | src/data_processing.py:15-20 | There are exactly as many records as distinct customer ids. |
| DataProcessing.CreateRfmFeatures | src/data_processing.py:10-20 | The caller's start-time column ends up normalised and nothing else changes. The result is the aggregation of the original rows. |
| DataProcessing.FrequencyIsOccurrences | src/data_processing.py:17 | A record's Frequency is the number of occurrences of its customer id in the CustomerId column, so it is at least 1. |
| DataProcessing.FrequencyPartition | src/data_processing.py:17 | The Frequencies add up to the number of transactions. |
| DataProcessing.MonetaryIsSum | src/data_processing.py:18 | A record's Monetary is the sum of the values of its own customer's rows (`ValueTally`, read straight off the table), so no value moves between customers. |
| DataProcessing.MonetaryPartition | src/data_processing.py:18 | The Monetary values add up to the sum of all transaction values, negative sums included (no clamping). |
| DataProcessing.RecencyOfLatest | src/data_processing.py:13-16 | Some transaction of the customer is its latest. Recency is the floor of the days from that instant to 2018-11-16 00:00 UTC. |
| DataProcessing.RecencySign | src/data_processing.py:13-16 | Recency is non-negative exactly when none of the customer's transactions is after the reference instant. |
| DataProcessing.SumValuesPermutation | src/data_processing.py:18 | The sum of values (`SumValues`, the `'Value': 'sum'` reduction) does not depend on the order of the rows. |
| DataProcessing.LatestPermutation | src/data_processing.py:16 | The latest instant does not depend on the order of the rows. |
| DataProcessing.AggregatePermutation | src/data_processing.py:15-19 | Any permutation of the input rows gives the same output table. |
| DataProcessing.AggregateIgnoresRepresentation | src/data_processing.py:12-19 | Rows that differ only in how their start times write the same instants give the same output table. |
| DataProcessing.HandExample | src/data_processing.py:10-20 | Customer 1 has transactions at 2018-11-10 03:00+03:00, i.e. 00:00 UTC (value 100) and 2018-11-01 (value 50). It gets Recency 6, Frequency 2 and Monetary 150. |
| DataProcessing.FutureDatedExample | src/data_processing.py:13-16 | A transaction dated 2018-12-01 raises nothing. Its customer gets Recency -15. |
| Train.BestCandidate | src/train.py:17 | The chosen candidate is outnumbered by no other candidate. Among equally frequent candidates it is the smallest. |
| Train.ModeLabel | src/train.py:17 | `x.mode()[0]` is a value of the group that no value outnumbers, and the smallest such value. A group with a single value yields that value. |
| Train.ModeOrderIndependent | src/train.py:17 | The label depends only on how often each value occurs, not on the order of the rows. |
| Train.ResolveLabels | src/train.py:17 | One label per customer (`LabelOf`, the mode of the group's `FraudResult`s). The labels are in strictly ascending customer order. A customer has a label exactly when it occurs among the transactions. |
| Train.LabelIsSmallestMode | src/train.py:16-17 | A customer's label occurs among its own transactions. No value occurs more often among them. On a tie the smallest value wins. |
| Train.UniformLabel | src/train.py:17 | A customer whose transactions all carry the same `FraudResult` v is labelled v. |
| Train.Lookup | src/train.py:18 | The rows found for a label all carry that label. There are some exactly when the label is in the index. With a unique index there is exactly one. |
| Train.MissingKeys | src/train.py:18 | The missing keys are exactly the requested labels that have no row. |
| Train.Align | src/train.py:18 | `.loc` fails exactly when some requested label has no row, and its error lists exactly those labels. Otherwise, with a unique index, the rows come out in request order with matching ids. |
| Train.LabelIdsAreGroupKeys | src/train.py:17-18 | The index of the label series is the ascending list of distinct customer ids. |
| Train.SelectColumns | src/train.py:21 | Selection succeeds exactly when every requested column is present. On success it yields their values in the requested order. Otherwise its error names exactly the absent columns. |
| Train.ProjectRow | src/train.py:21 | Selecting `[Recency, Frequency, Monetary]` from a feature row (CustomerId is the index) yields exactly those three values in that order. |
| Train.ServingVector | src/api/main.py:15 | `df[['Recency', 'Frequency', 'Monetary']].values` for one payload: it succeeds exactly when the payload has all three keys, and then yields their values in that order. |
| Train.TrainServeAgree | src/api/main.py:15 | A payload that carries a customer's three features, with extra keys allowed, gives the vector the classifier was trained on for that customer. |
| Train.ServingMissingFeature | src/api/main.py:15 | A payload without Monetary is refused, with an error naming exactly the absent features. |
| Train.DesignMatrix | src/train.py:21 | The projection applied to every aligned row: one vector per row, row i being `ProjectRow` of row i. |
| Train.Assemble | src/train.py:18-21 | For any label list: `.loc` then projection succeeds exactly when every label's customer has a row, otherwise the error names exactly the missing ones. With a unique index, label i's vector is `ProjectRow` of a feature row of label i's customer, paired with label i's value. |
| Train.TrainingSet | src/train.py:16-21 | Assembly succeeds exactly when every labelled customer has a feature row; otherwise the error names exactly the customers without one. With a unique index there is one feature vector and one label per distinct customer, label i is customer i's mode label, and row i is `ProjectRow` of the feature row of that same customer, for any feature table, not only one aggregated from the same transactions. |
| Train.PipelineTrainingSet | src/train.py:14-21 | On the feature table aggregated from the same transactions, alignment cannot fail. Row i of the design matrix is the `[Recency, Frequency, Monetary]` vector of the customer that label i belongs to. |

## Left out

- File and process I/O (`read_csv`, `to_csv`, `set_index` on load, `makedirs`, the hard-coded paths and the printed messages). The tables are given as values; the feature table read at src/train.py:14 is a sequence of records.
- `build_feature_pipeline` (src/data_processing.py:22-45) only constructs scikit-learn objects, so it has no logic to state.
- `train_test_split`, the random forest's fit and predict, and `classification_report` (src/train.py:21-29) are library calls with seeded randomness and floating-point metrics. The model stops at the design matrix and label vector handed to `train_test_split`.
- The FastAPI routing, `joblib` loading, `uvicorn` startup and `model.predict` in src/api/main.py are not modelled. Only the column selection at line 15 is.
- `pd.to_datetime` string parsing is not modelled; timestamps arrive as parsed seconds plus an optional offset. Sub-second resolution is not modelled either.
- Floating-point `Value`s are not modelled; values are integers, so sums are exact.
- Missing values (NaN) are not modelled. The fallback `x.iloc[0]` at src/train.py:17 is reachable only for an all-missing group, so it is not modelled.
- Customer ids are integers, and keys are ordered numerically. Pandas orders string ids lexicographically. The ordering facts hold for that order in the same way.
- Aliasing between the caller's table and other references is not modelled beyond the array that `CreateRfmFeatures` modifies.
