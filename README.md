# Fraud-detection feature layer, in Dafny

This project models the feature-computation layer of a fraud-detection
service. It has two halves:

- **The live velocity store** (`FeatureStore`). This is a map from user id to
  the timestamps of that user's recent transactions. Each call appends the
  new timestamp. It then keeps only the timestamps strictly after
  `current_time − window_hours` and returns how many remain.
- **The batch feature engineer** (`FeatureEngineer`). It looks up the
  country from an IP range table, where the first covering row wins and
  `"Unknown"` is the fallback. It derives the hour of day, the weekday
  (Monday = 0) and the signed hours since signup. It counts each user's
  transactions in a 24-hour rolling window that is closed at both ends. The
  `transform` pipeline then scales, one-hot encodes and drops the raw
  columns. The fitted scaler and encoder are abstract functions.

Timestamps are integer seconds since 1970-01-01 UTC.

The modules are:

- `Velocity` (`velocity.dfy`): the per-user timestamp filter and window.
- `Store` (`store.dfy`): the `FeatureStore` class and its specification by
  replay.
- `Engineering` (`engineering.dfy`): the feature transforms and the
  `FeatureEngineer` class.
- `Consistency` (`consistency.dfy`): how the batch count relates to the live
  count.
- `Outcomes` (`outcomes.dfy`): `Option` and `Result`.

The central result is `Consistency.BatchCountIsLiveCountPlusBoundaryTies`.
Take the rows of a table sorted by user and time, and feed them one at a time
to a fresh 24-hour live store. For each row, the batch count equals the
store's answer plus the number of that user's earlier rows lying exactly
24 hours before it. The two counts therefore differ precisely at the window
boundary: the batch window is closed, while the store's cutoff is strict.
`Store.OutOfOrderKeepsFuture` proves a second divergence. The store has no
upper bound on what it keeps, so a late-arriving earlier purchase leaves the
later timestamp in the list.

## Model

| member | source | states |
|---|---|---|
| Store.FeatureStore.constructor | src/features/feature_store.py:7-11 | a new store keeps the given window, 24 hours by default, and starts with an empty map |
| Store.FeatureStore.UpdateAndGetVelocity | src/features/feature_store.py:13-36 | creates the user's entry if missing, appends the timestamp, refilters in place with the strict cutoff; the new map is `Record` of the old one and the result is the user's new list length |
| Store.FeatureStore.Reset | src/features/feature_store.py:38-40 | the map becomes empty |
| Store.ResetMatchesFresh | src/features/feature_store.py:38-40 | after `reset` a call answers exactly as a freshly constructed store with the same window would (lines 9-11), and leaves the map a fresh store would have |
| Store.ServeEvents | src/features/feature_store.py:13-36 | a freshly constructed store object called once per event, in order, returns exactly `Counts` of the events, the sequence the consistency theorems speak about |
| Store.RecordKeeps | src/features/feature_store.py:24-34 | the user's key is added, all other users' lists are unchanged, the user's list holds exactly the old timestamps and the new one that are strictly after the cutoff (later timestamps included), and with a positive window the new timestamp survives so the count is at least 1 |
| Store.RecordOther | src/features/feature_store.py:32-34 | only the caller's list is reassigned |
| Store.ReplayPerUser | src/features/feature_store.py:13-36 | after any sequence of calls, a user's list depends only on that user's own timestamps in arrival order |
| Store.FirstEvent | src/features/feature_store.py:24-28 | the first call on a fresh store leaves just that user with just that timestamp |
| Store.OutOfOrderKeepsFuture | src/features/feature_store.py:31-34 | a purchase arriving after a later-dated one of the same user is counted as second, and the later-dated timestamp stays in the list |
| Store.ThreeEventTrace | src/features/feature_store.py:28-36 | two purchases within a window then one a full window later are answered 1, 2, 1 |
| Store.VelocityTrace | tests/test_features.py:31-44 | with a 24-hour window, purchases at 2023-01-01 10:00 and 11:00 and 2023-01-03 10:00 are answered 1, 2, 1 |
| Velocity.KeepAfterMembers | src/features/feature_store.py:32-34 | a timestamp is kept exactly when it was in the list and is strictly after the cutoff |
| Velocity.KeepAfterAppend | src/features/feature_store.py:32-34 | the filter distributes over concatenation, so kept timestamps keep their original relative order |
| Velocity.KeepAfterTwice | src/features/feature_store.py:31-34 | expiring against one cutoff and then a later one equals expiring against the later one |
| Velocity.KeepAtLeastSplit | src/features/feature_store.py:31-34 | with integer times, the number of timestamps at or after an instant is the number strictly after it plus that instant's occurrences |
| Velocity.WindowInOrder | src/features/feature_store.py:28-34 | for arrivals in time order, the stored list is the arrivals strictly after the latest arrival minus the window |
| Engineering.FirstCovering | src/features/engineering.py:25-29 | returns the first row in table order whose inclusive range covers the address, or none if no row covers it |
| Engineering.GetCountry | src/features/engineering.py:21-29 | "Unknown" without a table or without a covering row, otherwise the first covering row's country |
| Engineering.AddCountryOnlyWhenAbsent | src/features/engineering.py:59-61 | the country column is derived by lookup only when it is absent and a table is set; nothing else in the rows changes |
| Engineering.DeriveTimeFeatures | src/features/engineering.py:34-38 | hour in 0..23 bracketing the purchase's time of day, weekday in 0..6, and signed hours since signup times 3600 equal to the seconds elapsed |
| Engineering.NextDayTimeFeatures | src/features/engineering.py:34-35 | one day later gives the same hour and the next weekday, Sunday wrapping to Monday |
| Engineering.SameDayWeekday | src/features/engineering.py:35 | the weekday depends only on the purchase's calendar day, not on its time of day or on the signup time |
| Engineering.EpochWeekdayIsThursday | src/features/engineering.py:35 | purchases on 1970-01-01 get weekday 3 (Thursday, Monday = 0); with the two lemmas above this fixes the weekday of every purchase |
| Engineering.TimeFeaturesExample | tests/test_features.py:21-29 | signup 2023-01-01 10:00 and purchase 12:00 give hour 12, weekday 6, 2.0 hours |
| Engineering.EngineerTimeFeatures | src/features/engineering.py:31-39 | each row keeps its transaction and gains the time features of its own two timestamps; the input is untouched |
| Engineering.Insert | src/features/engineering.py:43 | inserting into a sorted table keeps it sorted and adds exactly the one row |
| Engineering.SortByUserTime | src/features/engineering.py:43 | the result is sorted by user and then purchase time and is a permutation of the input |
| Engineering.RollingCountBounds | src/features/engineering.py:46-52 | a row's rolling count is at least 1 and at most its position within its user's group plus 1 |
| Engineering.CalculateVelocity | src/features/engineering.py:41-55 | the rows come back sorted and permuted, each with the number of same-user rows up to it whose time is in the closed day before it |
| Engineering.OverrideVelocity | src/features/engineering.py:67-68 | every row keeps its place and gets the override as its count |
| Engineering.OutputIgnoresRawColumns | src/features/engineering.py:86-97 | an output row depends only on the scaled numeric columns, the encoded categorical columns and the label: ids, address and raw times are dropped |
| Engineering.Pipeline | src/features/engineering.py:57-99 | the caller's frame gains the country column; applying never changes the estimators; applying fails when an estimator is unfitted, both modes fail when the country column is missing, and nothing else fails; a success has one output row per input row |
| Engineering.TransformErrors | src/features/engineering.py:72-84 | an unfitted scaler is reported before a missing country column, which is reported before an unfitted encoder; training refits the scaler even when the country column is missing |
| Engineering.OverrideReplacesBatchCount | src/features/engineering.py:66-68 | with an override, output row i is input row i with its time features and the override as count |
| Engineering.BatchCountWithoutOverride | src/features/engineering.py:69-70 | without an override, the rows are sorted and permuted and each output row carries its rolling count |
| Engineering.FitThenApplyParity | src/features/engineering.py:59-84 | applying the fitted engineer to its training table, as training left it with the country column added, reproduces the training output and refits nothing |
| Engineering.ServingReproducesTraining | api/main.py:84-88 | serving one training transaction, without its class label, with its batch count as override reproduces its training row, except that the label column is the request's |
| Engineering.FeatureEngineer.constructor | src/features/engineering.py:10-15 | no table, no fitted scaler, no fitted encoder |
| Engineering.FeatureEngineer.FitIpMap | src/features/engineering.py:17-19 | sets the table and leaves the estimators alone |
| Engineering.FeatureEngineer.Transform | src/features/engineering.py:57-99 | by default applies (not training) without an override; the caller's frame, the result and the new estimator states are those of `Pipeline`; the table is unchanged |
| Consistency.WindowCountAsFilter | src/features/engineering.py:46-52 | the batch window count is the number of the user's earlier timestamps at or after one day before the row |
| Consistency.LiveCountAsFilter | src/features/feature_store.py:31-36 | for sorted input, the live count is the number of the user's timestamps so far strictly after one day before the row |
| Consistency.BatchCountIsLiveCountPlusBoundaryTies | src/features/engineering.py:46-52 | the batch count equals the live store's count for the same sorted events plus the user's rows exactly 24 hours earlier |
| Consistency.BatchMatchesLiveWithoutBoundaryTies | src/features/feature_store.py:31-34 | without such rows the two counts are equal |
| Consistency.BoundaryExample | src/features/engineering.py:47-51 | two purchases exactly 24 hours apart: the batch counts 2 and the live store 1 |
| Consistency.LiveServingMatchesTraining | api/main.py:84-88 | serving an unlabelled training transaction with the live store's count reproduces its training row, apart from the label column, provided no purchase of the user lies exactly 24 hours earlier |

## Left out

- The scaler and one-hot encoder are sklearn estimators. They are abstract fitting and applying functions here, so their numerics and the `get_feature_names_out` column names are not modelled. Two assumptions are built in: both apply row by row (one output row from one input row), and training's `fit_transform` equals fitting and then applying the fitted estimator to the same rows. Both hold for `StandardScaler` and `OneHotEncoder`; `Engineering.FitThenApplyParity` and `Engineering.ServingReproducesTraining` depend on them.
- Floating-point arithmetic is left out. Elapsed hours, purchase values and scaled columns are `real`. The rolling count, which pandas returns as a float, is an integer.
- Timestamps are whole seconds in UTC. Sub-second precision and time zones are not modelled.
- Timestamps and windows are unbounded integers. Python's datetime and pandas' Timestamp have a limited range, so `current_time - timedelta(hours=window_hours)` can raise an overflow or out-of-bounds error near the ends of that range, as can a window too large for `timedelta`. The model returns a count for every input.
- The data frame is a fixed record of the named columns. Columns other than `country` being missing, extra columns, NaN values and sklearn's input validation (such as an empty frame) are not modelled.
- Engineering.SortByUserTime: proves sorted and permutation, not that pandas' sort keeps the input order among equal keys.
- Store.ResetMatchesFresh: compares one call after `reset` with one call on a fresh store. Longer sequences follow because both stores then hold the same map.
- The store has no locking, and concurrent calls are not modelled.
- The service's routing, artifact loading and logging are not part of this model. The same holds for model training, the simulator, monitoring, drift reports, the dashboard, data loading and configuration. Only the order of calls on the serving path (`api/main.py:84-88`) is used.
- One might expect the live window to be closed like the batch window, so that batch and live counts agree row by row. The code's cutoff is strict and has no upper bound, and the model follows the code; `Consistency.BatchCountIsLiveCountPlusBoundaryTies` proves the exact difference. The country lookup is the code's linear first-match scan, not a binary search over a sorted table.
- Engineering.CalculateVelocity: returns counts for every table. In pandas, when every user's group yields a result with the same index (for example a single user with two or more rows), `groupby(...).apply` stacks the results into a data frame with several columns, and the assignment to the velocity column then raises an error. That library behaviour is not modelled.
- The consistency lemmas feed the live store the whole training table. A store started after some of those events happened never sees them, and this cold-start gap is not modelled.
