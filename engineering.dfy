/**
 * The batch feature transforms that feed the fraud classifier: country lookup
 * from an IP range table, calendar and elapsed-time features, the per-user
 * 24-hour transaction count, and the `transform` pipeline that scales,
 * one-hot encodes and drops the raw columns. The fitted scaler and encoder
 * are abstract functions supplied by the caller.
 */
module Engineering {
  import opened Outcomes
  import opened Velocity

  const SecondsPerDay: int := 86400
  /** The fixed `'24h'` rolling window of the batch velocity, in seconds. */
  const DayWindow: int := 86400
  /** Day 0 of the clock, 1970-01-01, was a Thursday (Monday = 0). */
  const EpochWeekday: int := 3
  const UnknownCountry: string := "Unknown"

  // ---------------------------------------------------------------- records

  /** One row of the IP-to-country table: an inclusive address range. */
  datatype IpRange = IpRange(lowerBound: int, upperBound: int, country: string)

  /** One raw transaction. Times are integer seconds since 1970-01-01.
    * `country` is meaningful only in a frame that has the country column;
    * `classLabel` is the `class` column, present in training data only. */
  datatype Transaction = Transaction(
    userId: int, signupTime: int, purchaseTime: int, purchaseValue: real,
    deviceId: string, source: string, browser: string, sex: string, age: int,
    ipAddress: int, country: string, classLabel: Option<int>)

  /** A data frame of transactions, and whether it has a `country` column. */
  datatype Frame = Frame(rows: seq<Transaction>, hasCountry: bool)

  datatype TimeFeatures = TimeFeatures(hourOfDay: int, dayOfWeek: int, timeSinceSignupHours: real)

  /** A row after the time features are added. */
  datatype Enriched = Enriched(tx: Transaction, time: TimeFeatures)

  /** A row after the velocity column `tx_count_last_24h` is added. */
  datatype Counted = Counted(row: Enriched, txCount: int)

  /** The columns the scaler sees, in the source's order. */
  datatype NumericFeatures = NumericFeatures(purchaseValue: real, age: real, timeSinceSignupHours: real, txCount: real)

  /** The columns the one-hot encoder sees, in the source's order. */
  datatype CategoricalFeatures = CategoricalFeatures(
    source: string, browser: string, sex: string, country: string, hourOfDay: int, dayOfWeek: int)

  /** One output row: the scaled numeric columns that remain after the raw
    * columns are dropped, the label passed through, then the encoded block. */
  datatype FeatureRow = FeatureRow(
    purchaseValue: real, age: real, classLabel: Option<int>,
    timeSinceSignupHours: real, txCount: real, encoded: seq<real>)

  /** The fitted estimators, left abstract: fitting a scaler and an encoder on
    * a whole column set, and applying fitted parameters to one row. */
  datatype Estimators<!S, !E> = Estimators(
    fitScaler: seq<NumericFeatures> -> S,
    scale: (S, NumericFeatures) -> NumericFeatures,
    fitEncoder: seq<CategoricalFeatures> -> E,
    encode: (E, CategoricalFeatures) -> seq<real>)

  /** What `transform` raises: an estimator used before it was fitted, or a
    * column that is missing from the frame. */
  datatype TransformError = NotFitted(estimator: string) | MissingColumn(column: string)

  // -------------------------------------------------------- country lookup

  predicate Covers(range: IpRange, ip: int)
  {
    range.lowerBound <= ip <= range.upperBound
  }

  /** Row `k` of `table` covers `ip` and no earlier row does. */
  predicate IsFirstCovering(table: seq<IpRange>, ip: int, k: int)
  {
    0 <= k < |table| && Covers(table[k], ip) && forall j :: 0 <= j < k ==> !Covers(table[j], ip)
  }

  /** The position of the first row of `table` whose range covers `ip`. */
  function FirstCovering(table: seq<IpRange>, ip: int): (k: Option<nat>)
    ensures k.Some? ==> IsFirstCovering(table, ip, k.value)
    ensures k.None? ==> forall j :: 0 <= j < |table| ==> !Covers(table[j], ip)
  {
    if |table| == 0 then None
    else if Covers(table[0], ip) then Some(0)
    else
      match FirstCovering(table[1..], ip)
      case None => None
      case Some(k) => Some(k + 1)
  }

  /** The country of an address: the first covering row in table order wins,
    * and "Unknown" is returned when there is no table or no row covers it. */
  function GetCountry(ipMap: Option<seq<IpRange>>, ip: int): (country: string)
    ensures ipMap.None? ==> country == UnknownCountry
    ensures ipMap.Some? && (forall j :: 0 <= j < |ipMap.value| ==> !Covers(ipMap.value[j], ip)) ==>
      country == UnknownCountry
    ensures ipMap.Some? ==>
      forall k :: IsFirstCovering(ipMap.value, ip, k) ==> country == ipMap.value[k].country
  {
    if ipMap.None? then UnknownCountry
    else
      match FirstCovering(ipMap.value, ip)
      case None => UnknownCountry
      case Some(k) => ipMap.value[k].country
  }

  /** Step 1 of `transform`: the country column is derived from the address
    * only when the frame lacks it and a table has been set. */
  function AddCountry(frame: Frame, ipMap: Option<seq<IpRange>>): Frame
  {
    if !frame.hasCountry && ipMap.Some? then
      Frame(seq(|frame.rows|, i requires 0 <= i < |frame.rows| =>
              frame.rows[i].(country := GetCountry(ipMap, frame.rows[i].ipAddress))), true)
    else frame
  }

  /** `transform` adds the country column exactly when it is absent and a
    * table is set, fills it by lookup, and changes nothing else; a frame
    * that already has the column keeps its countries even when a table is set. */
  lemma AddCountryOnlyWhenAbsent(frame: Frame, ipMap: Option<seq<IpRange>>)
    ensures var r := AddCountry(frame, ipMap);
      && |r.rows| == |frame.rows|
      && r.hasCountry == (frame.hasCountry || ipMap.Some?)
      && forall i :: 0 <= i < |r.rows| ==>
           r.rows[i].(country := frame.rows[i].country) == frame.rows[i] &&
           r.rows[i].country == (if frame.hasCountry || ipMap.None? then frame.rows[i].country
                                 else GetCountry(ipMap, frame.rows[i].ipAddress))
  {
  }

  /** A frame `transform` has already seen is not looked up again. */
  lemma AddCountryIdempotent(frame: Frame, ipMap: Option<seq<IpRange>>)
    ensures AddCountry(AddCountry(frame, ipMap), ipMap) == AddCountry(frame, ipMap)
  {
  }

  // --------------------------------------------------------- time features

  /** Hour of day, weekday (Monday = 0) and signed hours since signup. The
    * calendar fields come from the purchase time alone. */
  function DeriveTimeFeatures(signupTime: int, purchaseTime: int): (f: TimeFeatures)
    ensures 0 <= f.hourOfDay < 24 && 0 <= f.dayOfWeek < 7
    ensures SecondsPerHour * f.hourOfDay <= purchaseTime % SecondsPerDay < SecondsPerHour * (f.hourOfDay + 1)
    ensures f.timeSinceSignupHours * SecondsPerHour as real == (purchaseTime - signupTime) as real
  {
    TimeFeatures(
      (purchaseTime % SecondsPerDay) / SecondsPerHour,
      (purchaseTime / SecondsPerDay + EpochWeekday) % 7,
      (purchaseTime - signupTime) as real / SecondsPerHour as real)
  }

  /** A purchase one day later falls in the same hour on the next weekday,
    * wrapping from Sunday (6) to Monday (0). */
  lemma NextDayTimeFeatures(signupTime: int, purchaseTime: int)
    ensures var today := DeriveTimeFeatures(signupTime, purchaseTime);
      var tomorrow := DeriveTimeFeatures(signupTime, purchaseTime + SecondsPerDay);
      tomorrow.hourOfDay == today.hourOfDay && tomorrow.dayOfWeek == (today.dayOfWeek + 1) % 7
  {
    assert (purchaseTime + SecondsPerDay) / SecondsPerDay == purchaseTime / SecondsPerDay + 1;
    assert (purchaseTime + SecondsPerDay) % SecondsPerDay == purchaseTime % SecondsPerDay;
  }

  /** The weekday depends only on the purchase's calendar day: two purchases
    * on the same day, whatever their signup times, share it. */
  lemma SameDayWeekday(signup1: int, purchase1: int, signup2: int, purchase2: int)
    requires purchase1 / SecondsPerDay == purchase2 / SecondsPerDay
    ensures DeriveTimeFeatures(signup1, purchase1).dayOfWeek == DeriveTimeFeatures(signup2, purchase2).dayOfWeek
  {
  }

  /** Day 0 of the clock is a Thursday (3, with Monday = 0). Together with
    * `SameDayWeekday` and `NextDayTimeFeatures` this fixes the weekday of
    * every purchase time. */
  lemma EpochWeekdayIsThursday(signupTime: int, purchaseTime: int)
    requires 0 <= purchaseTime < SecondsPerDay
    ensures DeriveTimeFeatures(signupTime, purchaseTime).dayOfWeek == 3
  {
  }

  /** Signup 2023-01-01 10:00 and purchase 2023-01-01 12:00 (a Sunday) give
    * hour 12, weekday 6 and 2.0 hours since signup. */
  lemma TimeFeaturesExample()
    ensures DeriveTimeFeatures(1672567200, 1672574400) == TimeFeatures(12, 6, 2.0)
  {
  }

  /** `engineer_time_features`: a new table with the three time columns; the
    * caller's rows are a value and stay as they were. */
  function EngineerTimeFeatures(rows: seq<Transaction>): (r: seq<Enriched>)
    ensures |r| == |rows|
    ensures forall i :: 0 <= i < |r| ==>
      r[i].tx == rows[i] && r[i].time == DeriveTimeFeatures(rows[i].signupTime, rows[i].purchaseTime)
  {
    seq(|rows|, i requires 0 <= i < |rows| =>
      Enriched(rows[i], DeriveTimeFeatures(rows[i].signupTime, rows[i].purchaseTime)))
  }

  // -------------------------------------------------------- batch velocity

  /** The sort order `sort_values(['user_id', 'purchase_time'])`. */
  predicate RowBefore(a: Enriched, b: Enriched)
  {
    a.tx.userId < b.tx.userId ||
    (a.tx.userId == b.tx.userId && a.tx.purchaseTime <= b.tx.purchaseTime)
  }

  predicate SortedByUserTime(s: seq<Enriched>)
  {
    forall i, j :: 0 <= i < j < |s| ==> RowBefore(s[i], s[j])
  }

  /** Inserts `x` before the first row it does not follow, so that among
    * equal keys the earlier input row stays first. */
  function Insert(x: Enriched, s: seq<Enriched>): (r: seq<Enriched>)
    requires SortedByUserTime(s)
    ensures SortedByUserTime(r)
    ensures multiset(r) == multiset(s) + multiset{x}
    ensures forall y :: y in r ==> y == x || y in s
  {
    if |s| == 0 then [x]
    else if RowBefore(x, s[0]) then [x] + s
    else
      var rest := Insert(x, s[1..]);
      assert s == [s[0]] + s[1..];
      HeadPrecedes(s[0], x, s[1..], rest);
      SortedCons(s[0], rest);
      [s[0]] + rest
  }

  lemma HeadPrecedes(head: Enriched, x: Enriched, tail: seq<Enriched>, rest: seq<Enriched>)
    requires RowBefore(head, x)
    requires forall y :: y in tail ==> RowBefore(head, y)
    requires forall y :: y in rest ==> y == x || y in tail
    ensures forall y :: y in rest ==> RowBefore(head, y)
  {
  }

  lemma SortedCons(head: Enriched, rest: seq<Enriched>)
    requires SortedByUserTime(rest)
    requires forall y :: y in rest ==> RowBefore(head, y)
    ensures SortedByUserTime([head] + rest)
  {
    var r := [head] + rest;
    forall i, j | 0 <= i < j < |r| ensures RowBefore(r[i], r[j]) {
      assert r[j] == rest[j - 1];
      if i > 0 {
        assert r[i] == rest[i - 1];
      }
    }
  }

  /** A stable sort by user and then purchase time. */
  function SortByUserTime(rows: seq<Enriched>): (r: seq<Enriched>)
    ensures SortedByUserTime(r)
    ensures multiset(r) == multiset(rows)
  {
    if |rows| == 0 then []
    else
      assert rows == [rows[0]] + rows[1..];
      Insert(rows[0], SortByUserTime(rows[1..]))
  }

  /** `a` lies in the rolling window of `b`: same user and a time in the
    * closed interval from a day before `b` up to `b`. */
  predicate InRollingWindow(a: Enriched, b: Enriched)
  {
    a.tx.userId == b.tx.userId &&
    b.tx.purchaseTime - DayWindow <= a.tx.purchaseTime <= b.tx.purchaseTime
  }

  /** How many of the first `n` rows of `s` lie in the window of row `i`. */
  function CountInWindow(s: seq<Enriched>, i: nat, n: nat): nat
    requires i < |s| && n <= |s|
  {
    if n == 0 then 0
    else CountInWindow(s, i, n - 1) + (if InRollingWindow(s[n - 1], s[i]) then 1 else 0)
  }

  /** How many of the first `n` rows of `s` belong to row `i`'s user. */
  function SameUserCount(s: seq<Enriched>, i: nat, n: nat): nat
    requires i < |s| && n <= |s|
  {
    if n == 0 then 0
    else SameUserCount(s, i, n - 1) + (if s[n - 1].tx.userId == s[i].tx.userId then 1 else 0)
  }

  /** The pandas rolling count with `window='24h', closed='both'` over the
    * user's group: the rows up to and including row `i` in the window. */
  function RollingCount(s: seq<Enriched>, i: nat): nat
    requires i < |s|
  {
    CountInWindow(s, i, i + 1)
  }

  lemma {:induction false} CountInWindowAtMostSameUser(s: seq<Enriched>, i: nat, n: nat)
    requires i < |s| && n <= |s|
    ensures CountInWindow(s, i, n) <= SameUserCount(s, i, n)
  {
    if n > 0 {
      CountInWindowAtMostSameUser(s, i, n - 1);
    }
  }

  /** A row always counts itself, and counts no more than its position in its
    * user's group plus one. */
  lemma RollingCountBounds(s: seq<Enriched>, i: nat)
    requires i < |s|
    ensures 1 <= RollingCount(s, i) <= SameUserCount(s, i, i) + 1
  {
    CountInWindowAtMostSameUser(s, i, i);
  }

  /** The row sequence of a counted table. */
  function RowsOf(counted: seq<Counted>): (r: seq<Enriched>)
    ensures |r| == |counted|
  {
    seq(|counted|, i requires 0 <= i < |counted| => counted[i].row)
  }

  /** `calculate_velocity`: the rows sorted by user and time, each with the
    * count of its user's rows in the 24-hour window ending at it. */
  function CalculateVelocity(rows: seq<Enriched>): (r: seq<Counted>)
    ensures |r| == |rows|
    ensures SortedByUserTime(RowsOf(r)) && multiset(RowsOf(r)) == multiset(rows)
    ensures forall i :: 0 <= i < |r| ==> r[i].txCount == RollingCount(RowsOf(r), i)
    ensures forall i :: 0 <= i < |r| ==> 1 <= r[i].txCount <= SameUserCount(RowsOf(r), i, i) + 1
  {
    var sorted := SortByUserTime(rows);
    assert |sorted| == |rows| by {
      assert |multiset(sorted)| == |multiset(rows)|;
    }
    var r := seq(|sorted|, i requires 0 <= i < |sorted| => Counted(sorted[i], RollingCount(sorted, i)));
    assert RowsOf(r) == sorted;
    assert forall i :: 0 <= i < |r| ==> 1 <= r[i].txCount <= SameUserCount(sorted, i, i) + 1 by {
      forall i | 0 <= i < |r| ensures 1 <= r[i].txCount <= SameUserCount(sorted, i, i) + 1 {
        RollingCountBounds(sorted, i);
      }
    }
    r
  }

  /** Step 3 of `transform` with an override: every row gets that count and
    * the rows keep their order. */
  function OverrideVelocity(rows: seq<Enriched>, velocity: int): (r: seq<Counted>)
    ensures |r| == |rows|
    ensures forall i :: 0 <= i < |r| ==> r[i] == Counted(rows[i], velocity)
  {
    seq(|rows|, i requires 0 <= i < |rows| => Counted(rows[i], velocity))
  }

  function VelocityStage(rows: seq<Enriched>, velocityOverride: Option<int>): seq<Counted>
  {
    if velocityOverride.Some? then OverrideVelocity(rows, velocityOverride.value)
    else CalculateVelocity(rows)
  }

  // ----------------------------------------------- scaling, encoding, output

  function NumericOf(c: Counted): NumericFeatures
  {
    NumericFeatures(c.row.tx.purchaseValue, c.row.tx.age as real, c.row.time.timeSinceSignupHours, c.txCount as real)
  }

  function CategoricalOf(c: Counted): CategoricalFeatures
  {
    CategoricalFeatures(c.row.tx.source, c.row.tx.browser, c.row.tx.sex, c.row.tx.country,
                        c.row.time.hourOfDay, c.row.time.dayOfWeek)
  }

  function NumericColumns(counted: seq<Counted>): seq<NumericFeatures>
  {
    seq(|counted|, i requires 0 <= i < |counted| => NumericOf(counted[i]))
  }

  function CategoricalColumns(counted: seq<Counted>): seq<CategoricalFeatures>
  {
    seq(|counted|, i requires 0 <= i < |counted| => CategoricalOf(counted[i]))
  }

  /** One output row: the scaled columns, the passed-through label and the
    * encoded block; the identifier, time, address and raw categorical
    * columns are gone. */
  function FeatureRowOf<S, E>(est: Estimators<S, E>, scaler: S, encoder: E, c: Counted): FeatureRow
  {
    var scaled := est.scale(scaler, NumericOf(c));
    FeatureRow(scaled.purchaseValue, scaled.age, c.row.tx.classLabel,
               scaled.timeSinceSignupHours, scaled.txCount, est.encode(encoder, CategoricalOf(c)))
  }

  /** The raw columns are dropped: an output row depends only on the numeric
    * columns the scaler sees, the encoder's categorical columns and the
    * label. The user and device ids, the address and the two raw times
    * cannot reach it. */
  lemma OutputIgnoresRawColumns<S, E>(est: Estimators<S, E>, scaler: S, encoder: E, c1: Counted, c2: Counted)
    requires NumericOf(c1) == NumericOf(c2) && CategoricalOf(c1) == CategoricalOf(c2)
    requires c1.row.tx.classLabel == c2.row.tx.classLabel
    ensures FeatureRowOf(est, scaler, encoder, c1) == FeatureRowOf(est, scaler, encoder, c2)
  {
  }

  function Assemble<S, E>(est: Estimators<S, E>, scaler: S, encoder: E, counted: seq<Counted>): seq<FeatureRow>
  {
    seq(|counted|, i requires 0 <= i < |counted| => FeatureRowOf(est, scaler, encoder, counted[i]))
  }

  /** What `transform` leaves behind: the caller's frame (which it mutates),
    * the scaler and encoder states, and the returned table or the error. */
  datatype TransformOutcome<S, E> = TransformOutcome(
    callerFrame: Frame, scaler: Option<S>, encoder: Option<E>,
    result: Result<seq<FeatureRow>, TransformError>)

  /** The whole of `transform` as a function of the engineer's state. */
  function Pipeline<S, E>(est: Estimators<S, E>, ipMap: Option<seq<IpRange>>, scaler: Option<S>, encoder: Option<E>,
                          frame: Frame, isTraining: bool, velocityOverride: Option<int>): (o: TransformOutcome<S, E>)
    ensures o.callerFrame == AddCountry(frame, ipMap)
    ensures !isTraining ==> o.scaler == scaler && o.encoder == encoder
    ensures o.result.Err? <==>
      (!isTraining && scaler.None?) || !o.callerFrame.hasCountry || (!isTraining && encoder.None?)
    ensures o.result.Ok? ==> |o.result.value| == |frame.rows| && o.scaler.Some? && o.encoder.Some?
  {
    var df := AddCountry(frame, ipMap);
    var counted := VelocityStage(EngineerTimeFeatures(df.rows), velocityOverride);
    if !isTraining && scaler.None? then
      TransformOutcome(df, scaler, encoder, Err(NotFitted("StandardScaler")))
    else
      var sc := if isTraining then est.fitScaler(NumericColumns(counted)) else scaler.value;
      if !df.hasCountry then
        TransformOutcome(df, Some(sc), encoder, Err(MissingColumn("country")))
      else if !isTraining && encoder.None? then
        TransformOutcome(df, Some(sc), encoder, Err(NotFitted("OneHotEncoder")))
      else
        var en := if isTraining then est.fitEncoder(CategoricalColumns(counted)) else encoder.value;
        TransformOutcome(df, Some(sc), Some(en), Ok(Assemble(est, sc, en, counted)))
  }

  /** The rows of a table after steps 1 to 3 of `transform`. */
  function CountedRows(frame: Frame, ipMap: Option<seq<IpRange>>, velocityOverride: Option<int>): seq<Counted>
  {
    VelocityStage(EngineerTimeFeatures(AddCountry(frame, ipMap).rows), velocityOverride)
  }

  /** Where `transform` fails, and with which error: an unfitted scaler is
    * reported before a missing country column, which is reported before an
    * unfitted encoder. Training refits the scaler even when the country
    * column then turns out to be missing; applying never refits. */
  lemma TransformErrors<S, E>(est: Estimators<S, E>, ipMap: Option<seq<IpRange>>, scaler: Option<S>, encoder: Option<E>,
                              frame: Frame, isTraining: bool, velocityOverride: Option<int>)
    ensures var o := Pipeline(est, ipMap, scaler, encoder, frame, isTraining, velocityOverride);
      && (!isTraining && scaler.None? ==> o.result == Err(NotFitted("StandardScaler")))
      && ((isTraining || scaler.Some?) && !frame.hasCountry && ipMap.None? ==>
            o.result == Err(MissingColumn("country")) && o.scaler.Some?)
      && (!isTraining && scaler.Some? && (frame.hasCountry || ipMap.Some?) && encoder.None? ==>
            o.result == Err(NotFitted("OneHotEncoder")))
  {
  }

  /** With an override, the rows keep their input order and every row's
    * velocity column is the override, with no batch computation. */
  lemma OverrideReplacesBatchCount<S, E>(est: Estimators<S, E>, ipMap: Option<seq<IpRange>>, scaler: Option<S>,
                                         encoder: Option<E>, frame: Frame, isTraining: bool, velocity: int)
    ensures var o := Pipeline(est, ipMap, scaler, encoder, frame, isTraining, Some(velocity));
      o.result.Ok? ==> forall i :: 0 <= i < |frame.rows| ==>
        var tx := AddCountry(frame, ipMap).rows[i];
        o.result.value[i] ==
          FeatureRowOf(est, o.scaler.value, o.encoder.value,
                       Counted(Enriched(tx, DeriveTimeFeatures(tx.signupTime, tx.purchaseTime)), velocity))
  {
    AddCountryOnlyWhenAbsent(frame, ipMap);
  }

  /** Without an override, the output rows are the batch-counted rows, in
    * user and time order. */
  lemma BatchCountWithoutOverride<S, E>(est: Estimators<S, E>, ipMap: Option<seq<IpRange>>, scaler: Option<S>,
                                        encoder: Option<E>, frame: Frame, isTraining: bool)
    ensures var o := Pipeline(est, ipMap, scaler, encoder, frame, isTraining, None);
      var counted := CountedRows(frame, ipMap, None);
      && SortedByUserTime(RowsOf(counted))
      && multiset(RowsOf(counted)) == multiset(EngineerTimeFeatures(AddCountry(frame, ipMap).rows))
      && (o.result.Ok? ==> forall i :: 0 <= i < |counted| ==>
            o.result.value[i] == FeatureRowOf(est, o.scaler.value, o.encoder.value, counted[i]) &&
            counted[i].txCount == RollingCount(RowsOf(counted), i))
  {
  }

  /** Applying the fitted engineer to the very table it was trained on, as
    * training left that table (with its country column), gives back the
    * training output: apply reuses what fit learnt. */
  lemma FitThenApplyParity<S, E>(est: Estimators<S, E>, ipMap: Option<seq<IpRange>>, scaler: Option<S>,
                                 encoder: Option<E>, frame: Frame, velocityOverride: Option<int>)
    requires Pipeline(est, ipMap, scaler, encoder, frame, true, velocityOverride).result.Ok?
    ensures var trained := Pipeline(est, ipMap, scaler, encoder, frame, true, velocityOverride);
      var applied := Pipeline(est, ipMap, trained.scaler, trained.encoder, trained.callerFrame, false, velocityOverride);
      applied.result == trained.result && applied.scaler == trained.scaler && applied.encoder == trained.encoder
  {
    AddCountryIdempotent(frame, ipMap);
  }

  /** A row with its time features and looked-up country, as `transform`
    * derives them from a frame without a country column. */
  predicate DerivedRow(e: Enriched, ipMap: Option<seq<IpRange>>)
  {
    e.time == DeriveTimeFeatures(e.tx.signupTime, e.tx.purchaseTime) &&
    e.tx.country == GetCountry(ipMap, e.tx.ipAddress)
  }

  lemma {:induction false} BatchRowsDerived(frame: Frame, ipMap: Option<seq<IpRange>>)
    requires !frame.hasCountry && ipMap.Some?
    ensures forall c :: c in CountedRows(frame, ipMap, None) ==> DerivedRow(c.row, ipMap)
  {
    var enriched := EngineerTimeFeatures(AddCountry(frame, ipMap).rows);
    var counted := CountedRows(frame, ipMap, None);
    AddCountryOnlyWhenAbsent(frame, ipMap);
    forall c | c in counted ensures DerivedRow(c.row, ipMap) {
      var k :| 0 <= k < |counted| && counted[k] == c;
      assert RowsOf(counted)[k] == c.row;
      assert c.row in multiset(RowsOf(counted));
      assert c.row in multiset(enriched);
      var j :| 0 <= j < |enriched| && enriched[j] == c.row;
      assert c.row.tx.(country := frame.rows[j].country) == frame.rows[j];
    }
  }

  /** Serving one transaction of the training table, with the velocity
    * override equal to the batch count its row got in training, reproduces
    * that row of the training output. Only the label column may differ: a
    * served request carries no `class`, and the label is passed through. */
  lemma ServingReproducesTraining<S, E>(est: Estimators<S, E>, ipMap: Option<seq<IpRange>>, scaler: Option<S>,
                                        encoder: Option<E>, frame: Frame, k: nat, request: Transaction, velocity: int)
    requires ipMap.Some? && !frame.hasCountry
    requires Pipeline(est, ipMap, scaler, encoder, frame, true, None).result.Ok?
    requires k < |frame.rows|
    requires var row := CountedRows(frame, ipMap, None)[k];
      request.(country := row.row.tx.country, classLabel := row.row.tx.classLabel) == row.row.tx &&
      velocity == row.txCount
    ensures var trained := Pipeline(est, ipMap, scaler, encoder, frame, true, None);
      var served := Pipeline(est, ipMap, trained.scaler, trained.encoder, Frame([request], false), false, Some(velocity));
      served.result == Ok([trained.result.value[k].(classLabel := request.classLabel)])
  {
    var counted := CountedRows(frame, ipMap, None);
    var trained := Pipeline(est, ipMap, scaler, encoder, frame, true, None);
    var sc := est.fitScaler(NumericColumns(counted));
    var en := est.fitEncoder(CategoricalColumns(counted));
    PipelineOk(est, ipMap, scaler, encoder, frame, true, None);
    assert trained.scaler == Some(sc) && trained.encoder == Some(en);
    assert trained.result.value[k] == FeatureRowOf(est, sc, en, counted[k]);

    BatchRowsDerived(frame, ipMap);
    assert counted[k] in counted;
    var request' := request.(country := GetCountry(ipMap, request.ipAddress));
    assert request' == counted[k].row.tx.(classLabel := request.classLabel);
    var c' := Counted(Enriched(request', counted[k].row.time), velocity);
    assert AddCountry(Frame([request], false), ipMap) == Frame([request'], true);
    assert EngineerTimeFeatures([request']) == [c'.row];
    assert CountedRows(Frame([request], false), ipMap, Some(velocity)) == [c'];
    assert NumericOf(c') == NumericOf(counted[k]) && CategoricalOf(c') == CategoricalOf(counted[k]);
    var served := Pipeline(est, ipMap, Some(sc), Some(en), Frame([request], false), false, Some(velocity));
    PipelineOk(est, ipMap, Some(sc), Some(en), Frame([request], false), false, Some(velocity));
    assert served.result.value == Assemble(est, sc, en, [c']);
    assert Assemble(est, sc, en, [c']) == [FeatureRowOf(est, sc, en, counted[k]).(classLabel := request.classLabel)];
  }

  /** A successful `transform` is the assembled output of the counted rows
    * with the scaler and encoder it leaves behind; training fits both on the
    * same counted rows. */
  lemma PipelineOk<S, E>(est: Estimators<S, E>, ipMap: Option<seq<IpRange>>, scaler: Option<S>, encoder: Option<E>,
                         frame: Frame, isTraining: bool, velocityOverride: Option<int>)
    requires Pipeline(est, ipMap, scaler, encoder, frame, isTraining, velocityOverride).result.Ok?
    ensures var o := Pipeline(est, ipMap, scaler, encoder, frame, isTraining, velocityOverride);
      var counted := CountedRows(frame, ipMap, velocityOverride);
      && o.scaler.Some? && o.encoder.Some?
      && o.result.value == Assemble(est, o.scaler.value, o.encoder.value, counted)
      && (isTraining ==> o.scaler.value == est.fitScaler(NumericColumns(counted)) &&
                         o.encoder.value == est.fitEncoder(CategoricalColumns(counted)))
  {
  }

  /** The engineer object: the IP table and the fitted estimator states. */
  class FeatureEngineer<S, E> {
    const estimators: Estimators<S, E>
    var ipMap: Option<seq<IpRange>>
    var scaler: Option<S>
    var encoder: Option<E>

    constructor (estimators: Estimators<S, E>)
      ensures this.estimators == estimators
      ensures ipMap == None && scaler == None && encoder == None
    {
      this.estimators := estimators;
      ipMap := None;
      scaler := None;
      encoder := None;
    }

    method FitIpMap(table: seq<IpRange>)
      modifies this
      ensures ipMap == Some(table)
      ensures scaler == old(scaler) && encoder == old(encoder)
    {
      ipMap := Some(table);
    }

    /** Applies the pipeline; training fits the scaler and then the encoder
      * in place, which stay fitted even when a later step raises. */
    method Transform(df: Frame, isTraining: bool := false, velocityOverride: Option<int> := None)
      returns (callerFrame: Frame, result: Result<seq<FeatureRow>, TransformError>)
      modifies this
      ensures ipMap == old(ipMap)
      ensures var o := Pipeline(estimators, old(ipMap), old(scaler), old(encoder), df, isTraining, velocityOverride);
        callerFrame == o.callerFrame && result == o.result && scaler == o.scaler && encoder == o.encoder
    {
      // 1. country, written into the caller's frame
      callerFrame := AddCountry(df, ipMap);
      // 2. time features, on a copy
      var rows := EngineerTimeFeatures(callerFrame.rows);
      // 3. velocity
      var counted;
      if velocityOverride.Some? {
        counted := OverrideVelocity(rows, velocityOverride.value);
      } else {
        counted := CalculateVelocity(rows);
      }
      // 4. scaling
      if isTraining {
        scaler := Some(estimators.fitScaler(NumericColumns(counted)));
      } else if scaler.None? {
        result := Err(NotFitted("StandardScaler"));
        return;
      }
      // 5. encoding: selecting the categorical columns needs `country`
      if !callerFrame.hasCountry {
        result := Err(MissingColumn("country"));
        return;
      }
      if isTraining {
        encoder := Some(estimators.fitEncoder(CategoricalColumns(counted)));
      } else if encoder.None? {
        result := Err(NotFitted("OneHotEncoder"));
        return;
      }
      result := Ok(Assemble(estimators, scaler.value, encoder.value, counted));
    }
  }
}
