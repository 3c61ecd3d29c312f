/** The dashboard of `src/App.js`: rows loaded once from the bundled CSV,
    a date-range filter over their last-activity time, summary figures
    formatted in dollars or millions, and an hourly normal-versus-fraud
    histogram. */
module CsvDashboard {
  import opened Common
  import opened Transactions

  // ---------------------------------------------------------------------
  // Loading
  // ---------------------------------------------------------------------

  /** A CSV cell after Papa Parse's dynamic typing: an empty cell is null,
      `true`/`TRUE`/`false`/`FALSE` become booleans and numeric text becomes
      a number; `True` stays text. ISO date-time text with a zone becomes a
      `Date` object, which is kept here as its text: a date cell is truthy
      either way and is read only through the date parser. */
  datatype Cell = Blank | Text(text: string) | Number(number: real) | Boolean(flag: bool)

  /** JavaScript truthiness of a cell. */
  predicate Truthy(c: Cell)
  {
    match c
    case Blank => false
    case Text(x) => x != ""
    case Number(n) => n != 0.0
    case Boolean(b) => b
  }

  /** A parsed CSV row, reduced to the columns the dashboard reads. */
  datatype Row = Row(
    txType: string,
    country: string,
    amount: real,
    diffOrig: real,
    creationDate: Cell,
    lastActivityDate: Cell,
    isFraud: Cell)

  /** `parseDate`: `new Date(value)`, None when its time is NaN. The
      browser's date parser is not modelled; every operation that parses
      takes it as a parameter. */
  type DateParser = Cell -> Option<int>

  /** A row survives both filters of the load pipeline: its two date cells
      are truthy, and both parse. */
  predicate Kept(row: Row, parse: DateParser)
  {
    && Truthy(row.creationDate) && Truthy(row.lastActivityDate)
    && parse(row.creationDate).Some? && parse(row.lastActivityDate).Some?
  }

  /** The `map` step: dates replaced by their parsed instants and the fraud
      flag set from the raw cell. */
  function ToTransaction(row: Row, parse: DateParser): (t: Transaction<int>)
    requires Kept(row, parse)
    ensures t.isFraud <==> row.isFraud == Text("True")
    ensures parse(row.creationDate) == Some(t.creationDate)
    ensures parse(row.lastActivityDate) == Some(t.lastActivityDate)
    ensures t.txType == row.txType && t.country == row.country
    ensures t.amount == row.amount && t.diffOrig == row.diffOrig
  {
    Transaction(row.txType, row.country, row.amount, row.diffOrig,
                parse(row.creationDate).value, parse(row.lastActivityDate).value,
                row.isFraud == Text("True"))
  }

  /** `t` is the transaction some kept row of `rows` maps to. */
  predicate FromKeptRow(t: Transaction<int>, rows: seq<Row>, parse: DateParser)
  {
    exists j :: 0 <= j < |rows| && Kept(rows[j], parse) && t == ToTransaction(rows[j], parse)
  }

  /** `processedData`: filter, map and filter again, fused into one pass. */
  function Load(rows: seq<Row>, parse: DateParser): (r: seq<Transaction<int>>)
    ensures |r| <= |rows|
    ensures forall i :: 0 <= i < |r| ==>
      FromKeptRow(r[i], rows, parse)
    ensures forall j :: 0 <= j < |rows| && Kept(rows[j], parse) ==> ToTransaction(rows[j], parse) in r
  {
    if rows == [] then []
    else
      var head := if Kept(rows[0], parse) then [ToTransaction(rows[0], parse)] else [];
      var rest := Load(rows[1..], parse);
      var r := head + rest;
      assert forall i :: 0 <= i < |r| ==> FromKeptRow(r[i], rows, parse) by {
        forall i | 0 <= i < |r|
          ensures FromKeptRow(r[i], rows, parse)
        {
          if i < |head| {
            assert Kept(rows[0], parse) && r[i] == ToTransaction(rows[0], parse);
          } else {
            assert r[i] == rest[i - |head|];
            assert FromKeptRow(rest[i - |head|], rows[1..], parse);
            var j :| 0 <= j < |rows[1..]| && Kept(rows[1..][j], parse) && rest[i - |head|] == ToTransaction(rows[1..][j], parse);
            assert rows[j + 1] == rows[1..][j];
            assert Kept(rows[j + 1], parse) && r[i] == ToTransaction(rows[j + 1], parse);
          }
        }
      }
      assert forall j :: 1 <= j < |rows| ==> rows[j] == rows[1..][j - 1];
      r
  }

  /** Loading keeps the rows' order: it commutes with concatenation. */
  lemma {:induction false} LoadConcat(a: seq<Row>, b: seq<Row>, parse: DateParser)
    ensures Load(a + b, parse) == Load(a, parse) + Load(b, parse)
  {
    if a == [] {
      assert a + b == b;
    } else {
      assert (a + b)[0] == a[0];
      assert (a + b)[1..] == a[1..] + b;
      LoadConcat(a[1..], b, parse);
    }
  }

  // ---------------------------------------------------------------------
  // Component state and the date filter
  // ---------------------------------------------------------------------

  /** The React state the figures are computed from. */
  datatype State = State(
    data: seq<Transaction<int>>,
    filteredData: seq<Transaction<int>>,
    startDate: string,
    endDate: string)

  const InitialStartDate: string := "2024-08-30T09:46:32"
  const InitialEndDate: string := "2024-09-01T00:00:00"

  function InitialState(): State
  {
    State([], [], InitialStartDate, InitialEndDate)
  }

  /** `data.filter(item => itemDate >= start && itemDate <= end)`. */
  function RangeFilter(data: seq<Transaction<int>>, lo: int, hi: int): (r: seq<Transaction<int>>)
    ensures IsSubsequence(r, data)
    ensures forall i :: 0 <= i < |r| ==> lo <= r[i].lastActivityDate <= hi
    ensures forall i :: 0 <= i < |data| && lo <= data[i].lastActivityDate <= hi ==> data[i] in r
    ensures forall t :: multiset(r)[t] == if lo <= t.lastActivityDate <= hi then multiset(data)[t] else 0
    ensures lo > hi ==> r == []
  {
    var p := (t: Transaction<int>) => lo <= t.lastActivityDate <= hi;
    FilterMembers(data, p);
    FilterIsSubsequence(data, p);
    FilterMultiset(data, p);
    Filter(data, p)
  }

  /** A range that covers every record keeps the data as it is, so every
      figure over the filtered rows is the figure over all of them. */
  lemma RangeFilterKeepsAll(data: seq<Transaction<int>>, lo: int, hi: int)
    requires forall i :: 0 <= i < |data| ==> lo <= data[i].lastActivityDate <= hi
    ensures RangeFilter(data, lo, hi) == data
    ensures TotalAmount(RangeFilter(data, lo, hi)) == TotalAmount(data)
  {
    FilterAll(data, (t: Transaction<int>) => lo <= t.lastActivityDate <= hi);
  }

  /** The effect that reruns whenever `startDate`, `endDate` or `data`
      changes: an unparsable bound leaves `filteredData` as it was. */
  function ApplyDateFilter(st: State, parse: DateParser): (r: State)
    ensures r.data == st.data && r.startDate == st.startDate && r.endDate == st.endDate
    ensures parse(Text(st.startDate)).None? || parse(Text(st.endDate)).None? ==> r == st
    ensures parse(Text(st.startDate)).Some? && parse(Text(st.endDate)).Some? ==>
      r.filteredData == RangeFilter(st.data, parse(Text(st.startDate)).value, parse(Text(st.endDate)).value)
  {
    var start := parse(Text(st.startDate));
    var end := parse(Text(st.endDate));
    if start.None? || end.None? then st
    else st.(filteredData := RangeFilter(st.data, start.value, end.value))
  }

  /** The effect reads only `data` and the bounds, so running it again
      changes nothing. */
  lemma ApplyDateFilterIdempotent(st: State, parse: DateParser)
    ensures ApplyDateFilter(ApplyDateFilter(st, parse), parse) == ApplyDateFilter(st, parse)
  {
  }

  /** Papa Parse's `complete` callback sets both `data` and `filteredData`;
      the new `data` then reruns the date filter. */
  function OnLoad(st: State, rows: seq<Row>, parse: DateParser): (r: State)
    ensures r.data == Load(rows, parse)
    ensures parse(Text(st.startDate)).None? || parse(Text(st.endDate)).None? ==>
      r.filteredData == Load(rows, parse)
    ensures parse(Text(st.startDate)).Some? && parse(Text(st.endDate)).Some? ==>
      r.filteredData == RangeFilter(Load(rows, parse), parse(Text(st.startDate)).value, parse(Text(st.endDate)).value)
  {
    var loaded := Load(rows, parse);
    ApplyDateFilter(st.(data := loaded, filteredData := loaded), parse)
  }

  /** Editing either date input updates the state and reruns the filter. */
  function SetStartDate(st: State, value: string, parse: DateParser): (r: State)
    ensures r.startDate == value && r.endDate == st.endDate && r.data == st.data
    ensures parse(Text(value)).None? || parse(Text(st.endDate)).None? ==>
      r.filteredData == st.filteredData
    ensures parse(Text(value)).Some? && parse(Text(st.endDate)).Some? ==>
      r.filteredData == RangeFilter(st.data, parse(Text(value)).value, parse(Text(st.endDate)).value)
  {
    ApplyDateFilter(st.(startDate := value), parse)
  }

  function SetEndDate(st: State, value: string, parse: DateParser): (r: State)
    ensures r.endDate == value && r.startDate == st.startDate && r.data == st.data
    ensures parse(Text(st.startDate)).None? || parse(Text(value)).None? ==>
      r.filteredData == st.filteredData
    ensures parse(Text(st.startDate)).Some? && parse(Text(value)).Some? ==>
      r.filteredData == RangeFilter(st.data, parse(Text(st.startDate)).value, parse(Text(value)).value)
  {
    ApplyDateFilter(st.(endDate := value), parse)
  }

  // ---------------------------------------------------------------------
  // Formatted figures
  // ---------------------------------------------------------------------

  /** Which branch of `formatAmount` is taken and the number it prints with
      two decimals: `$<millions> M`, or `$<amount>` (`$NaN` for None). */
  datatype Formatted = Millions(millions: real) | Dollars(dollars: Option<real>)

  function FormatAmount(amount: Option<real>): (r: Formatted)
    ensures r.Millions? <==> amount.Some? && amount.value >= 100000.0
    ensures r.Millions? ==> r.millions * 1000000.0 == amount.value && r.millions >= 0.1
    ensures r.Dollars? ==> r.dollars == amount
  {
    if amount.Some? && amount.value >= 100000.0 then Millions(amount.value / 1000000.0)
    else Dollars(amount)
  }

  function GetTotalAmount(st: State): (r: Formatted)
    ensures r.Millions? <==> TotalAmount(st.filteredData) >= 100000.0
    ensures r.Millions? ==> r.millions * 1000000.0 == TotalAmount(st.filteredData)
    ensures r.Dollars? ==> r.dollars == Some(TotalAmount(st.filteredData))
    ensures st.filteredData == [] ==> r == Dollars(Some(0.0))
  {
    FormatAmount(Some(TotalAmount(st.filteredData)))
  }

  function GetAverageAmount(st: State): (r: Formatted)
    ensures st.filteredData == [] ==> r == Dollars(None)
    ensures r.Millions? ==> st.filteredData != [] && TotalAmount(st.filteredData) >= 100000.0 * (|st.filteredData| as real)
    ensures r.Millions? ==> AverageAmount(st.filteredData).Some? && r.millions * 1000000.0 == AverageAmount(st.filteredData).value
    ensures r.Dollars? ==> r.dollars == AverageAmount(st.filteredData)
  {
    var avg := AverageAmount(st.filteredData);
    if avg.Some? then
      AverageAtLeast(avg.value, |st.filteredData| as real, TotalAmount(st.filteredData));
      FormatAmount(avg)
    else FormatAmount(avg)
  }

  lemma AverageAtLeast(avg: real, n: real, total: real)
    requires n > 0.0 && avg * n == total
    ensures avg >= 100000.0 ==> total >= 100000.0 * n
  {
    assert total - 100000.0 * n == (avg - 100000.0) * n;
  }

  datatype FraudDisplay = FraudDisplay(count: nat, amount: Formatted, percentage: Option<real>)

  /** `getFraudStats`: the amount goes through `formatAmount`, the
      percentage is printed with two decimals. */
  function GetFraudStats(st: State): (r: FraudDisplay)
    ensures r.count == |FraudOnly(st.filteredData)| <= |st.filteredData|
    ensures r.amount == FormatAmount(Some(TotalAmount(FraudOnly(st.filteredData))))
    ensures r.amount.Millions? <==> FraudStats(st.filteredData).amount >= 100000.0
    ensures r.percentage == FraudStats(st.filteredData).percentage
    ensures r.percentage.None? <==> st.filteredData == []
    ensures r.percentage.Some? ==> 0.0 <= r.percentage.value <= 100.0
    ensures r.percentage.Some? ==> r.percentage.value == 100.0 * (r.count as real) / (|st.filteredData| as real)
  {
    var f := FraudStats(st.filteredData);
    if f.percentage.Some? then
      PercentageBounds(f.count, |st.filteredData|);
      FraudDisplay(f.count, FormatAmount(Some(f.amount)), f.percentage)
    else
      FraudDisplay(f.count, FormatAmount(Some(f.amount)), f.percentage)
  }

  /** Before the CSV arrives nothing is loaded: the figures read `$0.00`,
      `$NaN`, and a fraud count of 0 with `$0.00` and `NaN%`. */
  lemma InitialDisplay()
    ensures InitialState().filteredData == []
    ensures GetTotalAmount(InitialState()) == Dollars(Some(0.0))
    ensures GetAverageAmount(InitialState()) == Dollars(None)
    ensures GetFraudStats(InitialState()) == FraudDisplay(0, Dollars(Some(0.0)), None)
  {
  }

  // ---------------------------------------------------------------------
  // Hourly histogram
  // ---------------------------------------------------------------------

  const HourMs: int := 3600000

  /** The hour since the epoch that `toISOString().slice(0, 13)` names: a
      floor division, which Dafny's `/` is for a positive divisor. */
  function HourOf(t: int): (h: int)
    ensures h * HourMs <= t < h * HourMs + HourMs
  {
    t / HourMs
  }

  lemma HourOfShift(t: int, i: int)
    ensures HourOf(t + i * HourMs) == HourOf(t) + i
  {
  }

  lemma HourOfMonotone(a: int, b: int)
    requires a <= b
    ensures HourOf(a) <= HourOf(b)
  {
  }

  /** A bar of the chart: counts and the instant the walk produced. */
  datatype Bucket = Bucket(normal: nat, fraud: nat, date: int)

  /** The number of rows in hour `h` whose fraud flag is `fraud`. */
  function HourCount(s: seq<Transaction<int>>, h: int, fraud: bool): nat
  {
    if s == [] then 0
    else
      var last := s[|s| - 1];
      HourCount(s[..|s| - 1], h, fraud) + (if HourOf(last.lastActivityDate) == h && last.isFraud == fraud then 1 else 0)
  }

  /** How many instants `from`, `from + 1h`, ... do not exceed `end`. */
  function StepCount(from: int, end: int): nat
  {
    if from <= end then (end - from) / HourMs + 1 else 0
  }

  function BucketAt(s: seq<Transaction<int>>, date: int): Bucket
  {
    Bucket(HourCount(s, HourOf(date), false), HourCount(s, HourOf(date), true), date)
  }

  /** The buckets a walk from `from` to `end` in one-hour steps fills: one
      per step, in time order, none when `from` is after `end`; each counts
      the rows whose hour is its own. */
  function Histogram(s: seq<Transaction<int>>, from: int, end: int): (r: seq<Bucket>)
    ensures from > end <==> r == []
    ensures forall i :: 0 <= i < |r| ==>
      r[i].date == from + i * HourMs && HourOf(r[i].date) == HourOf(from) + i
    ensures r != [] ==> r[|r| - 1].date <= end < r[|r| - 1].date + HourMs
    ensures forall i :: 0 <= i < |r| ==>
      r[i].normal == HourCount(s, HourOf(from) + i, false) && r[i].fraud == HourCount(s, HourOf(from) + i, true)
  {
    var n := StepCount(from, end);
    forall i | 0 <= i < n ensures HourOf(from + i * HourMs) == HourOf(from) + i {
      HourOfShift(from, i);
    }
    seq(n, i requires 0 <= i < n => BucketAt(s, from + i * HourMs))
  }

  /** The initial range, 2024-08-30 09:46:32 to 2024-09-01 00:00:00 read
      in one time zone with no daylight-saving change between, lasts 38
      hours 13 minutes 28 seconds: the chart has 39 bars, the last dated
      23:46:32, so the hour from midnight on gets none. */
  lemma InitialRangeBars(s: seq<Transaction<int>>, parse: DateParser)
    requires parse(Text(InitialStartDate)).Some? && parse(Text(InitialEndDate)).Some?
    requires parse(Text(InitialEndDate)).value - parse(Text(InitialStartDate)).value == 137608000
    ensures var lo := parse(Text(InitialStartDate)).value;
      var b := Histogram(s, lo, parse(Text(InitialEndDate)).value);
      |b| == 39 && b[38].date == lo + 136800000
  {
  }

  /** `getStackedBarData`'s first loop: one empty bucket per step of the
      walk from `from`, keyed by the step's hour; `keys` lists the keys in
      insertion order. */
  method EmptyHours(from: int, end: int) returns (hourly: map<int, Bucket>, keys: seq<int>)
    ensures |keys| == StepCount(from, end)
    ensures forall i :: 0 <= i < |keys| ==> keys[i] == HourOf(from) + i
    ensures forall k :: k in hourly <==> k in keys
    ensures forall i :: 0 <= i < |keys| ==> keys[i] in hourly && hourly[keys[i]] == Bucket(0, 0, from + i * HourMs)
  {
    hourly := map[];
    keys := [];
    var d := from;
    while d <= end
      invariant d == from + |keys| * HourMs
      invariant |keys| > 0 ==> from + (|keys| - 1) * HourMs <= end
      invariant forall i :: 0 <= i < |keys| ==> keys[i] == HourOf(from) + i
      invariant forall k :: k in hourly <==> k in keys
      invariant forall i :: 0 <= i < |keys| ==> hourly[keys[i]] == Bucket(0, 0, from + i * HourMs)
      decreases end - d
    {
      var key := HourOf(d);
      HourOfShift(from, |keys|);
      if key !in hourly {
        keys := keys + [key];
      }
      hourly := hourly[key := Bucket(0, 0, d)];
      d := d + HourMs;
    }
  }

  /** `getStackedBarData`'s second loop: each row whose hour has a bucket
      adds one to that bucket's normal or fraud count. */
  method CountRows(s: seq<Transaction<int>>, from: int, empty: map<int, Bucket>, keys: seq<int>)
    returns (hourly: map<int, Bucket>)
    requires forall k :: k in empty <==> k in keys
    requires forall i :: 0 <= i < |keys| ==> keys[i] in empty && empty[keys[i]] == Bucket(0, 0, from + i * HourMs)
    ensures forall k :: k in hourly <==> k in keys
    ensures forall i :: 0 <= i < |keys| ==>
      keys[i] in hourly && hourly[keys[i]] == Bucket(HourCount(s, keys[i], false), HourCount(s, keys[i], true), from + i * HourMs)
  {
    hourly := empty;
    for j := 0 to |s|
      invariant forall k :: k in hourly <==> k in keys
      invariant forall i :: 0 <= i < |keys| ==>
        keys[i] in hourly && hourly[keys[i]] == Bucket(HourCount(s[..j], keys[i], false), HourCount(s[..j], keys[i], true), from + i * HourMs)
    {
      var item := s[j];
      var hour := HourOf(item.lastActivityDate);
      assert s[..j + 1][..j] == s[..j];
      if hour in hourly {
        var b := hourly[hour];
        if item.isFraud {
          hourly := hourly[hour := b.(fraud := b.fraud + 1)];
        } else {
          hourly := hourly[hour := b.(normal := b.normal + 1)];
        }
      }
    }
    assert s[..|s|] == s;
  }

  /** `getStackedBarData`'s two loops over a dictionary keyed by hour and
      its `Object.values`, for a walk that starts at `from`. */
  method HourlyBuckets(s: seq<Transaction<int>>, from: int, end: int) returns (buckets: seq<Bucket>)
    ensures buckets == Histogram(s, from, end)
  {
    var empty, keys := EmptyHours(from, end);
    var hourly := CountRows(s, from, empty, keys);
    buckets := seq(|keys|, i requires 0 <= i < |keys| && keys[i] in hourly => hourly[keys[i]]);
  }

  /** `getStackedBarData`: nothing when a bound does not parse, otherwise
      the walk from the start bound. */
  method StackedBarData(st: State, parse: DateParser) returns (buckets: seq<Bucket>)
    ensures parse(Text(st.startDate)).None? || parse(Text(st.endDate)).None? ==> buckets == []
    ensures parse(Text(st.startDate)).Some? && parse(Text(st.endDate)).Some? ==>
      buckets == Histogram(st.filteredData, parse(Text(st.startDate)).value, parse(Text(st.endDate)).value)
  {
    var start := parse(Text(st.startDate));
    var end := parse(Text(st.endDate));
    if start.None? || end.None? {
      return [];
    }
    buckets := HourlyBuckets(st.filteredData, start.value, end.value);
  }

  /** The sum of all bars' counts. */
  function BucketsTotal(b: seq<Bucket>): nat
  {
    if b == [] then 0 else BucketsTotal(b[..|b| - 1]) + b[|b| - 1].normal + b[|b| - 1].fraud
  }

  /** The rows whose hour lies in `[h0, h0 + n)`. */
  function CoveredCount(s: seq<Transaction<int>>, h0: int, n: nat): nat
  {
    if s == [] then 0
    else
      var h := HourOf(s[|s| - 1].lastActivityDate);
      CoveredCount(s[..|s| - 1], h0, n) + (if h0 <= h < h0 + n then 1 else 0)
  }

  lemma {:induction false} CoveredCountBound(s: seq<Transaction<int>>, h0: int, n: nat)
    ensures CoveredCount(s, h0, n) <= |s|
    ensures (forall i :: 0 <= i < |s| ==> h0 <= HourOf(s[i].lastActivityDate) < h0 + n) ==> CoveredCount(s, h0, n) == |s|
  {
    if s != [] {
      CoveredCountBound(s[..|s| - 1], h0, n);
    }
  }

  /** Counts of the hours `h0 .. h0 + n - 1`, both flags. */
  function HoursTotal(s: seq<Transaction<int>>, h0: int, n: nat): nat
  {
    if n == 0 then 0
    else HoursTotal(s, h0, n - 1) + HourCount(s, h0 + n - 1, false) + HourCount(s, h0 + n - 1, true)
  }

  lemma {:induction false} HoursTotalAppend(s: seq<Transaction<int>>, x: Transaction<int>, h0: int, n: nat)
    ensures HoursTotal(s + [x], h0, n) ==
      HoursTotal(s, h0, n) + (if h0 <= HourOf(x.lastActivityDate) < h0 + n then 1 else 0)
  {
    assert (s + [x])[..|s|] == s;
    if n > 0 {
      HoursTotalAppend(s, x, h0, n - 1);
    }
  }

  lemma {:induction false} HoursTotalIsCovered(s: seq<Transaction<int>>, h0: int, n: nat)
    ensures HoursTotal(s, h0, n) == CoveredCount(s, h0, n)
  {
    if s == [] {
      HoursTotalEmpty(h0, n);
    } else {
      var s' := s[..|s| - 1];
      assert s' + [s[|s| - 1]] == s;
      HoursTotalIsCovered(s', h0, n);
      HoursTotalAppend(s', s[|s| - 1], h0, n);
    }
  }

  lemma {:induction false} HoursTotalEmpty(h0: int, n: nat)
    ensures HoursTotal([], h0, n) == 0
  {
    if n > 0 {
      HoursTotalEmpty(h0, n - 1);
    }
  }

  lemma {:induction false} BucketsTotalOfHours(b: seq<Bucket>, s: seq<Transaction<int>>, h0: int)
    requires forall i :: 0 <= i < |b| ==>
      b[i].normal == HourCount(s, h0 + i, false) && b[i].fraud == HourCount(s, h0 + i, true)
    ensures BucketsTotal(b) == HoursTotal(s, h0, |b|)
  {
    if b != [] {
      BucketsTotalOfHours(b[..|b| - 1], s, h0);
    }
  }

  /** Each row is counted at most once, in the bar of its own hour, and
      only when that hour is one the walk reached: the bars add up to the
      rows whose hour lies in the walked hours, never more than all rows. */
  lemma HistogramTotal(s: seq<Transaction<int>>, from: int, end: int)
    ensures BucketsTotal(Histogram(s, from, end)) == CoveredCount(s, HourOf(from), StepCount(from, end))
    ensures BucketsTotal(Histogram(s, from, end)) <= |s|
  {
    var b := Histogram(s, from, end);
    BucketsTotalOfHours(b, s, HourOf(from));
    HoursTotalIsCovered(s, HourOf(from), |b|);
    CoveredCountBound(s, HourOf(from), |b|);
  }

  /** The walk starts at the start bound, not at the top of its hour, so a
      row in the range but in the hour after the last step is dropped: with
      the range 00:30 to 01:10 there is one bar, for hour 0, and a row at
      01:05 counts nowhere. */
  lemma HistogramDropsInRangeRow()
    ensures var row := Transaction("TRANSFER", "USA", 1.0, 0.0, 0, 3900000, false);
      && 1800000 <= row.lastActivityDate <= 4200000
      && BucketsTotal(Histogram([row], 1800000, 4200000)) == 0
  {
    var row := Transaction("TRANSFER", "USA", 1.0, 0.0, 0, 3900000, false);
    var b := Histogram([row], 1800000, 4200000);
    assert StepCount(1800000, 4200000) == 1;
    assert HourOf(3900000) == 1 && HourOf(1800000) == 0;
    assert HourCount([row], 0, false) == 0 by {
      assert [row][..0] == [];
    }
    assert HourCount([row], 0, true) == 0 by {
      assert [row][..0] == [];
    }
    assert |b| == 1;
    assert b[..0] == [];
  }

  /** The walk started at the top of the start bound's hour. */
  method StackedBarDataHourAligned(st: State, parse: DateParser) returns (buckets: seq<Bucket>)
    ensures parse(Text(st.startDate)).None? || parse(Text(st.endDate)).None? ==> buckets == []
    ensures parse(Text(st.startDate)).Some? && parse(Text(st.endDate)).Some? ==>
      buckets == Histogram(st.filteredData, HourOf(parse(Text(st.startDate)).value) * HourMs, parse(Text(st.endDate)).value)
  {
    var start := parse(Text(st.startDate));
    var end := parse(Text(st.endDate));
    if start.None? || end.None? {
      return [];
    }
    buckets := HourlyBuckets(st.filteredData, HourOf(start.value) * HourMs, end.value);
  }

  /** Starting at the top of the hour, every row inside the range is
      counted, so the bars add up to the number of rows. */
  lemma AlignedHistogramCountsEveryRow(s: seq<Transaction<int>>, start: int, end: int)
    requires forall i :: 0 <= i < |s| ==> start <= s[i].lastActivityDate <= end
    ensures BucketsTotal(Histogram(s, HourOf(start) * HourMs, end)) == |s|
  {
    var from := HourOf(start) * HourMs;
    assert HourOf(from) == HourOf(start);
    HistogramTotal(s, from, end);
    forall i | 0 <= i < |s|
      ensures HourOf(from) <= HourOf(s[i].lastActivityDate) < HourOf(from) + StepCount(from, end)
    {
      HourOfMonotone(start, s[i].lastActivityDate);
      HourOfMonotone(s[i].lastActivityDate, end);
      HourOfShift(end, -HourOf(start));
    }
    CoveredCountBound(s, HourOf(from), StepCount(from, end));
  }
}
