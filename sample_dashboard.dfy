/** The dashboard of `transaction-dashboard/src/App.js`: two bundled sample
    records, a date filter whose empty bounds fall back to the epoch and to
    the latest representable date, and the shared statistics over the
    filtered rows. Its records keep their dates as the raw strings, which
    the filter parses on every run. */
module SampleDashboard {
  import opened Common
  import opened Transactions

  /** `new Date(value).getTime()`, None when it is NaN. The browser's date
      parser is not modelled; every operation that parses takes it as a
      parameter. */
  type DateParser = string -> Option<int>

  /** `new Date(8640000000000000)`, the latest instant a JavaScript date
      can hold. */
  const MaxTime: int := 8640000000000000

  /** The two records the mount effect installs. */
  function SampleData(): (r: seq<Transaction<string>>)
    ensures |r| == 2
  {
    [ Transaction("PAYMENT", "USA", 3398.73, 3398.73, "2023-01-01", "2023-07-08", false),
      Transaction("TRANSFER", "UK", 50000.0, 50000.0, "2022-06-15", "2023-07-09", true) ]
  }

  /** The React state the figures are computed from. */
  datatype State = State(
    data: seq<Transaction<string>>,
    filteredData: seq<Transaction<string>>,
    startDate: string,
    endDate: string)

  function InitialState(): State
  {
    State([], [], "", "")
  }

  /** `value ? new Date(value) : new Date(default)`. */
  function Bound(value: string, default: int, parse: DateParser): (r: Option<int>)
    ensures value == "" ==> r == Some(default)
    ensures value != "" ==> r == parse(value)
  {
    if value == "" then Some(default) else parse(value)
  }

  /** `itemDate >= start && itemDate <= end`: every comparison with an
      invalid date is false, so an unparsable record or bound keeps nothing. */
  predicate Keeps(t: Transaction<string>, startDate: string, endDate: string, parse: DateParser)
  {
    var item := parse(t.lastActivityDate);
    var lo := Bound(startDate, 0, parse);
    var hi := Bound(endDate, MaxTime, parse);
    item.Some? && lo.Some? && hi.Some? && lo.value <= item.value <= hi.value
  }

  /** The filter effect's `data.filter(...)`: the order-preserving sublist
      of the records inside the inclusive range. */
  function DateFilter(data: seq<Transaction<string>>, startDate: string, endDate: string, parse: DateParser)
    : (r: seq<Transaction<string>>)
    ensures IsSubsequence(r, data)
    ensures forall i :: 0 <= i < |r| ==> r[i] in data && Keeps(r[i], startDate, endDate, parse)
    ensures forall i :: 0 <= i < |data| && Keeps(data[i], startDate, endDate, parse) ==> data[i] in r
    ensures Bound(startDate, 0, parse).None? || Bound(endDate, MaxTime, parse).None? ==> r == []
    ensures forall t :: multiset(r)[t] == if Keeps(t, startDate, endDate, parse) then multiset(data)[t] else 0
    ensures (Bound(startDate, 0, parse).Some? && Bound(endDate, MaxTime, parse).Some? &&
             Bound(startDate, 0, parse).value > Bound(endDate, MaxTime, parse).value) ==> r == []
  {
    var p := (t: Transaction<string>) => Keeps(t, startDate, endDate, parse);
    var r := Filter(data, p);
    FilterMembers(data, p);
    FilterIsSubsequence(data, p);
    FilterMultiset(data, p);
    var lo := Bound(startDate, 0, parse);
    var hi := Bound(endDate, MaxTime, parse);
    assert lo.None? || hi.None? || lo.value > hi.value ==> r == [] by {
      if r != [] {
        assert Keeps(r[0], startDate, endDate, parse);
      }
    }
    r
  }

  /** Bounds that every record's date lies within keep the data as it is,
      so every figure over the filtered rows is the figure over all of them. */
  lemma DateFilterKeepsAll(data: seq<Transaction<string>>, startDate: string, endDate: string, parse: DateParser)
    requires forall i :: 0 <= i < |data| ==> Keeps(data[i], startDate, endDate, parse)
    ensures DateFilter(data, startDate, endDate, parse) == data
    ensures TotalAmount(DateFilter(data, startDate, endDate, parse)) == TotalAmount(data)
  {
    FilterAll(data, (t: Transaction<string>) => Keeps(t, startDate, endDate, parse));
  }

  /** With both inputs empty the range is the epoch to the latest date: a
      record is kept exactly when its date parses into that range, so every
      record dated from 1970 on is kept and earlier ones are not. */
  lemma UnboundedFilterKeeps(data: seq<Transaction<string>>, parse: DateParser)
    ensures forall i :: 0 <= i < |data| ==>
      (data[i] in DateFilter(data, "", "", parse) <==>
        parse(data[i].lastActivityDate).Some? && 0 <= parse(data[i].lastActivityDate).value <= MaxTime)
  {
    var r := DateFilter(data, "", "", parse);
    forall i | 0 <= i < |data|
      ensures data[i] in r <==>
        parse(data[i].lastActivityDate).Some? && 0 <= parse(data[i].lastActivityDate).value <= MaxTime
    {
      if data[i] in r {
        var k :| 0 <= k < |r| && r[k] == data[i];
        assert Keeps(r[k], "", "", parse);
      }
    }
  }

  /** The effect that reruns whenever `startDate`, `endDate` or `data`
      changes. It always replaces `filteredData`. */
  function ApplyDateFilter(st: State, parse: DateParser): (r: State)
    ensures r.data == st.data && r.startDate == st.startDate && r.endDate == st.endDate
    ensures r.filteredData == DateFilter(st.data, st.startDate, st.endDate, parse)
    ensures IsSubsequence(r.filteredData, st.data)
  {
    st.(filteredData := DateFilter(st.data, st.startDate, st.endDate, parse))
  }

  /** The mount effect sets both lists to the samples; the new `data` then
      reruns the filter. */
  function Mount(st: State, parse: DateParser): (r: State)
    ensures r.data == SampleData()
    ensures r.startDate == st.startDate && r.endDate == st.endDate
    ensures r.filteredData == DateFilter(SampleData(), st.startDate, st.endDate, parse)
  {
    ApplyDateFilter(st.(data := SampleData(), filteredData := SampleData()), parse)
  }

  function SetStartDate(st: State, value: string, parse: DateParser): (r: State)
    ensures r.startDate == value && r.endDate == st.endDate && r.data == st.data
    ensures r.filteredData == DateFilter(st.data, value, st.endDate, parse)
  {
    ApplyDateFilter(st.(startDate := value), parse)
  }

  function SetEndDate(st: State, value: string, parse: DateParser): (r: State)
    ensures r.endDate == value && r.startDate == st.startDate && r.data == st.data
    ensures r.filteredData == DateFilter(st.data, st.startDate, value, parse)
  {
    ApplyDateFilter(st.(endDate := value), parse)
  }

  /** After mounting with both inputs still empty, both lists hold the two
      samples, provided the parser reads their dates as instants from 1970
      on, as a browser does. */
  lemma MountShowsSamples(parse: DateParser)
    requires parse("2023-07-08").Some? && 0 <= parse("2023-07-08").value <= MaxTime
    requires parse("2023-07-09").Some? && 0 <= parse("2023-07-09").value <= MaxTime
    ensures Mount(InitialState(), parse).data == SampleData()
    ensures Mount(InitialState(), parse).filteredData == SampleData()
  {
    var s := SampleData();
    assert Keeps(s[0], "", "", parse) && Keeps(s[1], "", "", parse);
    DateFilterKeepsAll(s, "", "", parse);
  }

  /** The figures the two samples produce: a total of 53398.73, an average
      of 26699.365, one fraud record of 50000 making up half of them, two
      countries, and one PAYMENT followed by one TRANSFER. */
  lemma SampleStatistics()
    ensures TotalAmount(SampleData()) == 53398.73
    ensures AverageAmount(SampleData()) == Some(26699.365)
    ensures FraudStats(SampleData()) == FraudSummary(1, 50000.0, Some(50.0))
    ensures UniqueCountries(SampleData()) == 2
    ensures TypeCounts(SampleData()) == [TypeCount("PAYMENT", 1), TypeCount("TRANSFER", 1)]
  {
    var s := SampleData();
    assert s[1..][1..] == [];
    assert s[..1] == [s[0]] && s[..2][..1] == [s[0]] && s[..1][..0] == [];
    assert s[..|s|] == s;
    assert FraudOnly(s) == [s[1]];
    assert Countries(s) == {"USA", "UK"};
    assert TypeCounts(s[..1]) == [TypeCount("PAYMENT", 1)] by {
      assert s[..1][..0] == [];
    }
    assert Bump([TypeCount("PAYMENT", 1)], "TRANSFER") == [TypeCount("PAYMENT", 1), TypeCount("TRANSFER", 1)] by {
      assert [TypeCount("PAYMENT", 1)][1..] == [];
    }
  }
}
