/** The transaction record and the statistics that both copies of the
    dashboard compute over their filtered rows: grouping by type, the total
    and average amount, the fraud figures, the number of distinct countries
    and the amount-versus-balance scatter projection. */
module Transactions {
  import opened Common

  /** One transaction row, restricted to the fields the dashboards read.
      `D` is how the row holds its dates: parsed milliseconds since the epoch
      (`int`) after the CSV load, or the raw strings of the bundled sample. */
  datatype Transaction<D> = Transaction(
    txType: string,
    country: string,
    amount: real,
    diffOrig: real,
    creationDate: D,
    lastActivityDate: D,
    isFraud: bool)

  // ---------------------------------------------------------------------
  // Total and average amount
  // ---------------------------------------------------------------------

  /** `s.reduce((sum, item) => sum + item.amount, 0)`. */
  function TotalAmount<D>(s: seq<Transaction<D>>): (r: real)
    ensures s == [] ==> r == 0.0
    ensures (forall i :: 0 <= i < |s| ==> s[i].amount >= 0.0) ==> r >= 0.0
  {
    if s == [] then 0.0 else s[0].amount + TotalAmount(s[1..])
  }

  /** The total of a concatenation is the sum of the totals. */
  lemma {:induction false} TotalAmountConcat<D>(a: seq<Transaction<D>>, b: seq<Transaction<D>>)
    ensures TotalAmount(a + b) == TotalAmount(a) + TotalAmount(b)
  {
    if a == [] {
      assert a + b == b;
    } else {
      assert (a + b)[1..] == a[1..] + b;
      TotalAmountConcat(a[1..], b);
    }
  }

  /** `x` added up `n` times. */
  function Times(n: nat, x: real): real
  {
    if n == 0 then 0.0 else Times(n - 1, x) + x
  }

  lemma {:induction false} TimesIsProduct(n: nat, x: real)
    ensures Times(n, x) == (n as real) * x
  {
    if n > 0 {
      TimesIsProduct(n - 1, x);
      var m := (n - 1) as real;
      assert (m + 1.0) * x == m * x + x;
    }
  }

  /** When every amount lies in [lo, hi], the total lies in [n*lo, n*hi],
      with the products written as repeated sums. */
  lemma {:induction false} TotalAmountBounds<D>(s: seq<Transaction<D>>, lo: real, hi: real)
    requires forall i :: 0 <= i < |s| ==> lo <= s[i].amount <= hi
    ensures Times(|s|, lo) <= TotalAmount(s) <= Times(|s|, hi)
  {
    if s != [] {
      TotalAmountBounds(s[1..], lo, hi);
    }
  }

  /** `total / s.length`; None is the NaN that 0 / 0 gives for no rows. */
  function AverageAmount<D>(s: seq<Transaction<D>>): (r: Option<real>)
    ensures r.None? <==> s == []
    ensures r.Some? ==> r.value * (|s| as real) == TotalAmount(s)
  {
    if s == [] then None else Some(TotalAmount(s) / (|s| as real))
  }

  /** The average lies between the smallest and the largest amount. */
  lemma AverageAmountWithinBounds<D>(s: seq<Transaction<D>>, lo: real, hi: real)
    requires s != []
    requires forall i :: 0 <= i < |s| ==> lo <= s[i].amount <= hi
    ensures lo <= AverageAmount(s).value <= hi
  {
    TotalAmountBounds(s, lo, hi);
    TimesIsProduct(|s|, lo);
    TimesIsProduct(|s|, hi);
    QuotientBounds(TotalAmount(s), |s| as real, lo, hi);
  }

  lemma QuotientBounds(t: real, n: real, lo: real, hi: real)
    requires n > 0.0 && n * lo <= t <= n * hi
    ensures lo <= t / n <= hi
  {
    assert t / n - lo == (t - n * lo) / n;
    assert hi - t / n == (n * hi - t) / n;
  }

  // ---------------------------------------------------------------------
  // Fraud figures
  // ---------------------------------------------------------------------

  /** `s.filter(item => item.is_fraud)`. */
  function FraudOnly<D>(s: seq<Transaction<D>>): (r: seq<Transaction<D>>)
    ensures forall i :: 0 <= i < |r| ==> r[i] in s && r[i].isFraud
    ensures forall i :: 0 <= i < |s| && s[i].isFraud ==> s[i] in r
  {
    var p := (t: Transaction<D>) => t.isFraud;
    FilterMembers(s, p);
    Filter(s, p)
  }

  /** The rows that `FraudOnly` leaves out. */
  function NormalOnly<D>(s: seq<Transaction<D>>): (r: seq<Transaction<D>>)
    ensures forall i :: 0 <= i < |r| ==> r[i] in s && !r[i].isFraud
    ensures forall i :: 0 <= i < |s| && !s[i].isFraud ==> s[i] in r
  {
    var p := (t: Transaction<D>) => !t.isFraud;
    FilterMembers(s, p);
    Filter(s, p)
  }

  /** Every row is either fraudulent or normal, so the two filters split both
      the rows and their total amount. */
  lemma {:induction false} FraudPartition<D>(s: seq<Transaction<D>>)
    ensures |FraudOnly(s)| + |NormalOnly(s)| == |s|
    ensures TotalAmount(FraudOnly(s)) + TotalAmount(NormalOnly(s)) == TotalAmount(s)
    ensures forall i :: 0 <= i < |FraudOnly(s)| ==> FraudOnly(s)[i].isFraud
    ensures forall i :: 0 <= i < |NormalOnly(s)| ==> !NormalOnly(s)[i].isFraud
  {
    if s != [] {
      FraudPartition(s[1..]);
      if s[0].isFraud {
        assert FraudOnly(s) == [s[0]] + FraudOnly(s[1..]);
        assert NormalOnly(s) == NormalOnly(s[1..]);
        TotalAmountConcat([s[0]], FraudOnly(s[1..]));
      } else {
        assert FraudOnly(s) == FraudOnly(s[1..]);
        assert NormalOnly(s) == [s[0]] + NormalOnly(s[1..]);
        TotalAmountConcat([s[0]], NormalOnly(s[1..]));
      }
    }
  }

  datatype FraudSummary = FraudSummary(count: nat, amount: real, percentage: Option<real>)

  /** `getFraudStats` before formatting: the number of fraud rows, their
      total amount, and `count / length * 100` (None for the NaN of no rows). */
  function FraudStats<D>(s: seq<Transaction<D>>): (r: FraudSummary)
    ensures r.count + |NormalOnly(s)| == |s|
    ensures r.amount + TotalAmount(NormalOnly(s)) == TotalAmount(s)
    ensures r.percentage.None? <==> s == []
    ensures r.percentage.Some? ==> 0.0 <= r.percentage.value <= 100.0
    ensures r.percentage.Some? ==> s != [] && r.percentage.value == Percentage(r.count, |s|)
  {
    var fraud := FraudOnly(s);
    FraudPartition(s);
    if s == [] then FraudSummary(0, TotalAmount(fraud), None)
    else
      var count, whole := |fraud|, |s|;
      PercentageBounds(count, whole);
      var pc := Percentage(count, whole);
      FraudSummary(count, TotalAmount(fraud), Some(pc))
  }

  /** `(part / whole) * 100` in exact arithmetic. */
  function Percentage(part: nat, whole: nat): real
    requires whole > 0
  {
    (part as real) / (whole as real) * 100.0
  }

  lemma PercentageBounds(part: nat, whole: nat)
    requires 0 < whole && part <= whole
    ensures 0.0 <= Percentage(part, whole) <= 100.0
    ensures Percentage(part, whole) == 100.0 * (part as real) / (whole as real)
    ensures Percentage(part, whole) == 0.0 <==> part == 0
    ensures Percentage(part, whole) == 100.0 <==> part == whole
  {
    var p := part as real;
    var w := whole as real;
    var q := p / w;
    QuotientBounds(p, w, 0.0, 1.0);
    QuotientTimes(p, w);
    assert q == 0.0 <==> part == 0;
    assert q == 1.0 <==> part == whole;
    ScaledQuotient(p, w);
  }

  lemma QuotientTimes(p: real, w: real)
    requires w > 0.0
    ensures (p / w) * w == p
  {
  }

  lemma ScaledQuotient(p: real, w: real)
    requires w > 0.0
    ensures 100.0 * p / w == p / w * 100.0
  {
  }

  /** No row is fraudulent exactly when the fraud count is 0, and every row
      is exactly when it equals the number of rows. */
  lemma FraudCountExtremes<D>(s: seq<Transaction<D>>)
    ensures |FraudOnly(s)| == 0 <==> forall i :: 0 <= i < |s| ==> !s[i].isFraud
    ensures |NormalOnly(s)| == 0 <==> forall i :: 0 <= i < |s| ==> s[i].isFraud
  {
    NoFraudRows(s);
    NoNormalRows(s);
  }

  lemma {:induction false} NoFraudRows<D>(s: seq<Transaction<D>>)
    ensures |FraudOnly(s)| == 0 <==> forall i :: 0 <= i < |s| ==> !s[i].isFraud
  {
    if s != [] {
      NoFraudRows(s[1..]);
      assert forall i :: 1 <= i < |s| ==> s[i] == s[1..][i - 1];
      if s[0].isFraud {
        assert FraudOnly(s) == [s[0]] + FraudOnly(s[1..]);
      } else {
        assert FraudOnly(s) == FraudOnly(s[1..]);
      }
    }
  }

  lemma {:induction false} NoNormalRows<D>(s: seq<Transaction<D>>)
    ensures |NormalOnly(s)| == 0 <==> forall i :: 0 <= i < |s| ==> s[i].isFraud
  {
    if s != [] {
      NoNormalRows(s[1..]);
      assert forall i :: 1 <= i < |s| ==> s[i] == s[1..][i - 1];
      if s[0].isFraud {
        assert NormalOnly(s) == NormalOnly(s[1..]);
      } else {
        assert NormalOnly(s) == [s[0]] + NormalOnly(s[1..]);
      }
    }
  }

  /** With non-negative amounts the normal rows' total is non-negative. */
  lemma NormalOnlyAmounts<D>(s: seq<Transaction<D>>)
    requires forall i :: 0 <= i < |s| ==> s[i].amount >= 0.0
    ensures TotalAmount(NormalOnly(s)) >= 0.0
  {
    var normal := NormalOnly(s);
    assert forall i :: 0 <= i < |normal| ==> normal[i] in s;
  }

  /** With non-negative amounts the fraud amount never exceeds the total;
      on a non-empty list the percentage is 0 exactly when no row is
      fraudulent and 100 exactly when every row is. */
  lemma FraudStatsBounds<D>(s: seq<Transaction<D>>)
    requires forall i :: 0 <= i < |s| ==> s[i].amount >= 0.0
    ensures FraudStats(s).amount <= TotalAmount(s)
    ensures s != [] ==> (FraudStats(s).percentage == Some(0.0) <==> forall i :: 0 <= i < |s| ==> !s[i].isFraud)
    ensures s != [] ==> (FraudStats(s).percentage == Some(100.0) <==> forall i :: 0 <= i < |s| ==> s[i].isFraud)
  {
    NormalOnlyAmounts(s);
    FraudCountExtremes(s);
    FraudPartition(s);
    if s != [] {
      PercentageBounds(|FraudOnly(s)|, |s|);
    }
  }

  // ---------------------------------------------------------------------
  // Grouping by type
  // ---------------------------------------------------------------------

  /** A `{ name, value }` entry of `getTransactionTypes`. */
  datatype TypeCount = TypeCount(name: string, value: nat)

  /** One step of the reduce, `acc[t] = (acc[t] || 0) + 1`, over an object
      whose keys keep their insertion order. */
  function Bump(acc: seq<TypeCount>, t: string): seq<TypeCount>
  {
    if acc == [] then [TypeCount(t, 1)]
    else if acc[0].name == t then [TypeCount(t, acc[0].value + 1)] + acc[1..]
    else [acc[0]] + Bump(acc[1..], t)
  }

  /** `Object.entries(s.reduce(..., {}))`, folded from the left. */
  function TypeCounts<D>(s: seq<Transaction<D>>): seq<TypeCount>
  {
    if s == [] then [] else Bump(TypeCounts(s[..|s| - 1]), s[|s| - 1].txType)
  }

  function Names(acc: seq<TypeCount>): seq<string>
  {
    seq(|acc|, i requires 0 <= i < |acc| => acc[i].name)
  }

  function Types<D>(s: seq<Transaction<D>>): seq<string>
  {
    seq(|s|, i requires 0 <= i < |s| => s[i].txType)
  }

  function SumValues(acc: seq<TypeCount>): nat
  {
    if acc == [] then 0 else acc[0].value + SumValues(acc[1..])
  }

  /** How often `k` occurs in `xs`. */
  function Occurrences(xs: seq<string>, k: string): nat
  {
    if xs == [] then 0
    else Occurrences(xs[..|xs| - 1], k) + (if xs[|xs| - 1] == k then 1 else 0)
  }

  predicate Distinct(xs: seq<string>)
  {
    forall i, j :: 0 <= i < j < |xs| ==> xs[i] != xs[j]
  }

  /** Bumping a present key increments its entry in place. */
  lemma {:induction false} BumpExisting(acc: seq<TypeCount>, t: string, p: nat)
    requires p < |acc| && acc[p].name == t
    requires forall q :: 0 <= q < p ==> acc[q].name != t
    ensures Bump(acc, t) == acc[p := TypeCount(t, acc[p].value + 1)]
  {
    if p > 0 {
      BumpExisting(acc[1..], t, p - 1);
    }
  }

  /** Bumping an absent key appends a new entry with count 1. */
  lemma {:induction false} BumpNew(acc: seq<TypeCount>, t: string)
    requires t !in Names(acc)
    ensures Bump(acc, t) == acc + [TypeCount(t, 1)]
  {
    if acc != [] {
      assert acc[0].name == Names(acc)[0];
      assert Names(acc[1..]) == Names(acc)[1..];
      BumpNew(acc[1..], t);
    }
  }

  lemma {:induction false} SumValuesUpdate(acc: seq<TypeCount>, p: nat, e: TypeCount)
    requires p < |acc|
    ensures SumValues(acc[p := e]) + acc[p].value == SumValues(acc) + e.value
  {
    if p > 0 {
      assert acc[p := e][1..] == acc[1..][p - 1 := e];
      SumValuesUpdate(acc[1..], p - 1, e);
    }
  }

  lemma {:induction false} SumValuesAppend(acc: seq<TypeCount>, e: TypeCount)
    ensures SumValues(acc + [e]) == SumValues(acc) + e.value
  {
    if acc != [] {
      assert (acc + [e])[1..] == acc[1..] + [e];
      SumValuesAppend(acc[1..], e);
    }
  }

  lemma OccurrencesAppend(xs: seq<string>, t: string, k: string)
    ensures Occurrences(xs + [t], k) == Occurrences(xs, k) + (if t == k then 1 else 0)
  {
    assert (xs + [t])[..|xs|] == xs;
  }

  lemma {:induction false} OccurrencesAbsent(xs: seq<string>, k: string)
    requires k !in xs
    ensures Occurrences(xs, k) == 0
  {
    if xs != [] {
      assert xs[..|xs| - 1] + [xs[|xs| - 1]] == xs;
      OccurrencesAbsent(xs[..|xs| - 1], k);
    }
  }

  /** `acc` groups the strings `xs`: each string of `xs` has exactly one
      entry, whose count is its number of occurrences. */
  ghost predicate Grouped(acc: seq<TypeCount>, xs: seq<string>)
  {
    && Distinct(Names(acc))
    && (forall k :: k in Names(acc) <==> k in xs)
    && (forall i :: 0 <= i < |acc| ==> acc[i].value == Occurrences(xs, acc[i].name))
    && SumValues(acc) == |xs|
  }

  lemma BumpKeepsGrouped(acc: seq<TypeCount>, xs: seq<string>, t: string)
    requires Grouped(acc, xs)
    ensures Grouped(Bump(acc, t), xs + [t])
  {
    forall k ensures Occurrences(xs + [t], k) == Occurrences(xs, k) + (if t == k then 1 else 0) {
      OccurrencesAppend(xs, t, k);
    }
    if t in Names(acc) {
      var p :| 0 <= p < |acc| && Names(acc)[p] == t;
      BumpExistingGrouped(acc, xs, t, p);
    } else {
      BumpNewGrouped(acc, xs, t);
    }
  }

  lemma BumpExistingGrouped(acc: seq<TypeCount>, xs: seq<string>, t: string, p: nat)
    requires Grouped(acc, xs) && p < |acc| && Names(acc)[p] == t
    requires forall k :: Occurrences(xs + [t], k) == Occurrences(xs, k) + (if t == k then 1 else 0)
    ensures Grouped(Bump(acc, t), xs + [t])
  {
    assert forall q :: 0 <= q < |acc| ==> acc[q].name == Names(acc)[q];
    BumpExisting(acc, t, p);
    var r := Bump(acc, t);
    SumValuesUpdate(acc, p, TypeCount(t, acc[p].value + 1));
    assert Names(r) == Names(acc);
    assert forall i :: 0 <= i < |r| && i != p ==> r[i] == acc[i] && acc[i].name != t;
  }

  lemma BumpNewGrouped(acc: seq<TypeCount>, xs: seq<string>, t: string)
    requires Grouped(acc, xs) && t !in Names(acc)
    requires forall k :: Occurrences(xs + [t], k) == Occurrences(xs, k) + (if t == k then 1 else 0)
    ensures Grouped(Bump(acc, t), xs + [t])
  {
    BumpNew(acc, t);
    var r := Bump(acc, t);
    SumValuesAppend(acc, TypeCount(t, 1));
    assert Names(r) == Names(acc) + [t];
    OccurrencesAbsent(xs, t);
    assert forall i :: 0 <= i < |acc| ==> r[i] == acc[i] && acc[i].name == Names(acc)[i];
  }

  /** The entries form a grouping of the rows by their literal type: each
      type of the rows appears exactly once, each count is the number of rows
      of that type, and the counts add up to the number of rows. */
  lemma {:induction false} TypeCountsGroupsByType<D>(s: seq<Transaction<D>>)
    ensures Distinct(Names(TypeCounts(s)))
    ensures forall k :: k in Names(TypeCounts(s)) <==> k in Types(s)
    ensures forall i :: 0 <= i < |TypeCounts(s)| ==>
      TypeCounts(s)[i].value == Occurrences(Types(s), TypeCounts(s)[i].name)
    ensures SumValues(TypeCounts(s)) == |s|
  {
    TypeCountsGrouped(s);
  }

  lemma {:induction false} TypeCountsGrouped<D>(s: seq<Transaction<D>>)
    ensures Grouped(TypeCounts(s), Types(s))
  {
    if s != [] {
      var s' := s[..|s| - 1];
      TypeCountsGrouped(s');
      assert Types(s) == Types(s') + [s[|s| - 1].txType];
      BumpKeepsGrouped(TypeCounts(s'), Types(s'), s[|s| - 1].txType);
    }
  }

  /** The distinct strings of `xs`, each at the place of its first
      occurrence. */
  function FirstOccurrences(xs: seq<string>): (r: seq<string>)
    ensures forall k :: k in r <==> k in xs
    ensures Distinct(r)
  {
    if xs == [] then []
    else
      var prefix := xs[..|xs| - 1];
      var last := xs[|xs| - 1];
      assert xs == prefix + [last];
      var d := FirstOccurrences(prefix);
      if last in prefix then d else d + [last]
  }

  /** Bumping keeps the names in place and appends a name seen for the
      first time. */
  lemma {:induction false} BumpNames(acc: seq<TypeCount>, t: string)
    ensures Names(Bump(acc, t)) == if t in Names(acc) then Names(acc) else Names(acc) + [t]
  {
    if acc != [] {
      assert Names(acc) == [acc[0].name] + Names(acc[1..]);
      BumpNames(acc[1..], t);
      if acc[0].name != t {
        assert Names(Bump(acc, t)) == [acc[0].name] + Names(Bump(acc[1..], t));
      }
    }
  }

  /** The entries come in the order in which each type first occurs. */
  lemma {:induction false} TypeCountsFirstSeenOrder<D>(s: seq<Transaction<D>>)
    ensures Names(TypeCounts(s)) == FirstOccurrences(Types(s))
  {
    if s != [] {
      var s' := s[..|s| - 1];
      TypeCountsFirstSeenOrder(s');
      TypeCountsGrouped(s');
      assert Types(s)[..|s| - 1] == Types(s');
      BumpNames(TypeCounts(s'), s[|s| - 1].txType);
    }
  }

  // ---------------------------------------------------------------------
  // Distinct countries
  // ---------------------------------------------------------------------

  /** Some row of `s` is from country `c`. */
  predicate HasCountry<D>(s: seq<Transaction<D>>, c: string)
  {
    exists i :: 0 <= i < |s| && s[i].country == c
  }

  /** `new Set(s.map(item => item.country))`. */
  function Countries<D>(s: seq<Transaction<D>>): (r: set<string>)
    ensures forall i :: 0 <= i < |s| ==> s[i].country in r
    ensures forall c :: c in r ==> HasCountry(s, c)
    ensures |r| <= |s|
  {
    CountrySetSize(s);
    set i | 0 <= i < |s| :: s[i].country
  }

  /** A set of one country per row has at most as many elements as rows. */
  lemma {:induction false} CountrySetSize<D>(s: seq<Transaction<D>>)
    ensures |set i | 0 <= i < |s| :: s[i].country| <= |s|
  {
    if s != [] {
      var tail := s[1..];
      CountrySetSize(tail);
      var all := set i | 0 <= i < |s| :: s[i].country;
      var rest := set i | 0 <= i < |tail| :: tail[i].country;
      assert all == {s[0].country} + rest by {
        forall c | c in all ensures c in {s[0].country} + rest {
          var i :| 0 <= i < |s| && s[i].country == c;
          if i > 0 {
            assert tail[i - 1].country == c;
          }
        }
        forall c | c in rest ensures c in all {
          var i :| 0 <= i < |tail| && tail[i].country == c;
          assert s[i + 1].country == c;
        }
      }
    }
  }

  /** `new Set(s.map(item => item.country)).size`. */
  function UniqueCountries<D>(s: seq<Transaction<D>>): (n: nat)
    ensures n <= |s|
    ensures n == 0 <==> s == []
  {
    var c := Countries(s);
    assert s != [] ==> s[0].country in c;
    |c|
  }

  // ---------------------------------------------------------------------
  // Scatter projection
  // ---------------------------------------------------------------------

  /** A point of `getScatterData`: amount, balance difference, marker size
      (100 for fraud, 50 otherwise), and the country shown in the tooltip. */
  datatype ScatterPoint = ScatterPoint(x: real, y: real, z: int, name: string)

  function PointOf<D>(t: Transaction<D>): (p: ScatterPoint)
    ensures p.x == t.amount && p.y == t.diffOrig && p.name == t.country
    ensures p.z == 100 <==> t.isFraud
    ensures p.z == 50 <==> !t.isFraud
  {
    ScatterPoint(t.amount, t.diffOrig, if t.isFraud then 100 else 50, t.country)
  }

  /** `s.map(item => ({ x, y, z, name }))`. */
  function ScatterData<D>(s: seq<Transaction<D>>): (r: seq<ScatterPoint>)
    ensures |r| == |s|
    ensures forall i :: 0 <= i < |s| ==>
      r[i].x == s[i].amount && r[i].y == s[i].diffOrig && r[i].name == s[i].country &&
      (r[i].z == 100 <==> s[i].isFraud) && (r[i].z == 50 <==> !s[i].isFraud)
  {
    if s == [] then [] else [PointOf(s[0])] + ScatterData(s[1..])
  }

  /** The large markers of the scatter plot are exactly the fraud rows, so
      there are as many of them as the fraud count. */
  lemma {:induction false} ScatterMarksFraud<D>(s: seq<Transaction<D>>)
    ensures |Filter(ScatterData(s), (p: ScatterPoint) => p.z == 100)| == FraudStats(s).count
  {
    if s != [] {
      ScatterMarksFraud(s[1..]);
      assert ScatterData(s)[1..] == ScatterData(s[1..]);
      if s[0].isFraud {
        assert FraudOnly(s) == [s[0]] + FraudOnly(s[1..]);
      } else {
        assert FraudOnly(s) == FraudOnly(s[1..]);
      }
    }
  }
}
