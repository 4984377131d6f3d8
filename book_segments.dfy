/**
 * The row selections of the analyzer's report: the fiction / non-fiction split,
 * the cheap / expensive split at the price quartiles, and IQR outlier detection
 * with its severity classification (`_analyze_outlier_results`).
 */
module BookSegments {
  import opened Wrappers
  import opened Statistics
  import opened BookGrouping
  import TextCleaning
  import DataCleaning

  // ---------------------------------------------------------------------------
  // Fiction and non-fiction
  // ---------------------------------------------------------------------------

  /**
   * `category.str.contains('Fiction', case=False, na=False)`: a missing category
   * is not fiction, and any category mentioning "fiction" in any case is.
   */
  predicate IsFiction(b: Book) {
    b.category.Some? && DataCleaning.Contains(TextCleaning.Lower(b.category.value), "fiction")
  }

  /** `xs[mask]`: the elements that satisfy `p`, in order. */
  function Select<T>(xs: seq<T>, p: T -> bool): (r: seq<T>)
    ensures |r| <= |xs|
    decreases |xs|
  {
    if xs == [] then []
    else
      var n := |xs| - 1;
      Select(xs[..n], p) + (if p(xs[n]) then [xs[n]] else [])
  }

  /** `xs[~mask]`: the elements that do not satisfy `p`, in order. */
  function Reject<T>(xs: seq<T>, p: T -> bool): (r: seq<T>)
    ensures |r| <= |xs|
    decreases |xs|
  {
    if xs == [] then []
    else
      var n := |xs| - 1;
      Reject(xs[..n], p) + (if p(xs[n]) then [] else [xs[n]])
  }

  lemma {:induction false} SelectRejectPartition<T>(xs: seq<T>, p: T -> bool)
    ensures multiset(Select(xs, p)) + multiset(Reject(xs, p)) == multiset(xs)
    decreases |xs|
  {
    if xs != [] {
      var n := |xs| - 1;
      SelectRejectPartition(xs[..n], p);
      assert xs == xs[..n] + [xs[n]];
    }
  }

  lemma {:induction false} SelectRejectMembers<T>(xs: seq<T>, p: T -> bool)
    ensures forall x :: x in Select(xs, p) <==> x in xs && p(x)
    ensures forall x :: x in Reject(xs, p) <==> x in xs && !p(x)
    decreases |xs|
  {
    if xs != [] {
      var n := |xs| - 1;
      SelectRejectMembers(xs[..n], p);
      assert xs == xs[..n] + [xs[n]];
    }
  }

  /** `df[fiction_mask]`. */
  function Fiction(rows: seq<Book>): (r: seq<Book>) {
    Select(rows, IsFiction)
  }

  /** `df[~fiction_mask]`. */
  function NonFiction(rows: seq<Book>): (r: seq<Book>) {
    Reject(rows, IsFiction)
  }

  /** The two segments together hold every row exactly once. */
  lemma FictionPartition(rows: seq<Book>)
    ensures multiset(Fiction(rows)) + multiset(NonFiction(rows)) == multiset(rows)
    ensures |Fiction(rows)| + |NonFiction(rows)| == |rows|
  {
    SelectRejectPartition(rows, IsFiction);
    assert |multiset(Fiction(rows)) + multiset(NonFiction(rows))| == |multiset(rows)|;
  }

  /** The fiction segment holds exactly the fiction rows, the other segment the rest. */
  lemma FictionSides(rows: seq<Book>)
    ensures forall b :: b in Fiction(rows) <==> b in rows && IsFiction(b)
    ensures forall b :: b in NonFiction(rows) <==> b in rows && !IsFiction(b)
  {
    SelectRejectMembers(rows, IsFiction);
  }

  /** The match is a substring test, so "Nonfiction" lands on the fiction side. */
  lemma NonfictionCountsAsFiction()
    ensures IsFiction(Book(None, None, Some("Nonfiction")))
  {
    var l := TextCleaning.Lower("Nonfiction");
    assert l[3..10] == "fiction";
    assert DataCleaning.OccursAt(l, "fiction", 3);
  }

  /** A segment's size and the mean of one of its columns. */
  datatype SegmentStats = SegmentStats(count: nat, mean: Option<real>)

  /** One `<col>_comparison` entry of the comparative analysis. */
  datatype SegmentComparison = SegmentComparison(
    fiction: SegmentStats, nonFiction: SegmentStats, difference: Option<real>)

  /** `a - b` where a missing mean (`NaN`) makes the difference missing. */
  function Difference(a: Option<real>, b: Option<real>): Option<real> {
    if a.Some? && b.Some? then Some(a.value - b.value) else None
  }

  function CompareSegments(rows: seq<Book>, f: Field): SegmentComparison {
    var fic, non := Fiction(rows), NonFiction(rows);
    var fm, nm := Mean(Values(fic, f)), Mean(Values(non, f));
    SegmentComparison(SegmentStats(|fic|, fm), SegmentStats(|non|, nm), Difference(fm, nm))
  }

  /**
   * The two segment counts add up to the table, and the difference is the fiction
   * mean minus the non-fiction mean whenever both segments have a value.
   */
  lemma ComparisonSpec(rows: seq<Book>, f: Field)
    ensures var c := CompareSegments(rows, f);
      && c.fiction.count + c.nonFiction.count == |rows|
      && (c.difference.Some? <==> Present(Values(Fiction(rows), f)) != [] && Present(Values(NonFiction(rows), f)) != [])
      && (c.difference.Some? ==> c.difference.value + c.nonFiction.mean.value == c.fiction.mean.value)
  {
    FictionPartition(rows);
  }

  // ---------------------------------------------------------------------------
  // Cheap and expensive books
  // ---------------------------------------------------------------------------

  /** `df[df['price'] <= t]`: a missing price or threshold compares false. */
  function AtMost(rows: seq<Book>, t: Option<real>): (r: seq<Book>)
    ensures |r| <= |rows|
    decreases |rows|
  {
    if rows == [] then []
    else
      var n := |rows| - 1;
      var b := rows[n];
      AtMost(rows[..n], t) + (if b.price.Some? && t.Some? && b.price.value <= t.value then [b] else [])
  }

  /** `df[df['price'] >= t]`. */
  function AtLeast(rows: seq<Book>, t: Option<real>): (r: seq<Book>)
    ensures |r| <= |rows|
    decreases |rows|
  {
    if rows == [] then []
    else
      var n := |rows| - 1;
      var b := rows[n];
      AtLeast(rows[..n], t) + (if b.price.Some? && t.Some? && b.price.value >= t.value then [b] else [])
  }

  lemma {:induction false} AtMostRows(rows: seq<Book>, t: Option<real>)
    ensures forall b :: b in AtMost(rows, t) <==>
      b in rows && b.price.Some? && t.Some? && b.price.value <= t.value
    decreases |rows|
  {
    if rows != [] {
      var n := |rows| - 1;
      AtMostRows(rows[..n], t);
      assert rows == rows[..n] + [rows[n]];
    }
  }

  lemma {:induction false} AtLeastRows(rows: seq<Book>, t: Option<real>)
    ensures forall b :: b in AtLeast(rows, t) <==>
      b in rows && b.price.Some? && t.Some? && b.price.value >= t.value
    decreases |rows|
  {
    if rows != [] {
      var n := |rows| - 1;
      AtLeastRows(rows[..n], t);
      assert rows == rows[..n] + [rows[n]];
    }
  }

  /** The average rating of a price band, or "N/A" without a rating column. */
  datatype AverageRating = NoRatingColumn | MeanRating(mean: Option<real>)

  datatype PriceBand = PriceBand(count: nat, avgRating: AverageRating, threshold: Option<real>)

  /** The `price_range_comparison` entry. */
  datatype PriceRanges = PriceRanges(cheap: PriceBand, expensive: PriceBand)

  function Cheap(rows: seq<Book>): seq<Book> {
    AtMost(rows, Quantile(Values(rows, PriceField), 0.25))
  }

  function Expensive(rows: seq<Book>): seq<Book> {
    AtLeast(rows, Quantile(Values(rows, PriceField), 0.75))
  }

  function Band(band: seq<Book>, hasRating: bool, threshold: Option<real>): PriceBand {
    PriceBand(|band|, if hasRating then MeanRating(Mean(Values(band, RatingField))) else NoRatingColumn, threshold)
  }

  function PriceRangeComparison(rows: seq<Book>, hasRating: bool): PriceRanges {
    var prices := Values(rows, PriceField);
    PriceRanges(
      Band(Cheap(rows), hasRating, Quantile(prices, 0.25)),
      Band(Expensive(rows), hasRating, Quantile(prices, 0.75)))
  }

  /**
   * Every cheap row is priced at most Q25 and every expensive row at least Q75;
   * when the quartiles differ no row is both, and when they coincide a row priced
   * exactly there is both.
   */
  lemma QuartileSplit(rows: seq<Book>)
    ensures var q25, q75 := Quantile(Values(rows, PriceField), 0.25), Quantile(Values(rows, PriceField), 0.75);
      && (forall b :: b in Cheap(rows) ==> b in rows && b.price.Some? && q25.Some? && b.price.value <= q25.value)
      && (forall b :: b in Expensive(rows) ==> b in rows && b.price.Some? && q75.Some? && b.price.value >= q75.value)
      && (q25.Some? && q25.value < q75.value ==> forall b :: b in Cheap(rows) ==> b !in Expensive(rows))
      && (q25.Some? && q25 == q75 ==>
            forall b :: b in rows && b.price == q25 ==> b in Cheap(rows) && b in Expensive(rows))
  {
    var prices := Values(rows, PriceField);
    AtMostRows(rows, Quantile(prices, 0.25));
    AtLeastRows(rows, Quantile(prices, 0.75));
    if Present(prices) != [] {
      QuantileMonotone(prices, 0.25, 0.75);
    }
  }

  /** With any price present, the cheapest book is cheap and the dearest is expensive. */
  lemma QuartileSplitNonEmpty(rows: seq<Book>)
    requires Present(Values(rows, PriceField)) != []
    ensures Cheap(rows) != [] && Expensive(rows) != []
  {
    CheapestIsCheap(rows);
    DearestIsExpensive(rows);
  }

  /** A book at the lowest price is at most the first quartile. */
  lemma CheapestIsCheap(rows: seq<Book>)
    requires Present(Values(rows, PriceField)) != []
    ensures Cheap(rows) != []
  {
    var prices := Values(rows, PriceField);
    QuantileExtremes(prices);
    QuantileMonotone(prices, 0.0, 0.25);
    PresentValues(prices);
    var lo := Quantile(prices, 0.0).value;
    var i :| 0 <= i < |prices| && prices[i] == Some(lo);
    AtMostRows(rows, Quantile(prices, 0.25));
    assert rows[i] in Cheap(rows);
  }

  /** A book at the highest price is at least the third quartile. */
  lemma DearestIsExpensive(rows: seq<Book>)
    requires Present(Values(rows, PriceField)) != []
    ensures Expensive(rows) != []
  {
    var prices := Values(rows, PriceField);
    QuantileExtremes(prices);
    QuantileMonotone(prices, 0.75, 1.0);
    PresentValues(prices);
    var hi := Quantile(prices, 1.0).value;
    var j :| 0 <= j < |prices| && prices[j] == Some(hi);
    AtLeastRows(rows, Quantile(prices, 0.75));
    assert rows[j] in Expensive(rows);
  }

  // ---------------------------------------------------------------------------
  // IQR outliers
  // ---------------------------------------------------------------------------

  /** The quartiles and the fences Q1 - 1.5 IQR and Q3 + 1.5 IQR. */
  datatype Fences = Fences(q1: real, q3: real, lower: real, upper: real)

  /** The fences of a column; `None` (all `NaN`) when no value is present. */
  function IqrFences(xs: seq<Option<real>>): (r: Option<Fences>)
    ensures r.None? <==> Present(xs) == []
  {
    if Present(xs) == [] then None
    else
      var q1, q3 := Quantile(xs, 0.25).value, Quantile(xs, 0.75).value;
      Some(Fences(q1, q3, q1 - 1.5 * (q3 - q1), q3 + 1.5 * (q3 - q1)))
  }

  /** Because Q1 <= Q3, the fences enclose the interquartile range. */
  lemma FencesOrdered(xs: seq<Option<real>>)
    requires Present(xs) != []
    ensures var f := IqrFences(xs).value;
      f.lower <= f.q1 <= f.q3 <= f.upper
  {
    QuantileMonotone(xs, 0.25, 0.75);
  }

  predicate Outside(x: real, f: Fences) {
    x < f.lower || x > f.upper
  }

  /** The values of `df[(df[col] < lower) | (df[col] > upper)]`, in table order. */
  function OutlierValues(xs: seq<Option<real>>, f: Option<Fences>): (r: seq<real>)
    ensures |r| <= |xs|
    decreases |xs|
  {
    if xs == [] then []
    else
      var n := |xs| - 1;
      OutlierValues(xs[..n], f) +
        (if xs[n].Some? && f.Some? && Outside(xs[n].value, f.value) then [xs[n].value] else [])
  }

  /** The outliers are exactly the present values outside the fences. */
  lemma {:induction false} OutlierValuesExact(xs: seq<Option<real>>, f: Option<Fences>)
    ensures forall x :: x in OutlierValues(xs, f) <==> Some(x) in xs && f.Some? && Outside(x, f.value)
    decreases |xs|
  {
    if xs != [] {
      var n := |xs| - 1;
      OutlierValuesExact(xs[..n], f);
      assert xs == xs[..n] + [xs[n]];
    }
  }

  /** No value between the quartiles is an outlier. */
  lemma InterquartileNotOutlier(xs: seq<Option<real>>, x: real)
    requires Present(xs) != []
    requires IqrFences(xs).value.q1 <= x <= IqrFences(xs).value.q3
    ensures x !in OutlierValues(xs, IqrFences(xs))
  {
    FencesOrdered(xs);
    OutlierValuesExact(xs, IqrFences(xs));
  }

  // ---------------------------------------------------------------------------
  // _analyze_outlier_results
  // ---------------------------------------------------------------------------

  datatype Severity = Low | Moderate | High

  function SeverityRank(s: Severity): nat {
    match s
    case Low => 0
    case Moderate => 1
    case High => 2
  }

  /** "low" below 5 %, "moderate" below 10 %, otherwise "high". */
  function SeverityOf(percentage: real): Severity {
    if percentage < 5.0 then Low else if percentage < 10.0 then Moderate else High
  }

  /** A larger share of outliers never gives a milder severity. */
  lemma SeverityMonotone(p1: real, p2: real)
    requires p1 <= p2
    ensures SeverityRank(SeverityOf(p1)) <= SeverityRank(SeverityOf(p2))
  {
  }

  /** Which explanation `_analyze_outlier_results` gives, with the values it depends on. */
  datatype OutlierVerdict =
    | NoOutliersRating
      /** `rangeRatio` is max / min, or `None` for `inf` when the minimum is not positive. */
    | NoOutliersPrice(rangeRatio: Option<real>)
    | NoOutliersOther
    | OutliersRating(severity: Severity)
      /** `lowerBoundPositive` selects "below £x" over "negative values (data errors)". */
    | OutliersPrice(severity: Severity, lowerBoundPositive: bool)
    | OutliersOther(severity: Severity)

  /** `actual_max / actual_min if actual_min > 0 else inf`; `NaN > 0` is false. */
  function RangeRatio(actualMin: Option<real>, actualMax: Option<real>): Option<real> {
    if actualMin.Some? && actualMin.value > 0.0 && actualMax.Some? then Some(actualMax.value / actualMin.value)
    else None
  }

  /**
   * `_analyze_outlier_results`: the percentage is computed first, so an empty
   * table raises `ZeroDivisionError`; then no outliers and some outliers get
   * their per-column explanation, the latter with its severity.
   */
  function AnalyzeOutliers(count: nat, actualMin: Option<real>, actualMax: Option<real>,
                           lowerBound: Option<real>, column: string, total: nat): (r: Result<OutlierVerdict>)
    ensures r.Err? <==> total == 0
    ensures r.Err? ==> r.error == ZeroDivisionError
  {
    if total == 0 then Err(ZeroDivisionError)
    else
      var percentage := count as real / total as real * 100.0;
      if count == 0 then
        if column == "rating" then Ok(NoOutliersRating)
        else if column == "price" then Ok(NoOutliersPrice(RangeRatio(actualMin, actualMax)))
        else Ok(NoOutliersOther)
      else
        var severity := SeverityOf(percentage);
        if column == "rating" then Ok(OutliersRating(severity))
        else if column == "price" then Ok(OutliersPrice(severity, lowerBound.Some? && lowerBound.value > 0.0))
        else Ok(OutliersOther(severity))
  }

  /** Whether a verdict reports outliers. */
  predicate ReportsOutliers(v: OutlierVerdict) {
    v.OutliersRating? || v.OutliersPrice? || v.OutliersOther?
  }

  /**
   * Zero outliers always takes the no-outlier branch and any outlier the other;
   * the explanation follows the column; the severity grows with the count.
   */
  lemma AnalyzeOutliersSpec(count: nat, count2: nat, actualMin: Option<real>, actualMax: Option<real>,
                            lowerBound: Option<real>, column: string, total: nat)
    requires total > 0 && 0 < count <= count2
    ensures var v := AnalyzeOutliers(0, actualMin, actualMax, lowerBound, column, total).value;
      !ReportsOutliers(v) && (v.NoOutliersRating? <==> column == "rating") && (v.NoOutliersPrice? <==> column == "price")
    ensures var v := AnalyzeOutliers(count, actualMin, actualMax, lowerBound, column, total).value;
      var w := AnalyzeOutliers(count2, actualMin, actualMax, lowerBound, column, total).value;
      && ReportsOutliers(v) && (v.OutliersRating? <==> column == "rating") && (v.OutliersPrice? <==> column == "price")
      && SeverityRank(v.severity) <= SeverityRank(w.severity)
  {
    var t := total as real;
    assert count as real / t <= count2 as real / t by {
      DivideMonotone(count as real, count2 as real, t);
    }
    SeverityMonotone(count as real / t * 100.0, count2 as real / t * 100.0);
  }

  lemma DivideMonotone(a: real, b: real, t: real)
    requires a <= b && t > 0.0
    ensures a / t <= b / t
  {
    assert b / t - a / t == (b - a) / t;
  }

  // ---------------------------------------------------------------------------
  // The outlier entry of one column (section 7 of the report)
  // ---------------------------------------------------------------------------

  datatype OutlierEntry = OutlierEntry(
    count: nat,
    percentage: real,
    values: seq<real>,
    fences: Option<Fences>,
    actualMin: Option<real>,
    actualMax: Option<real>,
    analysis: OutlierVerdict)

  /** The outlier analysis of one column of a non-empty table. */
  function OutlierSection(rows: seq<Book>, f: Field): OutlierEntry
    requires rows != []
  {
    var xs := Values(rows, f);
    var fences := IqrFences(xs);
    var out := OutlierValues(xs, fences);
    var lower := if fences.Some? then Some(fences.value.lower) else None;
    var lo, hi := Quantile(xs, 0.0), Quantile(xs, 1.0);
    var verdict := AnalyzeOutliers(|out|, lo, hi, lower, FieldName(f), |rows|);
    OutlierEntry(|out|, |out| as real / |rows| as real * 100.0,
      if |out| <= 5 then out else out[..5], fences, lo, hi, verdict.value)
  }

  /**
   * The entry counts exactly the present values outside the fences, its
   * percentage lies in [0, 100], it lists the first five outliers in table order,
   * its extremes bound every value, and its explanation reports outliers exactly
   * when there are some.
   */
  lemma OutlierSectionSpec(rows: seq<Book>, f: Field)
    requires rows != []
    ensures var e := OutlierSection(rows, f);
      var xs := Values(rows, f);
      && e.count == |OutlierValues(xs, e.fences)| <= |rows|
      && (forall x :: x in OutlierValues(xs, e.fences) <==> Some(x) in xs && e.fences.Some? && Outside(x, e.fences.value))
      && 0.0 <= e.percentage <= 100.0
      && |e.values| == (if e.count < 5 then e.count else 5)
      && e.values == OutlierValues(xs, e.fences)[..|e.values|]
      && (e.fences.Some? ==> e.fences.value.lower <= e.fences.value.upper)
      && (ReportsOutliers(e.analysis) <==> e.count > 0)
  {
    var xs := Values(rows, f);
    OutlierValuesExact(xs, IqrFences(xs));
    var out := OutlierValues(xs, IqrFences(xs));
    PercentBounds(|out|, |rows|);
    if Present(xs) != [] {
      FencesOrdered(xs);
    }
  }
}
