/**
 * `BookDataAnalyzer.generate_comprehensive_report`: the report sections that
 * group, count and select rows, built section by section over the loaded table.
 */
module BookReport {
  import opened Wrappers
  import opened Statistics
  import opened BookGrouping
  import opened BookSegments

  /** The `availability` column: absent, numeric, or text (`object`) with or without
      the derived `availability_numeric` column. */
  datatype Availability = NoAvailability | NumericAvailability | TextAvailability(numericCopy: bool)

  /** The loaded table: which of the analysed columns exist, and the rows. */
  datatype BookFrame = BookFrame(
    hasPrice: bool, hasRating: bool, hasCategory: bool, availability: Availability, rows: seq<Book>)

  function HasField(frame: BookFrame, f: Field): bool {
    if f == PriceField then frame.hasPrice else frame.hasRating
  }

  /** The columns visited by the loops over `['price', 'rating']`. */
  const AnalysedFields: seq<Field> := [PriceField, RatingField]

  // ---------------------------------------------------------------------------
  // Section 2: price distribution by category
  // ---------------------------------------------------------------------------

  datatype PriceSummary = PriceSummary(
    count: nat, meanPrice: Option<real>, medianPrice: Option<real>, minPrice: Option<real>, maxPrice: Option<real>)

  /** The statistics of one `groupby('category')` group. */
  function Summarize(group: seq<Book>): PriceSummary {
    var prices := Values(group, PriceField);
    PriceSummary(|group|, Mean(prices), Quantile(prices, 0.5), Quantile(prices, 0.0), Quantile(prices, 1.0))
  }

  function PriceByCategory(rows: seq<Book>): map<string, PriceSummary> {
    map c | c in Categories(rows) :: Summarize(InCategory(rows, c))
  }

  /**
   * One summary per present category, counting that category's rows, with its
   * mean and median between its minimum and maximum price.
   */
  lemma PriceByCategorySpec(rows: seq<Book>, c: string)
    requires c in PriceByCategory(rows)
    ensures var s := PriceByCategory(rows)[c];
      && s.count == |InCategory(rows, c)| >= 1
      && (s.meanPrice.Some? <==> s.minPrice.Some?) && (s.medianPrice.Some? <==> s.minPrice.Some?)
      && (s.minPrice.Some? ==>
            s.minPrice.value <= s.meanPrice.value <= s.maxPrice.value &&
            s.minPrice.value <= s.medianPrice.value <= s.maxPrice.value)
  {
    CategoryNonEmpty(rows, c);
    var prices := Values(InCategory(rows, c), PriceField);
    if Present(prices) != [] {
      MeanBetween(prices);
      QuantileBounds(prices, 0.5);
    }
  }

  // ---------------------------------------------------------------------------
  // Section 3: rating patterns
  // ---------------------------------------------------------------------------

  /** `rating_distribution` (as a multiset), `most_common_rating` and the percentiles. */
  datatype RatingPatterns = RatingPatterns(
    distribution: multiset<real>, mostCommonRating: real, p25: real, p50: real, p75: real, p90: real)

  /**
   * `value_counts().sort_index()` orders the counts by rating value, so `index[0]`
   * is the smallest rating; with no rating present it raises `IndexError`.
   */
  function RatingSection(rows: seq<Book>): Result<RatingPatterns> {
    var xs := Values(rows, RatingField);
    var p := Present(xs);
    if p == [] then Err(IndexError)
    else
      Ok(RatingPatterns(multiset(p), MostCommonRating(p),
        Quantile(xs, 0.25).value, Quantile(xs, 0.5).value, Quantile(xs, 0.75).value, Quantile(xs, 0.9).value))
  }

  /** The first rating of `value_counts().sort_index()`. */
  function MostCommonRating(p: seq<real>): real
    requires p != []
  {
    Sort(p)[0]
  }

  /** The "most common rating" is the smallest rating present, and the percentiles rise. */
  lemma RatingSectionSpec(rows: seq<Book>)
    ensures RatingSection(rows).Err? <==> Present(Values(rows, RatingField)) == []
    ensures RatingSection(rows).Ok? ==>
      var r := RatingSection(rows).value;
      && r.mostCommonRating in r.distribution
      && (forall x :: x in r.distribution ==> r.mostCommonRating <= x)
      && r.p25 <= r.p50 <= r.p75 <= r.p90
  {
    var xs := Values(rows, RatingField);
    var p := Present(xs);
    if p != [] {
      var v := Sort(p);
      assert MostCommonRating(p) == v[0];
      FromSort(p, 0);
      forall x | x in multiset(p) ensures v[0] <= x {
        InSort(p, x);
        SortSpec(p);
        SortedEnds(v, x);
      }
      QuantileMonotone(xs, 0.25, 0.5);
      QuantileMonotone(xs, 0.5, 0.75);
      QuantileMonotone(xs, 0.75, 0.9);
    }
  }

  function ModeExampleRows(): seq<Book> {
    [Book(None, Some(1.0), None), Book(None, Some(5.0), None), Book(None, Some(5.0), None)]
  }

  lemma ModeExampleRatings()
    ensures Present(Values(ModeExampleRows(), RatingField)) == [1.0, 5.0, 5.0]
  {
    var xs := Values(ModeExampleRows(), RatingField);
    assert xs == [Some(1.0), Some(5.0), Some(5.0)];
    assert xs[..2] == [Some(1.0), Some(5.0)] && xs[..2][..1] == [Some(1.0)];
    assert Present([Some(1.0)]) == [1.0];
  }

  lemma ModeExampleSort()
    ensures MostCommonRating([1.0, 5.0, 5.0]) == 1.0
  {
    var p := [1.0, 5.0, 5.0];
    assert p[..2] == [1.0, 5.0] && p[..2][..1] == [1.0];
    assert Sort([1.0]) == [1.0];
    assert Sort([1.0, 5.0]) == Insert(5.0, [1.0]) == [1.0, 5.0];
    assert Sort(p) == Insert(5.0, [1.0, 5.0]) == [1.0, 5.0, 5.0];
  }

  /** Ratings 1, 5, 5: the reported "most common" rating is 1, though 5 occurs twice. */
  lemma MostCommonRatingIsNotTheMode()
    ensures var p := Present(Values(ModeExampleRows(), RatingField));
      p != [] && MostCommonRating(p) == 1.0 && multiset(p)[5.0] == 2 > multiset(p)[1.0]
  {
    ModeExampleRatings();
    ModeExampleSort();
    assert multiset([1.0, 5.0, 5.0]) == multiset{1.0, 5.0, 5.0};
  }

  // ---------------------------------------------------------------------------
  // Section 4: correlation pairs
  // ---------------------------------------------------------------------------

  /** `numerical_cols`: price, rating and the numeric view of availability, when present. */
  function NumericColumns(frame: BookFrame): seq<string> {
    (if frame.hasPrice then ["price"] else []) +
    (if frame.hasRating then ["rating"] else []) +
    (match frame.availability
     case NoAvailability => []
     case NumericAvailability => ["availability"]
     case TextAvailability(_) => ["availability_numeric"])
  }

  function PairKey(a: string, b: string): string {
    a + "_vs_" + b
  }

  /** The keys of row `i` of the upper triangle: column `i` against every later one. */
  function RowPairs(cols: seq<string>, i: nat): (r: seq<string>)
    requires i < |cols|
    ensures |r| == |cols| - i - 1
    ensures forall t :: 0 <= t < |r| ==> r[t] == PairKey(cols[i], cols[i + 1 + t])
  {
    seq(|cols| - i - 1, t requires 0 <= t < |cols| - i - 1 => PairKey(cols[i], cols[i + 1 + t]))
  }

  /** The keys of the first `i` rows of the upper triangle, row by row. */
  function AllPairs(cols: seq<string>, i: nat): seq<string>
    requires i <= |cols|
  {
    if i == 0 then [] else AllPairs(cols, i - 1) + RowPairs(cols, i - 1)
  }

  /** The nested `for i` / `for j in range(i + 1, …)` loop that names the pairs. */
  method CorrelationPairs(cols: seq<string>) returns (keys: seq<string>)
    ensures keys == AllPairs(cols, |cols|)
  {
    keys := [];
    for i := 0 to |cols|
      invariant keys == AllPairs(cols, i)
    {
      for j := i + 1 to |cols|
        invariant keys == AllPairs(cols, i) + RowPairs(cols, i)[..j - i - 1]
      {
        assert RowPairs(cols, i)[..j - i] == RowPairs(cols, i)[..j - i - 1] + [PairKey(cols[i], cols[j])];
        keys := keys + [PairKey(cols[i], cols[j])];
      }
      assert RowPairs(cols, i)[..|cols| - i - 1] == RowPairs(cols, i);
    }
  }

  /** With k columns the first `i` rows hold i(2k - i - 1)/2 keys; all rows, k(k - 1)/2. */
  lemma {:induction false} PairCount(cols: seq<string>, i: nat)
    requires i <= |cols|
    ensures 2 * |AllPairs(cols, i)| == i * (2 * |cols| - i - 1)
  {
    if i > 0 {
      PairCount(cols, i - 1);
      var k := |cols|;
      assert |AllPairs(cols, i)| == |AllPairs(cols, i - 1)| + (k - i);
      TriangleStep(i, k, 2 * |AllPairs(cols, i - 1)|);
    }
  }

  /** Row i - 1 adds k - i keys to the first i - 1 rows. */
  lemma TriangleStep(i: int, k: int, before: int)
    requires before == (i - 1) * (2 * k - i)
    ensures before + 2 * (k - i) == i * (2 * k - i - 1)
  {
    assert (i - 1) * (2 * k - i) == i * (2 * k - i) - (2 * k - i);
    assert i * (2 * k - i) - i == i * (2 * k - i - 1);
  }

  /** Every pair i < j of the first rows has its key. */
  lemma {:induction false} PairKeysComplete(cols: seq<string>, k: nat, i: nat, j: nat)
    requires k <= |cols| && i < k && i < j < |cols|
    ensures PairKey(cols[i], cols[j]) in AllPairs(cols, k)
  {
    if i == k - 1 {
      assert RowPairs(cols, i)[j - i - 1] == PairKey(cols[i], cols[j]);
    } else {
      PairKeysComplete(cols, k - 1, i, j);
    }
  }

  /** Every key names a pair i < j. */
  lemma {:induction false} PairKeysOnly(cols: seq<string>, k: nat, key: string)
    requires k <= |cols| && key in AllPairs(cols, k)
    ensures exists i, j :: 0 <= i < j < |cols| && key == PairKey(cols[i], cols[j])
  {
    if key in AllPairs(cols, k - 1) {
      PairKeysOnly(cols, k - 1, key);
    } else {
      var row := RowPairs(cols, k - 1);
      var t :| 0 <= t < |row| && row[t] == key;
      assert key == PairKey(cols[k - 1], cols[k + t]);
    }
  }

  /** All rows together hold k(k - 1)/2 keys. */
  lemma PairCountAll(cols: seq<string>)
    ensures 2 * |AllPairs(cols, |cols|)| == |cols| * (|cols| - 1)
  {
    var k := |cols|;
    PairCount(cols, k);
    assert 2 * k - k - 1 == k - 1;
  }

  /**
   * With k > 1 numeric columns the section lists k(k - 1)/2 keys: the key of every
   * pair of columns i < j, and nothing else.
   */
  lemma CorrelationPairsSpec(cols: seq<string>)
    ensures 2 * |AllPairs(cols, |cols|)| == |cols| * (|cols| - 1)
    ensures forall i, j :: 0 <= i < j < |cols| ==> PairKey(cols[i], cols[j]) in AllPairs(cols, |cols|)
    ensures forall key :: key in AllPairs(cols, |cols|) ==>
      exists i, j :: 0 <= i < j < |cols| && key == PairKey(cols[i], cols[j])
  {
    PairCountAll(cols);
    forall i, j | 0 <= i < j < |cols| ensures PairKey(cols[i], cols[j]) in AllPairs(cols, |cols|) {
      PairKeysComplete(cols, |cols|, i, j);
    }
    forall key | key in AllPairs(cols, |cols|)
      ensures exists i, j :: 0 <= i < j < |cols| && key == PairKey(cols[i], cols[j])
    {
      PairKeysOnly(cols, |cols|, key);
    }
  }

  // ---------------------------------------------------------------------------
  // Sections 6 to 8: comparisons, outliers, hypothesis
  // ---------------------------------------------------------------------------

  predicate BothSegments(rows: seq<Book>) {
    Fiction(rows) != [] && NonFiction(rows) != []
  }

  /** The `<col>_comparison` entries, keyed by column, for the listed columns that exist. */
  function Comparisons(frame: BookFrame, fields: seq<Field>): map<Field, SegmentComparison> {
    map f | f in fields && HasField(frame, f) :: CompareSegments(frame.rows, f)
  }

  /** The `outlier_analysis` entries, keyed by column, for the listed columns that exist. */
  function Outliers(frame: BookFrame, fields: seq<Field>): map<Field, OutlierEntry>
    requires frame.rows != []
  {
    map f | f in fields && HasField(frame, f) :: OutlierSection(frame.rows, f)
  }

  /** The `fiction_vs_nonfiction_price` entry (the t-test itself is not modelled). */
  datatype HypothesisEntry = HypothesisEntry(fictionMeanPrice: Option<real>, nonFictionMeanPrice: Option<real>)

  function Hypothesis(rows: seq<Book>): HypothesisEntry {
    HypothesisEntry(Mean(Values(Fiction(rows), PriceField)), Mean(Values(NonFiction(rows), PriceField)))
  }

  // ---------------------------------------------------------------------------
  // The report
  // ---------------------------------------------------------------------------

  datatype Report = Report(
    totalRecords: nat,
    priceByCategory: map<string, PriceSummary>,
    ratingPatterns: Option<RatingPatterns>,
    correlationPairs: Option<seq<string>>,
    popularity: Option<Popularity>,
    comparisons: map<Field, SegmentComparison>,
    priceRanges: Option<PriceRanges>,
    outliers: map<Field, OutlierEntry>,
    hypothesis: Option<HypothesisEntry>)

  /**
   * The report of a table: `Ok(None)` is the empty report `{}` of an empty table;
   * section 3 raises `IndexError` with no rating present, section 5 with no
   * category present, and section 8 `KeyError` when there is a category column
   * but no price column.
   */
  function ReportOf(frame: BookFrame): Result<Option<Report>> {
    var rows := frame.rows;
    if rows == [] then Ok(None)
    else if frame.hasRating && RatingSection(rows).Err? then Err(IndexError)
    else if frame.hasCategory && CategoryPopularity(rows).Err? then Err(IndexError)
    else if frame.hasCategory && !frame.hasPrice then Err(KeyError("price"))
    else
      Ok(Some(Report(|rows|, PriceSection(frame), RatingPart(frame), CorrelationSection(frame),
        PopularityPart(frame), ComparisonSection(frame), RangesSection(frame), OutlierPart(frame),
        HypothesisSection(frame))))
  }

  function PriceSection(frame: BookFrame): map<string, PriceSummary> {
    if frame.hasCategory && frame.hasPrice then PriceByCategory(frame.rows) else map[]
  }

  function RatingPart(frame: BookFrame): Option<RatingPatterns> {
    if frame.hasRating && RatingSection(frame.rows).Ok? then Some(RatingSection(frame.rows).value) else None
  }

  function CorrelationSection(frame: BookFrame): Option<seq<string>> {
    var cols := NumericColumns(frame);
    if |cols| > 1 then Some(AllPairs(cols, |cols|)) else None
  }

  function PopularityPart(frame: BookFrame): Option<Popularity> {
    if frame.hasCategory && CategoryPopularity(frame.rows).Ok? then Some(CategoryPopularity(frame.rows).value) else None
  }

  function ComparisonSection(frame: BookFrame): map<Field, SegmentComparison> {
    if frame.hasCategory && BothSegments(frame.rows) then Comparisons(frame, AnalysedFields) else map[]
  }

  function RangesSection(frame: BookFrame): Option<PriceRanges> {
    if frame.hasCategory && frame.hasPrice then Some(PriceRangeComparison(frame.rows, frame.hasRating)) else None
  }

  function OutlierPart(frame: BookFrame): map<Field, OutlierEntry> {
    if frame.rows == [] then map[] else Outliers(frame, AnalysedFields)
  }

  function HypothesisSection(frame: BookFrame): Option<HypothesisEntry> {
    if frame.hasCategory && frame.hasPrice && BothSegments(frame.rows) then Some(Hypothesis(frame.rows)) else None
  }

  /**
   * The table after the report: section 4, reached once the table is non-empty and
   * section 3 has not raised, adds `availability_numeric` for a text availability.
   */
  function AfterReport(frame: BookFrame): BookFrame {
    if frame.rows != [] && !(frame.hasRating && RatingSection(frame.rows).Err?) &&
       frame.availability.TextAvailability?
    then frame.(availability := TextAvailability(true))
    else frame
  }

  /**
   * The empty table gives the empty report and only the empty table does; the
   * report fails exactly when a rating or category column has no value at all, or
   * a category column comes without a price column.
   */
  lemma ReportOutcome(frame: BookFrame)
    ensures ReportOf(frame) == Ok(None) <==> frame.rows == []
    ensures ReportOf(frame).Err? <==>
      frame.rows != [] &&
      ((frame.hasRating && Present(Values(frame.rows, RatingField)) == []) ||
       (frame.hasCategory && WithCategory(frame.rows) == 0) ||
       (frame.hasCategory && !frame.hasPrice))
  {
    RatingSectionSpec(frame.rows);
    PopularityExists(frame.rows);
  }

  /**
   * The fiction comparison appears exactly when there is a category column and
   * both segments are non-empty (and there is a price or rating column to
   * compare); it covers each of price and rating that exists, with segment counts
   * that add up to the table. The hypothesis entry appears under the same
   * segments condition when there is a price column.
   */
  lemma ComparisonSectionSpec(frame: BookFrame)
    ensures ComparisonSection(frame) != map[] <==>
      frame.hasCategory && BothSegments(frame.rows) && (frame.hasPrice || frame.hasRating)
    ensures HypothesisSection(frame).Some? <==> frame.hasCategory && frame.hasPrice && BothSegments(frame.rows)
    ensures frame.hasCategory && BothSegments(frame.rows) ==>
      (PriceField in ComparisonSection(frame) <==> frame.hasPrice) &&
      (RatingField in ComparisonSection(frame) <==> frame.hasRating)
    ensures forall f :: f in ComparisonSection(frame) ==>
      ComparisonSection(frame)[f].fiction.count + ComparisonSection(frame)[f].nonFiction.count == |frame.rows|
  {
    var m := ComparisonSection(frame);
    assert PriceField in AnalysedFields && RatingField in AnalysedFields;
    if frame.hasCategory && BothSegments(frame.rows) {
      if frame.hasPrice {
        assert PriceField in m;
      } else if frame.hasRating {
        assert RatingField in m;
      }
    }
    forall f | f in m ensures m[f].fiction.count + m[f].nonFiction.count == |frame.rows| {
      ComparisonSpec(frame.rows, f);
    }
  }

  /** The outlier analysis lists an entry for each of price and rating that exists. */
  lemma OutlierPartSpec(frame: BookFrame)
    requires frame.rows != []
    ensures (PriceField in OutlierPart(frame) <==> frame.hasPrice) && (RatingField in OutlierPart(frame) <==> frame.hasRating)
    ensures forall f :: f in OutlierPart(frame) ==> OutlierPart(frame)[f] == OutlierSection(frame.rows, f)
  {
    assert PriceField in AnalysedFields && RatingField in AnalysedFields;
  }

  /** The correlation section appears exactly when more than one numeric column exists. */
  lemma CorrelationSectionSpec(frame: BookFrame)
    ensures var k := |NumericColumns(frame)|;
      && (CorrelationSection(frame).Some? <==> k > 1)
      && (CorrelationSection(frame).Some? ==> 2 * |CorrelationSection(frame).value| == k * (k - 1))
  {
    CorrelationPairsSpec(NumericColumns(frame));
  }

  // ---------------------------------------------------------------------------
  // The analyzer object
  // ---------------------------------------------------------------------------

  /** Building a map key by key: one more key, one more entry. */
  lemma MapExtend<K, V>(keys: seq<K>, i: nat, f: K -> V)
    requires i < |keys|
    ensures (map k | k in keys[..i + 1] :: f(k)) == (map k | k in keys[..i] :: f(k))[keys[i] := f(keys[i])]
  {
    assert keys[..i + 1] == keys[..i] + [keys[i]];
  }

  /** A loop that stores `f(k)` under each key in turn. */
  method MapOver<K, V>(keys: seq<K>, f: K -> V) returns (m: map<K, V>)
    ensures m == map k | k in keys :: f(k)
  {
    m := map[];
    for i := 0 to |keys|
      invariant m == map k | k in keys[..i] :: f(k)
    {
      MapExtend(keys, i, f);
      m := m[keys[i] := f(keys[i])];
    }
    assert keys[..|keys|] == keys;
  }

  /** The `groupby('category')` loop of section 2. */
  method SummarizeByCategory(rows: seq<Book>) returns (byCategory: map<string, PriceSummary>)
    ensures byCategory == PriceByCategory(rows)
  {
    byCategory := MapOver(Categories(rows), c => Summarize(InCategory(rows, c)));
  }

  /**
   * The loops of sections 6 and 7, `for col in ['price', 'rating']: if col in
   * df.columns: entries[col] = …`: one entry for each listed column that exists.
   */
  method Tabulate<V>(fields: seq<Field>, has: Field -> bool, entry: Field --> V) returns (entries: map<Field, V>)
    requires forall f :: f in fields && has(f) ==> entry.requires(f)
    ensures entries == map f | f in fields && has(f) :: entry(f)
  {
    entries := map[];
    for i := 0 to |fields|
      invariant entries == map f | f in fields[..i] && has(f) :: entry(f)
    {
      assert fields[..i + 1] == fields[..i] + [fields[i]];
      if has(fields[i]) {
        entries := entries[fields[i] := entry(fields[i])];
      }
    }
    assert fields[..|fields|] == fields;
  }

  /** Section 4: the numeric columns and, with more than one, their pairs. */
  method CorrelationStep(frame: BookFrame) returns (correlation: Option<seq<string>>)
    ensures correlation == CorrelationSection(frame)
  {
    var cols: seq<string> := [];
    if frame.hasPrice {
      cols := cols + ["price"];
    }
    if frame.hasRating {
      cols := cols + ["rating"];
    }
    match frame.availability {
      case NoAvailability =>
      case NumericAvailability =>
        cols := cols + ["availability"];
      case TextAvailability(_) =>
        cols := cols + ["availability_numeric"];
    }
    assert cols == NumericColumns(frame);
    correlation := None;
    if |cols| > 1 {
      var keys := CorrelationPairs(cols);
      correlation := Some(keys);
    }
  }

  /** Section 6, `for col in ['price', 'rating']`: one comparison per existing column. */
  method CompareFields(frame: BookFrame) returns (comparisons: map<Field, SegmentComparison>)
    ensures comparisons == Comparisons(frame, AnalysedFields)
  {
    comparisons := Tabulate(AnalysedFields, f => HasField(frame, f), f => CompareSegments(frame.rows, f));
  }

  /** Section 6: the fiction comparison over price and rating, and the price ranges. */
  method CompareSegmentsStep(frame: BookFrame) returns (comparisons: map<Field, SegmentComparison>, ranges: Option<PriceRanges>)
    ensures comparisons == ComparisonSection(frame) && ranges == RangesSection(frame)
  {
    comparisons := map[];
    ranges := None;
    if frame.hasCategory {
      if BothSegments(frame.rows) {
        comparisons := CompareFields(frame);
      }
      if frame.hasPrice {
        ranges := Some(PriceRangeComparison(frame.rows, frame.hasRating));
      }
    }
  }

  /** Section 7: the outlier analysis of price and rating. */
  method DetectOutliers(frame: BookFrame) returns (outliers: map<Field, OutlierEntry>)
    requires frame.rows != []
    ensures outliers == OutlierPart(frame)
  {
    outliers := Tabulate(AnalysedFields, f => HasField(frame, f), f requires frame.rows != [] => OutlierSection(frame.rows, f));
  }

  class BookDataAnalyzer {
    const dataPath: string
    var df: BookFrame

    /** The analyzer over a table already read from `dataPath`. */
    constructor(dataPath: string, loaded: BookFrame)
      ensures this.dataPath == dataPath && df == loaded
    {
      this.dataPath := dataPath;
      df := loaded;
    }

    /** `generate_comprehensive_report`, section by section. */
    method GenerateComprehensiveReport() returns (r: Result<Option<Report>>)
      modifies this
      ensures r == ReportOf(old(df))
      ensures df == AfterReport(old(df))
    {
      var frame := df;
      var rows := frame.rows;
      if rows == [] {
        return Ok(None);
      }

      // 2. Price distribution across categories
      var byCategory: map<string, PriceSummary> := map[];
      if frame.hasCategory && frame.hasPrice {
        byCategory := SummarizeByCategory(rows);
      }
      assert byCategory == PriceSection(frame);

      // 3. Rating patterns
      var ratingPatterns: Option<RatingPatterns> := None;
      if frame.hasRating {
        var section := RatingSection(rows);
        if section.Err? {
          return Err(IndexError);
        }
        ratingPatterns := Some(section.value);
      }
      assert ratingPatterns == RatingPart(frame);

      // 4. Correlation pairs
      if frame.availability.TextAvailability? {
        df := frame.(availability := TextAvailability(true));
      }
      var correlation := CorrelationStep(frame);

      // 5. Category popularity
      var popularity: Option<Popularity> := None;
      if frame.hasCategory {
        var p := CategoryPopularity(rows);
        if p.Err? {
          return Err(IndexError);
        }
        popularity := Some(p.value);
      }
      assert popularity == PopularityPart(frame);

      // 6. Fiction / non-fiction comparison and price ranges
      var comparisons, ranges := CompareSegmentsStep(frame);

      // 7. IQR outliers
      var outliers := DetectOutliers(frame);

      // 8. Fiction vs non-fiction prices
      var hypothesis: Option<HypothesisEntry> := None;
      if frame.hasCategory {
        if !frame.hasPrice {
          return Err(KeyError("price"));
        }
        if BothSegments(rows) {
          hypothesis := Some(Hypothesis(rows));
        }
      }
      assert hypothesis == HypothesisSection(frame);

      r := Ok(Some(Report(|rows|, byCategory, ratingPatterns, correlation, popularity,
                          comparisons, ranges, outliers, hypothesis)));
    }
  }
}
