/**
 * The book table the analyzer reads, and the grouping and counting behind the
 * category sections of its report: `groupby('category')` (price distribution by
 * category) and `value_counts()` (category popularity).
 */
module BookGrouping {
  import opened Wrappers
  import opened Lists

  /** One row of the cleaned book CSV; `None` is a missing (`NaN`) cell. */
  datatype Book = Book(price: Option<real>, rating: Option<real>, category: Option<string>)

  /** The numeric columns the report summarises. */
  datatype Field = PriceField | RatingField

  function FieldName(f: Field): string {
    match f
    case PriceField => "price"
    case RatingField => "rating"
  }

  /** `df[col]`: one numeric column, row by row. */
  function Values(rows: seq<Book>, f: Field): (r: seq<Option<real>>)
    ensures |r| == |rows|
    ensures forall i :: 0 <= i < |rows| ==> r[i] == (if f == PriceField then rows[i].price else rows[i].rating)
  {
    seq(|rows|, i requires 0 <= i < |rows| => if f == PriceField then rows[i].price else rows[i].rating)
  }

  // ---------------------------------------------------------------------------
  // Groups
  // ---------------------------------------------------------------------------

  /** The group of `groupby('category')` for category `c`: its rows, in order. */
  function InCategory(rows: seq<Book>, c: string): (r: seq<Book>)
    ensures |r| <= |rows|
    decreases |rows|
  {
    if rows == [] then []
    else
      var n := |rows| - 1;
      InCategory(rows[..n], c) + (if rows[n].category == Some(c) then [rows[n]] else [])
  }

  /** The distinct present categories, in order of first appearance. */
  function Categories(rows: seq<Book>): (r: seq<string>)
    ensures |r| <= |rows|
    decreases |rows|
  {
    if rows == [] then []
    else
      var n := |rows| - 1;
      var cs := Categories(rows[..n]);
      if rows[n].category.Some? && rows[n].category.value !in cs then cs + [rows[n].category.value] else cs
  }

  /** The number of rows whose category is present (`value_counts` drops `NaN`). */
  function WithCategory(rows: seq<Book>): (r: nat)
    ensures r <= |rows|
    decreases |rows|
  {
    if rows == [] then 0
    else
      var n := |rows| - 1;
      WithCategory(rows[..n]) + (if rows[n].category.Some? then 1 else 0)
  }

  /** A group holds exactly the rows of its category. */
  lemma {:induction false} InCategoryRows(rows: seq<Book>, c: string)
    ensures forall b :: b in InCategory(rows, c) <==> b in rows && b.category == Some(c)
    decreases |rows|
  {
    if rows != [] {
      var n := |rows| - 1;
      InCategoryRows(rows[..n], c);
      assert rows == rows[..n] + [rows[n]];
    }
  }

  /** The categories are distinct and are exactly the present category values. */
  lemma {:induction false} CategoriesSpec(rows: seq<Book>)
    ensures Distinct(Categories(rows))
    ensures forall c :: c in Categories(rows) <==> exists i :: 0 <= i < |rows| && rows[i].category == Some(c)
    decreases |rows|
  {
    if rows != [] {
      var n := |rows| - 1;
      CategoriesSpec(rows[..n]);
      forall c ensures c in Categories(rows) <==> exists i :: 0 <= i < |rows| && rows[i].category == Some(c) {
        if c in Categories(rows[..n]) {
          var i :| 0 <= i < n && rows[..n][i].category == Some(c);
          assert rows[i].category == Some(c);
        }
        if exists i :: 0 <= i < |rows| && rows[i].category == Some(c) {
          var i :| 0 <= i < |rows| && rows[i].category == Some(c);
          if i < n {
            assert rows[..n][i].category == Some(c);
          }
        }
      }
    }
  }

  /** Every listed category has at least one row. */
  lemma CategoryNonEmpty(rows: seq<Book>, c: string)
    requires c in Categories(rows)
    ensures |InCategory(rows, c)| >= 1
  {
    CategoriesSpec(rows);
    var i :| 0 <= i < |rows| && rows[i].category == Some(c);
    InCategoryRows(rows, c);
    assert rows[i] in InCategory(rows, c);
  }

  // ---------------------------------------------------------------------------
  // Counts add up
  // ---------------------------------------------------------------------------

  /** The sum of the group sizes of the listed categories. */
  function SumCounts(rows: seq<Book>, cats: seq<string>): nat
    decreases |cats|
  {
    if cats == [] then 0 else |InCategory(rows, cats[0])| + SumCounts(rows, cats[1..])
  }

  /** How many of the listed categories a row belongs to. */
  function Hits(b: Book, cats: seq<string>): nat
    decreases |cats|
  {
    if cats == [] then 0 else (if b.category == Some(cats[0]) then 1 else 0) + Hits(b, cats[1..])
  }

  lemma {:induction false} SumCountsStep(rows: seq<Book>, b: Book, cats: seq<string>)
    ensures SumCounts(rows + [b], cats) == SumCounts(rows, cats) + Hits(b, cats)
    decreases |cats|
  {
    if cats != [] {
      SumCountsStep(rows, b, cats[1..]);
      assert (rows + [b])[..|rows|] == rows;
    }
  }

  lemma {:induction false} HitsDistinct(b: Book, cats: seq<string>)
    requires Distinct(cats)
    ensures Hits(b, cats) == if b.category.Some? && b.category.value in cats then 1 else 0
    decreases |cats|
  {
    if cats != [] {
      HitsDistinct(b, cats[1..]);
      if b.category == Some(cats[0]) {
        assert cats[0] !in cats[1..];
      }
    }
  }

  /** Over distinct categories that cover every row, the counts sum to the rows with a category. */
  lemma {:induction false} SumCountsCover(rows: seq<Book>, cats: seq<string>)
    requires Distinct(cats)
    requires forall i :: 0 <= i < |rows| && rows[i].category.Some? ==> rows[i].category.value in cats
    ensures SumCounts(rows, cats) == WithCategory(rows)
    decreases |rows|
  {
    if rows == [] {
      ZeroCounts(cats);
    } else {
      var n := |rows| - 1;
      SumCountsCover(rows[..n], cats);
      assert rows == rows[..n] + [rows[n]];
      SumCountsStep(rows[..n], rows[n], cats);
      HitsDistinct(rows[n], cats);
    }
  }

  lemma {:induction false} ZeroCounts(cats: seq<string>)
    ensures SumCounts([], cats) == 0
    decreases |cats|
  {
    if cats != [] {
      ZeroCounts(cats[1..]);
    }
  }

  /** The per-category counts sum to the number of rows that have a category. */
  lemma CategoryCountsSum(rows: seq<Book>)
    ensures SumCounts(rows, Categories(rows)) == WithCategory(rows)
  {
    CategoriesSpec(rows);
    SumCountsCover(rows, Categories(rows));
  }

  // ---------------------------------------------------------------------------
  // Most and least popular
  // ---------------------------------------------------------------------------

  /** A category with the largest count (the earliest among equals). */
  function MostPopular(rows: seq<Book>, cats: seq<string>): string
    requires cats != []
    decreases |cats|
  {
    if |cats| == 1 then cats[0]
    else
      var rest := MostPopular(rows, cats[1..]);
      if |InCategory(rows, cats[0])| >= |InCategory(rows, rest)| then cats[0] else rest
  }

  /** A category with the smallest count (the latest among equals). */
  function LeastPopular(rows: seq<Book>, cats: seq<string>): string
    requires cats != []
    decreases |cats|
  {
    if |cats| == 1 then cats[0]
    else
      var rest := LeastPopular(rows, cats[1..]);
      if |InCategory(rows, cats[0])| < |InCategory(rows, rest)| then cats[0] else rest
  }

  lemma {:induction false} MostPopularMax(rows: seq<Book>, cats: seq<string>)
    requires cats != []
    ensures MostPopular(rows, cats) in cats
    ensures forall c :: c in cats ==> |InCategory(rows, c)| <= |InCategory(rows, MostPopular(rows, cats))|
    decreases |cats|
  {
    if |cats| > 1 {
      MostPopularMax(rows, cats[1..]);
      assert forall c :: c in cats ==> c == cats[0] || c in cats[1..];
    }
  }

  lemma {:induction false} LeastPopularMin(rows: seq<Book>, cats: seq<string>)
    requires cats != []
    ensures LeastPopular(rows, cats) in cats
    ensures forall c :: c in cats ==> |InCategory(rows, LeastPopular(rows, cats))| <= |InCategory(rows, c)|
    decreases |cats|
  {
    if |cats| > 1 {
      LeastPopularMin(rows, cats[1..]);
      assert forall c :: c in cats ==> c == cats[0] || c in cats[1..];
    }
  }

  /** How many of the listed categories have at most one row. */
  function BottomCount(rows: seq<Book>, cats: seq<string>): (r: nat)
    ensures r <= |cats|
    decreases |cats|
  {
    if cats == [] then 0
    else (if |InCategory(rows, cats[0])| <= 1 then 1 else 0) + BottomCount(rows, cats[1..])
  }

  /** The categories with exactly one row, in order of first appearance. */
  function Singletons(rows: seq<Book>, cats: seq<string>): seq<string>
    decreases |cats|
  {
    if cats == [] then []
    else (if |InCategory(rows, cats[0])| == 1 then [cats[0]] else []) + Singletons(rows, cats[1..])
  }

  /** Because every listed category occurs, "at most one row" means "exactly one row". */
  lemma {:induction false} BottomCountSingletons(rows: seq<Book>, cats: seq<string>)
    requires forall c :: c in cats ==> c in Categories(rows)
    ensures BottomCount(rows, cats) == |Singletons(rows, cats)|
    decreases |cats|
  {
    if cats != [] {
      CategoryNonEmpty(rows, cats[0]);
      BottomCountSingletons(rows, cats[1..]);
    }
  }

  // ---------------------------------------------------------------------------
  // The largest counts
  // ---------------------------------------------------------------------------

  /** The row count of each listed category, in order. */
  function Counts(rows: seq<Book>, cats: seq<string>): (r: seq<nat>)
    ensures |r| == |cats| && forall i :: 0 <= i < |cats| ==> r[i] == |InCategory(rows, cats[i])|
  {
    seq(|cats|, i requires 0 <= i < |cats| => |InCategory(rows, cats[i])|)
  }

  function SumNat(xs: seq<nat>): nat
    decreases |xs|
  {
    if xs == [] then 0 else xs[0] + SumNat(xs[1..])
  }

  lemma {:induction false} SumNatAppend(a: seq<nat>, b: seq<nat>)
    ensures SumNat(a + b) == SumNat(a) + SumNat(b)
    decreases |a|
  {
    if a == [] {
      assert a + b == b;
    } else {
      assert (a + b)[0] == a[0] && (a + b)[1..] == a[1..] + b;
      SumNatAppend(a[1..], b);
    }
  }

  /** The counts of the listed categories add up to `SumCounts`. */
  lemma {:induction false} SumNatCounts(rows: seq<Book>, cats: seq<string>)
    ensures SumNat(Counts(rows, cats)) == SumCounts(rows, cats)
    decreases |cats|
  {
    if cats != [] {
      assert Counts(rows, cats)[1..] == Counts(rows, cats[1..]);
      SumNatCounts(rows, cats[1..]);
    }
  }

  /** A position of a largest element. */
  function MaxIndex(xs: seq<nat>): (i: nat)
    requires xs != []
    ensures i < |xs| && forall j :: 0 <= j < |xs| ==> xs[j] <= xs[i]
    decreases |xs|
  {
    if |xs| == 1 then 0
    else
      var k := MaxIndex(xs[1..]) + 1;
      assert forall j :: 1 <= j < |xs| ==> xs[j] == xs[1..][j - 1];
      if xs[0] >= xs[k] then 0 else k
  }

  /** The sequence without its element at position `i`. */
  function Without(xs: seq<nat>, i: nat): (r: seq<nat>)
    requires i < |xs|
    ensures |r| == |xs| - 1
  {
    xs[..i] + xs[i + 1..]
  }

  lemma SumNatCons(x: nat, b: seq<nat>)
    ensures SumNat([x] + b) == x + SumNat(b)
  {
    assert ([x] + b)[1..] == b;
  }

  lemma {:induction false} SumWithout(xs: seq<nat>, i: nat)
    requires i < |xs|
    ensures SumNat(xs) == xs[i] + SumNat(Without(xs, i))
    decreases i
  {
    if i == 0 {
      assert Without(xs, 0) == xs[1..];
    } else {
      var t := xs[1..];
      assert Without(xs, i) == [xs[0]] + Without(t, i - 1);
      SumWithout(t, i - 1);
      SumNatCons(xs[0], Without(t, i - 1));
    }
  }

  /**
   * The sum of the `k` largest values, or of all of them when there are fewer:
   * what `head(k).sum()` gives on counts sorted in decreasing order, whatever
   * the order among equal counts.
   */
  function TopSum(xs: seq<nat>, k: nat): (r: nat)
    ensures r <= SumNat(xs)
    ensures k >= |xs| ==> r == SumNat(xs)
    ensures k > 0 ==> forall j :: 0 <= j < |xs| ==> xs[j] <= r
    decreases k
  {
    if k == 0 || xs == [] then 0
    else
      var i := MaxIndex(xs);
      SumWithout(xs, i);
      xs[i] + TopSum(Without(xs, i), k - 1)
  }

  /** Where an element of `Without(xs, m)` sits in `xs`. */
  lemma WithoutIndex(xs: seq<nat>, m: nat)
    requires m < |xs|
    ensures forall i :: 0 <= i < m ==> Without(xs, m)[i] == xs[i]
    ensures forall i :: m <= i < |xs| - 1 ==> Without(xs, m)[i] == xs[i + 1]
  {
    assert forall i :: 0 <= i < m ==> Without(xs, m)[i] == xs[..m][i];
    assert forall i :: m <= i < |xs| - 1 ==> Without(xs, m)[i] == xs[m + 1..][i - m];
  }

  /** The values at the given positions, in the order given. */
  function Pick<T>(xs: seq<T>, idx: seq<nat>): (r: seq<T>)
    requires forall j :: 0 <= j < |idx| ==> idx[j] < |xs|
    ensures |r| == |idx| && forall j :: 0 <= j < |idx| ==> r[j] == xs[idx[j]]
  {
    seq(|idx|, j requires 0 <= j < |idx| => xs[idx[j]])
  }

  /** Distinct positions of `xs`. */
  predicate Positions(xs: seq<nat>, idx: seq<nat>) {
    Distinct(idx) && forall j :: 0 <= j < |idx| ==> idx[j] < |xs|
  }

  /** Positions of `xs` other than `m`, renumbered as positions of `Without(xs, m)`. */
  function ShiftDown(idx: seq<nat>, m: nat): (r: seq<nat>)
    ensures |r| == |idx|
    ensures forall j :: 0 <= j < |idx| ==> r[j] == if idx[j] <= m then idx[j] else idx[j] - 1
  {
    seq(|idx|, j requires 0 <= j < |idx| => if idx[j] <= m then idx[j] else idx[j] - 1)
  }

  /** Positions of `Without(xs, m)`, renumbered as positions of `xs`. */
  function ShiftUp(idx: seq<nat>, m: nat): (r: seq<nat>)
    ensures |r| == |idx|
    ensures forall j :: 0 <= j < |idx| ==> r[j] == if idx[j] < m then idx[j] else idx[j] + 1
  {
    seq(|idx|, j requires 0 <= j < |idx| => if idx[j] < m then idx[j] else idx[j] + 1)
  }

  lemma ShiftDownPositions(xs: seq<nat>, idx: seq<nat>, m: nat)
    requires Positions(xs, idx) && m < |xs| && m !in idx
    ensures Positions(Without(xs, m), ShiftDown(idx, m))
    ensures Pick(Without(xs, m), ShiftDown(idx, m)) == Pick(xs, idx)
  {
    WithoutIndex(xs, m);
    forall j | 0 <= j < |idx| ensures idx[j] != m {
      assert idx[j] in idx;
    }
  }

  lemma ShiftUpPositions(xs: seq<nat>, idx: seq<nat>, m: nat)
    requires m < |xs| && Positions(Without(xs, m), idx)
    ensures Positions(xs, ShiftUp(idx, m)) && m !in ShiftUp(idx, m)
    ensures Pick(xs, ShiftUp(idx, m)) == Pick(Without(xs, m), idx)
  {
    WithoutIndex(xs, m);
  }

  /** Removing one chosen position removes its value from the picked values. */
  lemma PickWithout(xs: seq<nat>, idx: seq<nat>, p: nat)
    requires Positions(xs, idx) && p < |idx|
    ensures Positions(xs, Without(idx, p)) && idx[p] !in Without(idx, p)
    ensures Without(Pick(xs, idx), p) == Pick(xs, Without(idx, p))
  {
    WithoutIndex(idx, p);
    WithoutIndex(Pick(xs, idx), p);
  }

  /**
   * `TopSum` is the largest sum of at most `k` values taken at distinct
   * positions: no choice does better.
   */
  lemma {:induction false} TopSumMax(xs: seq<nat>, k: nat, idx: seq<nat>)
    requires Positions(xs, idx) && |idx| <= k
    ensures SumNat(Pick(xs, idx)) <= TopSum(xs, k)
    decreases k
  {
    if idx != [] {
      var ys, down := TopSumMaxStep(xs, k, idx);
      TopSumMax(ys, k - 1, down);
      TopSumStep(xs, k);
    }
  }

  /**
   * The step of `TopSumMax`: a choice of positions is worth at most a largest
   * value plus a choice of one position fewer among the other values.
   */
  lemma TopSumMaxStep(xs: seq<nat>, k: nat, idx: seq<nat>) returns (ys: seq<nat>, down: seq<nat>)
    requires Positions(xs, idx) && idx != [] && |idx| <= k
    ensures xs != [] && k > 0 && ys == Without(xs, MaxIndex(xs))
    ensures Positions(ys, down) && |down| <= k - 1
    ensures SumNat(Pick(xs, idx)) <= xs[MaxIndex(xs)] + SumNat(Pick(ys, down))
  {
    assert idx[0] < |xs|;
    var m := MaxIndex(xs);
    var p := SplitAtMax(xs, idx);
    var rest := Without(idx, p);
    ys, down := Without(xs, m), ShiftDown(rest, m);
    ShiftDownPositions(xs, rest, m);
  }

  /** One step of `TopSum`: a largest value, then the best of the rest. */
  lemma TopSumStep(xs: seq<nat>, k: nat)
    requires xs != [] && k > 0
    ensures TopSum(xs, k) == xs[MaxIndex(xs)] + TopSum(Without(xs, MaxIndex(xs)), k - 1)
  {
  }

  /**
   * Takes out of `idx` the position of a largest value if it is chosen, and
   * otherwise its first position, which holds no more than a largest value.
   */
  lemma SplitAtMax(xs: seq<nat>, idx: seq<nat>) returns (p: nat)
    requires Positions(xs, idx) && idx != []
    ensures xs != [] && p < |idx| && xs[idx[p]] <= xs[MaxIndex(xs)]
    ensures Positions(xs, Without(idx, p)) && MaxIndex(xs) !in Without(idx, p)
    ensures SumNat(Pick(xs, idx)) == xs[idx[p]] + SumNat(Pick(xs, Without(idx, p)))
  {
    assert idx[0] < |xs|;
    var m := MaxIndex(xs);
    p := if m in idx then IndexOf(idx, m) else 0;
    SumWithout(Pick(xs, idx), p);
    PickWithout(xs, idx, p);
  }

  /** Positions whose values add up to `TopSum`: a largest value, then the best of the rest. */
  function TopPositions(xs: seq<nat>, k: nat): (idx: seq<nat>)
    ensures Positions(xs, idx)
    ensures |idx| == if k < |xs| then k else |xs|
    ensures SumNat(Pick(xs, idx)) == TopSum(xs, k)
    decreases k
  {
    if k == 0 || xs == [] then []
    else
      var m := MaxIndex(xs);
      var rest := TopPositions(Without(xs, m), k - 1);
      ConsPositions(xs, m, rest);
      [m] + ShiftUp(rest, m)
  }

  /** A position followed by renumbered positions of the rest. */
  lemma ConsPositions(xs: seq<nat>, m: nat, rest: seq<nat>)
    requires m < |xs| && Positions(Without(xs, m), rest)
    ensures Positions(xs, [m] + ShiftUp(rest, m))
    ensures SumNat(Pick(xs, [m] + ShiftUp(rest, m))) == xs[m] + SumNat(Pick(Without(xs, m), rest))
  {
    var up := ShiftUp(rest, m);
    ShiftUpPositions(xs, rest, m);
    assert Pick(xs, [m] + up) == [xs[m]] + Pick(xs, up);
    SumNatCons(xs[m], Pick(xs, up));
  }

  // ---------------------------------------------------------------------------
  // Category popularity (section 5 of the report)
  // ---------------------------------------------------------------------------

  /** The `category_popularity` entry of the report. */
  datatype Popularity = Popularity(
    frequency: map<string, nat>,
    percentage: map<string, real>,
    totalCategories: nat,
    mostPopular: string,
    leastPopular: string,
    top3Percentage: real,
    bottomCount: nat)

  /**
   * `value_counts()` on the category column with the entries built from it;
   * `index[0]` on an empty count raises `IndexError`.
   */
  function CategoryPopularity(rows: seq<Book>): Result<Popularity> {
    var cats := Categories(rows);
    if cats == [] then Err(IndexError)
    else
      Ok(Popularity(
        map c | c in cats :: |InCategory(rows, c)|,
        map c | c in cats :: |InCategory(rows, c)| as real / |rows| as real * 100.0,
        |cats|,
        MostPopular(rows, cats),
        LeastPopular(rows, cats),
        TopSum(Counts(rows, cats), 3) as real / |rows| as real * 100.0,
        BottomCount(rows, cats)))
  }

  /** The popularity entry exists exactly when some row has a category. */
  lemma PopularityExists(rows: seq<Book>)
    ensures CategoryPopularity(rows).Ok? <==> WithCategory(rows) > 0
  {
    var cats := Categories(rows);
    CategoryCountsSum(rows);
    if cats == [] {
      assert SumCounts(rows, cats) == 0;
    } else {
      CategoryNonEmpty(rows, cats[0]);
      assert SumCounts(rows, cats) >= |InCategory(rows, cats[0])|;
    }
  }

  /** The frequencies are keyed by exactly the present categories. */
  lemma PopularityKeys(rows: seq<Book>)
    requires CategoryPopularity(rows).Ok?
    ensures var p := CategoryPopularity(rows).value;
      p.frequency.Keys == (set c | c in Categories(rows)) && p.totalCategories == |p.frequency.Keys|
  {
    CategoriesSpec(rows);
    SetSize(Categories(rows));
  }

  /**
   * The frequencies are the group sizes, each at least one, and they sum to the
   * number of rows that have a category.
   */
  lemma PopularityCounts(rows: seq<Book>)
    requires CategoryPopularity(rows).Ok?
    ensures var p := CategoryPopularity(rows).value;
      && (forall c :: c in p.frequency ==> p.frequency[c] == |InCategory(rows, c)| >= 1)
      && SumCounts(rows, Categories(rows)) == WithCategory(rows)
  {
    var p := CategoryPopularity(rows).value;
    CategoryCountsSum(rows);
    forall c | c in p.frequency ensures p.frequency[c] == |InCategory(rows, c)| >= 1 {
      CategoryNonEmpty(rows, c);
    }
  }

  /** The most popular category has a maximal count and the least popular a minimal one. */
  lemma PopularityExtremes(rows: seq<Book>)
    requires CategoryPopularity(rows).Ok?
    ensures var p := CategoryPopularity(rows).value;
      && p.mostPopular in p.frequency && p.leastPopular in p.frequency
      && forall c :: c in p.frequency ==>
           p.frequency[p.leastPopular] <= p.frequency[c] <= p.frequency[p.mostPopular]
  {
    MostPopularMax(rows, Categories(rows));
    LeastPopularMin(rows, Categories(rows));
  }

  /**
   * `top_3_categories_percentage`: the share of the table held by the three
   * most popular categories lies in [0, 100] percent, is at least the share of
   * the most popular one, and is the share of every categorised row when there
   * are at most three categories.
   */
  lemma PopularityTop3(rows: seq<Book>)
    requires CategoryPopularity(rows).Ok?
    ensures var p := CategoryPopularity(rows).value;
      && 0.0 <= p.top3Percentage <= 100.0
      && p.mostPopular in p.percentage && p.percentage[p.mostPopular] <= p.top3Percentage
      && (p.totalCategories <= 3 ==> p.top3Percentage == WithCategory(rows) as real / |rows| as real * 100.0)
  {
    var p := CategoryPopularity(rows).value;
    var cats := Categories(rows);
    var top := TopSum(Counts(rows, cats), 3);
    TopCounts(rows);
    PercentBounds(top, |rows|);
    MostPopularMax(rows, cats);
    PercentMonotone(|InCategory(rows, p.mostPopular)|, top, |rows|);
  }

  /** The frequencies of the chosen categories, added up. */
  function FreqSum(freq: map<string, nat>, chosen: seq<string>): nat
    requires forall c <- chosen :: c in freq
  {
    SumNat(seq(|chosen|, j requires 0 <= j < |chosen| => freq[chosen[j]]))
  }

  /** `freq` gives each listed category the count at its position. */
  predicate CountsOf(freq: map<string, nat>, cats: seq<string>, xs: seq<nat>) {
    |xs| == |cats| && forall i :: 0 <= i < |cats| ==> cats[i] in freq && freq[cats[i]] == xs[i]
  }

  /** The frequencies of chosen categories are the counts at their positions. */
  lemma FreqSumPick(freq: map<string, nat>, cats: seq<string>, xs: seq<nat>, idx: seq<nat>)
    requires CountsOf(freq, cats, xs) && Positions(xs, idx)
    ensures forall c <- Pick(cats, idx) :: c in freq
    ensures FreqSum(freq, Pick(cats, idx)) == SumNat(Pick(xs, idx))
  {
    var chosen := Pick(cats, idx);
    assert forall j :: 0 <= j < |chosen| ==> chosen[j] in freq;
    assert Pick(xs, idx) == seq(|chosen|, j requires 0 <= j < |chosen| => freq[chosen[j]]);
  }

  /** Distinct categories from a list are chosen at distinct positions. */
  lemma ChosenPositions(cats: seq<string>, xs: seq<nat>, chosen: seq<string>) returns (idx: seq<nat>)
    requires |xs| == |cats| && Distinct(chosen) && forall c <- chosen :: c in cats
    ensures Positions(xs, idx) && Pick(cats, idx) == chosen
  {
    idx := seq(|chosen|, j requires 0 <= j < |chosen| => IndexOf(cats, chosen[j]));
    assert forall j :: 0 <= j < |chosen| ==> idx[j] < |cats| && cats[idx[j]] == chosen[j];
  }

  /** Positions distinct in a duplicate-free list choose distinct entries. */
  lemma PickDistinct(cats: seq<string>, xs: seq<nat>, idx: seq<nat>)
    requires |xs| == |cats| && Distinct(cats) && Positions(xs, idx)
    ensures Distinct(Pick(cats, idx))
  {
  }

  /** The frequency table holds the counts of the listed categories. */
  lemma FrequencyCounts(rows: seq<Book>)
    requires CategoryPopularity(rows).Ok?
    ensures CountsOf(CategoryPopularity(rows).value.frequency, Categories(rows), Counts(rows, Categories(rows)))
    ensures CategoryPopularity(rows).value.top3Percentage ==
      TopSum(Counts(rows, Categories(rows)), 3) as real / |rows| as real * 100.0
    ensures CategoryPopularity(rows).value.totalCategories == |Categories(rows)|
    ensures forall c :: c in CategoryPopularity(rows).value.frequency <==> c in Categories(rows)
  {
    CountsOfGroups(rows, Categories(rows));
  }

  /** The group sizes of the listed categories, as a table, hold their counts. */
  lemma CountsOfGroups(rows: seq<Book>, cats: seq<string>)
    ensures CountsOf(map c | c in cats :: |InCategory(rows, c)|, cats, Counts(rows, cats))
  {
    var freq := map c | c in cats :: |InCategory(rows, c)|;
    forall i | 0 <= i < |cats| ensures cats[i] in freq && freq[cats[i]] == Counts(rows, cats)[i] {
      assert cats[i] in cats;
    }
  }

  /** Three most frequent categories (all of them when there are fewer), as `head(3)` of the counts takes them up to ties. */
  function TopCategories(rows: seq<Book>): (top: seq<string>)
    ensures var cats := Categories(rows);
      && Distinct(top) && |top| == (if 3 < |cats| then 3 else |cats|)
      && forall c <- top :: c in cats
  {
    var cats := Categories(rows);
    var xs := Counts(rows, cats);
    var idx := TopPositions(xs, 3);
    CategoriesSpec(rows);
    PickDistinct(cats, xs, idx);
    Pick(cats, idx)
  }

  /**
   * `top_3_categories_percentage` is the largest share any three categories
   * hold: no choice of at most three distinct categories holds more.
   */
  lemma PopularityTop3Max(rows: seq<Book>, chosen: seq<string>)
    requires CategoryPopularity(rows).Ok?
    requires Distinct(chosen) && |chosen| <= 3
    requires forall c <- chosen :: c in CategoryPopularity(rows).value.frequency
    ensures var p := CategoryPopularity(rows).value;
      FreqSum(p.frequency, chosen) as real / |rows| as real * 100.0 <= p.top3Percentage
  {
    var freq := CategoryPopularity(rows).value.frequency;
    var cats := Categories(rows);
    var xs := Counts(rows, cats);
    FrequencyCounts(rows);
    var idx := ChosenPositions(cats, xs, chosen);
    FreqSumPick(freq, cats, xs, idx);
    TopSumMax(xs, 3, idx);
    PercentMonotone(FreqSum(freq, chosen), TopSum(xs, 3), |rows|);
  }

  /** `TopCategories` holds exactly `top_3_categories_percentage` of the rows. */
  lemma PopularityTop3Attained(rows: seq<Book>)
    requires CategoryPopularity(rows).Ok?
    ensures var p := CategoryPopularity(rows).value;
      var top := TopCategories(rows);
      && (forall c <- top :: c in p.frequency)
      && |top| == (if 3 < p.totalCategories then 3 else p.totalCategories)
      && p.top3Percentage == FreqSum(p.frequency, top) as real / |rows| as real * 100.0
  {
    var freq := CategoryPopularity(rows).value.frequency;
    var cats := Categories(rows);
    var xs := Counts(rows, cats);
    FrequencyCounts(rows);
    FreqSumPick(freq, cats, xs, TopPositions(xs, 3));
  }

  /** The three largest counts add up to at most the categorised rows, and to all of them for three categories or fewer. */
  lemma TopCounts(rows: seq<Book>)
    ensures var cats := Categories(rows);
      var top := TopSum(Counts(rows, cats), 3);
      && top <= WithCategory(rows) <= |rows|
      && (|cats| <= 3 ==> top == WithCategory(rows))
      && (forall c :: c in cats ==> |InCategory(rows, c)| <= top)
  {
    var cats := Categories(rows);
    var xs := Counts(rows, cats);
    SumNatCounts(rows, cats);
    CategoryCountsSum(rows);
    forall c | c in cats ensures |InCategory(rows, c)| <= TopSum(xs, 3) {
      var j :| 0 <= j < |cats| && cats[j] == c;
      assert xs[j] == |InCategory(rows, c)|;
    }
  }

  lemma PercentMonotone(a: nat, b: nat, whole: nat)
    requires a <= b && whole > 0
    ensures a as real / whole as real * 100.0 <= b as real / whole as real * 100.0
  {
    var w := whole as real;
    assert b as real / w - a as real / w == (b - a) as real / w;
  }

  /** Every category's share of the table lies in [0, 100] percent. */
  lemma PopularityPercentages(rows: seq<Book>)
    requires CategoryPopularity(rows).Ok?
    ensures var p := CategoryPopularity(rows).value;
      forall c :: c in p.percentage ==> 0.0 <= p.percentage[c] <= 100.0
  {
    var p := CategoryPopularity(rows).value;
    var cats := Categories(rows);
    assert cats[0] in cats;
    CategoryNonEmpty(rows, cats[0]);
    forall c | c in p.percentage ensures 0.0 <= p.percentage[c] <= 100.0 {
      PercentBounds(|InCategory(rows, c)|, |rows|);
    }
  }

  /** The bottom count is the number of categories seen exactly once. */
  lemma PopularityBottom(rows: seq<Book>)
    requires CategoryPopularity(rows).Ok?
    ensures CategoryPopularity(rows).value.bottomCount == |Singletons(rows, Categories(rows))|
  {
    BottomCountSingletons(rows, Categories(rows));
  }

  /** A part of a whole, in percent, lies in [0, 100]. */
  lemma PercentBounds(part: nat, whole: nat)
    requires part <= whole && whole > 0
    ensures 0.0 <= part as real / whole as real * 100.0 <= 100.0
  {
    var q := part as real / whole as real;
    assert q * whole as real == part as real;
    assert q <= 1.0 by {
      if q > 1.0 {
        assert q * whole as real > 1.0 * whole as real;
      }
    }
  }
}
