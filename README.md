# Book-data cleaning, book report and university records in Dafny

This project models two small Python systems and proves properties of the models.

- **Book-data cleaning.** `DataCleaner` in
  `question2_social_media_analysis/data_processing/cleaner.py` normalises text and extracts
  hashtags, mentions and keywords. It also drops duplicate titles, fills missing values,
  converts `£`/`€`/`$` prices to dollars, derives feature columns and runs these stages as
  one pipeline.
- **Book report.** `BookDataAnalyzer.generate_comprehensive_report` in
  `question2_social_media_analysis/analysis/analyzer.py` builds the report sections that
  group, count, partition and select rows:
  - price distribution by category;
  - rating patterns;
  - correlation pair keys;
  - category popularity;
  - the fiction / non-fiction comparison and the price-quartile split;
  - IQR outliers with their verdict;
  - the hypothesis-test entry.
- **University records.** The classes in `question1_university_system`: `Person` and
  `Staff`, the student classes, the faculty classes, `Department`, and the JSON load, save,
  person dispatch and integrity check of `database_manager.py`.

## Layout

| file | module | models |
|---|---|---|
| `wrappers.dfy` | `Wrappers` | `Option`, `Result` and the Python exceptions raised (`ValueError`, `KeyError`, `IndexError`, `ZeroDivisionError`) |
| `lists.dfy` | `Lists` | duplicate-free lists, `list.remove` (first occurrence), `list.index` |
| `tables.dfy` | `Tables` | a pandas table: cells (`NaN`, number, text), typed columns, rows as maps from column name to cell |
| `text_cleaning.dfy` | `TextCleaning` | `clean_text`, `extract_hashtags`, `extract_mentions`, `extract_keywords` |
| `price_conversion.dfy` | `PriceConversion` | the inner `convert_price`: `float()`, the rate table, `round(x, 2)` |
| `data_cleaner.dfy` | `DataCleaning` | the table operations and the `DataCleaner` class with its `processing_stats` |
| `statistics.dfy` | `Statistics` | `NaN`-skipping mean, sorting, and `Series.quantile` with linear interpolation |
| `book_grouping.dfy` | `BookGrouping` | `groupby('category')` and `value_counts()` of the category column |
| `book_segments.dfy` | `BookSegments` | the fiction mask, the price-quartile split, the IQR fences, `_analyze_outlier_results` |
| `book_report.dfy` | `BookReport` | `generate_comprehensive_report`, section by section, and the `BookDataAnalyzer` class |
| `person.dfy` | `People` | `Person` and `Staff` |
| `course.dfy` | `Courses` | a minimal `Course`: `course.py` is not part of this model, so only what its callers rely on is modelled |
| `student.dfy` | `Students` | `Student`, `UndergraduateStudent` and `GraduateStudent` as one class with a `Level` |
| `faculty.dfy` | `Faculties` | `Faculty`, `Professor`, `Lecturer` and `TA` as one class with a `Role` |
| `department.dfy` | `Departments` | `Department` |
| `database.dfy` | `Database` | `database_manager.py` over decoded JSON values |

## How the models are built

- **Classes.** Classes whose methods update fields in place are Dafny classes.
  - Methods carry `modifies` clauses and state the whole new state.
  - Subclasses become one class with a variant field: `Role` for faculty, `Level` for
    students. Each subclass constructor is a named constructor.
  - A student or faculty member holds its `Person` part (`person`) instead of inheriting
    from it.
- **Tables.** The cleaner's and the analyzer's tables are values, and their operations are
  functions.
  - Where the source loops (column by column, row by row, department by department), the
    loop is a method.
  - Each such method is proved equal to the function that specifies it.
- **Numbers.** Prices, ratings and grades are exact `real`s.
  - `round(x, 2)` rounds half to even on the exact value.
  - `float(s)` reads plain decimal notation.
  - pandas' `NaN` is `None` or `Missing`.
- **The database.** It is modelled on values.
  - A department's or course's reference to a person or course is that entry's position in
    the loaded list, so Python's object identity becomes equality of positions.
  - The central theorem is `SaveThenLoad`: a database that passes the integrity check loads
    back unchanged from the file `save_database` writes.
  - A plain `Student`, `Faculty` or `Person` is saved under its class name, which the
    loader does not dispatch on, so that person is dropped on loading
    (`BaseClassDropped`, `BaseClassNotRestored`). `SaveThenLoad` therefore covers databases
    whose people are all of the concrete classes.
- **`most_common_rating`.** It is modelled as written. The code takes `index[0]` of
  `value_counts().sort_index()`, which is the smallest rating present, not the most
  frequent one. `RatingSectionSpec` states this, and `MostCommonRatingIsNotTheMode` gives
  ratings 1, 5, 5 as an example.
- **Category counts.** `value_counts()` leaves out rows without a category. So the
  per-category counts add up to the rows that have a category, not to every row
  (`CategoryCountsSum`).

## Model

| member | source | states |
|---|---|---|
| TextCleaning.Lower | question2_social_media_analysis/data_processing/cleaner.py:138 | `str.lower`: same length, each character lower-cased, upper-case letters gone, word and space characters kept |
| TextCleaning.Strip | question2_social_media_analysis/data_processing/cleaner.py:138 | `str.strip`: no whitespace at either end; only characters of the input; text without double spaces keeps none; text without whitespace is unchanged |
| TextCleaning.KeepAllowed | question2_social_media_analysis/data_processing/cleaner.py:141 | removing `[^a-z0-9\s]` keeps exactly the allowed characters, in order, and never lengthens the text; text of allowed characters only is unchanged |
| TextCleaning.KeepAllowedAppend | question2_social_media_analysis/data_processing/cleaner.py:141 | the substitution works character by character: it distributes over concatenation, and a single character is kept iff it is allowed |
| TextCleaning.Collapse | question2_social_media_analysis/data_processing/cleaner.py:144 | replacing `\s+` with one space: empty iff the input is empty; a leading whitespace run becomes a space; every non-space character is kept; no two adjacent spaces remain |
| TextCleaning.CollapseWord | question2_social_media_analysis/data_processing/cleaner.py:144 | a run of non-space characters passes through unchanged in front of whatever follows |
| TextCleaning.CollapseRun | question2_social_media_analysis/data_processing/cleaner.py:144 | a non-empty whitespace run, whatever its characters, becomes exactly one space |
| TextCleaning.CollapseBoundary | question2_social_media_analysis/data_processing/cleaner.py:144 | a word followed by a whitespace run keeps the word and puts one space in place of the run |
| TextCleaning.CollapseUnchanged | question2_social_media_analysis/data_processing/cleaner.py:144 | text that already has single plain spaces is left unchanged |
| TextCleaning.CleanText | question2_social_media_analysis/data_processing/cleaner.py:124-146 | non-string input gives `''`; otherwise the output has only `a-z`, `0-9` and spaces, with no two adjacent spaces |
| TextCleaning.CleanTextKeepsLetters | question2_social_media_analysis/data_processing/cleaner.py:138-141 | every ASCII letter or digit of the input appears, lower-cased, in the output |
| TextCleaning.CleanTextTwice | question2_social_media_analysis/data_processing/cleaner.py:138-144 | cleaning cleaned text only strips it, so a second pass can only drop an edge space (`"a !"` gives `"a "`) |
| TextCleaning.CleanTextIdempotent | question2_social_media_analysis/data_processing/cleaner.py:138-144 | an output without edge spaces is a fixed point of `clean_text` |
| TextCleaning.CleanTextStable | question2_social_media_analysis/data_processing/cleaner.py:138-144 | the second application is always a fixed point |
| TextCleaning.WordRun | question2_social_media_analysis/data_processing/cleaner.py:161 | the maximal prefix of word characters that `\w+` matches |
| TextCleaning.Tokens | question2_social_media_analysis/data_processing/cleaner.py:161-162 | each match is the marker followed by one or more lower-cased word characters; there are at most as many as markers in the text |
| TextCleaning.ExtractHashtags | question2_social_media_analysis/data_processing/cleaner.py:148-162 | non-string input gives `[]`; every hashtag is `#` then word characters; at most one per `#` |
| TextCleaning.ExtractMentions | question2_social_media_analysis/data_processing/cleaner.py:164-178 | non-string input gives `[]`; every mention is `@` then word characters; at most one per `@` |
| TextCleaning.TokensAppend | question2_social_media_analysis/data_processing/cleaner.py:161 | matches are found in order of appearance: the tokens of a text split after a non-word, non-marker character are those of the first part followed by those of the second |
| TextCleaning.TokensOfOneTag | question2_social_media_analysis/data_processing/cleaner.py:161-162 | a marker followed by a word yields exactly that one token, lower-cased |
| TextCleaning.NonSpaceRun | question2_social_media_analysis/data_processing/cleaner.py:195 | the maximal prefix without whitespace |
| TextCleaning.Words | question2_social_media_analysis/data_processing/cleaner.py:195 | `str.split()` yields non-empty words without whitespace |
| TextCleaning.WordsOfJoin | question2_social_media_analysis/data_processing/cleaner.py:195 | splitting words joined by single spaces gives the words back |
| TextCleaning.WordsChars | question2_social_media_analysis/data_processing/cleaner.py:195 | every character of a split word comes from the text |
| TextCleaning.WordsLower | question2_social_media_analysis/data_processing/cleaner.py:195 | the words of lower-cased text have no upper-case letter |
| TextCleaning.LongWords | question2_social_media_analysis/data_processing/cleaner.py:196 | the filter keeps exactly the words of length at least `min_length`: every kept word is one of them and every such word is kept; all are kept when all qualify |
| TextCleaning.LongWordsAppend | question2_social_media_analysis/data_processing/cleaner.py:196 | the list comprehension keeps input order: filtering a concatenation is the concatenation of the filtered parts |
| TextCleaning.LongWordsDropShort | question2_social_media_analysis/data_processing/cleaner.py:196 | a short word between two long ones is dropped and the long ones are kept, in order |
| TextCleaning.ExtractKeywords | question2_social_media_analysis/data_processing/cleaner.py:180-198 | non-string input gives `[]`; every keyword is a lower-case word of length at least `min_length`, and every word of the lower-cased text of that length is a keyword |
| TextCleaning.KeywordsOfJoin | question2_social_media_analysis/data_processing/cleaner.py:191-198 | for lower-case words joined by spaces, the keywords are exactly the long words, in input order |
| TextCleaning.KeywordsOfLongWords | question2_social_media_analysis/data_processing/cleaner.py:191-198 | lower-case words all of sufficient length joined by spaces come back exactly, in order |
| TextCleaning.KeywordsDropShort | question2_social_media_analysis/data_processing/cleaner.py:191-198 | in a three-word text whose middle word is short, the keywords are the first and last words |
| PriceConversion.DigitPrefix | question2_social_media_analysis/data_processing/cleaner.py:295 | the longest run of leading digits that `float()` reads as the integer part |
| PriceConversion.NatDigitsValue | question2_social_media_analysis/data_processing/cleaner.py:295 | the decimal digits of a number read back as that number |
| PriceConversion.ParseDecimalText | question2_social_media_analysis/data_processing/cleaner.py:295 | `float("w.f")` is the integer value of `w` plus the fraction `0.f` |
| PriceConversion.TwoDigitsFraction | question2_social_media_analysis/data_processing/cleaner.py:295 | two fractional digits `ab` read as `(10a + b) / 100` |
| PriceConversion.ParseFormattedCents | question2_social_media_analysis/data_processing/cleaner.py:295 | a price written with two decimals reads back as its exact value |
| PriceConversion.Round2 | question2_social_media_analysis/data_processing/cleaner.py:298 | `round(x, 2)` is a whole number of cents within half a cent of `x`, and leaves cents unchanged |
| PriceConversion.SymbolRate | question2_social_media_analysis/data_processing/cleaner.py:274-278 | the rate whose symbol starts the price, or none when no symbol matches |
| PriceConversion.SymbolRateFinds | question2_social_media_analysis/data_processing/cleaner.py:290-291 | a price starting with a table symbol finds that symbol's rate |
| PriceConversion.ConvertPrice | question2_social_media_analysis/data_processing/cleaner.py:282-308 | `NaN` and numbers stay as they are; converted iff the stripped text starts with `£`/`€`/`$` and the rest parses, giving cents; a symbol whose rest does not parse leaves the value unchanged; without a symbol, a text `float()` reads becomes that number, uncounted, and any other text is left unchanged |
| PriceConversion.ConvertPlainPrice | question2_social_media_analysis/data_processing/cleaner.py:303-305 | a price written with two decimals and no symbol becomes that many dollars and is not counted as converted |
| PriceConversion.ConvertSymbolPrice | question2_social_media_analysis/data_processing/cleaner.py:290-298 | a matched symbol and a parsed remainder give `round(value * rate, 2)`, counted as converted |
| PriceConversion.ConvertSymbolText | question2_social_media_analysis/data_processing/cleaner.py:290-298 | a symbol followed by a decimal number converts at that symbol's rate |
| PriceConversion.ConvertPoundPrice | question2_social_media_analysis/data_processing/cleaner.py:274-298 | `"£10.00"` becomes `12.7` dollars, counted as converted |
| DataCleaning.FirstIndices | question2_social_media_analysis/data_processing/cleaner.py:81 | `keep='first'` keeps positions of the input only, no more than there are rows |
| DataCleaning.FirstIndicesIncreasing | question2_social_media_analysis/data_processing/cleaner.py:81 | kept positions are increasing, so relative order is preserved |
| DataCleaning.FirstIndicesKept | question2_social_media_analysis/data_processing/cleaner.py:81 | a row is kept iff its key does not occur in an earlier row |
| DataCleaning.FirstOccurrence | question2_social_media_analysis/data_processing/cleaner.py:81 | every key has a first occurrence at or before any of its rows |
| DataCleaning.Keys | question2_social_media_analysis/data_processing/cleaner.py:81 | the key of each row is its cells in the `subset` columns |
| DataCleaning.DropDuplicates | question2_social_media_analysis/data_processing/cleaner.py:81 | the output is the rows at the kept positions, never more rows than the input |
| DataCleaning.DropDuplicatesSpec | question2_social_media_analysis/data_processing/cleaner.py:78-87 | output keys are pairwise distinct, and every input key is still represented |
| DataCleaning.FillOne | question2_social_media_analysis/data_processing/cleaner.py:106 | `fillna` on one column, row by row |
| DataCleaning.FillKind | question2_social_media_analysis/data_processing/cleaner.py:102-112 | filling every column of a kind keeps the number of rows |
| DataCleaning.FillKindKeys | question2_social_media_analysis/data_processing/cleaner.py:102-112 | filling keeps each row's columns |
| DataCleaning.FillKindSpec | question2_social_media_analysis/data_processing/cleaner.py:102-112 | present values are unchanged; a missing cell of a column that is filled gets the fill value; other cells are unchanged |
| DataCleaning.MissingColumn | question2_social_media_analysis/data_processing/cleaner.py:116 | the first required column absent from the table (`KeyError`), or none when all exist |
| DataCleaning.HandleMissingSpec | question2_social_media_analysis/data_processing/cleaner.py:89-122 | after filling, kept rows have every required value and no missing numeric or categorical cell, and each keeps the present values of an input row; `DataCleaning.HandleMissingKeeps` gives the converse |
| DataCleaning.Filled | question2_social_media_analysis/data_processing/cleaner.py:102-112 | the numeric and then the categorical `fillna` passes keep one row per input row |
| DataCleaning.FilledRequired | question2_social_media_analysis/data_processing/cleaner.py:102-116 | filling keeps each row's columns, and a filled row has every required value iff each required cell was present or lies in a numeric column |
| DataCleaning.HandleMissingKeeps | question2_social_media_analysis/data_processing/cleaner.py:115-116 | `dropna(subset=required)` keeps the filled rows with every required value, in order: a row that survives filling is kept and any other row is dropped |
| Tables.FilterRowsAppend | question2_social_media_analysis/data_processing/cleaner.py:116 | row selection keeps order: selecting from a concatenation concatenates the selections |
| DataCleaning.ColumnCells | question2_social_media_analysis/data_processing/cleaner.py:342 | the cells of one column, row by row |
| DataCleaning.MapCells | question2_social_media_analysis/data_processing/cleaner.py:345 | `Series.apply`: the function on every cell, in order |
| DataCleaning.ConvertRows | question2_social_media_analysis/data_processing/cleaner.py:311 | `convert_price` applied to every row's price |
| DataCleaning.ConvertedRows | question2_social_media_analysis/data_processing/cleaner.py:311 | the row-by-row result is the converted rows |
| DataCleaning.CountRows | question2_social_media_analysis/data_processing/cleaner.py:297 | a count of rows never exceeds the number of rows |
| DataCleaning.ConvertedCount | question2_social_media_analysis/data_processing/cleaner.py:280-297 | `converted_count` is at most the number of rows |
| DataCleaning.MapAndCount | question2_social_media_analysis/data_processing/cleaner.py:280-311 | the apply loop yields the mapped rows and the count of rows satisfying the counter |
| DataCleaning.WithKind | question2_social_media_analysis/data_processing/cleaner.py:311 | replacing the price column keeps the column names |
| DataCleaning.ConvertPrices | question2_social_media_analysis/data_processing/cleaner.py:267-311 | same rows and columns; no `price` column leaves the table unchanged |
| DataCleaning.ConvertPricesWith | question2_social_media_analysis/data_processing/cleaner.py:311 | converting the rows and setting the column gives the converted table |
| DataCleaning.ConvertPricesSpec | question2_social_media_analysis/data_processing/cleaner.py:282-311 | each row's price becomes its conversion; other cells are unchanged; `NaN` stays `NaN`; a converted price is whole cents |
| DataCleaning.Take | question2_social_media_analysis/data_processing/cleaner.py:356 | `x[:5]`: at most five, a prefix, all when there are no more |
| DataCleaning.PreprocessColumn | question2_social_media_analysis/data_processing/cleaner.py:339-356 | preprocessing a column keeps the number of rows |
| DataCleaning.PreprocessAll | question2_social_media_analysis/data_processing/cleaner.py:339-356 | preprocessing every listed column keeps the number of rows |
| DataCleaning.PreprocessCleans | question2_social_media_analysis/data_processing/cleaner.py:345 | the column holds the cleaned text of its original cell |
| DataCleaning.PreprocessFeatures | question2_social_media_analysis/data_processing/cleaner.py:347-356 | a `title`/`text` column gets comma-joined hashtags, mentions and at most five keywords, taken from the original, uncleaned text |
| DataCleaning.PreprocessNoFeatures | question2_social_media_analysis/data_processing/cleaner.py:348 | other columns add no feature columns |
| DataCleaning.FeatureColumnsByName | question2_social_media_analysis/data_processing/cleaner.py:348 | `title` and `book_text` get feature columns; `category` does not |
| DataCleaning.FeatureNamesDiffer | question2_social_media_analysis/data_processing/cleaner.py:354-356 | the three feature columns and the text column are four distinct columns |
| DataCleaning.SetColumnKeeps | question2_social_media_analysis/data_processing/cleaner.py:354-356 | adding a feature column leaves the other cells unchanged |
| DataCleaning.DropEmpty | question2_social_media_analysis/data_processing/cleaner.py:361 | `KeyError` iff the column is absent; otherwise the columns are kept and exactly the rows with non-empty text remain |
| DataCleaning.DropEmptyAllSpec | question2_social_media_analysis/data_processing/cleaner.py:358-361 | fails iff a listed required column is absent; otherwise the surviving rows are input rows with non-empty text in every listed required column |
| DataCleaning.DropEmptyAllStops | question2_social_media_analysis/data_processing/cleaner.py:359-361 | the first `KeyError` ends the loop |
| DataCleaning.DropEmptyAllShrinks | question2_social_media_analysis/data_processing/cleaner.py:359-361 | dropping never adds rows |
| DataCleaning.PreprocessShrinks | question2_social_media_analysis/data_processing/cleaner.py:324-363 | preprocessing never adds rows |
| DataCleaning.PreprocessLoop | question2_social_media_analysis/data_processing/cleaner.py:339-356 | the cleaning loop computes the preprocessed table |
| DataCleaning.DropEmptyLoop | question2_social_media_analysis/data_processing/cleaner.py:359-361 | the dropping loop computes the filtered table, or the first `KeyError` |
| DataCleaning.DataCleaner.constructor | question2_social_media_analysis/data_processing/cleaner.py:25-40 | stores the fill values; an empty required list means `['title']`; no statistics yet |
| DataCleaning.DataCleaner.RemoveDuplicates | question2_social_media_analysis/data_processing/cleaner.py:66-87 | `KeyError` for an absent key column; otherwise keep-first deduplication on `subset or ['title']`, recording input rows minus output rows |
| DataCleaning.DataCleaner.HandleMissingValues | question2_social_media_analysis/data_processing/cleaner.py:89-122 | the two fill loops and the drop, recording the number of dropped rows |
| DataCleaning.DataCleaner.ConvertPricesToUsd | question2_social_media_analysis/data_processing/cleaner.py:255-322 | the converted table; with a `price` column records `converted_prices` and `assumed_usd` = rows - converted; without one records nothing |
| DataCleaning.DataCleaner.PreprocessTextColumns | question2_social_media_analysis/data_processing/cleaner.py:324-363 | the cleaning loop, then the dropping loop |
| DataCleaning.DataCleaner.ProcessPipeline | question2_social_media_analysis/data_processing/cleaner.py:401-444 | convert, deduplicate, handle missing, preprocess, with `['title', 'category']` as the default text columns; duplicates removed + missing handled + output rows never exceed input rows |
| Statistics.Present | question2_social_media_analysis/analysis/analyzer.py:108-113 | the non-`NaN` values pandas aggregates over, never more than the cells |
| Statistics.PresentValues | question2_social_media_analysis/analysis/analyzer.py:108-113 | exactly the values of non-missing cells are present |
| Statistics.SumBounds | question2_social_media_analysis/analysis/analyzer.py:108 | a sum of values between two bounds lies between the count times each bound |
| Statistics.Mean | question2_social_media_analysis/analysis/analyzer.py:108 | `mean()` is `NaN` iff no value is present |
| Statistics.MeanBounds | question2_social_media_analysis/analysis/analyzer.py:108 | the mean lies between any bounds of the values |
| Statistics.MeanBetween | question2_social_media_analysis/analysis/analyzer.py:108-113 | the mean lies between the minimum and the maximum |
| Statistics.Insert | question2_social_media_analysis/analysis/analyzer.py:211 | inserting adds one element |
| Statistics.Sort | question2_social_media_analysis/analysis/analyzer.py:211 | sorting keeps the length |
| Statistics.InsertSorted | question2_social_media_analysis/analysis/analyzer.py:211 | inserting into a sorted list keeps it sorted |
| Statistics.InsertMultiset | question2_social_media_analysis/analysis/analyzer.py:211 | inserting adds exactly the new element |
| Statistics.SortSpec | question2_social_media_analysis/analysis/analyzer.py:211 | the sorted values are sorted and a permutation of the input |
| Statistics.Position | question2_social_media_analysis/analysis/analyzer.py:211 | the interpolation position `(n - 1) * q` split into whole and fractional parts |
| Statistics.Quantile | question2_social_media_analysis/analysis/analyzer.py:211 | `quantile(q)` is `NaN` iff no value is present |
| Statistics.QuantileExtremes | question2_social_media_analysis/analysis/analyzer.py:111-113 | quantile 0 is the smallest and quantile 1 the largest present value |
| Statistics.QuantileBounds | question2_social_media_analysis/analysis/analyzer.py:211 | every quantile lies between the minimum and the maximum |
| Statistics.QuantileMonotone | question2_social_media_analysis/analysis/analyzer.py:233-234 | a larger `q` never gives a smaller quantile, so Q1 <= Q3 |
| Statistics.MedianExample | question2_social_media_analysis/analysis/analyzer.py:109 | the median of 10, 1, `NaN`, 3, 2 is 2.5 (linear interpolation) |
| BookGrouping.Values | question2_social_media_analysis/analysis/analyzer.py:91 | a column's cells, row by row |
| BookGrouping.InCategoryRows | question2_social_media_analysis/analysis/analyzer.py:105 | a group holds exactly the rows of its category |
| BookGrouping.CategoriesSpec | question2_social_media_analysis/analysis/analyzer.py:105 | the groups are the distinct categories present, rows without a category left out |
| BookGrouping.CategoryNonEmpty | question2_social_media_analysis/analysis/analyzer.py:105 | every group has at least one row |
| BookGrouping.SumCountsCover | question2_social_media_analysis/analysis/analyzer.py:167 | counts over a distinct list covering every category add up to the rows with a category |
| BookGrouping.CategoryCountsSum | question2_social_media_analysis/analysis/analyzer.py:167 | per-category counts add up to the rows that have a category |
| BookGrouping.MostPopularMax | question2_social_media_analysis/analysis/analyzer.py:174 | the first of `value_counts()` has a maximal count |
| BookGrouping.LeastPopularMin | question2_social_media_analysis/analysis/analyzer.py:175 | the last of `value_counts()` has a minimal count |
| BookGrouping.BottomCount | question2_social_media_analysis/analysis/analyzer.py:178 | at most as many bottom categories as categories |
| BookGrouping.BottomCountSingletons | question2_social_media_analysis/analysis/analyzer.py:178 | `bottom_categories_count` is the number of categories with count <= 1 |
| BookGrouping.PopularityExists | question2_social_media_analysis/analysis/analyzer.py:166-175 | the section exists iff some row has a category; otherwise `index[0]` raises `IndexError` |
| BookGrouping.PopularityKeys | question2_social_media_analysis/analysis/analyzer.py:167-173 | the frequency and percentage tables are keyed by exactly the categories present, and `total_categories` is their number |
| BookGrouping.PopularityCounts | question2_social_media_analysis/analysis/analyzer.py:167-170 | each frequency is its category's row count, at least 1, and the frequencies add up to the rows with a category |
| BookGrouping.PopularityExtremes | question2_social_media_analysis/analysis/analyzer.py:174-175 | the most and least popular categories have the largest and smallest frequency |
| BookGrouping.PopularityPercentages | question2_social_media_analysis/analysis/analyzer.py:168 | every percentage lies in [0, 100] |
| BookGrouping.PopularityBottom | question2_social_media_analysis/analysis/analyzer.py:178 | the bottom count is the number of single-row categories |
| BookGrouping.TopSum | question2_social_media_analysis/analysis/analyzer.py:177 | the sum of the `k` largest counts: at most the total, the total when `k` covers every count, and at least every single count when `k > 0`; `TopSumMax` and `TopPositions` show it is the largest sum over at most `k` distinct positions |
| BookGrouping.TopSumMax | question2_social_media_analysis/analysis/analyzer.py:177 | no choice of at most `k` distinct positions has a larger sum than `TopSum` |
| BookGrouping.TopPositions | question2_social_media_analysis/analysis/analyzer.py:177 | `min(k, len)` distinct positions whose values add up to exactly `TopSum` |
| BookGrouping.TopCounts | question2_social_media_analysis/analysis/analyzer.py:177 | the three largest counts add up to at most the rows with a category, to exactly those rows for three categories or fewer, and to at least any one category's count |
| BookGrouping.PopularityTop3 | question2_social_media_analysis/analysis/analyzer.py:168-177 | `top_3_categories_percentage` lies in [0, 100], is at least the most popular category's percentage, and is the share of categorised rows when there are at most three categories |
| BookGrouping.TopCategories | question2_social_media_analysis/analysis/analyzer.py:177 | at most three distinct categories present, three when there are at least three |
| BookGrouping.PopularityTop3Max | question2_social_media_analysis/analysis/analyzer.py:168-177 | no choice of at most three distinct categories holds a larger share of the rows than `top_3_categories_percentage` |
| BookGrouping.PopularityTop3Attained | question2_social_media_analysis/analysis/analyzer.py:168-177 | `top_3_categories_percentage` is exactly the share of the rows held by `TopCategories`, which has `min(3, total_categories)` entries |
| BookSegments.Select | question2_social_media_analysis/analysis/analyzer.py:187 | a boolean mask keeps no more rows than it is given |
| BookSegments.Reject | question2_social_media_analysis/analysis/analyzer.py:188 | an inverted mask keeps no more rows than it is given |
| BookSegments.SelectRejectPartition | question2_social_media_analysis/analysis/analyzer.py:186-188 | a mask and its inverse split the rows into two parts whose multisets add up to the input |
| BookSegments.SelectRejectMembers | question2_social_media_analysis/analysis/analyzer.py:186-188 | a row is selected iff the mask holds for it, rejected iff not |
| BookSegments.FictionPartition | question2_social_media_analysis/analysis/analyzer.py:186-188 | fiction and non-fiction together are every row, each exactly once |
| BookSegments.FictionSides | question2_social_media_analysis/analysis/analyzer.py:186-188 | a row is fiction iff its category contains "fiction" case-insensitively; rows without a category are non-fiction |
| BookSegments.NonfictionCountsAsFiction | question2_social_media_analysis/analysis/analyzer.py:186 | the category "Nonfiction" lands on the fiction side |
| BookSegments.ComparisonSpec | question2_social_media_analysis/analysis/analyzer.py:192-207 | segment counts add up to the rows; the difference exists iff both means do and equals fiction mean minus non-fiction mean |
| BookSegments.AtMost | question2_social_media_analysis/analysis/analyzer.py:212 | the selection keeps no more rows than the table |
| BookSegments.AtLeast | question2_social_media_analysis/analysis/analyzer.py:213 | the selection keeps no more rows than the table |
| BookSegments.AtMostRows | question2_social_media_analysis/analysis/analyzer.py:212 | cheap books are exactly the rows priced at most the threshold |
| BookSegments.AtLeastRows | question2_social_media_analysis/analysis/analyzer.py:213 | expensive books are exactly the rows priced at least the threshold |
| BookSegments.QuartileSplit | question2_social_media_analysis/analysis/analyzer.py:211-213 | cheap rows cost at most Q25 and expensive rows at least Q75; the two are disjoint when Q25 < Q75; when Q25 = Q75 a row at that price is in both |
| BookSegments.QuartileSplitNonEmpty | question2_social_media_analysis/analysis/analyzer.py:211-213 | with any price present, neither band is empty |
| BookSegments.CheapestIsCheap | question2_social_media_analysis/analysis/analyzer.py:212 | the cheapest book is cheap |
| BookSegments.DearestIsExpensive | question2_social_media_analysis/analysis/analyzer.py:213 | the dearest book is expensive |
| BookSegments.IqrFences | question2_social_media_analysis/analysis/analyzer.py:233-237 | the fences exist iff some value is present |
| BookSegments.FencesOrdered | question2_social_media_analysis/analysis/analyzer.py:233-237 | lower bound <= Q1 <= Q3 <= upper bound |
| BookSegments.OutlierValues | question2_social_media_analysis/analysis/analyzer.py:238 | no more outliers than cells |
| BookSegments.OutlierValuesExact | question2_social_media_analysis/analysis/analyzer.py:238 | the outliers are exactly the present values below the lower or above the upper bound |
| BookSegments.InterquartileNotOutlier | question2_social_media_analysis/analysis/analyzer.py:238 | a value between Q1 and Q3 is never an outlier |
| BookSegments.SeverityMonotone | question2_social_media_analysis/analysis/analyzer.py:320 | low below 5%, moderate below 10%, else high, never decreasing as the percentage grows |
| BookSegments.AnalyzeOutliers | question2_social_media_analysis/analysis/analyzer.py:284-334 | `ZeroDivisionError` iff there are no records |
| BookSegments.AnalyzeOutliersSpec | question2_social_media_analysis/analysis/analyzer.py:301-334 | zero outliers takes the no-outlier branch and any outlier the other, each worded per column; more outliers never lower the severity |
| BookSegments.DivideMonotone | question2_social_media_analysis/analysis/analyzer.py:300 | the percentage grows with the count |
| BookSegments.OutlierSectionSpec | question2_social_media_analysis/analysis/analyzer.py:231-263 | count = number of outliers <= rows; percentage in [0, 100]; `values` = the first min(5, count) outliers in table order; lower <= upper bound; the verdict reports outliers iff count > 0 |
| BookReport.PriceByCategorySpec | question2_social_media_analysis/analysis/analyzer.py:103-116 | one entry per category present, counting its rows, with mean and median between its minimum and maximum price |
| BookReport.SummarizeByCategory | question2_social_media_analysis/analysis/analyzer.py:105-116 | the `groupby` loop computes the per-category summaries |
| BookReport.RatingSectionSpec | question2_social_media_analysis/analysis/analyzer.py:119-132 | `IndexError` iff no rating is present; the reported `most_common_rating` is the smallest rating present; percentiles are ordered 25th <= 50th <= 75th <= 90th |
| BookReport.ModeExampleRatings | question2_social_media_analysis/analysis/analyzer.py:120 | the example table has ratings 1, 5, 5 |
| BookReport.ModeExampleSort | question2_social_media_analysis/analysis/analyzer.py:121-125 | sorted by value, the first rating of 1, 5, 5 is 1 |
| BookReport.MostCommonRatingIsNotTheMode | question2_social_media_analysis/analysis/analyzer.py:121-125 | for ratings 1, 5, 5 the reported most common rating is 1, though 5 occurs twice |
| BookReport.RowPairs | question2_social_media_analysis/analysis/analyzer.py:154-157 | the inner loop yields `col_i_vs_col_j` for each later column j |
| BookReport.CorrelationPairs | question2_social_media_analysis/analysis/analyzer.py:152-157 | the nested loop computes the pair keys |
| BookReport.PairCount | question2_social_media_analysis/analysis/analyzer.py:152-157 | after i outer rounds there are i(2k - i - 1)/2 keys |
| BookReport.TriangleStep | question2_social_media_analysis/analysis/analyzer.py:153-154 | one more outer round adds k - i keys |
| BookReport.PairKeysComplete | question2_social_media_analysis/analysis/analyzer.py:152-157 | every pair i < j has its key |
| BookReport.PairKeysOnly | question2_social_media_analysis/analysis/analyzer.py:152-157 | every key belongs to a pair i < j |
| BookReport.PairCountAll | question2_social_media_analysis/analysis/analyzer.py:152-157 | k columns give k(k - 1)/2 keys |
| BookReport.CorrelationPairsSpec | question2_social_media_analysis/analysis/analyzer.py:152-157 | exactly one key per pair i < j, k(k - 1)/2 in all |
| BookReport.CorrelationSectionSpec | question2_social_media_analysis/analysis/analyzer.py:137-158 | the section exists iff more than one numeric column is selected, with one key per pair |
| BookReport.CorrelationStep | question2_social_media_analysis/analysis/analyzer.py:137-158 | the column selection and the pair loop compute the section |
| BookReport.CompareFields | question2_social_media_analysis/analysis/analyzer.py:193-207 | one comparison per existing column of price and rating |
| BookReport.CompareSegmentsStep | question2_social_media_analysis/analysis/analyzer.py:184-226 | computes the comparison entries and the price-range entry |
| BookReport.DetectOutliers | question2_social_media_analysis/analysis/analyzer.py:231-263 | computes one outlier entry per existing column |
| BookReport.ReportOutcome | question2_social_media_analysis/analysis/analyzer.py:66-68 | an empty table, and only that, gives `{}`; the report fails exactly when a rating or category column has no value at all, or a category column comes without a price column |
| BookReport.ComparisonSectionSpec | question2_social_media_analysis/analysis/analyzer.py:184-207 | the comparison exists iff there is a category column, both segments are non-empty and price or rating exists; it covers each existing column; the hypothesis entry needs the same plus a price column |
| BookReport.OutlierPartSpec | question2_social_media_analysis/analysis/analyzer.py:231-232 | an outlier entry exactly for each existing column of price and rating |
| BookReport.BookDataAnalyzer.constructor | question2_social_media_analysis/analysis/analyzer.py:32-40 | the analyzer over the loaded table |
| BookReport.BookDataAnalyzer.GenerateComprehensiveReport | question2_social_media_analysis/analysis/analyzer.py:59-282 | the report of the table, computed section by section; a text `availability` column gains `availability_numeric` |
| People.Person.constructor | question1_university_system/person.py:15-28 | stores name, identifier, email and department unchecked |
| People.Person.ContactInfo | question1_university_system/person.py:35-37 | `Name: <name>, ID: <id>, Email: <email>`: its length and every segment (the three labels and the three values) at their positions |
| People.Person.SetName | question1_university_system/person.py:44-48 | an empty name raises `ValueError` and changes nothing; otherwise the name is replaced |
| People.Person.SetEmail | question1_university_system/person.py:58-62 | an email without `@` raises `ValueError` and changes nothing; otherwise it is replaced |
| People.Person.SetDepartment | question1_university_system/person.py:68-70 | sets the department only |
| People.Staff.constructor | question1_university_system/person.py:84-87 | a staff member with no tasks |
| People.Staff.Responsibilities | question1_university_system/person.py:89-90 | the text names the position and ends with the number of current tasks |
| People.Staff.AssignTask | question1_university_system/person.py:92-94 | appends the task, duplicates allowed |
| People.Staff.CompleteTask | question1_university_system/person.py:96-99 | removes the first occurrence only, and nothing when the task is absent |
| People.AssignThenComplete | question1_university_system/person.py:92-99 | completing a just-assigned task restores the task multiset, and the list itself when the task was new |
| Students.StatusMonotone | question1_university_system/student.py:133-142 | Dean's List >= 3.5 > Good Standing >= 2.0 > Warning >= 1.0 > Probation, never lower for a higher GPA |
| Students.TotalRemove | question1_university_system/student.py:123-127 | summing over the completed map takes each course once |
| Students.PointsBounds | question1_university_system/student.py:120-127 | with grades in [0, 4], total points lie between 0 and 4 times the total credits |
| Students.GpaBounds | question1_university_system/student.py:114-131 | with grades in [0, 4] the GPA lies in [0, 4], 0 when there are no credits |
| Students.SumCompleted | question1_university_system/student.py:120-127 | the loop computes the total points and the total credits |
| Students.Student.constructor | question1_university_system/student.py:22-28 | nothing enrolled or completed, GPA 0.0, Good Standing |
| Students.Student.Undergraduate | question1_university_system/student.py:178-181 | the year is stored unchecked |
| Students.Student.Graduate | question1_university_system/student.py:201-207 | degree type and advisor stored, no research topic |
| Students.Student.EnrollCourse | question1_university_system/student.py:30-79 | succeeds iff not already enrolled, every prerequisite completed, a seat free and the course accepts the student; on success the code maps to the course; otherwise nothing changes |
| Students.Student.DropCourse | question1_university_system/student.py:62-71 | succeeds iff enrolled and the course drops the student; only then is the code removed; only the dropped course may change, keeping its instructor |
| Students.Student.CompleteCourse | question1_university_system/student.py:81-112 | not enrolled gives False with no change; a grade outside [0, 4] raises `ValueError` with no change; otherwise the course moves to completed with grade and credits, and GPA and status are recomputed |
| Students.Student.CalculateGpa | question1_university_system/student.py:114-131 | the credit-weighted mean of the grades; the status is recomputed only when something is completed |
| Students.Student.UpdateAcademicStatus | question1_university_system/student.py:133-142 | the status for the current GPA |
| Students.Student.SetMajor | question1_university_system/student.py:156-160 | an empty major raises `ValueError` and changes nothing |
| Students.Student.SetYear | question1_university_system/student.py:191-195 | a year outside 1..4 raises `ValueError` and changes nothing |
| Students.Student.SetResearchTopic | question1_university_system/student.py:214-216 | sets the research topic only |
| Students.Student.SetAdvisor | question1_university_system/student.py:226-228 | sets the advisor only |
| Students.CompletionMoves | question1_university_system/student.py:99-107 | the code leaves the enrolled map and enters the completed map with its grade |
| Students.CompletionGpaBounds | question1_university_system/student.py:96-110 | completing with a valid grade keeps the GPA in [0, 4] |
| Faculties.SumCreditsAppend | question1_university_system/faculty.py:26-28 | a new course adds its credits to the workload |
| Faculties.SumCreditsMember | question1_university_system/faculty.py:26-28 | the workload is at least any one course's credits |
| Faculties.AssignRaisesWorkload | question1_university_system/faculty.py:18-28 | assigning a course raises every kind's workload by its credits |
| Faculties.DutyWeights | question1_university_system/faculty.py:71-76 | a grant adds 3 and an advisee 1 to a professor's workload; a lab section adds 2 and a grading assignment 1 to a TA's; workload is at least the teaching credits |
| Faculties.Faculty.constructor | question1_university_system/faculty.py:12-16 | no courses and no office hours |
| Faculties.Faculty.Professor | question1_university_system/faculty.py:50-55 | rank stored, no grants, no advisees |
| Faculties.Faculty.Lecturer | question1_university_system/faculty.py:82-86 | at most 4 courses on exactly "Full-time", 2 otherwise |
| Faculties.Faculty.TA | question1_university_system/faculty.py:100-105 | supervisor stored, no lab sections, no grading |
| Faculties.Faculty.AssignCourse | question1_university_system/faculty.py:18-24 | appends only an absent course, tells it its teacher and adds its credits to the workload; no lecturer limit is consulted |
| Faculties.Faculty.AddOfficeHours | question1_university_system/faculty.py:34-36 | appends `"<day>: <time>"` |
| Faculties.Faculty.AddResearchGrant | question1_university_system/faculty.py:61-63 | appends the grant, adding 3 to the workload |
| Faculties.Faculty.AddAdvisee | question1_university_system/faculty.py:65-69 | adds only a new student, whose advisor becomes the professor's name, adding 1 to the workload |
| Faculties.Faculty.AssignLabSection | question1_university_system/faculty.py:111-113 | appends the section, adding 2 to the workload |
| Faculties.Faculty.AssignGrading | question1_university_system/faculty.py:115-117 | appends the assignment, adding 1 to the workload |
| Departments.CourseCodes | question1_university_system/department.py:80 | the codes of the courses, in order |
| Departments.FacultyIds | question1_university_system/department.py:61 | the identifiers of the faculty, in order |
| Departments.StudentIds | question1_university_system/department.py:68 | the identifiers of the students, in order |
| Departments.FacultyNames | question1_university_system/department.py:81 | the names of the faculty, in order |
| Departments.Department.constructor | question1_university_system/department.py:15-27 | empty faculty, course and student lists |
| Departments.Department.AddFaculty | question1_university_system/department.py:29-35 | appends only an absent member, whose department becomes the department's name; returns whether it did; lists stay duplicate-free |
| Departments.Department.AddCourse | question1_university_system/department.py:37-42 | appends only an absent course and returns whether it did |
| Departments.Department.AddStudent | question1_university_system/department.py:44-50 | appends only an absent student, whose department becomes the department's name; returns whether it did |
| Departments.Department.GetCourseByCode | question1_university_system/department.py:52-57 | the first course with the code, or `ValueError` iff none has it |
| Departments.Department.GetFacultyById | question1_university_system/department.py:59-64 | the first member with the identifier, or `None` iff none has it |
| Departments.Department.GetStudentById | question1_university_system/department.py:66-71 | the first student with the identifier, or `None` iff none has it |
| Departments.Department.Stats | question1_university_system/department.py:73-83 | counts equal the list lengths, and with the lists free of repeats each count is the number of distinct members; course codes and faculty names in insertion order |
| Departments.CourseCodesAppend | question1_university_system/department.py:37-42 | an added course's code is listed last |
| Departments.LookupFindsFirst | question1_university_system/department.py:52-57 | the found course has the code and no earlier course has it; with distinct codes it is the only one |
| Database.GetOr | question1_university_system/database_manager.py:140-141 | `dict.get(key, default)` |
| Database.IdOf | question1_university_system/database_manager.py:119 | `person_id` when truthy, otherwise `id` |
| Database.CreatePersonFromData | question1_university_system/database_manager.py:104-151 | a built person has the data's tag, name and truthy identifier, with major, courses and grades for a student (courses and grades defaulting to empty) and the department for a faculty member; it is always of a class the loader knows |
| Database.ClassNameKnown | question1_university_system/database_manager.py:124-137 | a saved class name is a tag the loader dispatches on iff the person is not a plain `Student`, `Faculty` or `Person` |
| Database.BaseClassDropped | question1_university_system/database_manager.py:136-137 | a plain `Student`, `Faculty` or `Person` is saved under a tag the loader rejects, so it does not load back |
| Database.RejectedRecords | question1_university_system/database_manager.py:119-137 | an unknown tag or no truthy identifier gives `None` |
| Database.PersonJson | question1_university_system/database_manager.py:175-189 | class name, name and `person_id`, plus major, courses and grades for a student or the department for a faculty member |
| Database.PersonRoundTrip | question1_university_system/database_manager.py:114-189 | a saved person of a class the loader knows, with a truthy identifier, loads back unchanged |
| Database.FalsyIdDropped | question1_university_system/database_manager.py:118-122 | a saved person with a falsy identifier is dropped |
| Database.CreatePersonAsWritten | question1_university_system/database_manager.py:124-135 | as written, any person it builds is the intended one; the lemma below shows it builds none |
| Database.SavedPersonLostAsWritten | question1_university_system/database_manager.py:124-135 | a person the intended dispatch loads back is lost by the constructor calls as written |
| Database.MessagesDiffer | question1_university_system/database_manager.py:241-251 | the three messages are distinct and ranked in check order |
| Database.ValidateDatabaseIntegrity | question1_university_system/database_manager.py:223-253 | each message appears iff its key list has a repeat; `[]` iff all three lists are duplicate-free; messages in check order |
| Database.PersonKeys | question1_university_system/database_manager.py:53-54 | each person's identifier and kind |
| Database.DepartmentNames | question1_university_system/database_manager.py:249 | the department names, in order |
| Database.CourseCodes | question1_university_system/database_manager.py:244 | the course codes, in order |
| Database.ListField | question1_university_system/database_manager.py:43 | `d.get(key, [])` on a list: empty when absent |
| Database.Resolve | question1_university_system/database_manager.py:52-61 | each identifier resolves to the first person of the wanted kind with it; unresolved identifiers are skipped; repeats are skipped for departments |
| Database.ResolveComplete | question1_university_system/database_manager.py:52-61 | every identifier that has a person of the wanted kind is resolved |
| Database.LoadPeople | question1_university_system/database_manager.py:43-46 | the people built, in order, never more than the records |
| Database.Relabel | question1_university_system/database_manager.py:53-56 | `add_faculty` relabels only departments, keeping identifiers and kinds |
| Database.LoadDepartment | question1_university_system/database_manager.py:49-62 | a department with resolved members and no courses yet |
| Database.LoadDepartments | question1_university_system/database_manager.py:49-62 | one department per entry; any failing entry fails the load |
| Database.LoadCourse | question1_university_system/database_manager.py:65-85 | a course whose students and teacher resolve to people of the right kind |
| Database.LoadCourses | question1_university_system/database_manager.py:65-85 | one course per entry; any failing entry fails the load |
| Database.AddCourseRefs | question1_university_system/database_manager.py:92-95 | adds only a found course not yet present, keeping the earlier ones |
| Database.AssignCourses | question1_university_system/database_manager.py:88-95 | places the codes of one entry into the first department of that name, changing nothing else |
| Database.AssignAll | question1_university_system/database_manager.py:88-95 | the second pass over every entry changes only course lists |
| Database.AssembledWellFormed | question1_university_system/database_manager.py:88-97 | the assembled database refers only to existing people and courses of the right kind |
| Database.LoadCoursesAndPlace | question1_university_system/database_manager.py:65-97 | loading the courses and placing them gives a well-formed database that keeps the loaded people |
| Database.LoadDepartmentsOnwards | question1_university_system/database_manager.py:49-97 | loading from the departments on gives a well-formed database whose people have the loaded identifiers and kinds |
| Database.LoadData | question1_university_system/database_manager.py:33-97 | a successful load is well formed |
| Database.LoadOf | question1_university_system/database_manager.py:22-101 | a missing file or any failure gives three empty lists |
| Database.LoadDepartmentsFails | question1_university_system/database_manager.py:49-62 | once a department fails, the load fails |
| Database.LoadCoursesFails | question1_university_system/database_manager.py:65-85 | once a course fails, the load fails |
| Database.AssignAllFails | question1_university_system/database_manager.py:88-95 | once a placement fails, the load fails |
| Database.LoadPeopleLoop | question1_university_system/database_manager.py:43-46 | the people loop computes the loaded people |
| Database.ResolveLoop | question1_university_system/database_manager.py:52-61 | the reference loop computes the resolved references |
| Database.LoadDepartmentStep | question1_university_system/database_manager.py:49-62 | one department's loading |
| Database.LoadDepartmentsLoop | question1_university_system/database_manager.py:49-62 | the department loop |
| Database.LoadCourseStep | question1_university_system/database_manager.py:65-85 | one course's loading |
| Database.LoadCoursesLoop | question1_university_system/database_manager.py:65-85 | the course loop |
| Database.AddCourseRefsLoop | question1_university_system/database_manager.py:92-95 | the course-code loop |
| Database.AssignCoursesStep | question1_university_system/database_manager.py:88-95 | one entry's placement |
| Database.AssignAllLoop | question1_university_system/database_manager.py:88-95 | the placement loop |
| Database.LoadDatabase | question1_university_system/database_manager.py:22-101 | `load_database`: the loaded database, always well formed |
| Database.IdList | question1_university_system/database_manager.py:195-196 | the identifiers of the referenced people, in order |
| Database.CodeList | question1_university_system/database_manager.py:197 | the codes of the referenced courses, in order |
| Database.PersonIds | question1_university_system/database_manager.py:239 | the person identifiers, in order |
| Database.PeopleJson | question1_university_system/database_manager.py:174-189 | one record per person, in order |
| Database.DepartmentsJson | question1_university_system/database_manager.py:191-199 | one record per department, in order |
| Database.CoursesJson | question1_university_system/database_manager.py:201-211 | one record per course, in order |
| Database.SaveDatabase | question1_university_system/database_manager.py:154-220 | the loops build the saved document |
| Database.SaveDataFields | question1_university_system/database_manager.py:167-211 | the document holds the people, departments and courses lists |
| Database.DepartmentJsonFields | question1_university_system/database_manager.py:192-199 | a department record holds its name, member identifiers and course codes |
| Database.CourseJsonFields | question1_university_system/database_manager.py:202-211 | a course record holds name, code, capacity, prerequisites, enrolled identifiers and the teacher's identifier or `None` |
| Database.Stripped | question1_university_system/database_manager.py:49-62 | the departments as the first pass leaves them, without courses |
| Database.LoadSavedPeople | question1_university_system/database_manager.py:43-46 | saved people load back as exactly the people that reload (known class, truthy identifier), in order |
| Database.Reloaded | question1_university_system/database_manager.py:43-46 | the people that reload: never more than the saved ones, a person is among them iff saved and reloadable, and all of them when all reload |
| Database.ReloadedShorter | question1_university_system/database_manager.py:43-46 | a saved person that does not reload makes the loaded list shorter than the saved one |
| Database.KeysDistinct | question1_university_system/database_manager.py:239-241 | distinct identifiers give distinct identifier-kind keys |
| Database.ResolveSaved | question1_university_system/database_manager.py:52-61 | saved references resolve back to themselves |
| Database.AddCourseRefsSaved | question1_university_system/database_manager.py:92-95 | saved course codes place back the same courses |
| Database.RelabelSame | question1_university_system/database_manager.py:53-56 | relabelling members already in the department changes nothing |
| Database.LoadSavedDepartment | question1_university_system/database_manager.py:49-62 | a saved department loads back without its courses |
| Database.LoadSavedDepartments | question1_university_system/database_manager.py:49-62 | the saved departments load back without their courses |
| Database.LoadSavedTeacher | question1_university_system/database_manager.py:78-84 | a saved teacher resolves back to the same person |
| Database.LoadSavedCourse | question1_university_system/database_manager.py:65-85 | a saved course loads back unchanged |
| Database.LoadSavedCourses | question1_university_system/database_manager.py:65-85 | the saved courses load back unchanged |
| Database.PartlyPlaced | question1_university_system/database_manager.py:88-95 | the departments after the first i placements |
| Database.AssignSavedStep | question1_university_system/database_manager.py:88-95 | placing one saved department restores its courses |
| Database.AssignSavedPrefix | question1_university_system/database_manager.py:88-95 | placing the first i saved departments restores their courses |
| Database.RestorableDistinct | question1_university_system/database_manager.py:239-251 | a database passing the integrity check has distinct identifiers, codes and names |
| Database.PlaceSaved | question1_university_system/database_manager.py:88-95 | the second pass over the saved departments restores every course list |
| Database.SaveThenLoad | question1_university_system/database_manager.py:22-220 | a well-formed database that passes `validate_database_integrity`, with truthy identifiers, every person of a class the loader knows and each listed faculty member in its department, loads back unchanged from its saved file |
| Database.BaseClassNotRestored | question1_university_system/database_manager.py:22-220 | a database holding a plain `Student`, `Faculty` or `Person` does not load back unchanged |
| Database.LoadDataAsWritten | question1_university_system/database_manager.py:49-50 | as written, a successful load has no people and no departments |
| Database.SavedDatabaseLostAsWritten | question1_university_system/database_manager.py:50 | a database with a person or a department comes back under the intended loader and not under the loader as written |

## Findings

| source | as written | input that shows it | evidently intended | confidence | as-written member | corrected member |
|---|---|---|---|---|---|---|
| question1_university_system/database_manager.py:124-135 | `create_person_from_data` passes three arguments to the student and faculty constructors and two to `Staff`, which require five and four. Every call raises `TypeError`, and the closing `except Exception` turns it into `None` | the record `{"type": "Staff", "name": "A", "person_id": "S1"}` (any record with a known tag, a name and an identifier) | build the person of the record's class with its fields | high (not executed) | Database.CreatePersonAsWritten, Database.SavedPersonLostAsWritten | Database.CreatePersonFromData, Database.PersonRoundTrip |
| question1_university_system/database_manager.py:50 | `Department(dept_data['name'])` omits the required `code` argument. Any department entry raises `TypeError`, and the load gives three empty lists | a saved file with one department | rebuild each department with its members and courses | high (not executed) | Database.LoadDataAsWritten, Database.SavedDatabaseLostAsWritten | Database.LoadData, Database.SaveThenLoad |

The rest of the model uses the corrected members.

`database_manager.py:13` imports `SecureStudentRecord` from `student.py`, which does not
define it. As written, importing `database_manager.py` raises `ImportError` before any of
its functions can run. The model treats the module as if the import succeeded; this is
not a table row because the failure happens before any modelled code runs.

## Left out

- `Statistics` has no standard deviation, skew, Pearson correlation or t-test. These are
  floating-point computations, so the model leaves them out.
  - Section 1 (descriptive statistics) and the numeric values of the correlation matrix are
    not modelled; only its pair keys are.
  - The hypothesis entry keeps only the two segment means.
  - The verdict of `_analyze_outlier_results` keeps the branch, the severity and the price
    range ratio. It does not keep the formatted text.
- `round(..., 2)` and `round(..., 3)` on report values are not applied. Report statistics
  are exact reals; only the converted prices are rounded. So `top_3_categories_percentage`
  is the exact share of the three largest categories, where the source adds three
  percentages each already rounded to two decimals.
- Report ordering:
  - the order of `value_counts()` among categories with equal counts is left out;
  - the order of dictionary keys produced by `groupby` is left out;
  - sections are maps or sequences keyed by the column.
- The report's metadata (`datetime.now()`, the source path) and `availability`'s digit
  extraction are left out. Only the `availability_numeric` column it adds is modelled.
- I/O is left out:
  - `load_data`, `save_data`, `save_report`, `_format_report_to_markdown`,
    `_print_processing_summary` and `print`;
  - the CSV round trip, including how pandas would re-infer `rating_num`;
  - the pipeline works on an already loaded table.
- `standardize_datetime` and `validate_data` are not modelled: they are date parsing and
  logging.
  - `DataCleaning.DataCleaner.ProcessPipeline` models a call with `datetime_columns`
    empty or absent. With datetime columns, the pipeline returns the output of
    `standardize_datetime`, which the model does not compute.
  - The result of `validate_data` is only logged, so the returned table does not depend
    on it.
- `processing_stats['currency_conversion']['rates_used']` is left out. The rates are the
  constant `Rates`.
- `DataCleaning.ConvertedCount`: stated only as at most the number of rows; its exact value
  is fixed by `MapAndCount` and `ConvertPricesToUsd`.
- Text:
  - characters are ASCII. `\s`, `\w`, `str.isspace`, `str.lower` and `str.split` are
    modelled on ASCII;
  - any other character is neither a space nor a word character and is kept as it is.
- `float()` is modelled for plain decimal notation with an optional `+` or `-` sign and
  optional surrounding whitespace. It does not cover exponents, `inf`, `nan` or
  underscores.
- Python typing:
  - cross-type equality is not modelled;
  - a non-string cell passed to the text functions is treated as `NaN`;
  - a `people`, `departments` or `courses` value that is not a list is treated as a load
    failure;
  - `Database.ListField` also fails the whole load when `faculty_ids`, `student_ids`,
    `course_codes` or `enrolled_student_ids` is present but not a list. The source would
    iterate over such a value (a string, character by character) and carry on.
- University records:
  - `get_responsibilities` of the student and faculty classes (text formatting) and
    `list_courses_with_availability` are not modelled;
  - the `__str__` and `__repr__` methods are not modelled;
  - the copies returned by the `enrolled_courses`, `completed_courses`, `assigned_courses`,
    `faculty`, `courses` and `students` properties are implicit, since Dafny sequences and
    maps are values;
  - `person_id` is a `const`.
- `course.py` is not part of this model. `Courses.Course` holds only what its callers rely
  on: code, credits, prerequisites, capacity, enrolled identifiers and teacher.
  - The success conditions of `Courses.Course.EnrollStudent` and
    `Courses.Course.DropStudent` are assumptions about `course.py`, not facts read from
    it. Enrolment succeeds when the student is not enrolled and a seat is free; dropping
    succeeds when the student is enrolled.
  - The if-and-only-if contracts of `Students.Student.EnrollCourse` and
    `Students.Student.DropCourse` rest on these assumptions.
- `Students.Student.CalculateGpa`: the order in which the completed map is summed is not
  modelled, because Dafny maps are unordered. Floating-point sums in a different order
  could differ in the last bit.
- Database:
  - the JSON text is not modelled, only the decoded value, and file access and `json.dump`
    are parameters or left out;
  - `save_database`'s boolean result is not modelled;
  - a student's `department` is not saved, exactly as in the source;
  - `save_database` reads `person.courses` and `person.grades`, which only the loader gives a
    student; the record keeps them as fields of `PersonRecord`;
  - the loader's course objects are `CourseEntry` values with the keys `database_manager.py`
    uses (`name`, `code`, `max_enrollment`).

