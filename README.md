# Airbnb listings dashboard — a Dafny model of its data core

The dashboard (`dashboard.py`) loads an Airbnb listings table once, cleans
it, and serves five pages over it: a Dashboard page of summary charts
(among them the five neighbourhood groups with the highest average
price), a Listings Overview with four independent drop-downs, a Detailed
Insights page with a sidebar of filters whose neighbourhood list cascades
from the chosen neighbourhood group, a Comparative Analysis page of four
"top five" charts, and a Recommendation page that matches listings to a
budget and a length of stay. This project models the data work behind
those pages and proves what each step promises:

- `Cleaning` — `load_data`: currency text to amounts (`$` and `,` removed,
  then parsed as a decimal number; an unparsable amount aborts the load),
  missing review counts become 0, the cancellation-policy and
  instant-bookable columns are added as "Unknown" when the file lacks
  them and their missing cells become "Unknown", exact duplicate rows are
  dropped (first occurrence kept), and only rows whose minimum nights lie
  between 1 and the 99th-percentile value are kept.
- `Filters` — the overview's four optional text filters and the detailed
  page's chain (four text filters, instant-bookable, cancellation policy
  and the two always-on slider bounds), each a step that rebinds the
  filtered table.
- `Options` — the values offered by the drop-downs: `dropna().unique()`
  on the overview and the recommendation page, `unique()` (a missing
  value included) on the detailed page, and there the neighbourhood list
  cascaded from the chosen neighbourhood group.
- `Recommendation` — the matcher: area, room type (unless "Any"), total
  cost `price + service fee × nights` within 85%–115% of the budget, and
  minimum nights within two of the stay (never below 1).
- `Aggregates` — group-by (rows without a key form no group), mean or
  sum, sort descending with missing means last, keep five.
- `Tables` — the table operations these rest on: boolean-mask selection
  (`Filter`, with the loop `Select` proved equal to it), a chain of such
  steps (`ApplySteps`), and duplicate removal (`Dedup`, with the loop
  `DropDuplicates` proved equal to it).
- `Listings`, `Wrappers` — the row types (`RawListing` as read,
  `Listing` after cleaning, without the license column) and `Option` /
  `Result`.

A missing cell (pandas NaN) is `None`. Comparing a missing cell with
anything is false, so a missing cell never passes a filter step. Money is
an exact `real`.

## Model

| member | source | states |
|---|---|---|
| Tables.Filter | dashboard.py:275-283 | A boolean-mask selection never has more rows than the table; its membership, multiplicities and order are the lemmas below |
| Tables.Select | dashboard.py:275-283 | A boolean-mask selection returns exactly `Filter(s, p)`: the rows satisfying the mask, in their order |
| Tables.FilterMember | dashboard.py:275-283 | A row is in a selection exactly when it is in the table and satisfies the mask |
| Tables.FilterSatisfies | dashboard.py:275-283 | Every selected row satisfies the mask |
| Tables.FilterCount | dashboard.py:275-283 | A selection keeps every copy of a satisfying row and no copy of any other |
| Tables.FilterIsSubsequence | dashboard.py:275-283 | A selection is a subsequence of the table (order kept) |
| Tables.FilterPositions | dashboard.py:275-283 | Gives the strictly increasing positions of the selected rows in the table |
| Tables.FilterAppend | dashboard.py:275-283 | Selecting from two concatenated tables is selecting from each |
| Tables.FilterAgree | dashboard.py:275-283 | Masks that agree on every row select the same rows |
| Tables.FilterFuse | dashboard.py:275-283 | Two successive selections are one selection by the conjunction |
| Tables.FilterCommutes | dashboard.py:275-283 | Two successive selections may be applied in either order |
| Tables.FilterKeepsAll | dashboard.py:275-283 | A mask every row satisfies removes nothing |
| Tables.FilterIdempotent | dashboard.py:275-283 | Applying the same selection twice equals applying it once |
| Tables.FilterDistinct | dashboard.py:28 | Selecting from a table without duplicates leaves none |
| Tables.ApplyStepsSnoc | dashboard.py:331-345 | Adding one step at the end of a chain selects from the chain's result |
| Tables.ApplyStepsIsConjunction | dashboard.py:331-345 | A chain of selections keeps exactly the rows passing every step, in order |
| Tables.StepOrderIrrelevant | dashboard.py:331-345 | Any reordering of a chain's steps gives the same table |
| Tables.Dedup | dashboard.py:25 | Deduplication leaves no two equal rows and only rows of the table |
| Tables.DedupMembers | dashboard.py:25 | Every row value of the table still appears after deduplication, and no other |
| Tables.DropDuplicates | dashboard.py:25 | The loop with a set of seen rows computes `Dedup` |
| Tables.DedupOfDistinct | dashboard.py:25 | A table without duplicates is unchanged |
| Tables.DedupIdempotent | dashboard.py:25 | Deduplicating twice equals deduplicating once |
| Tables.DedupPositions | dashboard.py:25 | The kept rows sit at increasing positions, each the first occurrence of its value |
| Tables.DedupIsSubsequence | dashboard.py:25 | The deduplicated table is a subsequence of the table |
| Cleaning.StripCurrency | dashboard.py:11-12 | The cleaned text contains no `$` and no `,` |
| Cleaning.StripCurrencyKeepsOthers | dashboard.py:11-12 | Every other character is kept as often as it occurred, in its order |
| Cleaning.StripCurrencyAppend | dashboard.py:11-12 | Cleaning distributes over concatenation |
| Cleaning.StripCurrencyIdempotent | dashboard.py:11-12 | Cleaning twice equals cleaning once |
| Cleaning.StripCurrencyOfChar | dashboard.py:11-12 | A single character is dropped exactly when it is `$` or `,` |
| Cleaning.StripCurrencyOfPlain | dashboard.py:11-12 | Text without `$` and `,` is unchanged |
| Cleaning.IndexOf | dashboard.py:11-12 | The decimal point found is the first one; none is reported only when absent |
| Cleaning.TrimStartSuffix | dashboard.py:11-12 | Removing leading whitespace leaves a suffix of the text |
| Cleaning.TrimEndPrefix | dashboard.py:11-12 | Removing trailing whitespace leaves a prefix of the text |
| Cleaning.ParseUnsignedNeedsDigit | dashboard.py:11-12 | An unsigned number that parses contains a decimal digit |
| Cleaning.ParseFloatNeedsDigit | dashboard.py:11-12 | `float()` rejects every text without a decimal digit |
| Cleaning.CleanAmount | dashboard.py:11-12 | One amount cell converts exactly when it is missing or its text without `$` and `,` reads as a number; a missing cell stays missing and a present one gives a number; a failure reports the text `float()` was given, with the `$` and `,` already removed |
| Cleaning.CleanAmountNeedsDigit | dashboard.py:11-12 | An amount text with no digit aborts the load, whatever `$` and `,` it holds |
| Cleaning.CleanAmountColumn | dashboard.py:11-12 | A column converts exactly when every cell does, cell by cell; otherwise the first unparsable text is reported |
| Cleaning.Digits | dashboard.py:11-12 | Decimal digits of a whole number are non-empty and all digits |
| Cleaning.DigitsValueOfDigits | dashboard.py:11-12 | Reading back the digits of n gives n |
| Cleaning.StripGrouped | dashboard.py:11-12 | Removing the thousands commas from grouped digits gives the digits |
| Cleaning.ParseUnsignedDecimal | dashboard.py:11-12 | A digit run followed by a point splits at that point |
| Cleaning.ParseFloatOfDecimal | dashboard.py:11-12 | Plain `digits.digits` text reads as its whole and fractional parts |
| Cleaning.PartsOfUnitsAndCents | dashboard.py:11-12 | Whole digits w and cent digits cc make w + cc/100 |
| Cleaning.ParseUnitsAndCents | dashboard.py:11-12 | `w.cc` parses to w + cc/100 |
| Cleaning.StripCurrencyOfFour | dashboard.py:11-12 | Removing the marks from four pieces of text is done piece by piece |
| Cleaning.StripFormatted | dashboard.py:11-12 | A formatted amount without its marks is its plain decimal text |
| Cleaning.FormattedAmountRoundTrip | dashboard.py:11-12 | Cleaning any `$d,ddd.cc` text gives back the amount it shows |
| Cleaning.FormatTwelveHundred | dashboard.py:11-12 | 120000 cents are written `$1,200.00` |
| Cleaning.TwelveHundred | dashboard.py:11-12 | `"$1,200.00"` cleans to 1200.00 |
| Cleaning.WithCell | dashboard.py:20-21 | Setting one optional cell gives it the new value, leaves the other optional cell, and leaves every other field of the row unchanged |
| Cleaning.AddColumn | dashboard.py:20-21 | Adding a column records it, keeps the number of rows, puts "Unknown" in that column of every row, and leaves every other cell and field of each row unchanged |
| Cleaning.EnsureRequiredColumns | dashboard.py:18-21 | Both optional columns exist afterwards; a column the file had keeps its cells, an added one holds "Unknown" in every row; nothing else changes |
| Cleaning.CanonicalizeCleans | dashboard.py:14-22 | A cleaned row has its review counts defaulted to 0, its amounts converted, and its policy and flag "Unknown" when the column was absent or the cell missing, unchanged otherwise |
| Cleaning.CleanColumns | dashboard.py:11-22 | Fails exactly when some price or service-fee text is unparsable (price column first); otherwise every row is cleaned as above |
| Cleaning.LoadData | dashboard.py:8-30 | Fails exactly on an unparsable amount; otherwise every row is cleaned as above and the result is `Trimmed`: the deduplicated cleaned table restricted to 1 ≤ minimum nights ≤ q |
| Cleaning.Trimmed | dashboard.py:25-28 | The trimmed table has no duplicates, keeps the first occurrences in order, has every row within the bounds (a missing minimum never kept), keeps every cleaned row within the bounds, and holds no other row |
| Cleaning.AbsentColumnBecomesUnknown | dashboard.py:18-22 | A loaded table whose file lacked a column has "Unknown" in that column in every row |
| Cleaning.OutlierExample | dashboard.py:28 | With q = 45: minimum 10 is kept, 1000 and a missing minimum are not |
| Filters.ApplyStep | dashboard.py:275-283 | One conditional step of a chain: a switched-off step is a no-op, so the chain's result is always the chain with the step appended |
| Filters.TextFilters | dashboard.py:275-282 | The four text drop-downs applied in the page's order |
| Filters.OverviewFilter | dashboard.py:274-283 | The overview table is exactly the rows matching every non-'All' selection, in order |
| Filters.OverviewIsConjunction | dashboard.py:274-283 | The overview chain equals one selection by the conjunction of its criteria |
| Filters.OverviewAllKeepsEverything | dashboard.py:274-283 | With every drop-down at 'All' the table is unchanged |
| Filters.OverviewOrderIrrelevant | dashboard.py:274-283 | Applying the overview steps in any order gives the same table |
| Filters.InsightsFilter | dashboard.py:331-345 | The detailed table is exactly the rows passing every active criterion; with the box ticked every row is instant-bookable 'TRUE'; every row has minimum nights ≥ the slider and a price ≤ the slider |
| Filters.InsightsIsConjunction | dashboard.py:331-345 | The detailed chain equals one selection by the conjunction of its criteria |
| Filters.InsightsNoSelection | dashboard.py:331-345 | With all drop-downs at 'All' and the box unticked only the two slider bounds remove rows |
| Filters.InsightsOrderIrrelevant | dashboard.py:331-345 | Applying the detailed steps in any order gives the same table |
| Options.DistinctCells | dashboard.py:303-314 | The detailed view's country (303), group (304-305) and room-type (314) lists have no repeats and hold exactly the cells of their column, a missing one included |
| Options.ScopeRows | dashboard.py:307-311 | The rows in scope are exactly the table's rows of the chosen group, or all rows for 'All' |
| Options.ScopeCellsExact | dashboard.py:307-311 | A neighbourhood cell occurs among the rows in scope exactly when a row of the chosen group (any row for 'All') carries it |
| Options.PresentCells | dashboard.py:267-272 | `dropna()` yields no more values than the column has rows |
| Options.PresentCellsExact | dashboard.py:267-272 | A value survives `dropna()` exactly when some row carries it |
| Options.PresentValues | dashboard.py:267-272 | An overview drop-down offers each non-missing value of its column once, and no other value |
| Options.PresentValuesDropMissing | dashboard.py:267-272 | The overview's `dropna().unique()` holds exactly the non-missing entries of the detailed view's `unique()` |
| Options.CascadedNeighbourhoods | dashboard.py:307-311 | The neighbourhood list has no repeats and holds exactly the neighbourhood cells of the chosen group's rows, or of all rows for 'All' |
| Options.GroupNeighbourhoods | dashboard.py:495-497 | The recommendation page offers each non-missing neighbourhood of the chosen group's rows once, and no other, for every group name including "All" |
| Options.GroupNeighbourhoodsExact | dashboard.py:495-497 | For a group other than "All", the recommendation list holds exactly the non-missing entries of the detailed view's cascaded list for that group |
| Recommendation.Recommend | dashboard.py:510-525 | The matches are exactly the rows meeting every criterion, in order: every match qualifies and every qualifying row is matched |
| Recommendation.RecommendIsConjunction | dashboard.py:510-525 | The four steps equal one selection by `Recommendable`, stated with the 0.85/1.15 band and the ±2 nights window |
| Recommendation.NoMatchIsEmpty | dashboard.py:527-531 | When no row qualifies the result is empty, not an error |
| Recommendation.RecommendExample | dashboard.py:519-525 | Budget 100 for 3 nights: price 80 with fee 5 and minimum 2 matches; price 200 does not |
| Aggregates.GroupValues | dashboard.py:253 | A group collects no more values than the table has rows |
| Aggregates.GroupValuesExact | dashboard.py:253 | A group's values are exactly the present values of the rows with its key |
| Aggregates.GroupValuesCount | dashboard.py:390-425 | A value occurs in a group once per row of the group carrying it; equal prices are not merged |
| Aggregates.GroupValuesLength | dashboard.py:390-425 | A group holds exactly one value per row of the group that has a value, the count a mean divides by |
| Aggregates.Aggregate | dashboard.py:253 | A sum is always present and is the total; a mean is missing exactly when the group has no value, and otherwise times the count gives the total |
| Aggregates.TotalBounds | dashboard.py:390 | A total of n values between lo and hi lies between n·lo and n·hi |
| Aggregates.MeanWithin | dashboard.py:390 | A mean lies between the group's bounds and times the count gives the sum; it is missing exactly when the group has no values |
| Aggregates.MaxIndex | dashboard.py:253 | Points to an entry ranked at or above every entry |
| Aggregates.SortDescending | dashboard.py:253 | The sort keeps the number of entries |
| Aggregates.SortPermutes | dashboard.py:253 | The sort is a permutation of the entries |
| Aggregates.SortOrders | dashboard.py:253 | The sort is ordered from the largest down, missing values last |
| Aggregates.TopN | dashboard.py:253 | The head has min(n, number of entries) entries |
| Aggregates.RemoveMultiset | dashboard.py:253 | Removing one entry takes exactly that entry out |
| Aggregates.PrefixMultiset | dashboard.py:253 | A head and its tail together hold the entries of the list |
| Aggregates.TopNDrawn | dashboard.py:253 | The head is drawn from the entries |
| Aggregates.TopNOrdered | dashboard.py:253 | The head is ordered from the largest down |
| Aggregates.TopNRanked | dashboard.py:253 | No entry left out of the head ranks above a kept one |
| Aggregates.GroupTable | dashboard.py:253 | One entry per distinct group |
| Aggregates.GroupTableDistinct | dashboard.py:253 | The group table lists each group once |
| Aggregates.GroupEntry | dashboard.py:253 | Every entry of the group table is a present group with its own aggregate |
| Aggregates.EntryOfGroup | dashboard.py:253 | Every present group has its entry in the group table |
| Aggregates.DistinctOnce | dashboard.py:253 | In a list without repeats each entry occurs at most once |
| Aggregates.SubMultisetDistinct | dashboard.py:253 | Entries drawn from a list without repeats have no repeats |
| Aggregates.TopGroups | dashboard.py:253 | A chart shows min(5, number of groups) bars |
| Aggregates.TopGroupsDistinct | dashboard.py:390-425 | A chart shows each group at most once |
| Aggregates.TopGroupsEntries | dashboard.py:390-425 | Each bar is a present group showing its group's mean or sum |
| Aggregates.TopGroupsOrdered | dashboard.py:390-425 | A chart is ordered from the largest down, missing means last |
| Aggregates.TopGroupsRanked | dashboard.py:390-425 | A present group left out of a chart ranks no higher than any shown one |
| Aggregates.AveragePriceByGroup | dashboard.py:253 | The average-price-by-group chart (the same on the Comparative Analysis page, line 390) has at most five bars |
| Aggregates.TotalReviewsByGroup | dashboard.py:401-402 | The total-reviews-by-group chart has at most five bars |
| Aggregates.AveragePriceByNeighbourhood | dashboard.py:413 | The most-expensive-neighbourhoods chart has at most five bars |
| Aggregates.TotalReviewsByNeighbourhood | dashboard.py:425 | The most-reviewed-neighbourhoods chart has at most five bars |

Behaviour of the code that a reader might not expect, and which the model
keeps:

- An amount that does not parse as a number makes the whole load fail
  (`astype(float)` raises); the one field is not left absent.
- Amounts are not checked for being non-negative; a leading `-` parses.
- The cancellation policy is not restricted to Strict/Moderate/Flexible/
  Unknown; whatever text the file holds is kept.
- The top-five sort does not break ties by original order (pandas' default
  sort is not stable); no tie order is claimed.
- The detailed page's drop-downs list values with `unique()`, which keeps a
  missing value; choosing it selects no row.
- A neighbourhood group literally named "All" cannot be chosen on its own
  on the detailed page: it is the "every group" choice, and the
  neighbourhood list then holds every neighbourhood. The recommendation
  page has no such choice and treats "All" as an ordinary group.

## Left out

- The Streamlit user interface, page layout and CSS, the charts themselves and their drawing.
- Reading the CSV file: the model starts from a table of rows (`RawTable`) and a set of the optional columns present. Every column of `RawListing` other than the two optional ones is assumed present in the file; a file without price, service fee, last review or minimum nights makes the source raise a `KeyError` (dashboard.py:11-13, 28), which is not modelled. The file is also assumed to have no columns beyond those of `RawListing`: `drop_duplicates` compares every column, so two rows that differ only in a column the model does not carry are kept by pandas but merged by `Tables.Dedup`.
- Parsing of the last-review date (`to_datetime` with coercion): the date is an opaque optional day number.
- The 99th-percentile computation: the quantile `q` is a parameter of `Cleaning.LoadData`, to be computed by the caller over the deduplicated table's minimum nights.
- Cleaning.ParseFloat: accepts only optional surrounding whitespace, an optional sign and decimal digits with at most one point; Python's exponents, `inf`/`nan`, digit underscores, non-ASCII decimal digits, non-ASCII whitespace and the ASCII separators `\x1c`–`\x1f` (which `float()` also skips as whitespace) are not modelled, and such text is treated as unparsable.
- Floating-point rounding: amounts, means and the budget band are exact reals.
- Whether pandas reads the instant-bookable column as text or as booleans: the model keeps it as text and compares with 'TRUE'.
- The in-place fill of missing cancellation policies on the detailed page (dashboard.py:320-324): after loading it changes nothing, so the table is not mutated.
- The slider ranges and defaults, the number-input minimums (budget ≥ 0, nights ≥ 1), and the sort order of drop-down lists: the model takes the chosen values as inputs and states list contents, not order.
- The summary metrics, percentages and the availability binning with `pd.cut`.
- In-place updates of the pandas frame are modelled as rebinding a sequence of rows.
- Aggregates.SortDescending: fixes one tie order (first largest entry first); the proved properties do not depend on it, but which of several tied groups fills the fifth place is not modelled.
