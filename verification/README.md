# Transaction dashboard: the filter-and-aggregate pipeline

`app.py` is a one-page dashboard over uploaded transaction spreadsheets.
Each row carries:

- a country and a payment service;
- a volume (`VOLUMN`) and a transaction count (`TRX_COUNT`);
- and, when the files have them, a customer id, a transaction month and a
  customer sign-up month (the cohort).

The page does the following:

- loads every upload, tags its rows with the file name, and merges the files;
- offers four sidebar multiselects (countries, services, months, source
  files) with preset buttons;
- filters the merged table;
- computes, from the filtered rows:
  - the headline figures;
  - the change from the previous month;
  - top-N rankings;
  - a growth ranking and a service comparison between the last two months;
  - a five-band histogram and a four-tier split of the countries;
  - a country-by-service pivot and cohort lines;
- gates the downloads on the spreadsheet row limit.

This project models that pipeline as pure functions over sequences of
records. It proves what each step promises.

| module | file | what it holds |
|---|---|---|
| `Basics` | `basics.dfy` | `Option`, `Min`, `Keep` (the row mask `frame[mask]`) and lemmas about masks |
| `Lex` | `lex.dfy` | Code-point string order (Python's `<` on `str`), and sorted distinct lists |
| `Sorting` | `sorting.dfy` | Ranking by score descending, then name ascending |
| `Records` | `records.dfy` | The record, the table, group keys (`Domain` is `sorted(unique())`), sums over groups |
| `Grouping` | `grouping.dfy` | `groupby` with sums, `sort_values(...).head(n)`, `nlargest(n)` and `idxmax()` |
| `Loader` | `loader.dfy` | The upload loop and the merge |
| `Sidebar` | `sidebar.dfy` | Option lists, the Top-10 default, selections and preset buttons |
| `Filtering` | `filter.dfy` | The filter engine |
| `Kpi` | `kpi.dfy` | Headline figures and month-over-month deltas |
| `Comparison` | `comparison.dfy` | Country growth ranking and service comparison |
| `Distribution` | `distribution.dfy` | Magnitude bands and the four tiers |
| `CrossTab` | `crosstab.dfy` | Heat-map pivot and cohort lines |
| `Export` | `export.dfy` | The download gate |

Some semantics of the source that the model makes explicit:

- **String order.** Sorting and grouping order strings by code point.
- **Tie-breaks in `nlargest` and `idxmax`.** These keep the first of equal
  values, and `groupby` output is in ascending key order. So a tie goes to
  the smaller key. The model ranks by (volume descending, key ascending).
- **`sort_values` rankings.** Their sort is not stable, so their contracts
  only promise a descending selection of groups, not an order among ties.
- **Month and cohort text.** After `astype(str)`, a missing cell is the text
  "nan", which sorts among the months like any other text.
- **Tier counts in double precision.** `int(n * 0.35)` is taken on a
  double product, and the double nearest 0.35 is slightly below it. So for
  some multiples of 20 the third tier is one country smaller than 35%:
  180 countries give 62, not 63, and so do 340, 360, 660, 680, 700, 720 and
  1300. The model follows the double arithmetic, and the tier cuts, sizes,
  volumes and country lists inherit it.
- **Cohorts need months.** The cohort chart sits inside the branch for
  tables with a month column, so a table with cohorts but no months gets no
  cohort chart.

## Model

| member | source | states |
|---|---|---|
| Loader.TagRow | app.py:152 | A loaded row carries the file name as its source and keeps its country, service, volume and count. Its customer, month and cohort are the reader's cells when the file has that column, and missing ("nan" for the months) when it does not |
| Loader.LoadFile | app.py:146-155 | A file loads exactly when the reader its name selects (".csv" or spreadsheet) succeeds. The loaded frame keeps the file's name, columns and row count, and every row is tagged with the file name |
| Loader.Partition | app.py:161-166 | Every upload is either loadable or unreadable, never both, and the two counts add up to the number of uploads |
| Loader.LoadUploads | app.py:158-166 | The frames are the loadable files' frames in upload order. The failed list holds the names of the unreadable files in upload order. The two lengths add up to the number of uploads, and every frame row carries its frame's name |
| Loader.Concat | app.py:173 | A row is in the concatenation exactly when it is in one of the frames |
| Loader.ConcatAt | app.py:173 | Frame `i`'s rows appear unchanged and in order in the concatenation, starting right after the rows of the frames before it |
| Loader.Merge | app.py:173 | The merged table is the frames' rows one frame after another: frame `i`'s rows fill the slice after the earlier frames' rows, and the row count is the sum of the frame sizes. Each optional column exists exactly when some file has it |
| Loader.Ingest | app.py:158-173 | The page halts exactly when no upload loads. Otherwise its frames are the loadable uploads' frames, one each and in upload order, and the table is their merge. The failed names are the unreadable uploads' names, and every row's source names a loadable upload |
| Sidebar.MonthList | app.py:211 | The month list is strictly ascending. It is empty exactly when the table has no month column or no rows, it contains every row's month, and every month on it is some row's month |
| Sidebar.Build | app.py:209-215 | Each option list is the sorted distinct values of its column, and the country and source lists are empty exactly when there are no rows. The Top-10 list is `LargestKeys` with 10: the ten countries with the largest volume, in ranking order, or all of them when there are fewer |
| Sidebar.Covers | app.py:209-212 | Every row's country, service, source file and (with the column) month are among the options |
| Sidebar.Press | app.py:225-347 | "All" puts the full option list in its block and "clear" empties it, leaving the other blocks alone; a hidden block's buttons change nothing. "Top 10" sets the countries to the Top-10 list. Reset restores every default, and keeps the old source selection when there is no source file |
| Sidebar.ResetIdempotent | app.py:225-230 | Pressing reset twice is the same as pressing it once |
| Sidebar.ResetRestoresDefaults | app.py:225-230 | On a non-empty table, reset gives back the multiselect defaults whatever was selected before |
| Sidebar.LaterPresetWins | app.py:241-247 | "All" followed by "clear" is "clear", and the other way round |
| Filtering.Restrict | app.py:398-401 | A row is in the result exactly when it is an input row whose key is selected |
| Filtering.RestrictCount | app.py:398-401 | `isin` keeps a selected row as many times as it occurs and drops every other row |
| Filtering.Admitted | app.py:391-408 | A row is in the result exactly when it is an input row that passes the filter condition |
| Filtering.AdmittedCount | app.py:391-408 | The filter keeps an admitted row as many times as it occurs and drops every other row |
| Basics.KeepSnoc | app.py:398-408 | A mask keeps rows in their original order: one more input row adds itself at the end of the result when it passes, and nothing when it does not |
| Filtering.PlanAdmits | app.py:391-408 | A row passes the staged `isin` filters exactly when it passes the condition. That condition is: an empty selection means "all"; the source filter applies only when there is a choice of files; the month filter applies only when the table has months |
| Filtering.ApplyAdmitted | app.py:391-408 | The filtered table is exactly the rows of the merged table that pass the condition, in their original order |
| Filtering.ClearIsSelectAll | app.py:391-397 | Clearing a block filters exactly like selecting all of it |
| Filtering.NothingSelected | app.py:391-397 | With all four selections empty, no row is filtered out |
| Filtering.EverythingSelected | app.py:398-408 | With every option selected, no row is filtered out |
| Filtering.ResetShowsTopTen | app.py:225-230 | After reset, the filtered rows are exactly the rows of the Top-10 countries, in order |
| Filtering.NarrowerCountries | app.py:398-401 | Narrowing a non-empty country selection never brings a row in |
| Filtering.ApplyIdempotent | app.py:391-408 | Filtering the filtered rows again with the same selection changes nothing |
| Kpi.Pct | app.py:455 | The percentage change times the base is the difference times 100 |
| Kpi.PctInverse | app.py:455 | Growing the base by the percentage gives back the current value |
| Kpi.PctSign | app.py:454-457 | On a positive base, the change is positive exactly when the value grew, and zero exactly when it stayed |
| Kpi.Mean | app.py:427-428 | The average times a positive denominator is the total; with no rows or no transactions it is 0 |
| Kpi.CustomerIds | app.py:430 | The listed ids are exactly the non-missing customer ids of the rows |
| Kpi.DistinctCustomers | app.py:430 | `nunique` is the number of distinct non-missing customer ids |
| Kpi.Overview | app.py:425-432 | The totals are the column sums, and both averages are guarded against an empty denominator. The leading country and service are `TopKey`. Unique customers is 0 without the column, and unique countries is the number of distinct countries |
| Kpi.LatestTwo | app.py:440-444 | A pair exists exactly when the table has months and the rows span two or more. The pair is then the largest month and the next largest, and every other month sorts below both |
| Kpi.Change | app.py:454-457 | A delta exists exactly when the previous value is positive, and it is then the percentage change |
| Kpi.MonthOverMonth | app.py:440-465 | Deltas exist exactly when there are two months. Each of the volume, count and customer deltas exists exactly when the previous month's figure is positive (customers also need the column), and it is then the percentage change between the two months' figures |
| Grouping.GroupByTotal | app.py:498-501 | The group volumes add up to the total volume |
| Grouping.TopGroups | app.py:498-501 | The result has min(n, groups) groups, each with its summed volume and count, under distinct keys and with non-increasing volume. No group left out has more volume than one taken. The service table (app.py:514-517) and the Top-10 bar chart (app.py:808) are the same call |
| Grouping.LargestKeys | app.py:215 | The result has min(n, groups) keys, listed in ranking order, and every key left out ranks behind every key taken. The heat map (app.py:844) and treemaps (app.py:930) use it with 15 and 9 |
| Grouping.TopKey | app.py:429 | "-" exactly when there are no rows. Otherwise it is a key that ranks ahead of every other key: largest volume, smaller key on a tie |
| Grouping.TopKeyLeads | app.py:429-431 | The leading key's volume is at least every group's volume |
| Grouping.TopGroupsIdempotent | app.py:501 | Ranking a top-n list again leaves it unchanged |
| Comparison.Candidates | app.py:582-597 | The growth entries are exactly those of countries present in both months with a positive previous volume |
| Comparison.CandidatesDistinct | app.py:586-588 | Built from the distinct countries, the growth entries name each country at most once |
| Comparison.GrowthRanking | app.py:582-601 | The table has at most five entries, all eligible, with distinct countries and non-increasing growth. It holds every eligible country when there are fewer than five, and no country left out grew more than one shown |
| Comparison.Rate | app.py:636 | On a non-zero base the rate is the percentage change; on a zero base it is 100 times the current value |
| Comparison.Services | app.py:634 | The merged services are the sorted union of both months' services |
| Comparison.MonthComparison | app.py:567-574 | The comparison is drawn exactly when the table has a month column and at least two months. It compares the latest month with the one before, and both tables are built from exactly those two months' rows |
| Comparison.ComparisonTotals | app.py:629-634 | The two months compared are different, and the service table's columns add up to each month's total volume |
| Comparison.CompareServices | app.py:629-636 | There is one row per merged service, in order, with each month's volume, their difference and the `Rate` of the change |
| Comparison.AbsentIsZero | app.py:634 | A service missing in a month shows 0 for that month |
| Comparison.CompareKeepsTotals | app.py:629-636 | The "current" and "previous" columns add up to the two months' total volumes |
| Distribution.BandOf | app.py:686-688 | A volume gets a label exactly when it lies in [0, 1.1 max], and the label's interval contains it |
| Distribution.WithinUnique | app.py:686-688 | The five intervals do not overlap |
| Distribution.BandOfExact | app.py:686-688 | The label is exactly the band whose interval contains the volume |
| Distribution.BandMonotone | app.py:686-688 | Between 0 and the maximum, a larger volume never gets a lower band |
| Distribution.BandExtremes | app.py:686-688 | The largest volume gets the top band, and 0 gets the lowest because the lowest edge is inclusive |
| Distribution.PeakIsMax | app.py:682 | The peak is at least every country's volume |
| Distribution.Histogram | app.py:677-688 | There is no cut when there are no rows or the peak is not positive. Otherwise there is one entry per country with its volume, labelled exactly when the volume is not negative, and with the band that contains it |
| Distribution.Summary | app.py:691-695 | There is one bar per band that holds a country, with that band's country count and volume, lowest band first |
| Distribution.SummaryCounts | app.py:691-695 | The bars count every labelled country exactly once |
| Distribution.EveryCountryBanded | app.py:677-695 | When a histogram is drawn and no volume is negative, the bars add up to the number of countries |
| Distribution.CountryRanking | app.py:731 | Every country appears exactly once, with its summed volume, in non-increasing order of volume |
| Distribution.RankingTotal | app.py:731 | The ranked volumes add up to the total volume |
| Distribution.CountryVolumes | app.py:731 | Entry i is the summed volume of the country ranked i-th. The entries are non-increasing and add up to the total volume |
| Distribution.StatedCounts | app.py:733-738 | The stated counts add up to the number of countries, and the first three are at least 1 |
| Distribution.StatedCountsTruncate | app.py:735-737 | The first two counts are the floors of 10% and 25% (at least 1). The third is the floor of 35%, or one less when 35% is a whole number and the double product falls short |
| Distribution.ThirdTierRounding | app.py:737 | For 180 countries the third count is 62 where 35% is 63; for 20 countries it is exactly 7 |
| Distribution.StatedCountsFit | app.py:733-738 | With three or more countries the fourth count is not negative |
| Distribution.Split | app.py:743-747 | The four tiers, in order, make up the list exactly, and the fourth is empty when its stated count is not positive |
| Distribution.SplitOrdered | app.py:743-747 | Every volume of an earlier tier is at least every volume of a later tier |
| Distribution.TierVolumes | app.py:743-747 | Each tier volume is the sum of its run of the volume list (`head`, the two `iloc` ranges, and the rest after them), and the four add up to the total |
| Distribution.TierCountries | app.py:780-792 | Every country is in exactly one tier list. Each list names, position by position, the countries whose volumes form that tier's run of the volume list |
| Distribution.SplitPaired | app.py:782-786 | Cutting the ranked names and the volumes at the same places keeps every name next to its volume |
| Distribution.TierSizes | app.py:733-747 | The tier sizes are non-negative and add up to the number of countries |
| Distribution.SizesMatchSplit | app.py:743-747 | The sizes are the lengths of the four tiers |
| Distribution.SizesAgree | app.py:733-738 | From three countries on, the sizes equal the stated counts |
| Distribution.StatedCountsWrong | app.py:733-738 | With one country the stated counts are 1, 1, 1, -2, while the tiers hold 1, 0, 0, 0 countries |
| Distribution.ShareOf | app.py:751 | A share exists exactly when the total is not zero, and each share times the total is the tier volume times 100 |
| Distribution.SharesComplete | app.py:751 | The four shares add up to 100 |
| Distribution.TierBreakdown | app.py:729-751 | There is a table exactly when there are rows. Its counts are the tier sizes, adding up to the number of countries. Its volumes are the tier sums, adding up to the total, and the shares exist exactly when that total is not zero, and are each tier's percentage of it (`ShareOf`) |
| CrossTab.HeatmapRows | app.py:844-845 | A row is a heat-map row exactly when it is a row of one of the 15 largest countries |
| CrossTab.HeatmapRowsCount | app.py:844-845 | A row of the 15 largest countries is kept as many times as it occurs, and every other row is dropped |
| CrossTab.HeatmapCountries | app.py:844-845 | The heat map has min(15, countries) rows, exactly the 15 largest countries |
| CrossTab.PivotTable | app.py:894-900 | There is a row per country and a column per service, both sorted. Each cell is the volume of that pair |
| CrossTab.NonZeroCellHasRows | app.py:899 | A non-zero cell is backed by a row of that pair; every other cell is the fill value 0 |
| CrossTab.RowTotal | app.py:894-900 | Each pivot row adds up to its country's volume |
| CrossTab.GrandTotal | app.py:894-900 | The whole pivot adds up to the volume of its rows |
| CrossTab.CohortLine | app.py:1159 | A cohort's points are exactly its months with their volumes, months ascending |
| CrossTab.CohortTrends | app.py:1152-1160 | There is a chart exactly when the table has both month columns and rows. Its points are exactly the (cohort, month) pairs of the five largest cohorts with their volumes, ordered by cohort and then month |
| CrossTab.CohortLineTotal | app.py:1158-1160 | A cohort's line adds up to the cohort's volume |
| Export.StripRetag | app.py:1195 | Dropping the source-file column loses nothing else: the tag put back gives the original row |
| Export.TagIgnored | app.py:1195 | Two rows that differ only in their source file download the same |
| Export.Download | app.py:1195 | The download keeps the rows in order, each row equal to its original except for the tag. A `Record` holds only the columns the page reads, so "keeps the columns" covers those; the other uploaded columns, which the source also exports, are not modelled |
| Export.PlanExportAsWritten | app.py:1198-1217 | Delimited text is always offered. The spreadsheet is offered exactly when there are at most 1,048,576 rows, and it then holds the same rows |
| Export.HeaderOverflow | app.py:1210-1217 | With exactly 1,048,576 rows the gate as written offers a spreadsheet that needs 1,048,577 lines with its header |
| Export.PlanExport | app.py:1198-1217 | Delimited text is always offered. The spreadsheet is offered exactly when its header line and rows fit in 1,048,576 lines, and it then holds the same rows |
| Export.SpreadsheetFits | app.py:1198-1217 | An offered spreadsheet, header included, never exceeds the sheet's 1,048,576 lines |
| Export.GatesAgree | app.py:1210 | The corrected gate and the gate as written decide alike for every row count except exactly 1,048,576 |

## Left out

- Widgets, layout, CSS, `st.session_state` and `st.rerun` are not modelled. A selection is a plain value, and a button press is a function from selection to selection.
- The sidebar summary HTML is not modelled: it is display only.
- Plotly figures are not modelled; the model keeps only the data they are drawn from. This includes the bar colours that `dist_summary` assigns by position.
- Number formatting (`:,.0f`, `:.1f%`, K/M labels, `.round(1)`), emoji maps and the expander lists of countries per band (app.py:718-725) are not modelled: they are display only.
- Parsing CSV and spreadsheet bytes is modelled as two opaque functions returning `Option`. Writing the CSV and spreadsheet bytes is left out. Both are library code.
- `@st.cache_data` has no effect on results and is left out.
- `np.log1p` on the pivot is left out: it is floating-point display of the same cells.
- Volumes and counts are unbounded integers, and percentages and band edges are exact reals. Floating-point rounding is not modelled, except in the tier counts.
- Distribution.StatedCounts: the double products are worked out in closed form (see `Distribution.Trunc35`). That form holds while the country count is below 2^50 (about 10^15), far past any real country list; from about 1.6 * 10^15 on, a product just below a whole number can round up onto it, which the closed form does not follow.
- Comparison.GrowthRanking: the order among countries with equal growth is not stated. The source ranks a set of countries with an unstable sort, so that order is arbitrary.
- Grouping.TopGroups: the order among groups with equal volume is not stated, because `sort_values` is not stable.
- Distribution.Histogram: the entries are in country order rather than in the descending-volume order of `country_volumes`. Only the order of the expander lists depends on that.
- Distribution.Histogram: when the peak is not positive, the cut raises. This is modelled as no histogram. The exception is not caught, so the page stops there, and the tier table, heat map, cohort lines and downloads below it are not drawn either. The model's later functions still return values for such rows, because the model does not track the page's control flow.
- Distribution.TierBreakdown: the table's counts are the real tier sizes (`TierSizes`), not the stated counts that the bar text shows. The two agree from three countries on (`SizesAgree`), and the difference below that is the first row of "## Findings".
- Sidebar.Press: Reset is modelled as the transition the button evidently intends, every selection back to its default. As written, `reset_filters` (app.py:346-347) assigns the session-state keys of multiselects already created earlier in the same run (app.py:254, 285, 310, 336), which Streamlit plausibly rejects with an exception; the widget session-state rules are not modelled.
- Loader.TagRow: a present month or cohort cell keeps the text the file's reader gives it. The source coerces the merged column with `astype(str)` after the concat (app.py:203-206), so the text depends on the merged column's type: an integer month column concatenated with a file that lacks the column turns into floats, and 202401 reads "202401.0"; two files whose integer months agree can also read differently per file. Column types are not modelled, so neither effect is.
- Kpi.Overview: the leading country and service are stated as `Grouping.TopKey`, whose contract gives the leader's properties.
- The service share column of the top-5 service table (app.py:518) is left out: it is display formatting of volume over total.
- The per-service top-10 bar charts (app.py:868), the per-country treemaps (app.py:930-990) and the stacked service bars (app.py:996-997) are left out: they are further groupings drawn only as charts.
- The monthly trend charts of the trend tab (app.py:1020-1150) are left out: they are plain per-month sums drawn as charts.
- Every merged row has a `_source_file` value, because the loader tags every row. So the "column missing" branches at app.py:212 and app.py:404 are not modelled.
- A missing country or service cell is not modelled: those columns are required text.

## Findings

| source | as written | input that shows it | evidently intended | confidence | as-written member | corrected member |
|---|---|---|---|---|---|---|
| app.py:733-738 | The tier table's country counts are `max(1, int(n·p))` for the first three tiers and the remainder for the fourth. The tiers themselves are formed by `head`/`iloc`/`tail` over the n countries | One country: the counts read 1, 1, 1, -2, while the tiers hold 1, 0, 0, 0 countries (two countries: 1, 1, 1, -1 against 1, 1, 0, 0) | Each count is the number of countries in its tier: non-negative, adding up to n | not executed | Distribution.StatedCountsWrong | Distribution.TierSizes |
| app.py:1210 | The spreadsheet gate compares the row count with 1,048,576, but `to_excel` also writes a header line | A filtered table of exactly 1,048,576 rows: the spreadsheet is offered and needs 1,048,577 lines | The spreadsheet is offered only when the header and the rows fit in one sheet | not executed | Export.HeaderOverflow | Export.PlanExport |
