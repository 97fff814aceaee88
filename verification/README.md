# Factor scripts of 2025Spring_Financial_ML, modelled in Dafny

This project models the pandas scripts that turn CSMAR spreadsheet exports
into monthly and quarterly stock factors. Each script becomes a Dafny
module. The shared table operations are modules of their own. Every factor
is a function from the input rows to an `Outcome`, and that outcome is one of:

- the table the script writes (`Written`);
- an early return without writing (`Stopped`);
- the exception that ends the script (`Raised`).

Each script's `main` is also a method that runs the same steps in the
source's order. It is proved equal to the function.

Modules:

- `Tables`: missing cells (`Option`), errors and outcomes, parsed dates, and
  the sequence operations the transformations use: filtering, computed
  columns, sums, maxima, `dropna`, and `-` and `/` on columns with missing
  values.
- `Text`: prefixes and suffixes, decimal digits, the two date spellings
  'YYYY-MM-DD' and 'YYYYMMDD', the three Yearmon computations,
  `str.strip`, and the numbers `to_numeric(errors='coerce')` and
  `astype(float)` read from text. A number is a sign, digits with at most one
  point, and an optional exponent, with whitespace around it. The special
  values are listed under "Left out".
- `Ordering`:
  - the order of `str` and of `(Stkcd, int)` keys;
  - `np.unique` as a sorted distinct list;
  - the stable multi-column `sort_values`.
- `Joins`: left and inner `merge` on equal keys, with one output row per
  matching pair, and `drop_duplicates(keep='last')`.
- `Loader`:
  - which files of a directory listing each loader reads, in which order;
  - what an unreadable file does: it is skipped or it raises;
  - `process_old_data`'s recursive walk;
  - the header-caption rows.
- `Groups`: the rows of one `groupby` group up to a row, and the trailing
  window `rolling(w)` takes of them.
- `Panel`: the dense month ranks `ID_Mon`, and the stock × month grid.
- `Trading` (utils/smkWork/factor.py): `process_old_data`, `_data_process`,
  `_construct_month_list`, `dolvol`, `turn` with its three-step loop,
  `zeroturn` and the `flag != 0` filter.
- `Mom` (mom_processing.py): `maxret`, `mom1m`, `mom6m`, `mom12m` and `mom36m`.
- `Roic`, `RdSale`, `Quick`, `Stdcf`, `Volatility` and `Chpm`: the other
  factor scripts.

Where the documentation of the repository and its code disagree, the model
follows the code:

- the final filter of factor.py drops a row whose five factors SUM to 0,
  not only a row whose factors are all 0 (`Trading.FlagFilterCases`);
- with no input file, only the quick and stdcf loaders return an empty
  table;
- roic, rd_sale and volatility raise on the empty concatenation;
- mom and `process_old_data` raise a KeyError on the missing `Stkcd`
  column of an empty frame.

## Model

| member | source | states |
|---|---|---|
| Loader.ReadAndConcat | data/factor/stdcf/stdcf_processing.py:15-37 | the loop over the patterns and the glob matches reads exactly the files `Load` lists, in pattern-then-listing order, with the script's policy for unreadable files |
| Loader.ReadPattern | data/factor/stdcf/stdcf_processing.py:21-31 | the inner loop over one pattern's matches reads them in listing order; when it stops on an unreadable file, the result is what `Load` gives for the matches up to that file |
| Loader.LockFilesIgnored | data/factor/stdcf/stdcf_processing.py:22-25 | removing every `~$` lock file from the listing changes nothing the loader returns |
| Loader.SkipNeverFails | data/factor/stdcf/stdcf_processing.py:26-31 | a loader that catches read errors never fails while reading |
| Loader.SkipReadsReadable | data/factor/roic/roic_processing.py:27-32 | with the try/except, the frames read are exactly the rows of the readable files, in order |
| Loader.RaiseFirstUnreadable | data/factor/mom/mom_processing.py:22-24 | without a try/except, the script fails with the read error of the first unreadable file |
| Loader.ExtensionsDisjoint | data/factor/stdcf/stdcf_processing.py:18 | no name matches both `*.xlsx` and `*.xls`, so no file is read twice |
| Loader.Concat | data/factor/rd_sale/rd_sale_processing.py:30 | `pd.concat` of no frame is the empty-concatenation error; otherwise it is the rows of all frames |
| Loader.LoadOldData | utils/smkWork/factor.py:13-26 | the walk keeps the frames of the files that pass the three tests, in walk order, and fails at the first selected file it cannot read |
| Loader.OldDataFilesMembers | utils/smkWork/factor.py:13-23 | a file is read iff it is listed, is a regular `.xlsx` file, has no directory part containing 'N', and its name starts with the prefix |
| Text.DashlessYearmonIsYearMonth | utils/smkWork/factor.py:66-67 | `int(str(date).replace('-', '')) // 100` never raises on a parsed date and is its year × 100 + month |
| Text.CompactYearmonIsYearMonth | data/factor/mom/mom_processing.py:37-38 | `int(strftime('%Y%m%d')) // 100` is the date's year × 100 + month |
| Text.DigitYearmonBothSpellings | data/factor/volatility/volatility_processing.py:14-24 | `My_YM` gives the same YYYYMM for the 'YYYY-MM-DD' and the 'YYYYMMDD' spelling of a date |
| Text.DateTextDigits | data/factor/volatility/volatility_processing.py:18-21 | removing the dashes, or every non-digit, from either date spelling leaves 'YYYYMMDD' |
| Text.FixedDigitsValue | data/factor/mom/mom_processing.py:37 | a zero-padded field of `strftime` reads back as the number written |
| Text.ParseNumberDigits | data/factor/quick/quick_processing.py:59 | a digit string coerces to the integer it spells |
| Text.NumeralParses | data/factor/quick/quick_processing.py:59 | every numeral reads as the value it denotes. A numeral is an optional sign, digits with at most one point, and an optional `e`/`E` exponent with an optional sign, with any whitespace around it. The value is mantissa × 10^exponent, negated after '-' |
| Text.ParsedIsNumeral | data/factor/quick/quick_processing.py:59 | conversely, every text that reads as a number is such a padded numeral, and its value is that numeral's value |
| Text.ShiftedIsPower | data/factor/quick/quick_processing.py:59 | the exponent multiplies the mantissa by 10^e, or divides it by 10^-e when negative |
| Text.NumberCharsOnly | data/factor/quick/quick_processing.py:59 | every character of a text that reads as a number is a digit, a sign, the point, an exponent letter or whitespace |
| Text.ParseNumberRejects | data/factor/quick/quick_processing.py:59 | text with a character that occurs in no number pandas or `float()` reads coerces to missing, never to 0. Such a character is anything but a digit, a sign, the point, `e`/`E`, whitespace, `_` and the letters of "inf", "infinity" and "nan" |
| Text.StripCutsOnlySpace | data/factor/chpm/chpm_processing.py:17 | a stripped column name is a middle slice of the original, with only whitespace cut from either end |
| Text.StripBounds | data/factor/chpm/chpm_processing.py:17 | `str.strip()` returns `s[i..j]`, and everything before `i` and after `j` is whitespace |
| Text.StripIdempotent | data/factor/chpm/chpm_processing.py:17 | stripping twice is stripping once |
| Ordering.StrLtIsStrictTotalOrder | data/factor/mom/mom_processing.py:46 | Python's string `<` is irreflexive, transitive and total |
| Ordering.CodeIntLtIsStrictTotalOrder | data/factor/mom/mom_processing.py:53 | the (Stkcd, ID_Mon) group order is a strict total order |
| Ordering.SortedDistinct | data/factor/mom/mom_processing.py:41 | `np.unique` holds exactly the values of the column |
| Ordering.SortedDistinctSorted | data/factor/mom/mom_processing.py:41 | `np.unique` is strictly ascending, so it has no repeats |
| Ordering.SortStable | data/factor/stdcf/stdcf_processing.py:80 | `sort_values` returns a permutation of its rows |
| Ordering.SortStableSorted | data/factor/stdcf/stdcf_processing.py:80 | `sort_values` orders the rows by the key |
| Ordering.SortStableKeepsTies | data/factor/stdcf/stdcf_processing.py:80 | rows with equal keys keep their input order |
| Joins.Lookup | data/factor/roic/roic_processing.py:76-79 | the row attached for a key is a right row with that key, and one is attached iff some right row has the key |
| Joins.LeftJoinOrigin | data/factor/roic/roic_processing.py:76-79 | every row of a left merge is a left row combined with nothing, or with a right row of the same key |
| Joins.JoinRowUnmatched | data/factor/roic/roic_processing.py:76-79 | a left row with no match gives exactly one row, with nothing attached |
| Joins.LeftJoinUnique | data/factor/roic/roic_processing.py:76-79 | against unique right keys, a left merge has one row per left row: the left row with its lookup |
| Joins.LeftJoinSingles | data/factor/roic/roic_processing.py:76-79 | when every left row yields exactly one row, the merge has one row per left row, in order |
| Joins.InnerJoinPairsEqualKeys | data/factor/stdcf/stdcf_processing.py:73 | every row of an inner merge pairs a left and a right row with equal keys (soundness; `InnerJoinComplete` is the converse) |
| Joins.InnerJoinComplete | data/factor/stdcf/stdcf_processing.py:73 | every pair of a left row and a right row with equal keys gives a row of the inner merge |
| Joins.InnerJoinDropsUnmatched | data/factor/stdcf/stdcf_processing.py:73 | a left row with no match contributes no row to an inner merge |
| Joins.KeepLast | utils/smkWork/factor.py:72 | after `drop_duplicates(keep='last')`, the rows kept are a subsequence of the input, in input order. The keys are unique and every input key is still present |
| Joins.KeepLastLookup | utils/smkWork/factor.py:72 | the row kept for a key is the last input row with that key |
| Tables.Minus | data/factor/mom/mom_processing.py:88 | a difference of columns is missing iff either side is, and adding back the subtrahend gives the minuend |
| Tables.Divide | utils/smkWork/factor.py:161 | a quotient is defined iff both sides are and the divisor is not 0, and then quotient × divisor = dividend |
| Tables.ParseAll | data/factor/volatility/volatility_processing.py:54 | `astype` converts a column iff every cell converts, each to its own value in order, and raises the conversion's error otherwise |
| Tables.MaxOf | data/factor/mom/mom_processing.py:53 | the maximum of a group is one of its values and no value exceeds it |
| Tables.PresentMembers | data/factor/volatility/volatility_processing.py:63 | `dropna` keeps a value iff it is present somewhere, in order |
| Groups.Positions | data/factor/stdcf/stdcf_processing.py:81 | a group's positions are exactly the rows with its key, increasing |
| Groups.TrailingWindow | data/factor/stdcf/stdcf_processing.py:81-82 | `rolling(w)` at a row takes the last `w` rows of its group up to it: they end at the row, are in order, and skip none of the group's rows |
| Groups.GroupWindowIsSuffix | data/factor/stdcf/stdcf_processing.py:81-82 | conversely, increasing group positions that end at the row and skip none of the group's rows are exactly the group's last positions up to it |
| Panel.Find | data/factor/mom/mom_processing.py:43 | the merge with `R2` finds a position iff the month is listed, and the month sits at that position |
| Panel.MonthsSorted | utils/smkWork/factor.py:83 | `Mon_list` is strictly ascending and holds exactly the months of the column |
| Panel.RanksAreDense | utils/smkWork/factor.py:83-88 | month k of the list has rank k, and a smaller month has a smaller rank |
| Panel.MonthRows | utils/smkWork/factor.py:98 | one stock's stretch of the product pairs it with month j at rank j |
| Panel.GridAt | utils/smkWork/factor.py:93-107 | grid row i × P + j pairs stock i with month j at rank j, so the grid has stocks × months rows, stock-major |
| Panel.GridMembers | data/factor/mom/mom_processing.py:46-49 | a row is in the grid iff its stock is listed and its month is the month of its rank |
| Panel.BuildGrid | utils/smkWork/factor.py:95-100 | the product loop builds `Mon_L1` and `Mon_L2` equal to the grid's stock and month columns |
| Trading.CleanTrade | utils/smkWork/factor.py:33-35 | a row is dropped iff its code is one of the two captions; a kept row keeps its date |
| Trading.OldData | utils/smkWork/factor.py:28-33 | with no file, selecting Stkcd from the empty frame raises a KeyError; a read failure is passed on |
| Trading.OldDataRows | utils/smkWork/factor.py:33-35 | the rows returned are exactly the cleaned rows whose code is not a caption |
| Trading.ProcessOldData | utils/smkWork/factor.py:10-45 | `process_old_data` returns the cleaned rows of the files the walk reads, or its error |
| Trading.YearmonOfDate | utils/smkWork/factor.py:66-67 | the Yearmon of a date is its YYYYMM: the year is Yearmon // 100 and the month is Yearmon % 100 |
| Trading.DailyOf | utils/smkWork/factor.py:63-67 | each daily row gets its date's YYYYMM; the step fails with a date-parse error iff some date does not parse |
| Trading.AfterCaptions | utils/smkWork/factor.py:61 | `iloc[2:]` drops the first two rows and keeps the rest in order |
| Trading.CapMonthsOf | utils/smkWork/factor.py:63-70 | each share-change row gets its date's YYYYMM; the step fails iff some change date does not parse |
| Trading.DataProcess | utils/smkWork/factor.py:54-75 | `_data_process` fails iff reading, a share-change date or a trading date fails; `TRDCM` then has unique (Stkcd, Yearmon) keys |
| Trading.SharesAreLastOfMonth | utils/smkWork/factor.py:72 | the Nshra a month gets is that of the last change recorded in that exact month, and 0 when the month has none, whatever earlier months hold |
| Trading.RankDaily | utils/smkWork/factor.py:91 | a day has a rank iff its month is in `TRDCM`, and the rank is that month's position |
| Trading.PanelShape | utils/smkWork/factor.py:83-107 | `R1` has stocks × months rows; a row is in it iff its stock and its month occur in `TRDCM` and its rank is its month's rank |
| Trading.StockListed | utils/smkWork/factor.py:93 | a code is in `Stkcd_list` iff some `TRDCM` row has it |
| Trading.MonthRank | utils/smkWork/factor.py:83-88 | a month sits at rank `r` of `Mon_list` iff it occurs in `TRDCM` and `r` is the position found for it |
| Trading.ConstructMonthList | utils/smkWork/factor.py:77-109 | `_construct_month_list` returns the grid, the ranked daily rows and `TRDCM` |
| Trading.AmountRows | utils/smkWork/factor.py:118-120 | `Amount` has one row per daily row |
| Trading.WithDolvol | utils/smkWork/factor.py:130-133 | the dolvol merge keeps every grid row |
| Trading.JoinRowStages | utils/smkWork/factor.py:130-133 | the rows one grid row yields in the dolvol merge carry that grid row, plus the dolvol of a row with key `ID_Mon_2` equal to its rank, or none when no such row exists |
| Trading.DolvolJoinRows | utils/smkWork/factor.py:130-133 | every row of the dolvol merge comes from a grid row, with a dolvol from a matching amount row, or none when no row matches |
| Trading.DolvolIsTwoMonthsBack | utils/smkWork/factor.py:118-133 | the dolvol at (stock, k) is the log amount of one of the stock's days of rank k−2, and it is missing iff the stock has no such day |
| Trading.AmountKeys | utils/smkWork/factor.py:118-123 | an `Amount` row's `ID_Mon_2` key matches a grid row iff its day lies two ranks before the grid row's month, and its dolvol is the log of the day's amount |
| Trading.MonthVolumes | utils/smkWork/factor.py:135-137 | a (Stkcd, ID_Mon) group of `VL` is empty iff the stock has no day of that rank |
| Trading.Volume | utils/smkWork/factor.py:135-137 | `VL` has a row for (stock, rank) iff the stock traded on some day of that rank, and the row holds the summed volume |
| Trading.Lags | utils/smkWork/factor.py:138-140 | a grid row has three lagged volume columns, for ranks k−1, k−2 and k−3 |
| Trading.WithVolume | utils/smkWork/factor.py:143-153 | one pass of the loop adds to every row the stock's volume n ranks back, and changes nothing else |
| Trading.AttachVolumes | utils/smkWork/factor.py:142-155 | after the three passes every row carries Volume_1..3, the stock's volumes 1, 2 and 3 ranks back |
| Trading.TurnRows | utils/smkWork/factor.py:157-163 | one output row per merged row |
| Trading.Turn | utils/smkWork/factor.py:124-165 | `turn` as the script runs it, loop included, equals the turn table of the month list, or the error |
| Trading.TurnOfMeaning | utils/smkWork/factor.py:130-159 | an output row keeps its grid row's keys; dolvol is the merged dolvol or 0; Volume_n is the stock's volume n ranks back, or 0 |
| Trading.TurnOfRatio | utils/smkWork/factor.py:157-163 | Nshra is the stock's share count for the same Yearmon, or 0; turn × Nshra = Volume_1 + Volume_2 + Volume_3, and turn is defined iff Nshra ≠ 0 |
| Trading.FinishMeaning | utils/smkWork/factor.py:157-161 | the share merge and `fillna(0)` keep the keys, turn missing volumes and dolvol into 0, and the ratio is the volume sum over the shares |
| Trading.FinishStaged | utils/smkWork/factor.py:142-161 | finishing the rows the volume loop built gives the turn table, row by row |
| Trading.TurnRowMeaning | utils/smkWork/factor.py:130-163 | every row of the turn table is a grid row, with the dolvol of one of its days two ranks back, or 0 when there is none |
| Trading.OneDayMonth | utils/smkWork/factor.py:135-137 | a month in which a stock traded on one day only has that day's volume |
| Trading.FourMonthsLags | utils/smkWork/factor.py:135-155 | on a panel of months ranked 0 to 3 with volumes 100, 200, 300 and 50, the last month's Volume_1..3 are 300, 200 and 100, nearest first |
| Trading.TurnExample | utils/smkWork/factor.py:135-161 | on that panel with 1000 shares, `TurnOf` gives the last month volumes 300, 200, 100 and a turnover of 0.6 |
| Trading.DayCount | utils/smkWork/factor.py:181-183 | a group's count is 0 iff the stock has no day of that rank |
| Trading.Zeroturn | utils/smkWork/factor.py:175-184 | one row per (Stkcd, ID_Mon) group |
| Trading.ZeroturnOrder | utils/smkWork/factor.py:181-184 | the rows are in group-key order, and each is attached to rank ID_Mon + 1 |
| Trading.ZeroturnCounts | utils/smkWork/factor.py:176-183 | `zero` is the number of the group's days, at least 1 |
| Trading.ZeroturnCovers | utils/smkWork/factor.py:181-183 | every day with a ranked month has its group's row |
| Trading.ZeroturnIgnoresVolume | utils/smkWork/factor.py:176-183 | changing the volumes, to zero or not, changes no `zero` value: every day is counted, not only zero-volume days |
| Trading.ZeroturnExample | utils/smkWork/factor.py:176-183 | a month with one day of zero volume and one day of volume 5 gives `zero` = 2 |
| Trading.FlagFilter | utils/smkWork/factor.py:271 | a row is kept iff its flag is not 0; every kept row is an input row |
| Trading.FlagFilterCases | utils/smkWork/factor.py:258-271 | an all-zero row is dropped, so is a row whose factors cancel (1, −1, 0, 0, 0), and a row with non-negative factors, one of them positive, is kept |
| Mom.CleanFills | data/factor/mom/mom_processing.py:28-29 | caption rows go; a missing code becomes "0", a missing return 0, and the date is left as it is |
| Mom.Dated | data/factor/mom/mom_processing.py:34-38 | each return gets the YYYYMM of its date; the step fails iff some date does not parse |
| Mom.DatedYearmon | data/factor/mom/mom_processing.py:37-38 | Yearmon = YYYYMMDD // 100 is year × 100 + month |
| Mom.Ranked | data/factor/mom/mom_processing.py:41-43 | each return gets its month's rank in `Mon_list` |
| Mom.GroupRetsMembers | data/factor/mom/mom_processing.py:53 | a value is in a (Stkcd, ID_Mon) group iff a row with that key carries it |
| Mom.MaxOpt | data/factor/mom/mom_processing.py:53-54 | a group's max is present iff the group has a row, and is the largest of its values |
| Mom.MonthSums | data/factor/mom/mom_processing.py:58 | `RETM` holds the sum of each group's returns |
| Mom.WindowSum | data/factor/mom/mom_processing.py:62 | a rolling sum is defined iff the stock has at least `window` rows (`min_periods` is the window) |
| Mom.MomWritten | data/factor/mom/mom_processing.py:21-47 | the script never stops silently; it writes iff every file reads, some data row remains and every date parses |
| Mom.MaxretIsPreviousMonth | data/factor/mom/mom_processing.py:50-55 | maxret at (stock, k) is the largest daily return of the stock in rank k−1, and is missing iff the stock has no row there |
| Mom.GroupMax | data/factor/mom/mom_processing.py:53 | a (Stkcd, ID_Mon) group's max return is defined iff the group has a row, is one of its returns, and is at least every return in the group |
| Mom.Mom1mIsSameMonth | data/factor/mom/mom_processing.py:58-59 | mom1m at (stock, k) is the sum of the stock's returns in rank k itself; the row exists iff that month has rows and the sum exceeds −9999 |
| Mom.ObservedUpTo | data/factor/mom/mom_processing.py:62 | in the sorted `RETM`, a stock's rows up to a row are its observed months up to that month |
| Mom.RollingDrawsOnObserved | data/factor/mom/mom_processing.py:62 | the rolling window draws only on the stock's observed months up to the row's month |
| Mom.RollingIsWindow | data/factor/mom/mom_processing.py:62-65 | a defined rolling sum is the sum over the stock's last `w` rows, which end at the row and skip none of the stock's rows |
| Mom.WindowRanks | data/factor/mom/mom_processing.py:62 | the months of such a window increase and miss no observed month between them |
| Mom.LaggedWindow | data/factor/mom/mom_processing.py:62-73 | mom6m / mom12m at (stock, k) sums the stock's last 5 / 11 observed months, ending with month k−1 |
| Mom.RollingDifference | data/factor/mom/mom_processing.py:76-86 | where T36 is defined T12 is too, and T36 − T12 is the sum of the 24 rows before the last 12 |
| Mom.WindowSumSplit | data/factor/mom/mom_processing.py:76-86 | over any positions, the sum of the last 36 less the sum of the last 12 is the sum of the 24 before them |
| Mom.Mom36Difference | data/factor/mom/mom_processing.py:76-88 | mom36m is defined iff T36 is, and is then the sum of the 24 observed months before the last 12 up to month k−1 |
| Mom.Finished | data/factor/mom/mom_processing.py:91 | every grid row is finished, in grid order |
| Mom.MomRowsAreKept | data/factor/mom/mom_processing.py:91-92 | an output row is exactly the finished row of a grid row that the mom1m filter keeps |
| Mom.Run | data/factor/mom/mom_processing.py:13-93 | `main` as the script runs it equals the factor function |
| Roic.Nopi | data/factor/roic/roic_processing.py:62-64 | NOPI is defined iff both income cells coerce, and is their difference |
| Roic.RoicRaisesWithoutFrames | data/factor/roic/roic_processing.py:33 | the script raises iff one of the four directories gives no frame, and then with the empty-concatenation error |
| Roic.MergedFromProfit | data/factor/roic/roic_processing.py:76-79 | every merged row carries the key and the EBIT of some profitability row |
| Roic.AttachedFrom | data/factor/roic/roic_processing.py:78-79 | the market-cap and cash merges keep the key and the EBIT of the row they extend |
| Roic.StartedFrom | data/factor/roic/roic_processing.py:76-77 | the first merge keeps the key and the EBIT of the profitability row |
| Roic.MergeIsLookup | data/factor/roic/roic_processing.py:76-79 | with unique right keys, the merge chain has one row per profitability row, with each right table's lookup attached |
| Roic.RoicOfKept | data/factor/roic/roic_processing.py:84-87 | a kept row has MktCap > Cash and an EBIT; its ratio is defined iff NOPI is, and then ratio × (MktCap − Cash) = EBIT − NOPI |
| Roic.RoicRowsAreKeptMerges | data/factor/roic/roic_processing.py:86-87 | an output row is exactly a merged row passing both masks, with its key and ratio |
| Roic.RoicKeepsMissingNopi | data/factor/roic/roic_processing.py:86-87 | a kept row without NOPI is written with a missing ratio |
| Roic.Run | data/factor/roic/roic_processing.py:37-94 | `main` as the script runs it equals the factor function |
| RdSale.RdSaleRaisesWithoutFrames | data/factor/rd_sale/rd_sale_processing.py:30 | the script raises iff no file could be read, with the empty-concatenation error, and never stops silently |
| RdSale.RdSaleRowsAreRatios | data/factor/rd_sale/rd_sale_processing.py:52-60 | an output row is exactly an input row with revenue > 0 and an R&D value, carrying R&D / revenue |
| RdSale.RatioOfRow | data/factor/rd_sale/rd_sale_processing.py:52-60 | one row yields an output row iff its revenue is positive and its R&D is a number, and then ratio × revenue = R&D |
| RdSale.RdSaleKeepsNegative | data/factor/rd_sale/rd_sale_processing.py:60 | a negative R&D value with positive revenue is kept, giving a negative ratio |
| RdSale.RdSaleKeepsOrder | data/factor/rd_sale/rd_sale_processing.py:60 | kept rows keep their input order |
| RdSale.Run | data/factor/rd_sale/rd_sale_processing.py:35-67 | `main` as the script runs it equals the factor function |
| Quick.QuickStops | data/factor/quick/quick_processing.py:46-48 | the script never raises; it stops without writing iff no row was read |
| Quick.QuickRowsAreNumeric | data/factor/quick/quick_processing.py:59-64 | an output row is exactly an input row whose quick cell coerces to that number |
| Quick.QuickKeepsNumericRows | data/factor/quick/quick_processing.py:64 | when every quick cell is numeric, every row is kept, in order and unchanged |
| Quick.DroppedRow | data/factor/quick/quick_processing.py:59-64 | a row whose quick cell does not coerce is removed by `notnull()`, and the table is the table of the rows around it |
| Quick.QuickDropsText | data/factor/quick/quick_processing.py:59-64 | a row whose quick cell is text holding a character that occurs in no number is dropped, not set to 0 |
| Quick.QuickKeepsUndated | data/factor/quick/quick_processing.py:53 | an unparseable report date does not by itself remove a row |
| Quick.Run | data/factor/quick/quick_processing.py:37-71 | `main` as the script runs it equals the factor function |
| Stdcf.StdcfStops | data/factor/stdcf/stdcf_processing.py:51-53 | the script never raises; it stops iff one of the two tables has no row |
| Stdcf.JoinedKeysInBoth | data/factor/stdcf/stdcf_processing.py:73 | only (Stkcd, Accper) keys present in both tables survive the inner merge |
| Stdcf.JoinedFromBoth | data/factor/stdcf/stdcf_processing.py:73 | a cash-flow row and an income row with the same (Stkcd, Accper) give a merged row with both values |
| Stdcf.AdjustRevenueOnlyZero | data/factor/stdcf/stdcf_processing.py:78 | revenue exactly 0 becomes 0.01; every other value, negative ones included, is unchanged |
| Stdcf.RatioDefined | data/factor/stdcf/stdcf_processing.py:79 | the ratio is defined iff CFO and revenue are, and ratio × adjusted revenue = CFO |
| Stdcf.SortedByKey | data/factor/stdcf/stdcf_processing.py:80 | the rows are ordered by (Stkcd, Accper) and are a permutation of the merged rows |
| Stdcf.StdcfWindow | data/factor/stdcf/stdcf_processing.py:81-82 | a defined stdcf is the deviation of 16 same-stock rows ending at the row, skipping none, all with a ratio (`StdcfDefinedIff` adds the converse) |
| Stdcf.StdcfDefinedIff | data/factor/stdcf/stdcf_processing.py:81-82 | stdcf is defined iff the row has a code and a 16-row window of its stock with all ratios exists, and then it is that window's deviation |
| Stdcf.WindowIsTrailing | data/factor/stdcf/stdcf_processing.py:81-82 | any such window is the last 16 positions of the row's stock up to the row |
| Stdcf.FullWindowDefined | data/factor/stdcf/stdcf_processing.py:81-82 | a stock with at least 16 rows up to the row, the last 16 all with a ratio, has a stdcf: their deviation |
| Stdcf.DefinedWindow | data/factor/stdcf/stdcf_processing.py:81-82 | a defined stdcf reads the last 16 positions of the row's stock up to the row, all with a ratio |
| Stdcf.StdcfNeedsSixteenRows | data/factor/stdcf/stdcf_processing.py:81-82 | a stock with fewer than 16 rows up to a row has no stdcf there |
| Stdcf.StdcfRowsAreDefined | data/factor/stdcf/stdcf_processing.py:86 | an output row is exactly a sorted row with a defined stdcf |
| Stdcf.Run | data/factor/stdcf/stdcf_processing.py:40-93 | `main` as the script runs it equals the factor function |
| Volatility.Yearmons | data/factor/volatility/volatility_processing.py:14-24 | each row gets the YYYYMM of its digits; `astype(int)` raises iff some date has no digit |
| Volatility.Returns | data/factor/volatility/volatility_processing.py:54 | `astype(float)` reads each return as a padded numeral with an optional exponent, and raises iff some return does not read as one |
| Volatility.CleanRowFills | data/factor/volatility/volatility_processing.py:43-44 | caption rows go; a missing code, date or return becomes "0", and a missing return reads as 0 |
| Volatility.VolatilityErrors | data/factor/volatility/volatility_processing.py:48-54 | the script raises on a date without digits first, then on a return that does not read as a numeral |
| Volatility.GroupKeysSorted | data/factor/volatility/volatility_processing.py:51-57 | the grouped table has one row per distinct (Stkcd, Yearmon), in ascending key order |
| Volatility.GroupVols | data/factor/volatility/volatility_processing.py:53-54 | each group's volatility is the sample deviation of its returns |
| Volatility.GroupReturnsMembers | data/factor/volatility/volatility_processing.py:53-54 | a value is in a (Stkcd, Yearmon) group iff some row with that key carries it |
| Volatility.GroupReturnsInOrder | data/factor/volatility/volatility_processing.py:53-54 | a group's returns are exactly the returns of its rows, in row order |
| Volatility.ShiftedAll | data/factor/volatility/volatility_processing.py:60 | the shifted column holds the shift of every grouped row |
| Volatility.ShiftIsPreviousRow | data/factor/volatility/volatility_processing.py:60 | `shift(1)` gives a row the previous grouped row's value when that row is the same stock's, and none otherwise |
| Volatility.VolatilityRowsAreShifted | data/factor/volatility/volatility_processing.py:63 | an output row is exactly a grouped row whose shifted value is defined |
| Volatility.VolatilityIsPreviousMonth | data/factor/volatility/volatility_processing.py:60-63 | the volatility written for (stock, month) is the deviation of the same stock's previous observed month |
| Volatility.Run | data/factor/volatility/volatility_processing.py:26-69 | `main` as the script runs it equals the factor function |
| Chpm.Stripped | data/factor/chpm/chpm_processing.py:17 | every column name is stripped, in place |
| Chpm.ColumnIndex | data/factor/chpm/chpm_processing.py:23-31 | a column is found at the first position with its name, and is missing iff no column has it |
| Chpm.PaddedColumnFound | data/factor/chpm/chpm_processing.py:17 | a header cell holding a name padded with spaces is found under that name |
| Chpm.StripDropsPadding | data/factor/chpm/chpm_processing.py:17 | spaces around a column name are cut off |
| Chpm.Fit5Rows | data/factor/chpm/chpm_processing.py:9-31 | one row per data line after the unit line |
| Chpm.LastOf | data/factor/chpm/chpm_processing.py:37 | a stock's previous row is its last row before, or none |
| Chpm.ChpmRowsAreChanges | data/factor/chpm/chpm_processing.py:37-46 | an output row is exactly (EBIT − the stock's previous EBIT) / TA of a complete row with TA > 0, in file order without sorting |
| Chpm.ChangeAt | data/factor/chpm/chpm_processing.py:37-46 | row `i` adds to the output exactly one change against an earlier row of its stock, when there is one |
| Chpm.ChangeIsAgainstLast | data/factor/chpm/chpm_processing.py:37-46 | a change of row `i` is taken against the stock's last complete row before `i`, and chpm is the EBIT difference over row `i`'s TA |
| Chpm.MadeIsChange | data/factor/chpm/chpm_processing.py:37-46 | the chpm of row `i`, computed against the stock's last earlier row `j` (found by `LastOf`), is a change of row `i`, and `j` comes before `i` |
| Chpm.ChpmIgnoresIncomplete | data/factor/chpm/chpm_processing.py:34 | an incomplete row changes nothing, not even the lag of the rows after it |
| Chpm.ChpmExample | data/factor/chpm/chpm_processing.py:37-49 | EBIT 10, 12, 9 and 15 with TA 100 give no row, then 0.02, −0.03 and 0.06 |
| Chpm.Run | data/factor/chpm/chpm_processing.py:9-49 | the script as it runs, rebinding the frame, equals the factor function |

## Left out

- Reading and writing files is not modelled: Excel, CSV and Stata. A listing
  entry carries the rows its sheet holds and whether it can be read.
  Printing, `os.chdir`, `os.makedirs` and the output encoding are left out too.
- Floating point is not modelled: values are exact reals. Infinity and NaN
  are not told apart; a non-finite result is a missing value. So
  `Tables.Divide` and `turn` treat x / 0 as missing, whereas pandas gives
  ±inf, and gives NaN (then 0 after `fillna`) for 0 / 0.
- `np.log` and `Series.std()` are function parameters (`ln`, `std`). Only
  `std`'s undefined case, fewer than two values, is modelled. The log of a
  non-positive amount is not special-cased.
- How `pd.to_datetime` validates a date is not modelled. A date cell is given
  either parsed or as a parse failure, and `errors='coerce'` makes that
  failure a missing value.
- chpm's `dtype={'Stkcd': str}` renders a numeric cell with a given
  function (`show`). Python's float formatting is not modelled.
- A missing Stkcd filled with 0 is modelled as the code "0". A table mixing
  integer and string codes, which `np.unique` would reject, is not modelled.
- Text.ParseNumber: "inf", "infinity" and "nan" read as missing, although
  pandas and `float()` read them as special values. Underscores between
  digits, which `float()` accepts, are not accepted either. The model strips
  Python's whitespace set (`str.isspace`) around a number, but
  `to_numeric` only skips ASCII whitespace.
- Volatility.Returns: `astype(float)` reads "nan", "inf" and underscored
  digits, and the model raises on them. The same gap holds for
  Volatility.VolatilityErrors, which is stated through the same reading.
- Integers are unbounded. The int64 range of `astype(int)` is not modelled;
  dates are limited to the Timestamp year range.
- `std_dolvol`, `std_turn` and `mixture` in factor.py raise as written: a
  misspelled keyword, and two missing column names. They are left out. The
  final `flag != 0` filter is modelled on its own (`Trading.FlagFilter`).
- A KeyError from a column that a non-empty sheet lacks is not modelled,
  except chpm's header lookup. The data sheets are taken to carry the
  columns the scripts select.
- A TRD_Capchg row without a stock code is not modelled.
- `TRDCM`'s own ID_Mon column is left out, because nothing after
  `_construct_month_list` reads it.
- In factor.py, `turn` runs `_construct_month_list` twice, once directly
  and once through `dolvol`. Both runs read the same data, so the model
  runs it once.
- Chpm's handling of duplicate column names after stripping is not
  modelled: the first column of a name is taken.
- The in-place updates are modelled on values, not on shared frames:
  - `rename(inplace=True)`;
  - `My_yearmon`'s added columns;
  - the step-by-step rebinding of mom's `R1`, modelled as one composition
    of functions.

  Aliasing between frames plays no role in any script.
- `Mom.Run`: it runs the loader and the clean-up step by step. The panel
  after them is computed by `Mom.MomTable` as one composition, and its
  properties are proved as lemmas about that function.
