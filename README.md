# FinAnalyst ratio-derivation engine in Dafny

This project models the core of FinAnalyst, the engine that turns a company's financial
statements and price history into tables of financial ratios. It then proves what each
calculator promises about those tables.

The engine comes in two generations, and both are modelled.

- **Dict, year-keyed calculators.** These are the per-year classes `ProfitabilityRatios`,
  `LiquidityRatios`, `SolvencyRatios`, `EfficiencyRatios`, `ValuationRatios` and
  `MarketPerformanceRatios`, plus the dictionary-based `calculate_profitability_ratios`.
  - A statement is an insertion-ordered dictionary from a period key to a record of line
    items. Each line item is a number or None.
  - Each calculator walks the period keys. It inserts a ratio only when the guard holds: a
    value "is not None", or a Python truthiness test (present and non-zero).
- **DataFrame, row-keyed calculators.** These are `calculate_liquidity_ratios`,
  `calculate_solvency_ratios`, `calculate_efficiency_ratios`, `calculate_valuation_ratios`
  and the dividend-yield part of `calculate_market_performance_ratios`.
  - A frame is a date index plus an ordered dictionary of columns.
  - A cell is a finite number, NaN or a signed infinity.
  - A column is added only when its source columns exist. Division follows IEEE semantics,
    so a zero denominator gives an infinity or NaN rather than an exception.

Around the calculators sit:

- the statement and price normalisation helpers (`financial_data_utils.py`,
  `financial_data_utilis.py`);
- the summary rules of the combined dashboard: charted columns, latest value, average,
  trend, chart file names, category keys, "N/A" benchmark cells and benchmark isolation;
- the company-name-to-ticker matching and industry-peer selection in `main.py`.

Modules:

- `Py` models the Python values the engine uses.
  - Ordered dictionaries, where `d[k] = v` keeps first-insertion order.
  - Exceptions as an `Outcome`.
  - Truthiness, `int()`/`str()` on integers, and `str.split`/`str.lower`.
  - Generic loops that fill a dictionary.
- `Dates` models calendar dates, `strftime("%Y-%m-%d")` / `strptime` and their round trip, and
  the distance in days.
- `Cells` models pandas cells, columns and frames with IEEE arithmetic.
- `YearlyTables` holds the shared per-year loop that every dict-based calculator runs.
- Each of the other modules models the source file of the same name.

Where a calculator changes state in the source, the model does too. Each per-year class
keeps its statements as fields. `DividendSeries.MakeNaive` rewrites the dividend index in
place. `CalculateValuationRatios` adds the EPS and Book Value Per Share columns to the
caller's frames.

## Model

| member | source | states |
|---|---|---|
| FinancialDataUtils.EmptyTableGivesEmptyStatement | financial_data_utils.py:28-29 | a missing or empty provider table gives an empty statement |
| FinancialDataUtils.PrefixOfPeriods | financial_data_utils.py:31 | `iloc[:, :duration]` keeps a prefix of the period columns, at most `duration` of them |
| FinancialDataUtils.StatementKeysAreKeptYears | financial_data_utils.py:31-33 | the statement has one key per kept period, in order, and each key is the period's year written as a decimal string; there are at most `duration` keys |
| FinancialDataUtils.StatementRecordsAreCleanedColumns | financial_data_utils.py:33 | each year's record has exactly the provider's line items; an item is None exactly when the cell is NaN, and otherwise it is the reported amount |
| FinancialDataUtils.YearKeyInjective | financial_data_utils.py:32 | distinct years give distinct string keys |
| FinancialDataUtils.FirstCloseIsFirstRow | financial_data_utils.py:81-84 | the first-seen price of a year exists iff some row falls in that year, and it is the Close of the first such row |
| FinancialDataUtils.LastCloseIsLastRow | financial_data_utils.py:83 | the year-end price of a year exists iff some row falls in it, and it is the Close of the last such row |
| FinancialDataUtils.FirstCloseExtend | financial_data_utils.py:81-84 | one more row changes a year's first-seen price only when the year had none |
| FinancialDataUtils.GetYearlyStockPrice | financial_data_utils.py:75-86 | the keys are exactly the int years that occur in the history, in the order of their first row, and each value is the Close of the first row of that year |
| FinancialDataUtils.GetYearEndStockPrice | financial_data_utils.py:83 | corrected bucketing: the same keys, with each value the Close of the last row of the year |
| FinancialDataUtils.FirstRowWinsExample | financial_data_utils.py:83-84 | with a January price of 100 and a December price of 120, the source keeps 100 and the year-end rule keeps 120 |
| FinancialDataUtils.HistoryRequestOf | financial_data_utils.py:96-101 | raises ValueError iff neither a duration nor both start and end are given; a duration takes precedence over a date range |
| FinancialDataUtilis.LookbackOfYears | financial_data_utilis.py:46-48 | the period "Ny" looks back 365 * N days |
| FinancialDataUtilis.LookbackDefault | financial_data_utilis.py:49-51 | a period that does not end in 'y' looks back 5 * 365 days |
| FinancialDataUtilis.LookbackRejectsNonInteger | financial_data_utilis.py:47 | a 'y' period whose prefix is not an integer raises ValueError |
| FinancialDataUtilis.ProcessFinancialStatement | financial_data_utilis.py:79-108 | {} for a missing or empty statement; otherwise the loop result equals assigning each (date string, record) pair in column order |
| FinancialDataUtilis.ProcessedStatementShape | financial_data_utilis.py:99-106 | with distinct period dates, there is one key per period, in order; the key is the "YYYY-MM-DD" string and the value is the record with NaN made None |
| FinancialDataUtilis.FormattedDatesDiffer | financial_data_utilis.py:101 | distinct dates format to distinct keys |
| FinancialDataUtilis.StockRecordFields | financial_data_utilis.py:133-143 | a processed row has exactly Open, High, Low, Close, Adj Close and Volume; Adj Close falls back to Close; a field is None only where its cell is NaN |
| FinancialDataUtilis.ProcessStockData | financial_data_utilis.py:110-147 | {} for a missing or empty table; raises KeyError iff a price column is missing; otherwise one record per row, keyed by the formatted date |
| FinancialDataUtilis.ClosestIndex | financial_data_utilis.py:204 | the chosen date minimises the distance in days to the target, and ties go to the earliest-listed date |
| FinancialDataUtilis.ParseAll | financial_data_utilis.py:201 | parses every key, or reports that one does not parse |
| FinancialDataUtilis.ParsedDatesValid | financial_data_utilis.py:198 | a parsed date is a real calendar date |
| FinancialDataUtilis.ParsedKeys | financial_data_utilis.py:201 | keys that all parse give the list of their dates |
| FinancialDataUtilis.ClosestCloseReadsNearestRow | financial_data_utilis.py:201-207 | one iteration returns the Close of the stock row whose date is nearest the statement date |
| FinancialDataUtilis.ClosestCloseOfNoPrices | financial_data_utilis.py:204 | with no stock rows, `min` raises ValueError |
| FinancialDataUtilis.GetAnnualStockPrices | financial_data_utilis.py:184-209 | raises iff some date's lookup raises, and then with the first such error; otherwise the keys are exactly the given dates and each value is that date's nearest Close |
| YearlyTables.Tabulate | new_profitable.py:22-30 | the per-year loop keeps a year iff its cell is defined, stores that value, and keeps the statement's key order |
| YearlyTables.TabulateChecked | valuation_ratio.py:17-25 | the same loop when a year's cell may raise: it raises iff some year raises, with the first error |
| NewProfitable.ProfitabilityRatios.constructor | new_profitable.py:10-15 | the statements default to {} when absent |
| NewProfitable.ProfitabilityRatios.NetProfitMargin | new_profitable.py:17-30 | a year is present iff Net Income is not None and Total Revenue is truthy; the value is Net Income / Total Revenue * 100; the keys are income years in order |
| NewProfitable.ProfitabilityRatios.OperatingProfitMargin | new_profitable.py:32-45 | the same rule with Operating Income |
| NewProfitable.ProfitabilityRatios.ReturnOnEquity | new_profitable.py:47-60 | {} when either statement is empty; a year is present iff Net Income is not None and that year's Stockholders Equity is truthy; the value is the quotient * 100 |
| NewProfitable.ProfitabilityRatios.ReturnOnAssets | new_profitable.py:62-75 | the same rule with Total Assets |
| NewProfitable.ProfitabilityRatios.ReturnOnCapitalEmployed | new_profitable.py:77-90 | EBIT / Total Assets * 100 under the same guard, with no current-liabilities deduction |
| NewProfitable.ProfitabilityRatios.EarningsPerShare | new_profitable.py:92-103 | a year is present iff Net Income is not None and Ordinary Shares Number is > 0; the value is their quotient |
| LiquidityRatio.LiquidityRatios.constructor | liquidity_ratio.py:9-13 | the balance sheet defaults to {} |
| LiquidityRatio.LiquidityRatios.CurrentRatio | liquidity_ratio.py:15-28 | a year is present iff Current Assets is not None and Current Liabilities is truthy; the value is their quotient; the keys are balance-sheet years |
| LiquidityRatio.LiquidityRatios.QuickRatio | liquidity_ratio.py:31-45 | (Current Assets - Inventory) / Current Liabilities, with a missing Inventory counting as 0; raises TypeError iff a guarded year holds an Inventory key whose value is None |
| LiquidityRatio.LiquidityRatios.CashRatio | liquidity_ratio.py:48-61 | None (not {}) for an empty balance sheet; otherwise Cash And Cash Equivalents / Current Liabilities under the same guard |
| SolvencyRatio.SolvencyRatios.constructor | solvency_ratio.py:10-15 | the statements default to {} |
| SolvencyRatio.SolvencyRatios.DebtToEquityRatio | solvency_ratio.py:17-30 | a year is present iff Total Debt is not None and Stockholders Equity is truthy, so zero debt gives 0; the value is their quotient |
| SolvencyRatio.SolvencyRatios.InterestCoverageRatio | solvency_ratio.py:33-46 | EBIT / Interest Expense with the sign kept, for income years where EBIT is not None and the interest is truthy |
| SolvencyRatio.SolvencyRatios.DebtToAssetRatio | solvency_ratio.py:49-62 | Total Debt / Total Assets under the same guard |
| EfficiencyRatio.PrevYearKeyIsCalendarPredecessor | efficiency_ratio.py:23 | the previous period of year N is the key `str(N - 1)` |
| EfficiencyRatio.EfficiencyRatios.constructor | efficiency_ratio.py:10-15 | the statements default to {} |
| EfficiencyRatio.EfficiencyRatios.AssetTurnoverRatio | efficiency_ratio.py:17-29 | Revenue / ((TA of Y + TA of Y-1) / 2), present iff all three values are not None; raises iff a year is not an integer or a defined average is 0 (the first such error) |
| EfficiencyRatio.EfficiencyRatios.ReceivablesTurnoverRatio | efficiency_ratio.py:47-59 | the same rule with Accounts Receivable |
| EfficiencyRatio.EfficiencyRatios.InventoryTurnoverRatio | efficiency_ratio.py:32-44 | Cost Of Revenue / average of (Inventory + Other Inventories), each missing or None counting as 0; present iff COGS is not None and both sums are > 0; raises iff a year is not an integer |
| ValuationRatio.ValuationRatios.constructor | valuation_ratio.py:7-13 | the statements and the prices default to {} |
| ValuationRatio.ValuationRatios.PeRatio | valuation_ratio.py:15-25 | price at `int(year)` / Diluted EPS when both are not None; raises on a non-integer year or a zero EPS; no prices give {} |
| ValuationRatio.ValuationRatios.PeAtValue | valuation_ratio.py:19-23 | one year's P/E is defined exactly when the guard holds, and then equals the quotient |
| ValuationRatio.ValuationRatios.PbRatio | valuation_ratio.py:28-40 | over balance-sheet years: price / (equity / shares), when price and equity are not None and shares > 0 |
| ValuationRatio.ValuationRatios.PbAtValue | valuation_ratio.py:32-38 | one year's P/B is defined exactly when the guard holds, and then equals the quotient |
| ValuationRatio.ValuationRatios.EvEbitdaRatio | valuation_ratio.py:43-58 | (price * shares + Total Debt - Cash) / EBITDA, when all five inputs are not None |
| ValuationRatio.ValuationRatios.EvEbitdaAtValue | valuation_ratio.py:47-56 | one year's EV/EBITDA is defined exactly when the five inputs are, and then equals the quotient |
| MarketPerformanceRatio.MarketPerformanceRatios.constructor | market_performance_ratio.py:10-16 | a missing stock_price falls back to the fetched yearly prices, passed in as an input |
| MarketPerformanceRatio.MarketPerformanceRatios.DividendYield | market_performance_ratio.py:19-29 | DPS / price * 100 when DPS and a positive price exist under the unconverted string year; with int-keyed prices the result is {} |
| MarketPerformanceRatio.MarketPerformanceRatios.MarketCapitalization | market_performance_ratio.py:43-53 | price * Ordinary Shares Number when both exist under the string year, with no sign check; with int-keyed prices the result is {} |
| MarketPerformanceRatio.MarketPerformanceRatios.MarketCapByKeyValues | market_performance_ratio.py:50-51 | each stored market cap is the product of that year's price and share count |
| MarketPerformanceRatio.MarketCapValue | market_performance_ratio.py:50-51 | a defined market cap is the product of its two inputs |
| MarketPerformanceRatio.StringKeyMissesYearKeyedPrices | market_performance_ratio.py:24 | a string year never finds a price in an int-keyed price dictionary |
| MarketPerformanceRatio.DividendYieldMissesIntegerYear | market_performance_ratio.py:24 | concrete case: the price 200 of 2023 is missed as written, and found (yield 5) with the int key |
| MarketPerformanceRatio.PriceByYearFindsYearPrice | market_performance_ratio.py:47 | converting the year string with `int` finds the int-keyed price |
| MarketPerformanceRatio.MarketPerformanceRatios.DividendYieldByYear | market_performance_ratio.py:19-29 | corrected: every income year with DPS and a positive int-keyed price gets DPS / price * 100 |
| MarketPerformanceRatio.MarketPerformanceRatios.MarketCapitalizationByYear | market_performance_ratio.py:43-53 | corrected: every balance-sheet year with shares and an int-keyed price gets price * shares |
| MarketPerformanceRatio.MarketPerformanceRatios.MarketCapByYearValues | market_performance_ratio.py:47-51 | the corrected market-cap table holds every int-keyed year's product |
| ProfitabilityRatios.AssignIfMeaning | profitability_ratios.py:65-72 | a ratio key is written iff its line items are present, and it then holds the guarded value |
| ProfitabilityRatios.MarginRatiosKeys | profitability_ratios.py:64-102 | each of the four margin keys is present iff its source line names are keys of the period; ROCE and EPS are not among them |
| ProfitabilityRatios.MarginRatiosValues | profitability_ratios.py:69-100 | a margin is written only when both its line names are present, and is numerator / denominator * 100 when both values are present and the denominator is non-zero, else None; ROE uses Total Stockholder Equity |
| ProfitabilityRatios.PeriodRatiosRaise | profitability_ratios.py:115 | a period raises TypeError iff the ROCE inputs are present and Total Assets or Total Current Liabilities is None |
| ProfitabilityRatios.WithRoceAndEpsKeys | profitability_ratios.py:107-131 | ROCE is written iff its three line names are present; EPS iff Net Income is present; the earlier ratios are unchanged |
| ProfitabilityRatios.WithRoceAndEpsValues | profitability_ratios.py:105-131 | ROCE is defined iff Operating Income is not None and capital employed > 0, and is then Operating Income / (Total Assets - Total Current Liabilities) * 100; EPS is defined iff Net Income is not None and info sharesOutstanding > 0, and is then Net Income / sharesOutstanding |
| ProfitabilityRatios.CommonPeriods | profitability_ratios.py:54-57 | exactly the income periods also in the balance sheet, in income order |
| ProfitabilityRatios.PeriodLoop | profitability_ratios.py:54-137 | for any loop body: raises iff the body raises on some period both statements have, with that body's error; otherwise the keys are those common periods in income-statement order and each holds the body's value |
| ProfitabilityRatios.CalculateProfitabilityRatios | profitability_ratios.py:54-137 | raises TypeError iff a common period raises; otherwise the keys are the common periods and each holds that period's ratios |
| ProfitabilityRatios.InsertByDateKeepsRows | profitability_ratios.py:161 | inserting a row keeps the multiset of rows |
| ProfitabilityRatios.InsertByDateSorted | profitability_ratios.py:161 | inserting into date-sorted rows keeps them sorted |
| ProfitabilityRatios.SortByDateSortsRows | profitability_ratios.py:161 | the sort yields a date-sorted permutation of its input |
| ProfitabilityRatios.ConvertRatiosToDataframe | profitability_ratios.py:139-164 | raises ValueError iff some date key does not parse; otherwise the rows are a permutation of the (date, ratios) pairs, ascending by date |
| ProfitabilityRatios.DisplayLatestValues | profitability_ratios.py:221-237 | None iff the ratio column is absent; otherwise the company's latest value followed by each benchmark's |
| ProfitabilityRatios.LatestValuesMeaning | profitability_ratios.py:226-237 | the table's keys are the company and the benchmarks, the company first; each benchmark holds its own latest value |
| LiquidityRatios.CalculateLiquidityRatios | liquidity_ratios.py:74-98 | the result rows are the balance-sheet rows, in order |
| LiquidityRatios.LiquidityColumns | liquidity_ratios.py:83-95 | each ratio column exists iff its source columns exist, and no other column does |
| LiquidityRatios.CurrentRatioRows | liquidity_ratios.py:83-84 | at a row with finite inputs and non-zero TCL, Current Ratio = TCA / TCL |
| LiquidityRatios.CashRatioRows | liquidity_ratios.py:93-95 | at a row with finite inputs and non-zero TCL, Cash Ratio = Cash And Cash Equivalents / TCL |
| LiquidityRatios.QuickRatioRows | liquidity_ratios.py:87-90 | at a row with finite inputs and non-zero TCL, Quick Ratio = (TCA - Inventory) / TCL |
| LiquidityRatios.DisplaySingleNumbers | liquidity_ratios.py:138-169 | "Company" and each benchmark with a Cash Ratio column get their last Cash Ratio; an empty such frame raises IndexError; the keys are in the order "Company", then the benchmarks' order |
| SolvencyRatios.CalculateSolvencyRatios | solvency_ratios.py:77-112 | the result rows are the balance-sheet rows |
| SolvencyRatios.SolvencyColumns | solvency_ratios.py:87-110 | each column exists iff its source columns exist, and no other column does |
| SolvencyRatios.DebtToEquityPrefersLongTermDebt | solvency_ratios.py:87-94 | D/E divides Long Term Debt whenever that column exists, and Total Debt only otherwise |
| SolvencyRatios.DebtToAssetPrefersLongTermDebt | solvency_ratios.py:103-110 | D/A follows the same preference |
| SolvencyRatios.InterestCoverageStored | solvency_ratios.py:97-100 | the Interest Coverage column is the income ratio aligned to the balance-sheet rows |
| SolvencyRatios.InterestCoverageRows | solvency_ratios.py:100 | per row: Operating Income / abs(Interest Expense), NaN for a date the income statement lacks; the sign follows the operating income |
| SolvencyRatios.ColAbs | solvency_ratios.py:100 | abs keeps the length; each finite cell becomes its non-negative magnitude, NaN stays NaN, either infinity becomes +inf |
| EfficiencyRatios.RollingAverage | efficiency_ratios.py:90-92 | raises iff the series is empty, because `iloc[0]` needs a row; otherwise the average has one value per row |
| EfficiencyRatios.RollingAverageRows | efficiency_ratios.py:90-92 | row 0 is x[0]; row i >= 1 is (x[i-1] + x[i]) / 2, which lies between the two values |
| EfficiencyRatios.OnCommonDates | efficiency_ratios.py:95-100 | one cell per income row |
| EfficiencyRatios.OnCommonDatesRows | efficiency_ratios.py:95-100 | an income date missing from the balance sheet stays NaN; otherwise the numerator is divided by the balance sheet's average at that date |
| EfficiencyRatios.CalculateEfficiencyRatios | efficiency_ratios.py:78-142 | the result rows are the income-statement dates |
| EfficiencyRatios.EfficiencyRaises | efficiency_ratios.py:92 | raises IndexError iff some rolling average is needed and the balance sheet has no rows |
| EfficiencyRatios.EfficiencyColumns | efficiency_ratios.py:88-139 | each column exists iff its source columns exist and the statements share a date |
| EfficiencyRatios.TurnoverStored | efficiency_ratios.py:87-130 | when the sources exist and the frames share a date: Asset Turnover is Total Revenue over the rolling average of Total Assets, Inventory Turnover is Cost Of Revenue over the rolling average of Inventory, Receivables Turnover is Total Revenue over the rolling average of Net Receivables, each on the common dates |
| EfficiencyRatios.TurnoverPresent | efficiency_ratios.py:103-115 | a turnover column is produced iff both source columns exist and a common date exists |
| EfficiencyRatios.AssembleColumns | efficiency_ratios.py:97-139 | each ratio column is written exactly when it was computed |
| EfficiencyRatios.DsoRows | efficiency_ratios.py:133-139 | DSO = Net Receivables / Total Revenue * 365 on a common date, with no averaging |
| ValuationRatios.LastAtOrBefore | valuation_ratios.py:96 | the index of the last stock date on or before the statement date, or none when no stock date qualifies |
| ValuationRatios.LastAtOrBeforeIsLatest | valuation_ratios.py:96 | for an ascending stock index, that date is the latest one not after the statement date |
| ValuationRatios.PriceSeries | valuation_ratios.py:94-100 | one price per statement date |
| ValuationRatios.ValuationFrame | valuation_ratios.py:103-134 | the intermediate ratio frame, before `reset_index`: its rows are the income-statement dates |
| ValuationRatios.ValuationColumnsInOrder | valuation_ratios.py:103-134 | with a truthy share count, Net Income and Total Stockholder Equity, the ratio columns are P/E, P/B and EV/EBITDA in that order, and the dates' label in the returned table is "i_n_d_e_x" |
| ValuationRatios.CalculateValuationRatios | valuation_ratios.py:79-138 | raises iff some statement date has no stock date at or before it (IndexError), or the stock frame has no Close column (KeyError); otherwise it returns the table after `reset_index` and the label join: the income dates as the first column and the ratio frame's columns after it, under the labels as written; the caller's frames gain EPS and Book Value Per Share exactly when sharesOutstanding is truthy |
| ValuationRatios.PeRows | valuation_ratios.py:106-117 | P/E = price / (Net Income / sharesOutstanding), with the current share count used for every period |
| ValuationRatios.PbRows | valuation_ratios.py:120-129 | P/B = price / (equity / sharesOutstanding) at a date the balance sheet has, and NaN at a date it lacks |
| ValuationRatios.EvEbitdaBroadcast | valuation_ratios.py:134 | EV/EBITDA is the same on every row, and it is NaN iff info lacks enterpriseToEbitda |
| ValuationRatios.JoinChars | valuation_ratios.py:136 | `'_'.join` over a string puts '_' between its characters |
| ValuationRatios.JoinCharsSpec | valuation_ratios.py:136 | the joined label holds the name's characters at the even positions and '_' at every odd one |
| ValuationRatios.ResetAndJoin | valuation_ratios.py:135-136 | the returned table keeps the frame's dates as its first column and labels every column as written |
| ValuationRatios.ResetAndJoinColumns | valuation_ratios.py:135-136 | each ratio column keeps its cells and its position, under its name joined character by character |
| ValuationRatios.DatesLabelAsWritten | valuation_ratios.py:135-136 | the dates' column of the returned table is labelled "i_n_d_e_x" |
| ValuationRatios.AsWrittenLabels | valuation_ratios.py:135-136 | as written: one label per column, each character-joined |
| ValuationRatios.IntendedLabels | valuation_ratios.py:135 | corrected: the labels are the column names after `reset_index` |
| ValuationRatios.AsWrittenLabelsMangleNames | valuation_ratios.py:136 | every label of two or more characters differs from the intended name |
| ValuationRatios.IndexLabelAsWritten | valuation_ratios.py:135-136 | the date column "index" becomes "i_n_d_e_x" |
| MarketPerformanceRatios.DividendSeries.constructor | market_performance_ratios.py:85 | the series holds the given stamps and amounts |
| MarketPerformanceRatios.DividendSeries.MakeNaive | market_performance_ratios.py:88-89 | in place, every stamp keeps its date and loses its time zone; the amounts are unchanged |
| MarketPerformanceRatios.InYearWindow | market_performance_ratios.py:103-107 | a date lies in the Jan 1 to Dec 31 window of year y iff its year is y |
| MarketPerformanceRatios.AnnualDividendCountsTheYear | market_performance_ratios.py:107-109 | the annual dividend is 0 when no payment is dated in the year, a payment dated in the year adds its amount, and a payment dated in another year changes nothing |
| MarketPerformanceRatios.YearYield | market_performance_ratios.py:111-117 | one year's yield cell: 0 when the annual dividend is not > 0, NaN when the price row is missing, else dividend / price * 100 |
| MarketPerformanceRatios.DividendYieldColumn | market_performance_ratios.py:100-117 | one cell per year-end row: 0 when the annual dividend is not > 0, the yield when the price row is found, and NaN when it is not |
| MarketPerformanceRatios.CalculateMarketPerformanceRatios | market_performance_ratios.py:80-146 | as written: the dividend index is made naive in place, the rows are the yearly rows, the columns are Dividend Yield (%) and Market Capitalization, and the yield uses the (ticker, date) probe; the yield column keeps the object dtype and the capitalisation column is numeric |
| MarketPerformanceRatios.CalculateMarketPerformanceRatiosByDate | market_performance_ratios.py:111-115 | corrected: the yield reads the Close of the year-end row itself; the same columns and dtypes |
| MarketPerformanceRatios.AsWrittenYieldNeverComputed | market_performance_ratios.py:113 | the (ticker, date) pair is never a label of a date index, so a year with a positive dividend keeps NaN |
| MarketPerformanceRatios.ByDateYield | market_performance_ratios.py:111-117 | a non-positive dividend gives 0; otherwise the yield is dividend / close * 100, which is positive for a positive close |
| CombinedDashboard.ChartedAmong | combined_dashboard.py:165-168 | exactly the listed columns that are numeric and have a non-null value, in column order |
| CombinedDashboard.ChartedColumns | combined_dashboard.py:286-287 | exactly the frame's charted columns, in column order |
| CombinedDashboard.SumBounds | combined_dashboard.py:289 | n finite values in [lo, hi] sum to a value in [n * lo, n * hi] |
| CombinedDashboard.QuotientBetween | combined_dashboard.py:289 | dividing such a sum by n lands in [lo, hi] |
| CombinedDashboard.MeanBounds | combined_dashboard.py:289 | the average of finite values in [lo, hi] is finite and lies in [lo, hi] |
| CombinedDashboard.TrendAsWrittenMeaning | combined_dashboard.py:292-297 | as written: N/A for one row; otherwise Improving iff latest > first * 1.05, Declining iff not that and latest < first * 0.95, else Stable |
| CombinedDashboard.SummaryByBandAgrees | combined_dashboard.py:286-310 | the summary with the corrected trend differs from the one as written only in the trend, and not at all when the first value is non-negative |
| CombinedDashboard.TrendMeaning | combined_dashboard.py:292-301 | corrected rule: N/A for one row; otherwise Improving iff latest > first + 5% of abs(first), and Declining iff latest < first - 5% of abs(first) |
| CombinedDashboard.TrendAsWrittenForNonNegativeFirst | combined_dashboard.py:292-299 | for a first value >= 0, the rule as written and the corrected rule agree |
| CombinedDashboard.TrendAsWrittenInvertedForNegativeFirst | combined_dashboard.py:294-297 | for a negative first value, a small fall (e.g. -100 to -102) reads as Improving as written and as Stable when corrected |
| CombinedDashboard.SummaryOfCharted | combined_dashboard.py:288-301 | a charted column's summary names it, holds its last row as the latest value, and has trend N/A for one row |
| CombinedDashboard.SummaryRows | combined_dashboard.py:286-310 | one summary row per charted column, in order, with the trend by the thresholds as written |
| CombinedDashboard.ChartLinks | combined_dashboard.py:320-326 | a link is listed iff it is `key/<chart file name>` for a column and that chart exists, in column order |
| CombinedDashboard.CategorySection | combined_dashboard.py:273-326 | no section for an empty frame; raises IndexError iff the title has no word; otherwise the charted rows (trend by the thresholds as written) and the existing charts under the category key |
| CombinedDashboard.ReplaceKeepsAbsent | combined_dashboard.py:195 | `str.replace` never introduces a character that is in neither the text nor the replacement |
| CombinedDashboard.ReplaceCharRemoves | combined_dashboard.py:195 | replacing a character removes every occurrence of it |
| CombinedDashboard.ReplaceFree | combined_dashboard.py:195 | replacing a pattern that does not occur changes nothing |
| CombinedDashboard.ChartFileNameShape | combined_dashboard.py:195 | the file name has no ' ' or '/' and ends in ".png"; a name with none of ' ', '/', "(%)" just gains ".png"; the same function is used when saving (195) and linking (321) |
| CombinedDashboard.CategoryKeyOfTitle | combined_dashboard.py:315 | the category key is the lower-cased first word of the title |
| CombinedDashboard.MarketCategoryKey | combined_dashboard.py:357 | "Market Performance Ratios" gives the key "market" |
| CombinedDashboard.LowerMarket | combined_dashboard.py:315 | lower-casing "Market" gives "market" |
| CombinedDashboard.CollectBenchmarks | combined_dashboard.py:116-133 | a benchmark is kept iff its computation succeeds, with the computed categories; exactly the failing ones are warned about; both lists keep the order of the names |
| CombinedDashboard.BenchmarkCellMeaning | combined_dashboard.py:367-372 | a cell is "N/A" iff the benchmark lacks the category or the column; otherwise it is the column's last value |
| CombinedDashboard.ComparisonRowOf | combined_dashboard.py:359-374 | one cell per benchmark, in order; raises IndexError iff some benchmark's column is empty |
| CombinedDashboard.BenchmarkSeries | combined_dashboard.py:177-180 | a benchmark is overlaid iff it holds the category and the column, each with its column |
| CombinedDashboard.BenchmarkSeriesInOrder | combined_dashboard.py:178 | the overlaid benchmarks keep the dict's insertion order |
| CombinedDashboard.ChartSeriesMeaning | combined_dashboard.py:174-184 | the company's series comes first; every following series is a benchmark holding the category and the ratio, with that benchmark's column; when the category is 'market' and an index with the ratio is given, the index series comes last |
| CompanyLookup.FirstWhere | main.py:70-73 | the first row passing a filter, or none if no row passes |
| CompanyLookup.WordMatch | main.py:83-90 | the word search returns a row of the table |
| CompanyLookup.WordMatchFound | main.py:83-90 | a match exists iff some word longer than 3 characters occurs as a whole word in some name |
| CompanyLookup.WordMatchFirst | main.py:83-90 | the matched row is the first row holding the first word longer than 3 characters that any name holds as a whole word |
| CompanyLookup.MatchRow | main.py:70-93 | the matched row is a row of the table |
| CompanyLookup.MapCompanyToTickerMeaning | main.py:55-97 | the first exact case-insensitive match wins; next, the first name containing the query; next, the word search; None iff none of the three matches |
| CompanyLookup.EmptyQueryPicksFirstRow | main.py:69-80 | the exact tier runs first, so an empty query picks the first row whose lower-cased name is empty; when no later row has an empty name, every name contains the empty query and the first row is returned |
| CompanyLookup.SameIndustry | main.py:123 | exactly the rows in the industry other than the ticker's own, in file order |
| CompanyLookup.PeersOf | main.py:123-126 | at most max_peers symbols, never the ticker, all in the industry; all the peers when there are at most max_peers |
| CompanyLookup.IndustryPeersMeaning | main.py:99-130 | [] for an unknown ticker; otherwise at most max_peers symbols of the first matching row's industry, never the ticker itself |
| Dates.ParseFormat | financial_data_utilis.py:101 | parsing a formatted date gives the date back (years 1000 to 9999) |
| Dates.FormatParse | financial_data_utilis.py:198 | formatting a parsed canonical date string gives the string back |
| Dates.FormatInjective | financial_data_utilis.py:101 | distinct dates have distinct "YYYY-MM-DD" strings |
| Py.IntStringRoundTrip | efficiency_ratio.py:23 | `int(str(n)) == n` for every integer |
| Py.SplitFirstWord | combined_dashboard.py:315 | `split()` of "w rest" starts with w |
| Py.LowerMeaning | combined_dashboard.py:315 | `lower()` leaves no upper-case ASCII letter, keeps every other character, and is idempotent |

## Left out

- Live data fetching is not modelled. Every yfinance call becomes an input: statements, price
  history, dividends and `info`. This includes the eager default fetch in
  `MarketPerformanceRatios.__init__`, which the model takes as the `fetched` parameter.
- The clock is not modelled. `datetime.now()` in the lookback rule is outside the model; only
  the number of days looked back is modelled.
- File I/O is not modelled: JSON save and load, output directories, CSV reads, and the data
  cache. The company table is a sequence of rows, and a failed read is the error case of its
  `Outcome`. Chart existence is an input predicate.
- Streamlit, matplotlib, the HTML text and number formatting (`.2f`) are not modelled.
- `profitability_ratio.py` is not modelled. Its methods return an undefined name, and its
  working successor is `new_profitable.py`.
- Beta is not modelled. Both the rolling covariance and variance, and the per-year method
  that calls `.get` on floats, are left out. The market-performance frame therefore has no
  Beta column, and its rows are the yearly rows alone, without the outer join against the
  Beta index.
- CAGR is not modelled; it uses a fractional exponent.
- Floating point is modelled as exact reals. Rounding is not modelled. The constant 1.05 is
  the exact decimal, not its binary approximation.
- Infinite values from the data provider are modelled only as division results.
- `stock_data.resample('YE').last()` is not modelled. The yearly frame is an input whose
  index holds the year-end dates.
- Dividend stamps keep only their calendar date. The time of day inside the Dec 31 boundary
  is not modelled.
- Period columns are assumed distinct. `ProcessedStatementShape` and
  `StatementKeysAreKeptYears` state their shape for distinct dates and years. In
  `financial_data_utilis.py` a repeated date keeps the last column's record, which the generic
  `AssignAll` lemmas cover. In `financial_data_utils.py` two periods of the same year make
  `statement[col]` a frame, so that year's value becomes a nested per-column dict. The model
  does not capture that nested value.
- `int()` is modelled on an optional sign followed by decimal digits. Surrounding whitespace
  and '_' separators are not modelled.
- Frame indexes are assumed to have distinct dates. An alignment by date reads the first row
  with that date.
- ProfitabilityRatios.ConvertRatiosToDataframe: parses each key as a strict `YYYY-MM-DD`
  date and raises ValueError otherwise. `pd.to_datetime` also accepts other spellings (for
  example `2023/12/31` or a bare year), and raises OutOfBoundsDatetime for dates outside its
  nanosecond range (before 1677 or after 2262). Those keys are not modelled. The order pandas
  chooses among equal dates is not fixed either; the model states a date-sorted permutation.
- A missing `info` entry and a None value are both modelled as absent.
- Regular-expression semantics are simplified. `str.contains` is a plain substring test. The
  word search takes the word literally, so regex metacharacters in a query word are not
  interpreted. `\w` and `lower()` are ASCII-only, and `split()` separates on ASCII whitespace only
  (not on the Unicode spaces Python also splits on).
- The market-index computation and its try/except are not modelled as a computation. The
  index series is the optional `index` input of `ChartSeries`, so a failed index is None.
- Benchmark computation is the `compute` input of `CollectBenchmarks`, so each raising
  benchmark is an `Outcome` error.
- CompanyLookup.IndustryPeersMeaning: states the peers as a set of symbols of the industry,
  plus the exact list when there are at most `max_peers`. When there are more, the file-order
  prefix is stated only through `GetIndustryPeers`'s definition and `PeersOf`.

## Findings

| source | as written | input that shows it | evidently intended | confidence | as-written member | corrected member |
|---|---|---|---|---|---|---|
| market_performance_ratio.py:24 | prices looked up with the string year key, while `get_yearly_stock_price` keys prices by int year | income year "2023" with DPS 10 and prices {2023: 200}: dividend yield and market cap are {} | look up `int(year)`, as valuation_ratio.py:19 does, giving a yield of 5 | not executed | MarketPerformanceRatio.DividendYieldMissesIntegerYear | MarketPerformanceRatio.MarketPerformanceRatios.DividendYieldByYear |
| financial_data_utils.py:83-84 | the first monthly row of each year is kept | rows 2023-01-01 Close 100 and 2023-12-01 Close 120: the price of 2023 is 100 | the last available price of the year (the line's own comment), 120 | not executed | FinancialDataUtils.FirstRowWinsExample | FinancialDataUtils.GetYearEndStockPrice |
| valuation_ratios.py:136 | `'_'.join` over plain string column labels joins their characters | the label "P/E Ratio" becomes "P_/_E_ _R_a_t_i_o" and "index" becomes "i_n_d_e_x" | keep the column names | not executed | ValuationRatios.IndexLabelAsWritten | ValuationRatios.IntendedLabels |
| market_performance_ratios.py:113 | `(ticker, year)` is looked up in a plain date index | any year with a positive annual dividend: the yield cell stays NaN | read the Close of the year-end row | not executed | MarketPerformanceRatios.AsWrittenYieldNeverComputed | MarketPerformanceRatios.CalculateMarketPerformanceRatiosByDate |
| combined_dashboard.py:294-297 | thresholds `first * 1.05` and `first * 0.95` | first -100, latest -102: -102 > -105, so the trend is "Improving" | a band of 5% of abs(first) around first: "Stable" | not executed | CombinedDashboard.TrendAsWrittenInvertedForNegativeFirst | CombinedDashboard.TrendMeaning |

