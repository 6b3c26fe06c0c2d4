# Stock screener

A Dafny model of the stock screen of a single-page finance dashboard. The
screen takes five inputs: a P/E minimum, a P/E maximum, an industry, an EPS
minimum and a growth-rate minimum. It filters a hard-coded sample table of
three stocks (AAPL, MSFT, GOOGL, all "Tech"). A row is kept when its P/E lies
in the inclusive range, its EPS and growth rate reach their minimums, and,
unless the industry is the wildcard `"All"`, its industry equals the one
asked for exactly. The kept rows come back in table order.

Two modules:

- `Masking` (masking.dfy) models selecting the rows of a data frame with a
  boolean mask. `Select` keeps the rows whose mask entry is true. `Positions`
  is an independent reference description: the indices of the true entries,
  built from the back of the mask. Lemmas connect the two. They also show
  that selecting twice is selecting once by the conjunction of the masks.
- `StockScreener` (stock_screener.dfy) holds the row type, the sample table
  `Stocks`, the three masks and the screen itself. `Screen(table, c)` is the
  screen's body over any table. `FilterStocks` applies it to `Stocks` with
  the five inputs in source order. So the general lemmas hold for every
  table, and the sample lemmas instantiate them.

`Screen` follows the code's two steps. The numeric mask goes over the whole
table. Then, unless the industry is `"All"`, an industry mask goes over the
rows that remain. `ScreenIsOneSelection` proves that this equals one
selection by the combined predicate `Passes`. Most other properties are
derived from that.

The numeric columns and criteria are Dafny `real`s, because the code only
compares them. The P/E and growth columns hold whole numbers (28, 35, 30 and
10, 12, 15) and are compared as reals. Growth is compared as stored, on the
percentage scale.

`filter_stocks` screens its fixed table only: it fetches nothing, skips no
rows and does not rescale growth.

## Model

| member | source | states |
|---|---|---|
| Masking.Select | stockscreener.py:39-43 | Selecting by a mask yields only rows of the table and no more rows than the table has; an all-true mask keeps the whole table and an all-false mask keeps nothing |
| Masking.Positions | stockscreener.py:39-43 | The positions a mask keeps are within the table, carry a true entry, strictly increase, and include every true entry |
| Masking.SelectAt | stockscreener.py:39-43 | The selection is exactly the rows at the kept positions, in increasing position order: a subsequence with no reordering and no repetition |
| Masking.SelectAppend | stockscreener.py:39-43 | Selecting from a concatenation is the concatenation of the two selections |
| Masking.SelectLength | stockscreener.py:39-43 | Two selections by the same mask have the same length |
| Masking.SelectSelect | stockscreener.py:39-43 | Narrowing a selection with a second mask equals one selection by the conjunction of both masks |
| StockScreener.IndustryMaskOfSelect | stockscreener.py:43 | The industry mask of the rows the numeric mask kept equals the numeric selection applied to the industry mask of the whole table |
| StockScreener.PassMaskOfSelect | stockscreener.py:39-43 | The same commutation for the combined mask |
| StockScreener.ScreenIsOneSelection | stockscreener.py:39-45 | The two-step screen, with or without the industry step, equals one selection by the combined predicate |
| StockScreener.ScreenSpec | stockscreener.py:39-45 | The result is exactly the table's passing rows at strictly increasing table positions, and a position is kept if and only if its row passes |
| StockScreener.ScreenSound | stockscreener.py:39-43 | Every returned row is a table row that meets every criterion, both P/E bounds inclusive |
| StockScreener.ScreenComplete | stockscreener.py:39-43 | Every table row that meets every criterion is returned |
| StockScreener.ScreenDistinct | stockscreener.py:31-43 | If the table's tickers are distinct, so are the result's |
| StockScreener.WildcardIgnoresIndustry | stockscreener.py:42 | With industry "All", a row is returned exactly when it is in the table and meets the numeric bounds, whatever its industry |
| StockScreener.IndustryMatchedExactly | stockscreener.py:42-43 | With any other industry, a row is returned exactly when it meets the numeric bounds and its industry equals the requested one |
| StockScreener.InvertedRangeIsEmpty | stockscreener.py:39 | If `pe_min > pe_max` the result is empty, for every table |
| StockScreener.NarrowingKeepsSubset | stockscreener.py:39-43 | Raising a minimum, lowering the P/E maximum, or replacing "All" by an industry never adds a row: the tighter screen keeps a subset of the looser one's table positions |
| StockScreener.NarrowingIsRescreen | stockscreener.py:39-43 | Under the same tightening, the tighter result equals the looser result screened again, and is no longer |
| StockScreener.DefaultsReturnWholeTable | stockscreener.py:31-56 | With the sidebar defaults (10, 40, "All", 0.0, 0.0) all three sample rows are returned in table order |
| StockScreener.TechIsWildcardOnSample | stockscreener.py:31-43 | On the sample table, industry "Tech" gives the same result as "All", for every numeric bound |
| StockScreener.OtherIndustryEmptyOnSample | stockscreener.py:31-43 | On the sample table, any industry other than "All" and "Tech" gives an empty result, for every numeric bound |
| StockScreener.PeMaximumInclusiveOnSample | stockscreener.py:31-39 | A P/E maximum of 30 keeps AAPL and GOOGL (P/E exactly 30); a P/E minimum of 30 keeps MSFT and GOOGL |
| StockScreener.GrowthOnPercentScaleOnSample | stockscreener.py:31-40 | A growth minimum of 12 keeps MSFT (exactly 12) and GOOGL; a minimum of 0.12 keeps every row, since there is no rescaling |
| StockScreener.SampleResultDistinct | stockscreener.py:31-45 | A sample result never lists a ticker twice |

## Left out

- `get_stock_data` (stockscreener.py:10-26) is left out. It makes an HTTP request to an external quote service, decodes JSON and builds a date-sorted data frame: foreign I/O and library calls.
- The API key and base URL constants (stockscreener.py:6-7) are left out, since they only feed that request.
- The dashboard UI (stockscreener.py:48-72) is left out: sidebar widgets, buttons, table display, price chart and error message. The sidebar defaults appear only as the inputs of `DefaultsReturnWholeTable`.
- Data-frame index labels on the filtered frame are left out. The result is a plain ordered sequence of rows.
- Floating-point semantics are left out. Numbers are mathematical reals, so rounding, NaN and infinities are not modelled; the inputs come from numeric widgets.
- Inputs of non-numeric type, which the dynamically typed code would reject at the comparison, are left out.
