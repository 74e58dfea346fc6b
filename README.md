# solarhome — a verified model of the estimation rules

solarhome is a small solar-energy site. It has two parts:

- A Streamlit dashboard (`dashboard/app.py`). It loads a monthly electricity series (`mes`, `kwh`) and sizes a photovoltaic array for the mean consumption.
- A page script (`script.js`). It holds a quick consumption calculator, the rule that highlights the current page in the navigation bar, and the check on the quote form.

This project models those rules in Dafny and proves what they promise.

| file | module | models |
|---|---|---|
| `wrappers.dfy` | `Wrappers` | `Option` and `Result` |
| `realmath.dfy` | `RealMath` | ceiling through `Floor`, sums of reals |
| `months.dfy` | `Months` | the strict `"YYYY-MM"` period and its position on the timeline |
| `stats.dfy` | `Stats` | mean, max and min, all skipping missing values; the trailing moving average |
| `loader.dfy` | `Loader` | `cargar_datos`: sample fallback, month resolution, sort by month, numeric coercion |
| `estimation.dfy` | `Estimation` | trend, per-panel production, panel count, peak power, savings, the report |
| `calculator.dfy` | `Calculator` | `Calcular_Consumo` |
| `site.dfy` | `Site` | the active-link rule of `marcarActivo`, the field check of `enviarCotizacion` |

A missing or NaN value is `None`, and a number is a `real`. The data frame is the sequence of rows that the loader builds step by step.

- `LoadSeries` does this in method form: it resolves each month, checks that every month fits a timestamp, sorts, checks that there is a `kwh` column, then overwrites that column.
- `MovingAverage` computes the `kwh_mm` column with a running sum and count.

Each method is proved equal to a specification function, and the properties are proved about those functions.

## Model

| member | source | states |
|---|---|---|
| RealMath.Ceil | dashboard/app.py:110 | the result is the least integer at or above its argument (`x <= n` and `n - 1 < x`) |
| RealMath.CeilLeast | script.js:49 | every integer at or above `x` is at least `Ceil(x)` |
| Months.Parse | dashboard/app.py:58-60 | a period names a month exactly when it is seven characters: four digits, '-', two digits, month 01..12; the month is valid |
| Months.ParseFormat | dashboard/app.py:58-60 | writing a valid month as "YYYY-MM" and reading it back gives the same month |
| Months.FormatParse | dashboard/app.py:58-60 | every period that parses is exactly the text that writing its month gives back |
| Months.IndexOrder | dashboard/app.py:60-61 | the sort key orders months by year, then month, and two months share a key only when they are equal |
| Stats.PresentCount | dashboard/app.py:90-92 | the present values number as many as the entries exactly when none is missing, and none exactly when all are missing |
| Stats.Mean | dashboard/app.py:90 | the mean is missing exactly when every value is missing |
| Stats.Max | dashboard/app.py:91 | missing exactly when all are missing; otherwise an entry of the series that no present value exceeds |
| Stats.Min | dashboard/app.py:92 | missing exactly when all are missing; otherwise an entry of the series that no present value undercuts |
| Stats.MeanBetween | dashboard/app.py:90-92 | a defined mean lies between the minimum and the maximum |
| Stats.MeanIgnoresMissing | dashboard/app.py:90 | inserting a missing value anywhere leaves the mean unchanged |
| Stats.ExtremesIgnoreMissing | dashboard/app.py:91-92 | inserting a missing value anywhere leaves max and min unchanged |
| Stats.SamePresentSameMean | dashboard/app.py:90 | two series with the same present values in the same order have the same mean |
| Stats.ExtremesDetermined | dashboard/app.py:91-92 | max and min depend only on the set of present values |
| Stats.RollingAt | dashboard/app.py:143 | the first `window - 1` points are missing; a defined point has its own month present and is the mean of the window that ends at it |
| Stats.RollingPoint | dashboard/app.py:139-143 | points before index `window - 1` are missing; later points are defined exactly when their whole window is present, and then equal the window's mean |
| Stats.Slide | dashboard/app.py:143 | moving the window one step adds the entering value and drops the leaving one, for both the sum and the count of present values |
| Stats.MovingAverage | dashboard/app.py:143 | the running-sum loop yields, at every index, the rolling mean of `RollingAt` (the `kwh_mm` column) |
| Loader.ParseDecimal | dashboard/app.py:62 | text is read as a number only if it is non-empty and made of digits, '.', '+' and '-' |
| Loader.ParseNumeral | dashboard/app.py:62 | an optional sign, whole digits and an optional point with fractional digits, at least one digit in all, read as whole + fraction / 10^(fraction length), negated after '-' ("410.2", "-3.5", "+7", ".5", "7.") |
| Loader.NumeralOfParse | dashboard/app.py:62 | every text that reads as a number has exactly that shape |
| Loader.NumeralIff | dashboard/app.py:62 | text reads as a number exactly when it is such a numeral |
| Loader.Coerce | dashboard/app.py:62 | a `kwh` value becomes missing exactly when it is `null`, absent, or text that is not a numeral |
| Loader.ParseDigits | dashboard/app.py:62 | a string of digits reads as the number it spells |
| Loader.NonNumericIsMissing | dashboard/app.py:62 | text with any other character coerces to missing instead of failing |
| Loader.CoerceAll | dashboard/app.py:62 | the coerced column keeps the length and coerces each row in place |
| Loader.Resolve | dashboard/app.py:60 | succeeds exactly when every period names a month, keeping the rows in order with their months; otherwise it reports the first period that does not |
| Loader.RangeError | dashboard/app.py:60 | converting the months to timestamps fails exactly when some month falls outside 1677-10..2262-04 |
| Loader.RangeErrorFirst | dashboard/app.py:60 | the failure names the first row whose month is out of range |
| Loader.ResolveMonths | dashboard/app.py:60 | the loop that adds the `fecha` column computes `Resolve` |
| Loader.CoerceColumn | dashboard/app.py:62 | the loop that overwrites the `kwh` column computes `CoerceAll` |
| Loader.Load | dashboard/app.py:41-63 | an empty list fails on the missing `mes` column; a loaded series has one row per record, every month within the timestamp range |
| Loader.SortKeepsRange | dashboard/app.py:60-61 | sorting keeps every month within the timestamp range |
| Loader.LoadSeries | dashboard/app.py:41-63 | the step-by-step loader computes `Load` |
| Loader.InsertPermutation | dashboard/app.py:61 | inserting a row adds exactly that row |
| Loader.InsertSorted | dashboard/app.py:61 | inserting into a month-sorted series keeps it sorted |
| Loader.SortByDate | dashboard/app.py:61 | sorting rearranges the rows, neither adding nor dropping any |
| Loader.SortSorted | dashboard/app.py:61 | the sorted rows are in non-decreasing month order |
| Loader.SortedUnchanged | dashboard/app.py:61 | already-sorted rows are left as they are |
| Loader.CoerceSort | dashboard/app.py:61-62 | coercing and sorting commute, because coercion keeps each row's month |
| Loader.LoadFails | dashboard/app.py:56-62 | loading a list fails exactly when the list is empty, some period does not name a month or names one outside the timestamp range, or no record has a `kwh` key |
| Loader.LoadSorted | dashboard/app.py:60-62 | the loaded series is in non-decreasing month order |
| Loader.LoadPermutation | dashboard/app.py:60-62 | the loaded series holds the resolved, coerced input rows and nothing else |
| Loader.LoadKeepsNonNumeric | dashboard/app.py:62 | a record with a non-numeric `kwh` stays in the series, with a missing value |
| Loader.LoadSample | dashboard/app.py:42-52 | without a data file the series is the six months 2025-01..2025-06 with 410.2, 398.7, 450.1, 430.0, 470.8 and 455.6 kWh |
| Estimation.InsertTotals | dashboard/app.py:61 | inserting a row by month adds its value to the sum of present `kwh` values and its presence to their count |
| Estimation.SortKeepsTotals | dashboard/app.py:61 | sorting by month keeps the sum and the count of the present `kwh` values |
| Estimation.SortKeepsValues | dashboard/app.py:61 | sorting by month keeps the set of present `kwh` values |
| Estimation.ValueCarried | dashboard/app.py:61 | any rearrangement of the rows carries each present `kwh` value along |
| Estimation.LoadedAggregates | dashboard/app.py:90-92 | the mean, maximum and minimum of the loaded (sorted) series equal those of the coerced values in file order |
| Estimation.Recent | dashboard/app.py:98 | the mean of the last three records, missing exactly when all three are |
| Estimation.Prior | dashboard/app.py:99 | the mean of the three records before those, missing exactly when all three are |
| Estimation.Trend | dashboard/app.py:95-102 | undefined below six records; otherwise defined exactly when both quarter means exist and the earlier one is not zero |
| Estimation.TrendSign | dashboard/app.py:98-102 | with a non-zero earlier mean, trend × earlier mean = (recent − earlier) × 100 and the trend is zero exactly when the means are equal; with a positive one it is positive exactly when the recent mean is higher |
| Estimation.PanelProduction | dashboard/app.py:107 | a panel with a positive rating under positive sun hours produces a positive amount |
| Estimation.ProductionRange | dashboard/app.py:107 | for the offered panel ratings and sun hours 3..6 (lines 78-79), one panel makes 29.7..90 kWh a month, so it is never zero |
| Estimation.Target | dashboard/app.py:110-113 | the energy to cover is never negative for a non-negative mean, never more than the mean up to 100 % coverage, and the whole mean at 100 % |
| Estimation.PanelsNeeded | dashboard/app.py:110 | the least number of panels whose production reaches the target, never negative for a non-negative target |
| Estimation.PeakPower | dashboard/app.py:165 | the peak power of a non-negative number of panels is never negative |
| Estimation.ArrayCoversTarget | dashboard/app.py:110-165 | the recommended array's peak power, run 30 days at the chosen sun hours, covers the target and one panel fewer would not |
| Estimation.Savings | dashboard/app.py:113 | savings are never negative for a non-negative mean, coverage and cost |
| Estimation.SavingsBounds | dashboard/app.py:113 | savings are non-negative, grow with the coverage and never exceed the whole bill |
| Estimation.Estimate | dashboard/app.py:90-165 | the report carries the series' `Mean`, `Max`, `Min` and `Trend`, a positive production, and, when the mean exists, the least covering panel count with its peak power and savings (all missing otherwise); min ≤ mean ≤ max; and the moving-average column is `RollingAt` at every month |
| Estimation.SampleMean | dashboard/app.py:90 | the sample's mean is 435.9 kWh |
| Estimation.SampleExtremes | dashboard/app.py:91-92 | the sample's maximum is 470.8 kWh and its minimum 398.7 kWh |
| Estimation.SampleTrend | dashboard/app.py:95-102 | the sample's trend is 9740/1259 % (about +7.7 %) |
| Estimation.SampleSizing | dashboard/app.py:107-165 | defaults: 48 kWh per panel, target 348.72 kWh, 8 panels, 3.2 kWp, savings 226668 |
| Estimation.SampleReport | dashboard/app.py:90-165 | the report for the sample with the default parameters carries those figures |
| Calculator.PanelCount | script.js:48-49 | the panel count covers the consumption at 48 kWh per panel, one fewer does not, and it is at least 1 for a positive consumption |
| Calculator.PanelCountLeast | script.js:48-49 | no smaller panel count covers the consumption |
| Calculator.Suggestion | script.js:52-55 | small exactly when consumption ≤ 200, medium exactly when 200 < consumption ≤ 400, advanced exactly when consumption > 400 |
| Calculator.Calculate | script.js:27-64 | a failure carries one of the two messages; a success comes from two numbers, keeps the consumption and has daily cost × 30 = total |
| Calculator.InvalidNumbersExactly | script.js:29-36 | the "valid numbers" error appears exactly when an input is not a finite number |
| Calculator.NotPositiveExactly | script.js:37-40 | the "greater than 0" error appears exactly when both are numbers and one is ≤ 0 |
| Calculator.ValidInput | script.js:43-55 | positive inputs succeed with total = consumption × cost, daily consumption = consumption / 30, daily cost = daily consumption × cost, at least one panel, and the tier by consumption |
| Calculator.TierDisagreesWithCount | script.js:49-55 | at 401 kWh the card shows 9 panels beside the "10+ panels" suggestion |
| Site.LastSegment | script.js:11 | the last path segment is a suffix without '/', preceded by '/' unless it is the whole path |
| Site.ActiveKey | script.js:11 | the page key is never empty and has no '/'; it ends the pathname, or it is "index.html" for an empty path or one ending in '/' |
| Site.KeyIsLastSegment | script.js:11 | for any path ".../page" with a non-empty last segment, the key is that segment |
| Site.IsActive | script.js:13-14 | a link is active exactly when its href is present and ends with the page key; the non-empty test adds nothing, since the key is never empty |
| Site.ActiveIffPrefixed | script.js:13-14 | a link is active exactly when its href is some text followed by the page key |
| Site.OwnPageIsActive | script.js:13-14 | a link whose href is the page key itself is always active |
| Site.TrimStart | script.js:107-109 | keeps a suffix of the input that does not start with white space |
| Site.LeadingRemoved | script.js:107-109 | every character `TrimStart` cuts off is white space |
| Site.TrimEnd | script.js:107-109 | keeps a prefix of the input that does not end with white space |
| Site.TrailingRemoved | script.js:107-109 | every character `TrimEnd` cuts off is white space |
| Site.Trim | script.js:107-109 | the trimmed text neither starts nor ends with white space |
| Site.TrimIsInfix | script.js:107-109 | trimming keeps one contiguous piece of the input and cuts off only white space |
| Site.TrimEmptyIff | script.js:107-110 | a field is empty after trimming exactly when it is all white space |
| Site.TrimIdempotent | script.js:107-109 | trimming twice equals trimming once |
| Site.SubmitQuote | script.js:105-122 | refused, with the "completa" message, exactly when a field is missing or empty after trimming; otherwise the thank-you text carries the trimmed name and email |
| Site.QuoteRejectedIff | script.js:107-113 | a request is refused exactly when some field is missing or all white space |

## Left out

- Streamlit page setup, sidebar widgets, metrics, text and `st.cache_data` memoisation are not modelled. Only the widgets' ranges appear, as `ValidParams`.
- Matplotlib and seaborn plotting, the table view and the CSV download (`to_csv`) are not modelled. They are presentation and I/O.
- File existence, `open` and `json.load` are not modelled. The loader takes the parsed record list, or `None` when there is no file.
- `pd.PeriodIndex` accepts many period spellings. Only the strict `"YYYY-MM"` form is modelled. Any other period fails the load. A strict period whose month starts outside the range of a nanosecond timestamp (before 1677-10 or after 2262-04) also fails, as `to_timestamp` does.
- A record whose `mes` key is absent, or whose `mes` is null, is not modelled; `RawRecord` always carries a period text. pandas would give such a record the period NaT, keep it and sort it last, and its `fecha` would be NaT. A record whose `kwh` key is absent is modelled (`Absent`): it reads as missing, and when no record has the key the load fails on the missing `kwh` column.
- `pd.to_numeric` is modelled only for numbers, `null`, and numerals: an optional sign, then digits with at most one decimal point and at least one digit ("410", "-3.5", ".5", "7."). Exponents, "inf", "nan", surrounding white space and booleans are not modelled; such text reads as missing.
- `SortByDate`: pandas' default sort is not stable, so the model uses a stable insertion sort. It proves only what any sort gives: non-decreasing month order and the same rows. The relative order of records with the same month is not captured.
- IEEE-754 arithmetic is not modelled. This covers rounding, NaN propagation, `toFixed` and thousands separators. Numbers are exact reals.
- `Estimate`: `astype(int)` on a NaN panel count (all values missing) has no defined value. The model leaves panels, peak power and savings missing instead.
- `PanelsNeeded` requires a positive production. The dashboard only reaches it with slider values, for which `ProductionRange` proves production is at least 29.7.
- `MovingAverage` requires `window >= 1`. The slider offers 2..6.
- `parseFloat` is not modelled. Calculator inputs are already numbers, with `None` for anything that is not finite.
- DOM work in `script.js` is not modelled. That covers element lookups, `classList`, `textContent`, scrolling, `preventDefault`, `renderCardResultado`, `mostrarCardError` and `setTextSafe`, and the `forEach` over the navigation links. The model decides for one link whether it is marked.
- `SubmitQuote`: the city is checked but not echoed; the source also does not echo it.
