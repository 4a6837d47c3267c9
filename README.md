# WeatherApp data transformations in Dafny

A model of the data-handling core of `weather.py`, a small weather report
utility. It reads a table of daily readings (a date, a minimum and a maximum
temperature in Fahrenheit per row), computes the mean, the minimum and the
maximum of a column, and formats temperatures as Celsius text.

Modules:

- `Wrappers` (`wrappers.dfy`): `Option` and `Result`.
- `IntText` (`int_text.dfy`): the decimal parsing that Python's `int(text)` does on
  the temperature fields (`ParseInt`). `ShowInt` renders an integer as decimal
  text; it is there only as the inverse of `ParseInt`.
- `Weather` (`weather.dfy`): `format_temperature`, `calculate_mean`, `find_min`,
  `find_max` and the row loop of `load_data_from_csv` from `weather.py`.
  - `FormatTemperature` appends the suffix `DegreeSymbol` (a degree sign, then `C`).
  - `CalculateMean` is sum over length. It returns `Err(ZeroDivisionError)` for an
    empty list, which is where Python raises.
  - `FindMin` and `FindMax` follow the source step by step. They take `min`/`max`
    of the list, collect every position holding that value, and return the
    largest position, so ties go to the last occurrence. An empty list gives
    `Empty`, the model of the empty tuple `()`.
  - `LoadDataFromRows` is the loop of `load_data_from_csv` over rows that the
    CSV reader has already split. It is proved equal to the function `Load`.
    `Load` drops the header, skips empty rows, and replaces fields 1 and 2 of
    each row by their integer value. Every other field stays text.

Errors are values of `Weather.PyError`, named after the Python exception the
source raises:
- `ZeroDivisionError`: the mean of an empty list.
- `StopIteration`: `next(reader)` on a file with no header line.
- `IndexError`: a non-empty row without field 1, or without field 2 after field 1 parsed.
- `ValueError(text)`: a temperature field that `int()` rejects.

The two row-field failures come in the order the source touches the fields.
Field 1 is indexed and parsed before field 2 is looked at. The first failing
row ends the load.

A loaded row keeps all of its fields, not only the first three.

## Model

| member | source | states |
|---|---|---|
| `Weather.FormatTemperature` | weather.py:4-17 | the result is the input text followed by exactly the degree sign and `C`: two characters longer, with the input as prefix |
| `Weather.FormatTemperatureInjective` | weather.py:17 | distinct temperature texts format to distinct strings |
| `Weather.FormatTemperatureExample` | weather.py:17 | `"10.6"` formats as `"10.6°C"` |
| `Weather.Min` | weather.py:92 | `min` of a non-empty list is an element of it and at most every element |
| `Weather.Max` | weather.py:111 | `max` of a non-empty list is an element of it and at least every element |
| `Weather.Positions` | weather.py:93 | the comprehension lists only indices whose element equals the value (as a float), lists every such index, and lists them in strictly increasing order |
| `Weather.PositionsOfMember` | weather.py:93-97 | for a value that occurs in the list the list of positions is non-empty, so the inner `return ()` cannot be reached |
| `Weather.FindMin` | weather.py:89-107 | `Empty` exactly for the empty list; otherwise a value no greater than any element, at an in-range index holding it, with no later index holding it (last occurrence) |
| `Weather.FindMax` | weather.py:109-126 | `Empty` exactly for the empty list; otherwise a value no smaller than any element, at an in-range index holding it, with no later index holding it (last occurrence) |
| `Weather.FindMinUnique` | weather.py:91-107 | any value and index that satisfy the minimum/last-occurrence property are exactly what `FindMin` returns |
| `Weather.FindMaxUnique` | weather.py:110-126 | any value and index that satisfy the maximum/last-occurrence property are exactly what `FindMax` returns |
| `Weather.FindMinMaxExamples` | weather.py:89-126 | `[5,3,3,8]` gives `(3.0, 2)`, `[5,8,8,3]` gives `(8.0, 2)`, and `[]` gives the empty result for both |
| `Weather.SumLeftToRight` | weather.py:47 | the front-recursive `Sum` also unfolds from the right: all but the last element, plus the last (exact integer addition, so the order of summation does not matter) |
| `Weather.CalculateMean` | weather.py:42-60 | an error (division by zero) exactly for the empty list; otherwise mean × length = sum |
| `Weather.SumBounds` | weather.py:47 | the sum of values between lo and hi lies between length × lo and length × hi |
| `Weather.MeanBetweenMinAndMax` | weather.py:45-48 | the mean of a non-empty list lies between its minimum and its maximum |
| `Weather.CalculateMeanExample` | weather.py:61 | the mean of `[49,57,56,55,53]` is `54.0` |
| `Weather.NormaliseRow` | weather.py:74-77 | a row normalises exactly when it has at least three fields and fields 1 and 2 parse; then it keeps its length and every other field as text, and fields 1 and 2 hold the parsed integers; `IndexError` when field 1 is missing, or field 2 is missing after field 1 parsed; `ValueError` of field 1's text when it does not parse, else of field 2's |
| `Weather.LoadDataFromRows` | weather.py:69-87 | the loop's result equals `Load` of the split rows: header skipped, with `StopIteration` when there is none, empty rows skipped, each other row normalised and appended in order, the first failure raised |
| `Weather.NormaliseRows` | weather.py:73-77 | the loop over the data rows yields at most one output row per input row, and can only raise `IndexError` or `ValueError` |
| `Weather.Load` | weather.py:69-77 | `StopIteration` exactly when there is no header row; a header alone loads as the empty table; a successful load has fewer rows than the input |
| `Weather.NonEmptyRows` | weather.py:73-74 | the rows kept by `if row:` are non-empty and no more than the input rows |
| `Weather.NonEmptyRowsMembers` | weather.py:73-74 | a row is kept exactly when it is in the input and non-empty |
| `Weather.NonEmptyRowsAppend` | weather.py:73-77 | skipping empty rows distributes over concatenation, so the relative order of the kept rows is the file order |
| `Weather.NormaliseRowsOk` | weather.py:73-77 | a successful loop yields one normalised row per non-empty row, in order |
| `Weather.NormaliseRowsOkIff` | weather.py:73-77 | the loop succeeds exactly when every non-empty row normalises |
| `Weather.AllNormaliseCons` | weather.py:73-77 | every row of a list headed by one row normalises exactly when that row does and every other row does |
| `Weather.NormaliseRowsFirstError` | weather.py:73-77 | a failed loop raises the error of the first non-empty row that fails, and every earlier non-empty row normalises |
| `Weather.LoadedRows` | weather.py:69-77 | after a successful load there was a header; there is one output row per non-empty data row, in order; each has the same length (at least three), the date in field 0 and every field from 3 on unchanged, and fields 1 and 2 replaced by their integer values |
| `Weather.LoadFails` | weather.py:69-77 | a load fails exactly when there is no header or some non-empty data row fails to normalise; `StopIteration` occurs exactly for no rows at all |
| `Weather.NormaliseRenderedRow` | weather.py:75-77 | a row whose temperature fields are rendered integers normalises to those integers, with the date and any further fields kept as text |
| `Weather.NormaliseThreeFields` | weather.py:75-77 | a three-field row with parsable temperatures normalises to the date text and the two integers |
| `Weather.ParsesAs` | weather.py:75-76 | the two-digit text of a number from 10 to 99 parses to that number |
| `Weather.LoadExample` | weather.py:69-87 | a header, two data rows and a blank line between them load as two rows; the dates are kept as given and the temperatures become integers |
| `IntText.DigitsValue` | weather.py:75-76 | a string of zeros has the value 0, and a single digit has its own value |
| `IntText.ParseInt` | weather.py:75-76 | `int(text)` succeeds exactly on an optional minus sign followed by one or more digits; a negative result comes from a leading minus; unsigned text gives its digit value, and text with a leading minus gives the negated value of the digits after it |
| `IntText.ShowNat` | weather.py:75-76 | a natural number renders as one or more digits that start with `0` only when the text is exactly `"0"` |
| `IntText.ShowInt` | weather.py:75-76 | an integer renders as an integer literal that starts with a minus exactly when it is negative |
| `IntText.ShowNatValue` | weather.py:75-76 | the digits rendered for n have the value n |
| `IntText.ParseShowRoundTrip` | weather.py:75-76 | parsing the rendering of any integer gives that integer back |

## Left out

- `convert_f_to_c` (weather.py:35-39) is not modelled. It uses float arithmetic and `round(..., 1)`, with Python's binary floating-point rounding.
- `convert_date` (weather.py:20-23) is not modelled. It delegates to `datetime.fromisoformat` and `strftime`, so the calendar and locale logic belong to the standard library.
- `generate_summary` and `generate_daily_summary` (weather.py:128-147) are not modelled. Their bodies are `pass`: they return `None` and have no behaviour to model.
- Opening the file and CSV tokenising (weather.py:67-68) are I/O and a foreign library. `LoadDataFromRows` takes the rows that `csv.reader` yields.
- The final copy `list(weather_data)` (weather.py:87) and the per-row copy `row[:]` (weather.py:77) are not modelled separately. The model uses values, so there is no aliasing for a copy to prevent.
- `IntText.ParseInt`: decimal literals only. Python's `int()` also accepts a leading `+`, surrounding whitespace, `_` between digits and non-ASCII decimal digits; those texts are rejected here. In the other direction, Python 3.11 and later raise `ValueError` on a digit string longer than the default limit of 4300 digits, and `ParseInt` accepts text of any length.
- `Weather.FindMin`, `Weather.FindMax` and `Weather.CalculateMean` take integer lists. String elements, which `min`/`max` compare lexicographically and `float()` coerces, are not modelled.
- `Weather.CalculateMean`: the sum and quotient are exact reals. Python's float rounding is not modelled, and neither is the loss of precision of `float()` on integers beyond 2^53 (which also affects the equality test in `find_min`/`find_max`). Two failures of large values are not modelled either. `float(x)` raises `OverflowError` on an integer too large for a double (weather.py:47). A float sum of in-range values can overflow to `inf`. The model returns an exact mean in both cases.
- `Weather.FindMin` and `Weather.FindMax`: `float(...)` of an integer too large for a double raises `OverflowError` (weather.py:92-93, 111-112). The model returns `Found` for every non-empty list of unbounded integers.
- `Weather.FormatTemperature` takes the temperature already as text. How an f-string renders a number is not modelled; `IntText.ShowInt` is used only as the inverse of `IntText.ParseInt`.
