# Yahoo Finance CSV validator, modelled in Dafny

`data_validation(name)` in `qdp/io_yahoo.py` ingests one daily price file from
`data/raw/<name>` and returns it only if it is a clean daily table. Otherwise it raises
at the first check that fails. The checks run in a fixed order:

1. The directory exists, the name is non-empty, and the file exists.
2. The date index is normalised to days. It must then hold no NaT, no repeated date,
   and dates in ascending order.
3. The headers are renamed: stripped, BOM removed, lower-cased, spaces turned into
   underscores.
4. The six canonical columns `open, high, low, close, adj_close, volume` must be
   present. Any extra columns are kept behind them, with a warning.
5. The price columns must be numeric, and then the volume column.

The model follows that structure:

- `Wrappers` holds `Option` and `Result`.
- `Lists` holds the list operations the checks are built from. `Without` is the
  comprehension `[c for c in s if c not in t]`. `IsSubsequence` means "in the same
  relative order".
- `Headers` holds Python's `strip()` with its exact whitespace set, BOM removal,
  `lower()` and the space-to-underscore rename.
- `Frames` holds the table and error datatypes. Each error constructor carries the
  payload the source puts in its message.
- `DateIndex` holds the index checks.
  - `DayOf` is `normalize()`: the floor to the day.
  - `FindFirstRepeat` is the hash-set scan behind `duplicated()`.
  - `FindFirstDescent` is the first negative `diff()`.
  - Method `ValidateIndex` is proved equal to the ghost specification `IndexVerdict`.
- `Columns` holds the column checks. `Select` is `df[names]` and `NonNumeric` is the
  dtype gate.
- `IoYahoo` holds the path checks and the whole pipeline.
  - Method `DataValidation` is proved equal to the ghost specification `Verdict`, and
    the warnings it emits equal the ghost specification `Warnings`.
  - `FirstFailureWins` states the fail-fast order over all nine checks.
  - `RevalidationIsIdentity` states that feeding an accepted table back in gives it
    back unchanged.

Timestamps are integers, counted in wall-clock seconds. A day is a whole number of
86400-second days. A parsed table is a `RawTable`: one `Option` timestamp per row,
with `None` standing for NaT, plus the columns. Each column carries its header and
whether pandas gave it a numeric dtype. The filesystem is a `FileSystem` value: does
`data/raw` exist, and which names under it are files. Warnings are returned, not
emitted: `DataValidation` returns the warnings issued before it returns or raises, and
an accepted table carries them beside it.

Where the code does something other than its guards and comments suggest, or other than
a reader might expect, the model follows the code:

- The guard on line 39 compares `df.index.hour` with `True` by identity. That is never
  true, so `normalize()` always runs, and the model always normalises.
- Line 61 strips whitespace *before* it removes the BOM, so a BOM at either end of a
  header shields the whitespace next to it from the strip. A space behind a leading
  BOM becomes an underscore: BOM + `" Open"` becomes `_open`
  (`Headers.BomBeforeSpaceExample`), which a second renaming leaves alone. Other
  whitespace survives as it is: BOM + `"\tOpen"` becomes `"\topen"`, which a second
  renaming changes again (`Headers.BomBeforeTabExample`); `"Open\t"` + BOM behaves the
  same way at the other end (`Headers.TabBeforeBomExample`). Renaming twice equals renaming once exactly when the
  renamed header has no whitespace at either end (`Headers.IdempotentIff`).

## Model

| member | source | states |
|---|---|---|
| Lists.Without | qdp/io_yahoo.py:67 | the kept elements are exactly those of `s` not in `t`, in their original relative order |
| Lists.WithoutSplits | qdp/io_yahoo.py:73-77 | for distinct headers containing all of `t`, `t` followed by the rest is a rearrangement of the original: same multiset, same length |
| Lists.WithoutEmpty | qdp/io_yahoo.py:67-68 | nothing is missing exactly when every element of `s` occurs in `t` |
| Headers.TrimStart | qdp/io_yahoo.py:61 | the result is a suffix of the input; everything removed is Python whitespace; the result does not start with whitespace |
| Headers.TrimEnd | qdp/io_yahoo.py:61 | the result is a prefix of the input; everything removed is Python whitespace; the result does not end with whitespace |
| Headers.Strip | qdp/io_yahoo.py:61 | the stripped header neither starts nor ends with whitespace and holds only characters of the raw header |
| Headers.StripCuts | qdp/io_yahoo.py:61 | the stripped header is a contiguous piece of the raw header, and everything cut off before and after it is whitespace |
| Headers.Lower | qdp/io_yahoo.py:62 | the lowered header has the same length and no upper-case letter; other characters are kept; each upper-case letter becomes its lower-case letter |
| Headers.ReplaceChar | qdp/io_yahoo.py:61-62 | the result has the same length; every occurrence of `a` becomes `b`, everything else is kept, and `a` no longer occurs |
| Headers.NormalizeHeader | qdp/io_yahoo.py:61-62 | the header after both renaming passes, in source order: strip, drop every BOM, lower-case, spaces to underscores (its properties are the lemmas below) |
| Headers.NormalizedForm | qdp/io_yahoo.py:61-62 | a normalised header has no space, no BOM, no upper-case letter, and is no longer than the raw header |
| Headers.NormalizeIdempotent | qdp/io_yahoo.py:61-62 | renaming a renamed BOM-free header changes nothing |
| Headers.IdempotentIff | qdp/io_yahoo.py:61-62 | renaming a renamed header changes nothing exactly when the renamed header has no whitespace at either end |
| Headers.RenamedPadded | qdp/io_yahoo.py:61-62 | whitespace around a BOM-free header is stripped before its other characters are renamed |
| Headers.RenamedBom | qdp/io_yahoo.py:61-62 | a BOM at the front of a header that ends in a non-space is removed, and the rest is renamed |
| Headers.AdjCloseExample | qdp/io_yahoo.py:61-62 | the header `Adj Close` with a space on each side is recognised as `adj_close` |
| Headers.BomExample | qdp/io_yahoo.py:61-62 | a BOM glued to a header is dropped: BOM + `Open` becomes `open` |
| Headers.BomBeforeSpaceExample | qdp/io_yahoo.py:61-62 | a BOM followed by a space survives the strip, so BOM + `" Open"` becomes `_open` |
| Headers.BomBeforeTabExample | qdp/io_yahoo.py:61-62 | a BOM followed by a tab survives the strip, so BOM + `"\tOpen"` becomes `"\topen"`, and renaming that again changes it |
| Headers.RenamedTrailingBom | qdp/io_yahoo.py:61-62 | a BOM at the end of a header that starts with a non-space is removed, and the rest is renamed |
| Headers.TabBeforeBomExample | qdp/io_yahoo.py:61-62 | a tab before a trailing BOM survives the strip, so `"Open\t"` + BOM becomes `"open\t"`, and renaming that again changes it |
| DateIndex.DayOf | qdp/io_yahoo.py:39-40 | the day's midnight is the latest midnight not after the timestamp |
| DateIndex.NormalizeIndex | qdp/io_yahoo.py:33-40 | the normalised index has one entry per row; NaT stays NaT, and every timestamp becomes its day |
| DateIndex.NaTCount | qdp/io_yahoo.py:44 | the count is the number of NaT entries in the index |
| DateIndex.NormalizeKeepsNaT | qdp/io_yahoo.py:33-44 | normalisation keeps exactly the NaT entries, so the count after it is the count in the parsed index |
| DateIndex.FindFirstRepeat | qdp/io_yahoo.py:48-50 | no result exactly when the dates are unique; otherwise the first position whose date occurs earlier |
| DateIndex.FindFirstDescent | qdp/io_yahoo.py:54-57 | no result exactly when the dates are non-decreasing; otherwise the first position whose date is below its predecessor |
| DateIndex.FirstRepeatUnique | qdp/io_yahoo.py:49-50 | the first repeated position is unique, so the reported example is determined |
| DateIndex.FirstDescentUnique | qdp/io_yahoo.py:55-57 | the first out-of-order position is unique, so the reported pair is determined |
| DateIndex.IndexVerdict | qdp/io_yahoo.py:33-58 | the specification of the index checks: NaT first, then duplicates, then order (its properties are the lemmas below) |
| DateIndex.ValidateIndex | qdp/io_yahoo.py:33-58 | the index checks, run step by step, give exactly the verdict `IndexVerdict` specifies |
| DateIndex.UnparseableDatesReported | qdp/io_yahoo.py:43-45 | an index with NaT is rejected first, carrying the (positive) number of NaT rows |
| DateIndex.DuplicateDateReported | qdp/io_yahoo.py:47-51 | a NaT-free index is rejected with the date at the first repeated position |
| DateIndex.DescentReported | qdp/io_yahoo.py:53-58 | a NaT-free, duplicate-free index out of order is rejected with the pair around the first descent, earlier row first |
| DateIndex.IndexAccepted | qdp/io_yahoo.py:33-58 | an accepted index has one date per row, each the day of that row's timestamp, and is strictly ascending |
| DateIndex.IndexCheckOrder | qdp/io_yahoo.py:42-58 | the index is accepted iff no NaT, unique and ascending all hold; each error kind happens iff its check fails and every earlier index check passes |
| DateIndex.Midnights | qdp/io_yahoo.py:39-40 | writing each day as its midnight and normalising again gives the same day |
| DateIndex.ReindexAccepted | qdp/io_yahoo.py:33-58 | a strictly ascending list of midnights passes the index checks with the same days |
| DateIndex.DescendingPairExample | qdp/io_yahoo.py:53-58 | dates given in descending order are rejected naming both dates |
| DateIndex.SameDayExample | qdp/io_yahoo.py:39-51 | two timestamps on the same day normalise to one date and are rejected as a duplicate of it |
| Columns.NormalizeColumns | qdp/io_yahoo.py:61-62 | the two renaming passes applied to every header of `df.columns`, each column's data and dtype kept as they are |
| Columns.Lookup | qdp/io_yahoo.py:82-87 | `df[n]` yields a column headed `n`, and the only one if headers are distinct |
| Columns.Select | qdp/io_yahoo.py:77-78 | `df[names]` has exactly the given headers in the given order, drawn from the table |
| Columns.NonNumeric | qdp/io_yahoo.py:81-82 | the listed names are exactly the non-numeric ones among those checked, in checking order |
| Columns.ValidateColumns | qdp/io_yahoo.py:61-88 | the column stage: rename every header, then run the column checks on the renamed columns |
| Columns.CheckColumns | qdp/io_yahoo.py:64-88 | the specification of the column checks: required columns, extras warning, reordering, price gate, volume gate (its properties are the lemmas below) |
| Columns.ExtrasWarning | qdp/io_yahoo.py:72-75 | a warning is issued exactly when every canonical name is present and some header is not canonical; it lists exactly the extras, in original order |
| Columns.ExtrasWarned | qdp/io_yahoo.py:66-88 | accepted columns carry the extras warning; a run stopped at the required check issues none; a run stopped at a dtype gate has issued it exactly when there are extras |
| Columns.MissingColumnsReported | qdp/io_yahoo.py:64-70 | the column checks stop at the required check iff a canonical name is absent; the missing names are exactly the absent ones, in canonical order, reported with all renamed headers |
| Columns.ColumnsAccepted | qdp/io_yahoo.py:73-90 | accepted columns are the canonical six followed by the extras in their original order; each renamed column is kept once; there is a warning iff there are extras, and it lists them; the canonical six are numeric |
| Columns.NonNumericPriceReported | qdp/io_yahoo.py:81-85 | a price rejection lists exactly the non-numeric price columns, in canonical order |
| Columns.NonNumericVolumeReported | qdp/io_yahoo.py:87-88 | a volume rejection happens only with all price columns numeric and the volume column non-numeric |
| Columns.ColumnCheckOrder | qdp/io_yahoo.py:64-88 | the columns are accepted iff required-present, price-numeric and volume-numeric all hold; each error kind happens iff its check fails and the earlier column checks pass |
| Columns.RecheckAccepted | qdp/io_yahoo.py:64-90 | checking accepted columns again accepts them unchanged with the same warnings |
| Columns.RenamedStable | qdp/io_yahoo.py:61-62 | columns drawn from renamed BOM-free headers are unchanged by a second renaming |
| Columns.RevalidateColumns | qdp/io_yahoo.py:61-90 | for BOM-free raw headers, renaming and checking accepted columns again gives the same columns and warnings |
| Columns.MissingVolumeExample | qdp/io_yahoo.py:64-70 | a table with only the price columns is rejected listing `["volume"]` as missing |
| Columns.ExtraColumnExample | qdp/io_yahoo.py:73-78 | an extra `dividends` column is accepted, placed last, and warned about |
| Columns.NonNumericCloseExample | qdp/io_yahoo.py:81-85 | a non-numeric `close` column is rejected naming `["close"]` |
| IoYahoo.PathCheck | qdp/io_yahoo.py:17-26 | the path checks pass iff the directory exists, the name is non-empty and it names a file; the empty-name error comes exactly when the directory exists and the name is empty |
| IoYahoo.Verdict | qdp/io_yahoo.py:6-90 | the specification of the whole function: path checks, then index checks, then column checks, the first failure raised (its properties are the lemmas below) |
| IoYahoo.Warnings | qdp/io_yahoo.py:72-75 | the specification of the warnings issued: none when the run stops before the column checks, otherwise the extras warning |
| IoYahoo.DataValidation | qdp/io_yahoo.py:6-90 | the whole function, run step by step, gives exactly the verdict `Verdict` specifies and issues exactly the warnings `Warnings` specifies |
| IoYahoo.WarningsEmitted | qdp/io_yahoo.py:17-88 | an accepted table carries the warnings issued; a run that stops before the dtype gates issues none; a run stopped at a dtype gate has warned exactly when there are extra headers |
| IoYahoo.FirstFailureWins | qdp/io_yahoo.py:17-88 | the table is accepted iff all nine checks pass; otherwise the error comes from a failing check and every earlier check passes |
| IoYahoo.TableAccepted | qdp/io_yahoo.py:6-90 | an accepted table came from an existing file; its index is strictly ascending, with the day of each row's timestamp; its columns are the canonical six, then the extras, each kept once, the canonical six numeric; there is a warning iff there are extras |
| IoYahoo.RevalidationIsIdentity | qdp/io_yahoo.py:6-90 | validating the written-back form of an accepted table (BOM-free headers) gives the same table and warnings |

## Left out

- File access: `Path.exists`, `is_file` and `resolve()` are not modelled. The filesystem is a value, and paths stay relative (`data/raw/<name>`) instead of being resolved to absolute paths.
- CSV parsing: `pd.read_csv` is not modelled. The parsed table is an input: one optional timestamp per row, headers, and a numeric flag per column.
- Time zones: `tz_localize(None)` is not modelled. Timestamps are taken as wall-clock seconds, so dropping the zone changes nothing.
- `is_numeric_dtype` is not modelled. It is a flag on each column, since dtype inference belongs to pandas.
- Messages: the message text, its date formatting and the file name it contains are not modelled. Each error constructor carries only the values the message reports.
- Exception classes are not modelled. `FileNotFoundError`, `ValueError` and `TypeError` are distinguished only through the error constructors.
- Warnings: `warnings.warn` has no side effect in the model. The issued warnings are a result of `DataValidation` instead.
- `isinstance(name, str)` is not modelled, because the type already guarantees a string. `str(c)` on non-string headers is not modelled either, because headers are strings.
- IoYahoo.DataValidation: requires that the renamed headers are distinct whenever the run reaches the column checks with all six canonical names present (`Columns.Selectable`). pandas' handling of duplicate labels (`df[c]` returning a frame) is not modelled. A run that stops earlier, including at the required-column check, is modelled for any headers.
- Headers.Lower: upper-case letters are lowered only for ASCII and Latin-1. Other Unicode case mappings, including ones that change length, are not modelled.
- Headers.NormalizeIdempotent: assumes a BOM-free header, which is sufficient but not necessary. The exact condition is `Headers.IdempotentIff`: no whitespace at either end of the renamed header. It breaks when a BOM at either end of the header shields whitespace other than a space from the strip, as in BOM + `"\tOpen"` or `"Open\t"` + BOM.
- IoYahoo.RevalidationIsIdentity: assumes BOM-free raw headers, because a BOM can shield whitespace that a second renaming strips. It also covers only writing the table back, not re-parsing CSV text.
