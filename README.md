# Expense ledger form — a Dafny model

This project models the logic of a small desktop form for personal
bookkeeping (`ExpenseApp` in `main.py`). The form records an expense or an
income entry: an amount, a description and the time of recording. Entries go
to one spreadsheet file per category, `pengeluaran.xlsx` for expenses and
`pemasukan.xlsx` for income. The form can also show a category's entries as a
table, sorted by time and filtered by an optional date range, with their
total under it.

The model has eight modules, one per concern:

- `Wrappers` — `Option` and `Result`.
- `Text` — Python's `str.strip()`, with the exact `str.isspace` code points, plus decimal digits.
- `Amounts` — the `float(amount)` check of the record handlers, for plain decimal text.
- `Dates` — timestamps and dates, their order, and `strptime(text, '%Y-%m-%d')`.
  This parser takes 1–2 digit months and days, the `" 5"` day form and the
  calendar check.
- `Ledger` — rows and files. A `LedgerFile` class holds one file:
  `present` (the file exists) and `rows` (its sheet). Its `Save` method is
  `save_to_excel`.
- `Query` — the data part of `show_table`. Specification functions
  (`DataRows`, `SortByTime`, `Filtered`, `Sum`, `TableView`) sit beside the
  loops of the view (`ReadData`, `FilterRows`, `TotalAmount`). Each loop is
  proved equal to its function.
- `App` — the `ExpenseApp` class. Its fields are the four text inputs, the
  record label and the two files. `Record` models `record_expense` and
  `record_income`; `ShowTable` models `show_expense_table` and
  `show_income_table`.
- `Scenarios` — a worked example of the view's ordering: three entries
  saved out of time order.

Behaviour kept from main.py:
- The header row is `["Jumlah", "Deskripsi", "Waktu"]` (main.py:121).
- Bad date text is an error only when the file holds at least one entry, because the dates are parsed inside the row loop (main.py:162-167).
- A row's time is never re-parsed as malformed. The program writes every time itself with `strftime`.

## Model

| member | source | states |
|---|---|---|
| Text.StripIsTrimmedSlice | main.py:57-58 | `strip()` returns the middle slice of the text. Everything cut off is whitespace, and a non-empty result starts and ends with non-whitespace |
| Text.StripEmptyIff | main.py:62 | the stripped text is empty exactly when the input is whitespace only |
| Text.StripIdempotent | main.py:141-142 | stripping an already stripped text changes nothing |
| Text.StripStart | main.py:57 | the result starts at the first non-whitespace character, and everything before it is whitespace |
| Text.StripEnd | main.py:58 | the result ends after the last non-whitespace character, and everything after it is whitespace |
| Amounts.ParseAmountShape | main.py:66-70 | accepted amount text has at least one digit. Every other character is one decimal point or a leading sign, so currency symbols, separators and letters are refused |
| Amounts.ParseAmountDecimal | main.py:67 | `a.b` made of digits (at least one) converts to `a + b/10^len(b)` |
| Amounts.ParseAmountWhole | main.py:67 | digits without a point convert to the whole number they spell |
| Amounts.ParseAmountNatText | main.py:67 | the decimal text of any natural number converts back to that number |
| Amounts.ParseAmountSign | main.py:67 | a leading `-` negates the value of unsigned text, and a leading `+` keeps it |
| Dates.TimeLeqTotalOrder | main.py:159 | the timestamp order used as the sort key is reflexive, total, antisymmetric and transitive |
| Dates.TimeLeqDate | main.py:159-163 | a timestamp no later than another has a date no later than the other's |
| Dates.DateLeqTotalOrder | main.py:168 | the date order of the range test is total, antisymmetric and transitive |
| Dates.MonthValue | main.py:165 | an accepted month field is between 1 and 12 |
| Dates.DayValue | main.py:165 | an accepted day field is between 1 and 31 |
| Dates.ParseDate | main.py:165-167 | every date the parser accepts is a real calendar date with a year from 1 to 9999 |
| Dates.ParseFormatRoundTrip | main.py:165-167 | every valid date written as `YYYY-MM-DD` parses back to itself |
| Ledger.DataRowsAppend | main.py:153-156 | the header-skipping read of a file split in two is the read of the first part followed by the read of the second, so rows are read in file order |
| Ledger.DataRowsMember | main.py:153-156 | an entry is read exactly when its data row is in the file; header rows yield no entry |
| Ledger.ValidFileEntries | main.py:153-156 | in a file of the program's shape, every row after the header is read, and data row k is entry k |
| Ledger.SaveReadsBack | main.py:112-124 | a save creates a missing file with the header as row 0 and never writes the header again. It keeps all earlier rows and adds exactly one row, which reads back as the saved entry |
| Ledger.SaveAllReadsBack | main.py:112-124 | after any run of saves, the file has the program's shape and reads back as the earlier entries followed by the saved ones, in order |
| Ledger.LedgerFile.Save | main.py:112-124 | the file exists afterwards and its rows are the saved rows. The new row is read back after the old entries, and the file keeps its shape |
| Ledger.LedgerFile.constructor | main.py:115 | a file object starts from the state it has on disk |
| Query.SortByTimeSortedPermutation | main.py:159 | the sort returns a permutation of its input, in non-decreasing timestamp order |
| Query.SortByTimeStable | main.py:159 | entries with equal timestamps keep their file order (`list.sort` is stable) |
| Query.StableSortUnique | main.py:159 | two sorted sequences that agree on which entries each timestamp has, in what order, are equal. So the model's sort gives exactly what `list.sort` gives |
| Scenarios.SortExample | main.py:159 | three entries saved on days 3, 1, 2 come back ordered days 1, 2, 3, each keeping its own amount and description |
| Query.InsertSortedPermutation | main.py:159 | inserting into a sorted sequence keeps it sorted and adds exactly the inserted entry |
| Query.SelectCount | main.py:168-172 | the filter keeps each in-window entry as often as it occurs, and drops every other entry |
| Query.SelectSorted | main.py:161-172 | a sorted input gives a sorted selection |
| Query.SelectAppend | main.py:161-172 | filtering two parts filters each and keeps them in order, so the filter keeps the order of its input |
| Query.SelectWithTime | main.py:161-172 | for each timestamp in the window, the filter keeps all entries with that timestamp, in order |
| Query.SelectSortCommute | main.py:158-172 | filtering the sorted rows gives the same as sorting the filtered rows |
| Query.SelectEmptyRange | main.py:168 | a range whose end date is before its start date keeps nothing |
| Query.FilteredNoStart | main.py:164-174 | with a blank start date every row is kept, whatever the end date text is |
| Query.FilteredRange | main.py:164-169 | with both dates given, the kept rows are exactly those dated from start to end inclusive, in sorted order. None are kept when start is after end |
| Query.FilteredDay | main.py:164-172 | with only a start date, the kept rows are exactly those of that day, in sorted order |
| Query.FilteredFails | main.py:162-167 | the filter fails exactly when there is a row, a start date is given, and the start text or a given end text is not a date |
| Query.SumSortByTime | main.py:184-188 | the total over the sorted rows equals the total over the rows in file order |
| Query.SumAppend | main.py:184-188 | the total of two parts is the sum of their totals |
| Query.TableViewContents | main.py:140-188 | a missing file is `FileNotFound`, and a file without entries gives an empty table with total 0. Bad date text with entries is `InvalidDate`. Otherwise the table is the stable time sort of the in-window entries, with the sum of their amounts |
| Query.TableViewNoStart | main.py:164-188 | with a blank start date the table holds all entries, sorted, with the total of all amounts |
| Query.ReadData | main.py:153-156 | the header-skipping loop returns exactly the file's entries in file order |
| Query.FilterRows | main.py:161-174 | the filter loop, which parses the dates inside the loop, returns exactly the specified filter result, error included |
| Query.TotalAmount | main.py:184-188 | the total loop returns the sum of the shown amounts, and 0 for none |
| App.ValidateOutcome | main.py:57-70 | a record is refused as empty exactly when either text is whitespace only, and this is checked first. It is refused as invalid exactly when both texts have content but the amount is not a number. Otherwise it is accepted with the parsed amount and the stripped description |
| App.ExpenseApp.Record | main.py:56-100 | a refused record changes nothing. An accepted one saves exactly one entry of amount, description and time to the category's file, shows it in the label and clears both inputs. The other file is left untouched |
| App.ExpenseApp.ShowTable | main.py:140-188 | the view returns exactly the specified table for the category's file and the stripped date texts, and changes nothing |
| App.ExpenseApp.constructor | main.py:16-54 | the form starts with empty inputs and label, over the two files as they are on disk |

## Left out

- The Kivy widget tree, the button bindings, the warning and error popups and the table widgets (main.py:16-54, 102-110, 176-204) are user interface only. A refusal is an `Outcome` or an error value rather than a popup.
- File I/O through openpyxl (`Workbook`, `load_workbook`, `save`) is not modelled. Neither is `get_file_path` with its `os.makedirs`. Each file is a `LedgerFile` object with a `present` flag and the rows of its sheet.
- `datetime.now()` is not modelled. The time of a record is the `now` parameter of `Record`.
- Amounts are exact `real` numbers, not binary floats. The rounding of `float()` and of the running total is not modelled.
- Amounts.ParseAmount: models plain decimal notation only. Exponents (`1e3`), `inf` and `nan`, underscores between digits, and non-ASCII digits, all accepted by `float()`, are refused by the model.
- Dates.ParseDate: reads ASCII digits only, where Python's `\d` also matches other Unicode decimal digits.
- A row's time is a structured `Timestamp`, because the program itself writes it with `strftime('%Y-%m-%d %H:%M:%S')`. Re-parsing it in the sort key and in the filter loop cannot fail in the model. Files edited by hand, with malformed rows or extra header rows in odd places, are covered only as far as `DataRows` reads any row sequence.
- The exact text of the record label (main.py:75, 98) is display only. The label is modelled as the category and entry it shows.
- An uncaught `ValueError` from a bad date text ends the handler. The model returns `Err(InvalidDate)` for both date fields.
- `list.sort` (Timsort, in place) is modelled by its result, `SortByTime`. `Query.StableSortUnique` shows that any stable sort by timestamp gives that result.
