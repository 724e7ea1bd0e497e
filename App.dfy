/**
 * The form: the amount and description inputs with their two record actions,
 * the date-range inputs with their two table views, the record label, and the
 * two ledger files the actions write and read.
 */
module App {
  import opened Wrappers
  import opened Text
  import opened Amounts
  import opened Dates
  import opened Ledger
  import opened Query

  /** The two ledgers: expenses (`pengeluaran.xlsx`) and income (`pemasukan.xlsx`). */
  datatype Category = Expense | Income

  function Other(c: Category): Category {
    if c == Expense then Income else Expense
  }

  /** Why a record action is refused; each is shown as a warning popup. */
  datatype RecordError = EmptyField | InvalidAmount

  /** What a record action did. */
  datatype Outcome = Recorded(entry: Entry) | Rejected(reason: RecordError)

  /** The text of the record label: empty at start, then the last recorded entry. */
  datatype Label = Blank | Shows(category: Category, entry: Entry)

  /**
   * The checks of a record action, in the order the handlers run them: both
   * stripped texts must be non-empty, and only then is the amount converted.
   * On success, the amount and the stripped description to store.
   */
  function Validate(amountText: string, descriptionText: string): Result<(real, string), RecordError> {
    var amount, description := Strip(amountText), Strip(descriptionText);
    if amount == [] || description == [] then Err(EmptyField)
    else
      match ParseAmount(amount)
      case None => Err(InvalidAmount)
      case Some(v) => Ok((v, description))
  }

  /**
   * A record is refused as `EmptyField` exactly when either text is whitespace
   * only (whatever the amount says), as `InvalidAmount` exactly when both have
   * content but the amount is not a number, and accepted otherwise with the
   * converted amount and the description without surrounding whitespace.
   */
  lemma ValidateOutcome(amountText: string, descriptionText: string)
    ensures Validate(amountText, descriptionText) == Err(EmptyField) <==>
      AllSpace(amountText) || AllSpace(descriptionText)
    ensures Validate(amountText, descriptionText) == Err(InvalidAmount) <==>
      !AllSpace(amountText) && !AllSpace(descriptionText) && ParseAmount(Strip(amountText)).None?
    ensures Validate(amountText, descriptionText).Ok? ==>
      var (v, d) := Validate(amountText, descriptionText).value;
      ParseAmount(Strip(amountText)) == Some(v) &&
      d == Strip(descriptionText) && d != [] && !IsSpace(d[0]) && !IsSpace(d[|d| - 1])
  {
    ValidateSteps(amountText, descriptionText);
    StripEmptyIff(amountText);
    StripEmptyIff(descriptionText);
    StripBoundary(descriptionText);
  }

  /** `Validate` in terms of the stripped texts and the converted amount. */
  lemma ValidateSteps(amountText: string, descriptionText: string)
    ensures var a, d := Strip(amountText), Strip(descriptionText);
      Validate(amountText, descriptionText) ==
        if a == [] || d == [] then Err(EmptyField)
        else if ParseAmount(a).None? then Err(InvalidAmount)
        else Ok((ParseAmount(a).value, d))
  {
  }

  class ExpenseApp {
    var amountText: string
    var descriptionText: string
    var startDateText: string
    var endDateText: string
    var recordLabel: Label
    const expenses: LedgerFile
    const income: LedgerFile

    /** The file a category's actions use. */
    function File(c: Category): LedgerFile {
      if c == Expense then expenses else income
    }

    ghost predicate Valid()
      reads this, expenses, income
    {
      expenses != income && expenses.Valid() && income.Valid()
    }

    /** `build`: empty inputs and label, over the two files as they are on disk. */
    constructor (expensesPresent: bool, expenseRows: seq<Row>, incomePresent: bool, incomeRows: seq<Row>)
      requires ValidFile(expensesPresent, expenseRows) && ValidFile(incomePresent, incomeRows)
      ensures Valid()
      ensures amountText == [] && descriptionText == [] && startDateText == [] && endDateText == []
      ensures recordLabel == Blank
      ensures expenses.present == expensesPresent && expenses.rows == expenseRows
      ensures income.present == incomePresent && income.rows == incomeRows
    {
      amountText, descriptionText, startDateText, endDateText := [], [], [], [];
      recordLabel := Blank;
      expenses := new LedgerFile(expensesPresent, expenseRows);
      income := new LedgerFile(incomePresent, incomeRows);
    }

    /**
     * `record_expense` (c = Expense) and `record_income` (c = Income), with the
     * current time as `now`. A refused record changes nothing. An accepted one
     * saves one entry to the category's file, shows it in the record label and
     * clears both inputs; the other file and the date inputs are untouched.
     */
    method Record(c: Category, now: Timestamp) returns (outcome: Outcome)
      requires Valid()
      modifies this`amountText, this`descriptionText, this`recordLabel, File(c)
      ensures Valid()
      ensures var v := Validate(old(amountText), old(descriptionText));
        if v.Err? then
          outcome == Rejected(v.error) &&
          amountText == old(amountText) && descriptionText == old(descriptionText) &&
          recordLabel == old(recordLabel) && unchanged(File(c))
        else
          var e := Entry(v.value.0, v.value.1, now);
          outcome == Recorded(e) &&
          File(c).present && File(c).rows == SavedRows(old(File(c).present), old(File(c).rows), e) &&
          amountText == [] && descriptionText == [] && recordLabel == Shows(c, e)
      ensures DataRows(File(c).rows) ==
        DataRows(old(File(c).rows)) + (if outcome.Recorded? then [outcome.entry] else [])
      ensures unchanged(File(Other(c)))
    {
      var checked := Validate(amountText, descriptionText);
      if checked.Err? {
        return Rejected(checked.error);
      }
      var e := Entry(checked.value.0, checked.value.1, now);
      var file := File(c);
      file.Save(e);
      recordLabel := Shows(c, e);
      amountText := [];
      descriptionText := [];
      outcome := Recorded(e);
    }

    /**
     * `show_expense_table` / `show_income_table` without the widgets: the rows
     * the table shows, in order, and the total under it, or why no table is
     * shown. Reads the state and changes nothing.
     */
    method ShowTable(c: Category) returns (r: Result<Table, QueryError>)
      ensures r == TableView(File(c).present, File(c).rows, Strip(startDateText), Strip(endDateText))
    {
      var startText := Strip(startDateText);
      var endText := Strip(endDateText);
      var file := File(c);
      if !file.present {
        return Err(FileNotFound);
      }
      var data := ReadData(file.rows);
      data := SortByTime(data);
      var filtered := FilterRows(data, startText, endText);
      if filtered.Err? {
        return Err(filtered.error);
      }
      var total := TotalAmount(filtered.value);
      r := Ok(Table(filtered.value, total));
    }
  }
}
