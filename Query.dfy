/**
 * The data part of the table view: skip the header, stable-sort by timestamp,
 * keep the rows inside the date window, and add up their amounts. The
 * functions here are the specification; the methods are the loops of the
 * view, each proved equal to its function.
 */
module Query {
  import opened Wrappers
  import opened Dates
  import opened Ledger

  // ---------------------------------------------------------------- sorting

  predicate SortedByTime(s: seq<Entry>) {
    forall i, j :: 0 <= i <= j < |s| ==> TimeLeq(s[i].time, s[j].time)
  }

  /** Places `x` before the first entry that is not earlier than it. */
  function Insert(x: Entry, s: seq<Entry>): seq<Entry> {
    if s == [] || TimeLeq(x.time, s[0].time) then [x] + s else [s[0]] + Insert(x, s[1..])
  }

  /** `data.sort(key=timestamp)`: a stable ascending sort by timestamp (insertion sort). */
  function SortByTime(s: seq<Entry>): seq<Entry> {
    if s == [] then [] else Insert(s[0], SortByTime(s[1..]))
  }

  /** The entries stamped with exactly `t`, in their order in `s`. */
  function WithTime(s: seq<Entry>, t: Timestamp): seq<Entry> {
    if s == [] then [] else (if s[0].time == t then [s[0]] else []) + WithTime(s[1..], t)
  }

  lemma {:induction false} InsertPermutation(x: Entry, s: seq<Entry>)
    ensures multiset(Insert(x, s)) == multiset(s) + multiset{x}
    ensures |Insert(x, s)| == |s| + 1
  {
    if s != [] && !TimeLeq(x.time, s[0].time) {
      InsertPermutation(x, s[1..]);
      assert s == [s[0]] + s[1..];
    }
  }

  lemma {:induction false} InsertSortedPermutation(x: Entry, s: seq<Entry>)
    requires SortedByTime(s)
    ensures SortedByTime(Insert(x, s))
    ensures multiset(Insert(x, s)) == multiset(s) + multiset{x}
  {
    InsertPermutation(x, s);
    if s != [] && !TimeLeq(x.time, s[0].time) {
      var head, rest := s[0], Insert(x, s[1..]);
      InsertSortedPermutation(x, s[1..]);
      assert TimeLeq(head.time, x.time) by { TimeLeqTotalOrder(x.time, head.time, x.time); }
      forall j | 0 <= j < |rest| ensures TimeLeq(head.time, rest[j].time) {
        assert rest[j] in multiset(rest);
        if rest[j] != x {
          assert rest[j] in multiset(s[1..]);
          var k :| 0 <= k < |s[1..]| && s[1..][k] == rest[j];
          assert s[k + 1] == rest[j];
        }
      }
      SortedCons(head, rest);
    } else if s != [] {
      forall j | 0 <= j < |s| ensures TimeLeq(x.time, s[j].time) {
        TimeLeqTotalOrder(x.time, s[0].time, s[j].time);
      }
      SortedCons(x, s);
    }
  }

  lemma SortedCons(x: Entry, s: seq<Entry>)
    requires SortedByTime(s)
    requires forall j :: 0 <= j < |s| ==> TimeLeq(x.time, s[j].time)
    ensures SortedByTime([x] + s)
  {
    forall i, j | 0 <= i <= j < |[x] + s|
      ensures TimeLeq(([x] + s)[i].time, ([x] + s)[j].time)
    {
      if i > 0 {
        assert ([x] + s)[i] == s[i - 1];
        assert ([x] + s)[j] == s[j - 1];
      } else if j > 0 {
        assert ([x] + s)[j] == s[j - 1];
      }
    }
  }

  /** The sort returns its input in non-decreasing timestamp order, as a permutation. */
  lemma {:induction false} SortByTimeSortedPermutation(s: seq<Entry>)
    ensures SortedByTime(SortByTime(s))
    ensures multiset(SortByTime(s)) == multiset(s)
    ensures |SortByTime(s)| == |s|
  {
    if s != [] {
      SortByTimeSortedPermutation(s[1..]);
      InsertSortedPermutation(s[0], SortByTime(s[1..]));
      assert s == [s[0]] + s[1..];
      assert |multiset(SortByTime(s))| == |multiset(s)|;
    }
  }

  lemma {:induction false} InsertWithTime(x: Entry, s: seq<Entry>, t: Timestamp)
    ensures WithTime(Insert(x, s), t) == (if x.time == t then [x] else []) + WithTime(s, t)
  {
    if s != [] && !TimeLeq(x.time, s[0].time) {
      InsertWithTime(x, s[1..], t);
      assert ([s[0]] + Insert(x, s[1..]))[1..] == Insert(x, s[1..]);
    } else {
      assert ([x] + s)[1..] == s;
    }
  }

  /** The sort is stable: entries with equal timestamps keep their relative order. */
  lemma {:induction false} SortByTimeStable(s: seq<Entry>, t: Timestamp)
    ensures WithTime(SortByTime(s), t) == WithTime(s, t)
  {
    if s != [] {
      SortByTimeStable(s[1..], t);
      InsertWithTime(s[0], SortByTime(s[1..]), t);
    }
  }

  lemma {:induction false} WithTimeMember(s: seq<Entry>, t: Timestamp, e: Entry)
    ensures e in WithTime(s, t) <==> e in s && e.time == t
  {
    if s != [] {
      WithTimeMember(s[1..], t, e);
      assert s == [s[0]] + s[1..];
    }
  }

  lemma WithTimeHead(s: seq<Entry>)
    requires s != []
    ensures WithTime(s, s[0].time) != [] && WithTime(s, s[0].time)[0] == s[0]
  {
  }

  lemma {:induction false} WithTimeAppend(a: seq<Entry>, b: seq<Entry>, t: Timestamp)
    ensures WithTime(a + b, t) == WithTime(a, t) + WithTime(b, t)
  {
    if a == [] {
      assert a + b == b;
    } else {
      assert (a + b)[1..] == a[1..] + b;
      WithTimeAppend(a[1..], b, t);
    }
  }

  /**
   * A stable sort by timestamp has only one possible result: two sorted
   * sequences that agree, timestamp by timestamp, on which entries they hold
   * and in what order are equal. So `SortByTime` is the result of Python's
   * `list.sort` with a timestamp key, whatever algorithm that uses.
   */
  lemma {:induction false} StableSortUnique(a: seq<Entry>, b: seq<Entry>)
    requires SortedByTime(a) && SortedByTime(b)
    requires forall t :: WithTime(a, t) == WithTime(b, t)
    ensures a == b
    decreases |a|
  {
    if a != [] { WithTimeHead(a); }
    if b != [] { WithTimeHead(b); }
    if a != [] && b != [] {
      var ta, tb := a[0].time, b[0].time;
      assert a[0] in WithTime(b, ta) by {
        assert WithTime(a, ta)[0] == a[0];
      }
      WithTimeMember(b, ta, a[0]);
      var k :| 0 <= k < |b| && b[k] == a[0];
      assert TimeLeq(tb, ta);
      assert b[0] in WithTime(a, tb) by {
        assert WithTime(b, tb)[0] == b[0];
      }
      WithTimeMember(a, tb, b[0]);
      var m :| 0 <= m < |a| && a[m] == b[0];
      assert TimeLeq(ta, tb);
      TimeLeqTotalOrder(ta, tb, ta);
      assert a[0] == b[0] by {
        assert WithTime(a, ta)[0] == a[0];
        assert WithTime(b, ta)[0] == b[0];
      }
      forall t ensures WithTime(a[1..], t) == WithTime(b[1..], t) {
        var p := if a[0].time == t then [a[0]] else [];
        assert WithTime(a, t) == p + WithTime(a[1..], t);
        assert WithTime(b, t) == p + WithTime(b[1..], t);
        assert WithTime(a, t) == WithTime(b, t);
        assert WithTime(a[1..], t) == (p + WithTime(a[1..], t))[|p|..];
        assert WithTime(b[1..], t) == (p + WithTime(b[1..], t))[|p|..];
      }
      StableSortUnique(a[1..], b[1..]);
      assert a == [a[0]] + a[1..];
      assert b == [b[0]] + b[1..];
    }
  }

  // -------------------------------------------------------------- filtering

  /** Which rows the view keeps: all of them, one day, or an inclusive range of days. */
  datatype Window = AllDates | OnDay(day: Date) | Between(first: Date, last: Date)

  predicate InWindow(w: Window, d: Date) {
    match w
    case AllDates => true
    case OnDay(x) => d == x
    case Between(lo, hi) => DateLeq(lo, d) && DateLeq(d, hi)
  }

  /** Why the table view stops without showing a table. */
  datatype QueryError = FileNotFound | InvalidDate

  /**
   * The three-way rule on the stripped date texts: no start date keeps every
   * row (the end date is then ignored and never read), a start date alone keeps
   * that day, both keep the inclusive range. A date text `strptime` refuses is
   * an error.
   */
  function ParseWindow(startText: string, endText: string): Result<Window, QueryError> {
    if startText == [] then Ok(AllDates)
    else
      match ParseDate(startText)
      case None => Err(InvalidDate)
      case Some(lo) =>
        if endText == [] then Ok(OnDay(lo))
        else
          match ParseDate(endText)
          case None => Err(InvalidDate)
          case Some(hi) => Ok(Between(lo, hi))
  }

  /** The entries whose date lies in the window, in their order in `s`. */
  function Select(s: seq<Entry>, w: Window): seq<Entry> {
    if s == [] then []
    else
      var last := s[|s| - 1];
      Select(s[..|s| - 1], w) + (if InWindow(w, DateOf(last.time)) then [last] else [])
  }

  /**
   * The filtering step of the view. The date texts are parsed inside the loop
   * over the rows, so with no rows nothing is parsed and bad date text is not
   * noticed.
   */
  function Filtered(data: seq<Entry>, startText: string, endText: string): Result<seq<Entry>, QueryError> {
    if data == [] then Ok([])
    else
      match ParseWindow(startText, endText)
      case Err(e) => Err(e)
      case Ok(w) => Ok(Select(data, w))
  }

  lemma {:induction false} SelectAll(s: seq<Entry>)
    ensures Select(s, AllDates) == s
  {
    if s != [] {
      SelectAll(s[..|s| - 1]);
      assert s == s[..|s| - 1] + [s[|s| - 1]];
    }
  }

  /**
   * Selecting from two parts selects from each part and keeps them in order;
   * with the one-entry case of `Select`, this says the filter keeps the
   * order of its input.
   */
  lemma {:induction false} SelectAppend(a: seq<Entry>, b: seq<Entry>, w: Window)
    ensures Select(a + b, w) == Select(a, w) + Select(b, w)
    decreases |b|
  {
    if b == [] {
      assert a + b == a;
    } else {
      assert (a + b)[..|a + b| - 1] == a + b[..|b| - 1];
      SelectAppend(a, b[..|b| - 1], w);
    }
  }

  /** Each entry is kept as often as it occurs when its date is in the window, and dropped otherwise. */
  lemma {:induction false} SelectCount(s: seq<Entry>, w: Window, e: Entry)
    ensures multiset(Select(s, w))[e] == if InWindow(w, DateOf(e.time)) then multiset(s)[e] else 0
  {
    if s != [] {
      SelectCount(s[..|s| - 1], w, e);
      assert s == s[..|s| - 1] + [s[|s| - 1]];
    }
  }

  /** A sorted input gives a sorted selection. */
  lemma {:induction false} SelectSorted(s: seq<Entry>, w: Window)
    requires SortedByTime(s)
    ensures SortedByTime(Select(s, w))
  {
    if s != [] {
      var init, last := s[..|s| - 1], s[|s| - 1];
      SelectSorted(init, w);
      var r := Select(init, w);
      if InWindow(w, DateOf(last.time)) {
        forall i | 0 <= i < |r| ensures TimeLeq(r[i].time, last.time) {
          SelectCount(init, w, r[i]);
          assert r[i] in multiset(r);
          assert r[i] in init;
          var k :| 0 <= k < |init| && init[k] == r[i];
          assert s[k] == r[i];
        }
        forall i, j | 0 <= i <= j < |r + [last]|
          ensures TimeLeq((r + [last])[i].time, (r + [last])[j].time)
        {
          if j == |r| {
            if i < |r| { assert (r + [last])[i] == r[i]; }
          } else {
            assert (r + [last])[i] == r[i];
            assert (r + [last])[j] == r[j];
          }
        }
      }
    }
  }

  /** Selection keeps, for each timestamp in the window, all entries with it in their order. */
  lemma {:induction false} SelectWithTime(s: seq<Entry>, w: Window, t: Timestamp)
    ensures WithTime(Select(s, w), t) == if InWindow(w, DateOf(t)) then WithTime(s, t) else []
  {
    if s != [] {
      var init, last := s[..|s| - 1], s[|s| - 1];
      SelectWithTime(init, w, t);
      var tail := if InWindow(w, DateOf(last.time)) then [last] else [];
      WithTimeAppend(Select(init, w), tail, t);
      WithTimeAppend(init, [last], t);
      assert s == init + [last];
      assert WithTime([last], t) == if last.time == t then [last] else [];
      assert WithTime([], t) == [];
    }
  }

  /** Filtering and sorting commute: the sorted rows of the window are the window of the sorted rows. */
  lemma SelectSortCommute(s: seq<Entry>, w: Window)
    ensures Select(SortByTime(s), w) == SortByTime(Select(s, w))
  {
    var a, b := Select(SortByTime(s), w), SortByTime(Select(s, w));
    SortByTimeSortedPermutation(s);
    SortByTimeSortedPermutation(Select(s, w));
    SelectSorted(SortByTime(s), w);
    forall t ensures WithTime(a, t) == WithTime(b, t) {
      SelectWithTime(SortByTime(s), w, t);
      SortByTimeStable(s, t);
      SortByTimeStable(Select(s, w), t);
      SelectWithTime(s, w, t);
    }
    StableSortUnique(a, b);
  }

  /** A range whose end comes before its start selects nothing. */
  lemma {:induction false} SelectEmptyRange(s: seq<Entry>, lo: Date, hi: Date)
    requires DateLess(hi, lo)
    ensures Select(s, Between(lo, hi)) == []
  {
    if s != [] {
      SelectEmptyRange(s[..|s| - 1], lo, hi);
      var d := DateOf(s[|s| - 1].time);
      DateLeqTotalOrder(lo, d, hi);
      DateLeqTotalOrder(hi, lo, hi);
    }
  }

  /** A blank start date keeps every row, whatever the end date text says. */
  lemma FilteredNoStart(data: seq<Entry>, endText: string)
    ensures Filtered(data, "", endText) == Ok(data)
  {
    SelectAll(data);
  }

  /** With both dates given: exactly the rows dated from `lo` to `hi` inclusive, in their order; none when `lo` is after `hi`. */
  lemma FilteredRange(data: seq<Entry>, startText: string, endText: string, lo: Date, hi: Date)
    requires ParseDate(startText) == Some(lo) && endText != [] && ParseDate(endText) == Some(hi)
    ensures Filtered(data, startText, endText).Ok?
    ensures var r := Filtered(data, startText, endText).value;
      (forall e :: multiset(r)[e] == if DateLeq(lo, DateOf(e.time)) && DateLeq(DateOf(e.time), hi) then multiset(data)[e] else 0) &&
      (SortedByTime(data) ==> SortedByTime(r)) &&
      (DateLess(hi, lo) ==> r == [])
  {
    if data != [] {
      assert startText != [];
      forall e ensures multiset(Select(data, Between(lo, hi)))[e] ==
        if DateLeq(lo, DateOf(e.time)) && DateLeq(DateOf(e.time), hi) then multiset(data)[e] else 0
      {
        SelectCount(data, Between(lo, hi), e);
      }
      if SortedByTime(data) { SelectSorted(data, Between(lo, hi)); }
      if DateLess(hi, lo) { SelectEmptyRange(data, lo, hi); }
    }
  }

  /** With only a start date: exactly the rows of that day, in their order. */
  lemma FilteredDay(data: seq<Entry>, startText: string, day: Date)
    requires ParseDate(startText) == Some(day)
    ensures Filtered(data, startText, "").Ok?
    ensures var r := Filtered(data, startText, "").value;
      (forall e :: multiset(r)[e] == if DateOf(e.time) == day then multiset(data)[e] else 0) &&
      (SortedByTime(data) ==> SortedByTime(r))
  {
    if data != [] {
      assert startText != [];
      forall e ensures multiset(Select(data, OnDay(day)))[e] ==
        if DateOf(e.time) == day then multiset(data)[e] else 0
      {
        SelectCount(data, OnDay(day), e);
      }
      if SortedByTime(data) { SelectSorted(data, OnDay(day)); }
    }
  }

  /**
   * The filter fails exactly when there is at least one row, a start date is
   * given, and the start text, or a given end text, is not a date.
   */
  lemma FilteredFails(data: seq<Entry>, startText: string, endText: string)
    ensures Filtered(data, startText, endText).Err? <==>
      data != [] && startText != [] &&
      (ParseDate(startText).None? || (endText != [] && ParseDate(endText).None?))
    ensures Filtered(data, startText, endText).Err? ==> Filtered(data, startText, endText).error == InvalidDate
  {
  }

  // ------------------------------------------------------------ aggregation

  /** The sum of the amounts, `0` for no entries. */
  function Sum(s: seq<Entry>): real {
    if s == [] then 0.0 else Sum(s[..|s| - 1]) + s[|s| - 1].amount
  }

  lemma {:induction false} SumAppend(a: seq<Entry>, b: seq<Entry>)
    ensures Sum(a + b) == Sum(a) + Sum(b)
    decreases |b|
  {
    if b == [] {
      assert a + b == a;
    } else {
      assert (a + b)[..|a + b| - 1] == a + b[..|b| - 1];
      SumAppend(a, b[..|b| - 1]);
    }
  }

  /** Sorting does not change the total. */
  lemma {:induction false} SumSortByTime(s: seq<Entry>)
    ensures Sum(SortByTime(s)) == Sum(s)
  {
    if s != [] {
      SumSortByTime(s[1..]);
      SumInsert(s[0], SortByTime(s[1..]));
      SumAppend([s[0]], s[1..]);
      assert s == [s[0]] + s[1..];
      assert Sum([s[0]]) == s[0].amount;
    }
  }

  lemma {:induction false} SumInsert(x: Entry, s: seq<Entry>)
    ensures Sum(Insert(x, s)) == x.amount + Sum(s)
  {
    assert Sum([x]) == x.amount;
    if s == [] || TimeLeq(x.time, s[0].time) {
      SumAppend([x], s);
    } else {
      SumInsert(x, s[1..]);
      SumAppend([s[0]], Insert(x, s[1..]));
      SumAppend([s[0]], s[1..]);
      assert s == [s[0]] + s[1..];
    }
  }

  // ------------------------------------------------------------ the view

  /** What the table view shows: its rows, in display order, and their total. */
  datatype Table = Table(rows: seq<Entry>, total: real)

  /** The table view of one category's file, given the stripped date texts. */
  function TableView(present: bool, rows: seq<Row>, startText: string, endText: string): Result<Table, QueryError> {
    if !present then Err(FileNotFound)
    else
      match Filtered(SortByTime(DataRows(rows)), startText, endText)
      case Err(e) => Err(e)
      case Ok(f) => Ok(Table(f, Sum(f)))
  }

  /**
   * The view is the stable timestamp sort of the file's entries that fall in
   * the date window, with their total; a missing file is `FileNotFound`, a
   * file without entries an empty table with total 0, and bad date text with
   * at least one entry is `InvalidDate`.
   */
  lemma TableViewContents(present: bool, rows: seq<Row>, startText: string, endText: string)
    ensures !present ==> TableView(present, rows, startText, endText) == Err(FileNotFound)
    ensures present && DataRows(rows) == [] ==> TableView(present, rows, startText, endText) == Ok(Table([], 0.0))
    ensures present && DataRows(rows) != [] && ParseWindow(startText, endText).Err? ==>
      TableView(present, rows, startText, endText) == Err(InvalidDate)
    ensures present && ParseWindow(startText, endText).Ok? ==>
      var kept := Select(DataRows(rows), ParseWindow(startText, endText).value);
      TableView(present, rows, startText, endText) == Ok(Table(SortByTime(kept), Sum(kept)))
  {
    var data := DataRows(rows);
    SortByTimeSortedPermutation(data);
    if present && ParseWindow(startText, endText).Ok? {
      var w := ParseWindow(startText, endText).value;
      SelectSortCommute(data, w);
      SumSortByTime(Select(data, w));
      if data == [] {
        assert SortByTime(data) == [];
      }
    }
    if present && data != [] {
      assert SortByTime(data) != [];
    }
  }

  /** With a blank start date the view shows every entry of the file, sorted, and the total of all of them. */
  lemma TableViewNoStart(present: bool, rows: seq<Row>, endText: string)
    requires present
    ensures TableView(present, rows, "", endText) == Ok(Table(SortByTime(DataRows(rows)), Sum(DataRows(rows))))
  {
    FilteredNoStart(SortByTime(DataRows(rows)), endText);
    SumSortByTime(DataRows(rows));
  }

  // ------------------------------------------------------------ the loops

  /** The header-skipping read of the sheet's rows, in file order. */
  method ReadData(rows: seq<Row>) returns (data: seq<Entry>)
    ensures data == DataRows(rows)
  {
    data := [];
    var i := 0;
    while i < |rows|
      invariant 0 <= i <= |rows|
      invariant data == DataRows(rows[..i])
    {
      assert rows[..i + 1][..i] == rows[..i];
      if rows[i].DataRow? {
        data := data + [rows[i].entry];
      }
      i := i + 1;
    }
    assert rows[..i] == rows;
  }

  /**
   * The filtering loop of the view. For each row it parses the start text and,
   * when there is one, the end text, then appends the row if it is in the
   * window; with a blank start it sets the result to all the rows.
   */
  method FilterRows(data: seq<Entry>, startText: string, endText: string) returns (r: Result<seq<Entry>, QueryError>)
    ensures r == Filtered(data, startText, endText)
  {
    var filtered: seq<Entry> := [];
    var i := 0;
    while i < |data|
      invariant 0 <= i <= |data|
      invariant i == 0 ==> filtered == []
      invariant i > 0 ==> ParseWindow(startText, endText).Ok?
      invariant i > 0 && startText == [] ==> filtered == data
      invariant i > 0 && startText != [] ==> filtered == Select(data[..i], ParseWindow(startText, endText).value)
    {
      var rowDate := DateOf(data[i].time);
      assert data[..i + 1][..i] == data[..i];
      if startText != [] {
        var startDate := ParseDate(startText);
        if startDate.None? {
          return Err(InvalidDate);
        }
        if endText != [] {
          var endDate := ParseDate(endText);
          if endDate.None? {
            return Err(InvalidDate);
          }
          if DateLeq(startDate.value, rowDate) && DateLeq(rowDate, endDate.value) {
            filtered := filtered + [data[i]];
          }
        } else if rowDate == startDate.value {
          filtered := filtered + [data[i]];
        }
      } else {
        filtered := data;
      }
      i := i + 1;
    }
    assert data[..i] == data;
    if data != [] && startText == [] {
      SelectAll(data);
    }
    r := Ok(filtered);
  }

  /** The total loop of the view: `total_amount += row[0]` over the shown rows. */
  method TotalAmount(s: seq<Entry>) returns (total: real)
    ensures total == Sum(s)
  {
    total := 0.0;
    var i := 0;
    while i < |s|
      invariant 0 <= i <= |s|
      invariant total == Sum(s[..i])
    {
      assert s[..i + 1][..i] == s[..i];
      total := total + s[i].amount;
      i := i + 1;
    }
    assert s[..i] == s;
  }
}
