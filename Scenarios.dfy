module Scenarios {
  import opened Dates
  import opened Ledger
  import opened Query

  /** A timestamp on the given day of January 2024, on the hour. */
  function At(day: nat, hour: nat): Timestamp {
    Timestamp(2024, 1, day, hour, 0, 0)
  }

  /** Rows saved out of order come back in time order, each with its own amount. */
  lemma SortExample(a: real, b: real, c: real)
    ensures SortByTime([Entry(c, "c", At(3, 9)), Entry(a, "a", At(1, 9)), Entry(b, "b", At(2, 9))])
         == [Entry(a, "a", At(1, 9)), Entry(b, "b", At(2, 9)), Entry(c, "c", At(3, 9))]
  {
    var e1, e2, e3 := Entry(a, "a", At(1, 9)), Entry(b, "b", At(2, 9)), Entry(c, "c", At(3, 9));
    assert [e3, e1, e2][1..] == [e1, e2];
    assert [e1, e2][1..] == [e2];
    assert [e2][1..] == [];
    assert SortByTime([e2]) == [e2];
    assert SortByTime([e1, e2]) == Insert(e1, [e2]) == [e1, e2];
    assert Insert(e3, [e2]) == [e2, e3];
    assert Insert(e3, [e1, e2]) == [e1] + Insert(e3, [e2]);
  }
}
