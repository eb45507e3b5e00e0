/**
  The `{date, type, details}` rows that both the history view and the
  period summary return, and the newest-first ordering they share:
  `Array.prototype.sort` with the comparator
  `(a, b) => new Date(b.date) - new Date(a.date)`.
  That sort is stable, so the result is fixed by two facts: it is
  non-increasing by date, and the rows of any one date keep their input order.
*/
module Entries {

  datatype Entry = Entry(date: int, kind: string, details: string)

  /**
    Renderings the handlers delegate to the JavaScript runtime: `String(x)`
    for a number and `toLocaleDateString()` for an instant. (`x.toFixed(2)`
    is `NumberParsing.ToFixed2`.)
  */
  datatype Format = Format(number: real -> string, localeDate: int -> string)

  predicate NewestFirst(s: seq<Entry>) {
    forall i, j :: 0 <= i < j < |s| ==> s[i].date >= s[j].date
  }

  /** The rows of `s` dated exactly `d`, in their order in `s`. */
  function DatedOn(s: seq<Entry>, d: int): (r: seq<Entry>)
    ensures |r| <= |s|
  {
    if |s| == 0 then []
    else if s[0].date == d then [s[0]] + DatedOn(s[1..], d)
    else DatedOn(s[1..], d)
  }

  /** Places `e` in a newest-first list ahead of every row no newer than it. */
  function Insert(e: Entry, s: seq<Entry>): (r: seq<Entry>)
    requires NewestFirst(s)
    ensures NewestFirst(r)
    ensures multiset(r) == multiset(s) + multiset{e}
    ensures |r| == |s| + 1
    ensures forall x :: x in r <==> x == e || x in s
  {
    if |s| == 0 || s[0].date <= e.date then [e] + s
    else
      var rest := Insert(e, s[1..]);
      assert s == [s[0]] + s[1..];
      assert forall x :: x in rest ==> s[0].date >= x.date;
      [s[0]] + rest
  }

  /** The stable newest-first sort. */
  function SortNewestFirst(s: seq<Entry>): (r: seq<Entry>)
    ensures NewestFirst(r)
    ensures multiset(r) == multiset(s)
    ensures |r| == |s|
  {
    if |s| == 0 then []
    else
      assert s == [s[0]] + s[1..];
      Insert(s[0], SortNewestFirst(s[1..]))
  }

  lemma {:induction false} DatedOnConcat(a: seq<Entry>, b: seq<Entry>, d: int)
    ensures DatedOn(a + b, d) == DatedOn(a, d) + DatedOn(b, d)
  {
    if |a| > 0 {
      assert (a + b)[1..] == a[1..] + b;
      DatedOnConcat(a[1..], b, d);
    } else {
      assert a + b == b;
    }
  }

  /** In a newest-first list, nothing dated `e.date` precedes the place `Insert` picks for `e`. */
  lemma {:induction false} DatedOnInsert(e: Entry, s: seq<Entry>, d: int)
    requires NewestFirst(s)
    ensures DatedOn(Insert(e, s), d) == (if e.date == d then [e] + DatedOn(s, d) else DatedOn(s, d))
  {
    if |s| == 0 || s[0].date <= e.date {
      assert Insert(e, s)[1..] == s;
    } else {
      var rest := Insert(e, s[1..]);
      assert Insert(e, s) == [s[0]] + rest;
      assert ([s[0]] + rest)[1..] == rest;
      DatedOnInsert(e, s[1..], d);
      if e.date == d {
        assert s[0].date != d;
      }
    }
  }

  /** Stability: for every date, the sorted rows of that date are the input rows of that date, in input order. */
  lemma {:induction false} SortStable(s: seq<Entry>, d: int)
    ensures DatedOn(SortNewestFirst(s), d) == DatedOn(s, d)
  {
    if |s| > 0 {
      SortStable(s[1..], d);
      DatedOnInsert(s[0], SortNewestFirst(s[1..]), d);
    }
  }

  /** On the rows of one date, the sort of a concatenation keeps the first part's rows ahead of the second's. */
  lemma SortTies(a: seq<Entry>, b: seq<Entry>, d: int)
    ensures DatedOn(SortNewestFirst(a + b), d) == DatedOn(a, d) + DatedOn(b, d)
  {
    SortStable(a + b, d);
    DatedOnConcat(a, b, d);
  }

  /** A row is among the rows dated `d` exactly when it is in `s` and carries that date. */
  lemma {:induction false} DatedOnMembers(s: seq<Entry>, d: int, x: Entry)
    ensures x in DatedOn(s, d) <==> x in s && x.date == d
  {
    if |s| > 0 {
      DatedOnMembers(s[1..], d, x);
      assert s == [s[0]] + s[1..];
    }
  }

  /** Two newest-first lists that agree on the rows of every date are the same list. */
  lemma {:induction false} SameRowsPerDate(x: seq<Entry>, y: seq<Entry>)
    requires NewestFirst(x) && NewestFirst(y)
    requires forall d :: DatedOn(x, d) == DatedOn(y, d)
    ensures x == y
    decreases |x| + |y|
  {
    if |x| == 0 && |y| == 0 {
      return;
    }
    if |x| == 0 {
      assert false;
    }
    if |y| == 0 {
      DatedOnMembers(x, x[0].date, x[0]);
      DatedOnMembers(y, x[0].date, x[0]);
      return;
    }
    var dx, dy := x[0].date, y[0].date;
    DatedOnMembers(x, dx, x[0]);
    DatedOnMembers(y, dx, x[0]);
    DatedOnMembers(y, dy, y[0]);
    DatedOnMembers(x, dy, y[0]);
    assert dx == dy;
    assert DatedOn(x, dx)[0] == x[0] && DatedOn(y, dy)[0] == y[0];
    assert DatedOn(x, dx) == DatedOn(y, dx);
    assert x[0] == y[0];
    forall d
      ensures DatedOn(x[1..], d) == DatedOn(y[1..], d)
    {
      assert DatedOn(x, d) == DatedOn(y, d);
      if dx == d {
        assert DatedOn(x, d)[1..] == DatedOn(x[1..], d);
        assert DatedOn(y, d)[1..] == DatedOn(y[1..], d);
      }
    }
    SameRowsPerDate(x[1..], y[1..]);
    assert x == [x[0]] + x[1..] && y == [y[0]] + y[1..];
  }

  /**
    The stable sort is the only newest-first arrangement that keeps each
    date's rows in input order, so any stable sort by that comparator gives
    exactly `SortNewestFirst`.
  */
  lemma StableSortUnique(s: seq<Entry>, r: seq<Entry>)
    requires NewestFirst(r)
    requires forall d :: DatedOn(r, d) == DatedOn(s, d)
    ensures r == SortNewestFirst(s)
  {
    forall d
      ensures DatedOn(r, d) == DatedOn(SortNewestFirst(s), d)
    {
      SortStable(s, d);
    }
    SameRowsPerDate(r, SortNewestFirst(s));
  }
}
