/** The years of copyright lines (gem5/util/find_copyrights.py): datestr prints a set of years as
    single years and ranges, process_dates reads such a list. */
module CopyrightYears {
  import opened Counting
  import opened Sorting
  import opened Text

  datatype Span = Span(first: int, last: int)

  // ---------------------------------------------------------------- printing

  ghost predicate IsMax(m: int, s: set<int>) { m in s && forall x :: x in s ==> x <= m }

  lemma {:induction false} MaxExists(s: set<int>) returns (m: int)
    requires s != {}
    ensures IsMax(m, s)
  {
    if forall x :: x !in s { assert false; }
    m :| m in s;
    if s != {m} {
      var n := MaxExists(s - {m});
      assert forall x :: x in s ==> x == m || x in s - {m};
      m := if n < m then m else n;
    }
  }

  lemma MaxExistsFor(s: set<int>)
    requires s != {}
    ensures exists m :: IsMax(m, s)
  {
    var m := MaxExists(s);
  }

  /** The elements in ascending order: list(dates), sorted. */
  ghost function Ascending(s: set<int>): seq<int> {
    if s == {} then []
    else
      MaxExistsFor(s);
      var m :| IsMax(m, s);
      Ascending(s - {m}) + [m]
  }

  ghost predicate Increasing(l: seq<int>) { forall i, j :: 0 <= i < j < |l| ==> l[i] < l[j] }

  lemma {:induction false} AscendingLists(s: set<int>)
    ensures Increasing(Ascending(s)) && forall x :: x in Ascending(s) <==> x in s
    ensures s != {} ==> Ascending(s) != []
  {
    if s != {} {
      MaxExistsFor(s);
      var m :| IsMax(m, s) && Ascending(s) == Ascending(s - {m}) + [m];
      AscendingLists(s - {m});
      var front := Ascending(s - {m});
      forall i | 0 <= i < |front| ensures front[i] < m {
        assert front[i] in s - {m};
      }
    }
  }

  /** The runs of consecutive numbers in an ascending list. */
  function Compress(l: seq<int>): (spans: seq<Span>)
    requires l != []
    ensures spans != [] && spans[|spans| - 1].last == l[|l| - 1]
  {
    if |l| == 1 then [Span(l[0], l[0])]
    else
      var spans, next := Compress(l[..|l| - 1]), l[|l| - 1];
      var s := spans[|spans| - 1];
      if next == s.last + 1 then spans[..|spans| - 1] + [Span(s.first, next)] else spans + [Span(next, next)]
  }

  function ShowSpan(s: Span): string {
    if s.first == s.last then ShowInt(s.first) else ShowInt(s.first) + "-" + ShowInt(s.last)
  }

  function ShowSpans(spans: seq<Span>): seq<string> {
    if spans == [] then [] else ShowSpans(spans[..|spans| - 1]) + [ShowSpan(spans[|spans| - 1])]
  }

  /** An empty list has no first element to pop. */
  datatype Printed = Printed(text: string) | IndexError

  ghost function Datestr(dates: set<int>): Printed {
    if dates == {} then IndexError
    else
      AscendingLists(dates);
      ShowSpansLength(Compress(Ascending(dates)));
      Printed(Join(ShowSpans(Compress(Ascending(dates))), ','))
  }

  lemma {:induction false} ShowSpansLength(spans: seq<Span>)
    ensures |ShowSpans(spans)| == |spans|
    ensures forall i :: 0 <= i < |spans| ==> ShowSpans(spans)[i] == ShowSpan(spans[i])
  {
    hide ShowSpan;
    if spans != [] {
      ShowSpansLength(spans[..|spans| - 1]);
    }
  }

  predicate IntLe(a: int, b: int) { a <= b }

  /** datestr: the list that Python makes of a set has no particular order; it is sorted first. */
  method PrintDates(dates: set<int>) returns (p: Printed)
    ensures p == Datestr(dates)
  {
    var list: seq<int>, rest := [], dates;
    while rest != {}
      invariant rest <= dates && Distinct(list) && forall x :: x in dates <==> x in rest || x in list
      invariant forall x :: x in list ==> x !in rest
      decreases rest
    {
      if forall x :: x !in rest { assert false; }
      var y :| y in rest;
      list, rest := list + [y], rest - {y};
    }
    SortedIsAscending(dates, list);
    p := PrintYears(Sort(IntLe, list));
  }

  lemma SortedIsAscending(dates: set<int>, list: seq<int>)
    requires Distinct(list) && forall x :: x in dates <==> x in list
    ensures Sort(IntLe, list) == Ascending(dates)
  {
    var l := Sort(IntLe, list);
    SortOrdered(IntLe, list);
    SortPermutes(IntLe, list);
    SortDistinct(list);
    AscendingLists(dates);
    forall i | 0 <= i < |l| ensures l[i] in Ascending(dates) {
      assert l[i] in multiset(l) && l[i] in multiset(list);
    }
    forall i | 0 <= i < |Ascending(dates)| ensures Ascending(dates)[i] in l {
      assert Ascending(dates)[i] in list && Ascending(dates)[i] in multiset(list);
      assert Ascending(dates)[i] in multiset(l);
    }
    IncreasingUnique(l, Ascending(dates));
  }

  lemma {:induction false} SortDistinct(list: seq<int>)
    requires Distinct(list)
    ensures Increasing(Sort(IntLe, list))
  {
    var l := Sort(IntLe, list);
    SortOrdered(IntLe, list);
    SortPermutes(IntLe, list);
    forall i, j | 0 <= i < j < |l| ensures l[i] < l[j] {
      assert IntLe(l[i], l[j]);
      if l[i] == l[j] {
        CountsTwice(l, i, j);
        CountsOnce(list, l[i]);
      }
    }
  }

  lemma CountsTwice(l: seq<int>, i: nat, j: nat)
    requires i < j < |l| && l[i] == l[j]
    ensures multiset(l)[l[i]] >= 2
  {
    assert l == l[..j] + l[j..];
    assert l[..j][i] == l[i] && l[j..][0] == l[j];
    assert l[i] in multiset(l[..j]) && l[j] in multiset(l[j..]);
    assert multiset(l) == multiset(l[..j]) + multiset(l[j..]);
  }

  lemma {:induction false} CountsOnce(list: seq<int>, x: int)
    requires Distinct(list)
    ensures multiset(list)[x] <= 1
  {
    if list != [] {
      var front, last := list[..|list| - 1], list[|list| - 1];
      CountsOnce(front, x);
      assert list == front + [last];
      if x == last { assert x !in front; }
    }
  }

  ghost predicate Within(a: seq<int>, b: seq<int>) { forall i :: 0 <= i < |a| ==> a[i] in b }

  lemma {:induction false} IncreasingUnique(a: seq<int>, b: seq<int>)
    requires Increasing(a) && Increasing(b) && Within(a, b) && Within(b, a)
    ensures a == b
  {
    EmptyWithin(a, b);
    EmptyWithin(b, a);
    if a != [] && b != [] {
      var m, n := |a| - 1, |b| - 1;
      LastIsGreatest(a, b);
      LastIsGreatest(b, a);
      FrontWithin(a, b);
      FrontWithin(b, a);
      assert Increasing(a[..m]) && Increasing(b[..n]);
      hide Within, Increasing;
      IncreasingUnique(a[..m], b[..n]);
      assert a == a[..m] + [a[m]] && b == b[..n] + [b[n]];
    }
  }

  lemma EmptyWithin(a: seq<int>, b: seq<int>)
    requires Within(a, b)
    ensures b == [] ==> a == []
  {
    assert a != [] ==> a[0] in b;
  }

  lemma LastIsGreatest(a: seq<int>, b: seq<int>)
    requires Increasing(b) && Within(a, b) && a != [] && b != []
    ensures a[|a| - 1] <= b[|b| - 1]
  {
  }

  lemma FrontWithin(a: seq<int>, b: seq<int>)
    requires Increasing(a) && Within(a, b) && a != [] && b != [] && a[|a| - 1] == b[|b| - 1]
    ensures Within(a[..|a| - 1], b[..|b| - 1])
  {
  }

  lemma OneYear(y: int)
    ensures Compress([y]) == [] + [Span(y, y)] && ShowSpans([]) == []
  {
  }

  lemma CompressNext(l: seq<int>, done: seq<Span>, s: Span, next: int)
    requires l != [] && Compress(l) == done + [s]
    ensures Compress(l + [next])
         == if next == s.last + 1 then done + [Span(s.first, next)] else done + [s] + [Span(next, next)]
  {
    assert (l + [next])[..|l|] == l && (done + [s])[..|done|] == done;
  }

  lemma ShowSpansNext(done: seq<Span>, s: Span)
    ensures ShowSpans(done + [s]) == ShowSpans(done) + [ShowSpan(s)]
  {
    assert (done + [s])[..|done|] == done;
  }

  /** The rest of datestr, on the sorted list. */
  method PrintYears(dates: seq<int>) returns (p: Printed)
    ensures dates == [] ==> p == IndexError
    ensures dates != [] ==> |ShowSpans(Compress(dates))| > 0 && p == Printed(Join(ShowSpans(Compress(dates)), ','))
  {
    hide ShowSpan, ShowSpans, Compress, Join;
    if dates == [] {
      return IndexError;
    }
    OneYear(dates[0]);
    assert dates[..1] == [dates[0]];
    var output: seq<string> := [];
    var first, second, rest := dates[0], dates[0], dates[1..];
    ghost var n, done: seq<Span> := 1, [];
    while rest != []
      invariant 1 <= n <= |dates| && rest == dates[n..]
      invariant Compress(dates[..n]) == done + [Span(first, second)]
      invariant output == ShowSpans(done)
      decreases |rest|
    {
      var next := rest[0];
      CompressNext(dates[..n], done, Span(first, second), next);
      assert dates[..n + 1] == dates[..n] + [next];
      rest, n := rest[1..], n + 1;
      if next == second + 1 {
        second := next;
      } else {
        ShowSpansNext(done, Span(first, second));
        output := output + [ShowSpan(Span(first, second))];
        done := done + [Span(first, second)];
        first, second := next, next;
      }
    }
    assert dates[..n] == dates;
    ShowSpansNext(done, Span(first, second));
    output := output + [ShowSpan(Span(first, second))];
    p := Printed(Join(output, ','));
  }

  // ---------------------------------------------------------------- reading

  /** ([0-9]{4})\s*-\s*([0-9]{4}) at the start of s: what follows is ignored. */
  function MatchRange(s: string): Option<(nat, nat)> {
    if |s| < 4 || !AllDigits(s[..4]) then None
    else
      var t := StripLeft(s[4..]);
      if t == [] || t[0] != '-' then None
      else
        var u := StripLeft(t[1..]);
        if |u| < 4 || !AllDigits(u[..4]) then None else Some((ReadNat(s[..4]), ReadNat(u[..4])))
  }

  function Years(s: Span): set<int> { Range(s.first, s.last + 1) }

  /** One item of the list: a range, a year, or nothing. */
  function ReadItem(s: string): set<int> {
    match MatchRange(s)
    case Some((f, l)) => Years(Span(f, l))
    case None => match ParseInt(s)
      case Some(y) => {y}
      case None => {}
  }

  function ReadItems(items: seq<string>): set<int> {
    if items == [] then {} else ReadItems(items[..|items| - 1]) + ReadItem(Strip(items[|items| - 1]))
  }

  function ProcessDates(dates: string): set<int> { ReadItems(Split(dates, ',')) }

  method ReadYears(dates: string) returns (output: set<int>)
    ensures output == ProcessDates(dates)
  {
    var items := Split(dates, ',');
    output := {};
    for i := 0 to |items|
      invariant output == ReadItems(items[..i])
    {
      assert items[..i + 1][..i] == items[..i];
      var date := Strip(items[i]);
      match MatchRange(date) {
        case Some((f, l)) =>
          output := AddRange(output, f, l);
        case None =>
          match ParseInt(date) {
            case Some(y) => output := output + {y};
            case None =>
          }
      }
    }
    assert items[..|items|] == items;
  }

  /** The loop over xrange(f, l + 1). */
  method AddRange(years: set<int>, f: nat, l: nat) returns (output: set<int>)
    ensures output == years + Years(Span(f, l))
  {
    output := years;
    if f <= l {
      for i := f to l + 1
        invariant output == years + Range(f, i)
      {
        output := output + {i};
        assert Range(f, i + 1) == Range(f, i) + {i};
      }
    } else {
      assert Years(Span(f, l)) == {};
    }
  }
}
