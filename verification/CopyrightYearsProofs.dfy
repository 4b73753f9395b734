/** Printing and reading years: the printed ranges are the fewest possible, and reading them gives
    the years back exactly when every range lies within the years of four digits. */
module CopyrightYearsProofs {
  import opened Counting
  import opened Text
  import opened CopyrightYears

  // ---------------------------------------------------------------- maximal runs

  ghost function Union(spans: seq<Span>): set<int> {
    if spans == [] then {} else Union(spans[..|spans| - 1]) + Years(spans[|spans| - 1])
  }

  lemma {:induction false} UnionHolds(spans: seq<Span>, y: int)
    ensures y in Union(spans) <==> exists i :: 0 <= i < |spans| && spans[i].first <= y <= spans[i].last
  {
    if spans != [] {
      var front := spans[..|spans| - 1];
      UnionHolds(front, y);
      if i :| 0 <= i < |front| && front[i].first <= y <= front[i].last {
        assert spans[i] == front[i];
      }
      if i :| 0 <= i < |spans| && spans[i].first <= y <= spans[i].last {
        if i < |front| { assert front[i] == spans[i]; }
      }
    }
  }

  /** Spans in ascending order with a gap between each two: maximal runs of what they cover. */
  ghost predicate Separated(spans: seq<Span>) {
    && (forall i :: 0 <= i < |spans| ==> spans[i].first <= spans[i].last)
    && (forall i, j :: 0 <= i < j < |spans| ==> spans[i].last + 1 < spans[j].first)
  }

  lemma UnionNext(spans: seq<Span>, s: Span)
    ensures Union(spans + [s]) == Union(spans) + Years(s)
  {
  }

  lemma SeparatedNext(spans: seq<Span>, s: Span)
    requires Separated(spans) && s.first <= s.last
    requires spans != [] ==> spans[|spans| - 1].last + 1 < s.first
    ensures Separated(spans + [s])
  {
  }

  lemma ExtendLast(spans: seq<Span>, next: int)
    requires Separated(spans) && spans != [] && next == spans[|spans| - 1].last + 1
    ensures var longer := spans[..|spans| - 1] + [Span(spans[|spans| - 1].first, next)];
            Separated(longer) && Union(longer) == Union(spans) + {next}
  {
  }

  lemma AppendOne(spans: seq<Span>, next: int)
    requires Separated(spans) && (spans != [] ==> spans[|spans| - 1].last + 1 < next)
    ensures Separated(spans + [Span(next, next)]) && Union(spans + [Span(next, next)]) == Union(spans) + {next}
  {
    hide Union;
    SeparatedNext(spans, Span(next, next));
    UnionNext(spans, Span(next, next));
    assert Years(Span(next, next)) == {next};
  }

  function Members(l: seq<int>): set<int> { set y | y in l }

  lemma MembersNext(l: seq<int>, y: int)
    ensures Members(l + [y]) == Members(l) + {y}
  {
  }

  lemma CompressStep(l: seq<int>)
    requires l != []
    ensures |l| == 1 ==> Compress(l) == [] + [Span(l[0], l[0])]
    ensures |l| > 1 ==>
      var spans, next := Compress(l[..|l| - 1]), l[|l| - 1];
      var s := spans[|spans| - 1];
      Compress(l) == if next == s.last + 1 then spans[..|spans| - 1] + [Span(s.first, next)]
                     else spans + [Span(next, next)]
  {
  }

  lemma {:induction false} CompressSeparates(l: seq<int>)
    requires l != [] && Increasing(l)
    ensures Separated(Compress(l)) && Union(Compress(l)) == Members(l)
  {
    hide Compress;
    assert Union([]) == {};
    hide Union;
    var front, next := l[..|l| - 1], l[|l| - 1];
    CompressStep(l);
    MembersNext(front, next);
    assert l == front + [next];
    if |l| == 1 {
      AppendOne([], next);
    } else {
      CompressSeparates(front);
      var spans := Compress(front);
      assert spans[|spans| - 1].last == l[|l| - 2];
      if next == spans[|spans| - 1].last + 1 {
        ExtendLast(spans, next);
      } else {
        AppendOne(spans, next);
      }
    }
  }

  /** datestr prints maximal runs that together are the given years. */
  ghost function SpansOf(dates: set<int>): (spans: seq<Span>)
    requires dates != {}
    ensures Separated(spans) && Union(spans) == dates
  {
    AscendingLists(dates);
    CompressSeparates(Ascending(dates));
    assert dates == Members(Ascending(dates));
    Compress(Ascending(dates))
  }

  /** A span inside a set without gaps is inside one of its maximal runs. */
  lemma InOneRun(spans: seq<Span>, i: nat, j: nat, y: int, z: int)
    requires Separated(spans) && i < |spans| && j < |spans|
    requires spans[i].first <= y <= spans[i].last && spans[j].first <= z <= spans[j].last && y <= z
    requires forall x :: y <= x <= z ==> x in Union(spans)
    ensures i == j
  {
    if i < j {
      GapIsFree(spans, i);
    }
  }

  lemma GapIsFree(spans: seq<Span>, i: nat)
    requires Separated(spans) && i + 1 < |spans|
    ensures spans[i].last + 1 !in Union(spans)
  {
    var x := spans[i].last + 1;
    UnionHolds(spans, x);
    forall k | 0 <= k < |spans| ensures !(spans[k].first <= x <= spans[k].last) {
      assert k <= i || spans[i].last + 1 < spans[k].first;
    }
  }

  lemma RunsCoverSomething(a: seq<Span>)
    requires Separated(a) && a != []
    ensures Union(a) != {}
  {
  }

  /** Maximal runs are determined by the set they cover. */
  lemma {:induction false} RunsAreUnique(a: seq<Span>, b: seq<Span>)
    requires Separated(a) && Separated(b) && Union(a) == Union(b)
    ensures a == b
  {
    if a == [] {
      if b != [] { RunsCoverSomething(b); }
    } else if b == [] {
      RunsCoverSomething(a);
    } else {
      LastRunsAgree(a, b);
      var fa, fb := a[..|a| - 1], b[..|b| - 1];
      forall y ensures y in Union(fa) <==> y in Union(fb) {
        WithoutLast(a, y);
        WithoutLast(b, y);
      }
      RunsAreUnique(fa, fb);
    }
  }

  lemma WithoutLast(a: seq<Span>, y: int)
    requires Separated(a) && a != []
    ensures y in Union(a[..|a| - 1]) <==> y in Union(a) && y < a[|a| - 1].first
  {
  }

  lemma LastRunsAgree(a: seq<Span>, b: seq<Span>)
    requires Separated(a) && Separated(b) && Union(a) == Union(b) && a != [] && b != []
    ensures a[|a| - 1] == b[|b| - 1]
  {
    LastRunBelow(a, b);
    LastRunBelow(b, a);
  }

  lemma LastRunBelow(a: seq<Span>, b: seq<Span>)
    requires Separated(a) && Separated(b) && Union(a) == Union(b) && a != [] && b != []
    ensures a[|a| - 1].last <= b[|b| - 1].last
    ensures a[|a| - 1].last == b[|b| - 1].last ==> b[|b| - 1].first <= a[|a| - 1].first
  {
    var s, m := a[|a| - 1], |b| - 1;
    forall y | s.first <= y <= s.last ensures y in Union(b) {
      UnionHolds(a, y);
    }
    UnionHolds(b, s.last);
    var i :| 0 <= i < |b| && b[i].first <= s.last <= b[i].last;
    if s.last == b[m].last {
      UnionHolds(b, s.first);
      var j :| 0 <= j < |b| && b[j].first <= s.first <= b[j].last;
      InOneRun(b, j, m, s.first, s.last);
    }
  }

  /** No list of ranges that covers exactly these years is shorter. */
  lemma {:induction false} FewestRanges(dates: set<int>, ranges: seq<Span>)
    requires dates != {} && Union(ranges) == dates
    ensures |SpansOf(dates)| <= |ranges|
  {
    var spans := SpansOf(dates);
    var cover := CoverOf(spans, ranges, |spans|);
    DistinctBelow(cover, |ranges|);
  }

  /** For each run the index of a range that covers its first year. */
  lemma {:induction false} CoverOf(spans: seq<Span>, ranges: seq<Span>, n: nat) returns (cover: seq<int>)
    requires Separated(spans) && Union(ranges) == Union(spans) && n <= |spans|
    ensures |cover| == n && Distinct(cover)
    ensures forall i :: 0 <= i < n ==>
      0 <= cover[i] < |ranges| && ranges[cover[i]].first <= spans[i].first <= ranges[cover[i]].last
  {
    if n == 0 {
      cover := [];
    } else {
      cover := CoverOf(spans, ranges, n - 1);
      var y := spans[n - 1].first;
      UnionHolds(spans, y);
      UnionHolds(ranges, y);
      var k :| 0 <= k < |ranges| && ranges[k].first <= y <= ranges[k].last;
      forall i | 0 <= i < n - 1 ensures cover[i] != k {
        if cover[i] == k {
          forall x | spans[i].first <= x <= y ensures x in Union(spans) {
            UnionHolds(ranges, x);
          }
          InOneRun(spans, i, n - 1, spans[i].first, y);
        }
      }
      cover := cover + [k];
    }
  }

  // ---------------------------------------------------------------- reading one item

  /** A single year is always read; a range needs four digits on both sides. */
  predicate Readable(s: Span) { s.first == s.last || (1000 <= s.first && s.last <= 9999) }

  lemma LengthStep(n: nat)
    ensures |ShowNat(n)| == if n < 10 then 1 else 1 + |ShowNat(n / 10)|
  {
  }

  lemma ShowNatLength(n: nat)
    ensures |ShowNat(n)| == 4 <==> 1000 <= n <= 9999
    ensures |ShowNat(n)| < 4 <==> n < 1000
  {
    LengthStep(n);
    LengthStep(n / 10);
    LengthStep(n / 10 / 10);
    LengthStep(n / 10 / 10 / 10);
  }

  /** The characters of a printed year or range: no comma and no blank. */
  lemma ShowSpanPlain(s: Span)
    ensures Without(',', ShowSpan(s)) && Strip(ShowSpan(s)) == ShowSpan(s)
    ensures forall i :: 0 <= i < |ShowSpan(s)| ==> IsDigit(ShowSpan(s)[i]) || ShowSpan(s)[i] == '-'
  {
    hide ShowNat, Strip;
    StripNothing(ShowSpan(s));
  }

  lemma DigitsNotMinus(s: string, i: nat)
    requires i < |s| && s[i] == '-'
    ensures !AllDigits(s)
  {
  }

  lemma RangeIsNoNumber(s: Span)
    requires s.first < s.last
    ensures ParseInt(ShowSpan(s)) == None
  {
    var a, t := ShowInt(s.first), ShowSpan(s);
    ShowSpanPlain(s);
    assert t[|a|] == '-' && |a| >= 1;
    DigitsNotMinus(t, |a|);
    DigitsNotMinus(t[1..], |a| - 1);
  }

  lemma FourDigitsMatch(f: nat, l: nat)
    requires 1000 <= f <= 9999 && f < l
    ensures var r := MatchRange(ShowSpan(Span(f, l)));
            r.Some? && r.value.0 == f && (l <= 9999 ==> r.value.1 == l) && (l > 9999 ==> r.value.1 < l)
  {
    var a, b := ShowNat(f), ShowNat(l);
    var t := ShowSpan(Span(f, l));
    ShowNatLength(f);
    ShowNatLength(l);
    ReadShow(f);
    ReadShow(l);
    assert t[..4] == a && t[4..] == "-" + b && t[4..][1..] == b;
    if l <= 9999 {
      assert b[..4] == b;
    } else {
      NoLeadingZero(l);
      PrefixReadsLess(b, 4);
    }
  }

  lemma {:induction false} PrefixReadsLess(s: string, n: nat)
    requires AllDigits(s) && n <= |s| && n > 0 && s[0] != '0'
    ensures ReadNat(s[..n]) <= ReadNat(s)
    ensures n < |s| ==> ReadNat(s[..n]) < ReadNat(s)
  {
    LeadingDigit(s[..n]);
    if n == |s| {
      assert s[..n] == s;
    } else {
      PrefixReadsLess(s[..|s| - 1], n);
      assert s[..|s| - 1][..n] == s[..n];
    }
  }

  lemma {:induction false} LeadingDigit(s: string)
    requires AllDigits(s) && s != [] && s[0] != '0'
    ensures ReadNat(s) > 0
  {
    if |s| > 1 {
      LeadingDigit(s[..|s| - 1]);
    } else {
      assert s[..0] == [];
    }
  }

  lemma {:induction false} NoLeadingZero(n: nat)
    requires n > 0
    ensures ShowNat(n)[0] != '0'
  {
    if n >= 10 { NoLeadingZero(n / 10); }
  }

  lemma OtherRangesDoNotMatch(s: Span)
    requires s.first < s.last && !(1000 <= s.first <= 9999)
    ensures MatchRange(ShowSpan(s)) == None
  {
    var a, t := ShowInt(s.first), ShowSpan(s);
    if s.first < 0 {
      assert t[0] == '-';
      if |t| >= 4 { DigitsNotMinus(t[..4], 0); }
    } else {
      ShowNatLength(s.first);
      if |a| < 4 {
        assert t[|a|] == '-';
        if |t| >= 4 { DigitsNotMinus(t[..4], |a|); }
      } else {
        assert |a| > 4 && t[4] == a[4] && IsDigit(t[4]);
        assert t[4..][0] == t[4];
      }
    }
  }

  lemma SingleYearDoesNotMatch(y: int)
    ensures MatchRange(ShowInt(y)) == None
  {
  }

  /** A range is two years of four digits with a minus sign and any blanks between; what follows
      them is ignored. */
  lemma RangeReads(f: string, a: string, b: string, l: string, rest: string)
    requires |f| == |l| == 4 && AllDigits(f) && AllDigits(l) && Spaces(a) && Spaces(b)
    ensures MatchRange(f + (a + ("-" + (b + (l + rest))))) == Some((ReadNat(f), ReadNat(l)))
    ensures ReadItem(f + (a + ("-" + (b + (l + rest))))) == Range(ReadNat(f), ReadNat(l) + 1)
  {
    hide ReadNat, Range, StripLeft, AllDigits, Spaces;
    var u, t := l + rest, "-" + (b + (l + rest));
    var s := f + (a + t);
    FourInFront(f, a + t);
    FourInFront(l, rest);
    assert t[1..] == b + u && t[0] == '-';
    StripLeftBlanks(a, t);
    StripLeftBlanks(b, u);
  }

  lemma FourInFront(f: string, rest: string)
    requires |f| == 4 && AllDigits(f)
    ensures (f + rest)[..4] == f && (f + rest)[4..] == rest && !IsSpace((f + rest)[0])
  {
    assert (f + rest)[0] == f[0] && IsDigit(f[0]);
  }

  /** The text of years and ranges. */
  lemma SpanText(f: nat, l: nat)
    ensures ShowSpan(Span(f, f)) == ShowNat(f) && (f != l ==> ShowSpan(Span(f, l)) == ShowNat(f) + "-" + ShowNat(l))
  {
  }

  /** What reading makes of one printed span: its years if it is readable; otherwise a part of
      them without the last. */
  lemma ReadShownSpan(s: Span)
    requires s.first <= s.last
    ensures ReadItem(ShowSpan(s)) <= Years(s)
    ensures Readable(s) ==> ReadItem(ShowSpan(s)) == Years(s)
    ensures !Readable(s) ==> s.last !in ReadItem(ShowSpan(s))
  {
    if s.first == s.last {
      SingleYearDoesNotMatch(s.first);
      ParseShowInt(s.first);
      assert Years(s) == {s.first};
    } else if 1000 <= s.first <= 9999 {
      FourDigitsMatch(s.first, s.last);
    } else {
      OtherRangesDoNotMatch(s);
      RangeIsNoNumber(s);
    }
  }

  // ---------------------------------------------------------------- the round trip

  ghost predicate AllReadable(spans: seq<Span>) { forall i :: 0 <= i < |spans| ==> Readable(spans[i]) }

  lemma {:induction false} ReadShownSpans(spans: seq<Span>)
    requires Separated(spans)
    ensures ReadItems(ShowSpans(spans)) <= Union(spans)
    ensures ReadItems(ShowSpans(spans)) == Union(spans) <==> AllReadable(spans)
  {
    hide ReadItem, ShowSpan, Strip;
    if spans != [] {
      var front, s := spans[..|spans| - 1], spans[|spans| - 1];
      ReadShownSpans(front);
      ReadShownSpan(s);
      ShowSpanPlain(s);
      LastRunApart(spans);
      var a, b := ReadItems(ShowSpans(front)), ReadItem(ShowSpan(s));
      assert ReadItems(ShowSpans(spans)) == a + b;
      ApartUnions(a, Union(front), b, Years(s));
      if !Readable(s) { assert s.last in Years(s) && s.last !in b; }
      assert AllReadable(spans) <==> AllReadable(front) && Readable(s);
    }
  }

  lemma ApartUnions(a: set<int>, a': set<int>, b: set<int>, b': set<int>)
    requires a <= a' && b <= b' && a' !! b'
    ensures a + b <= a' + b' && (a + b == a' + b' <==> a == a' && b == b')
  {
  }

  lemma LastRunApart(spans: seq<Span>)
    requires Separated(spans) && spans != []
    ensures Union(spans[..|spans| - 1]) !! Years(spans[|spans| - 1]) && Separated(spans[..|spans| - 1])
  {
    var front := Union(spans[..|spans| - 1]);
    forall y | y in front ensures y !in Years(spans[|spans| - 1]) {
      WithoutLast(spans, y);
    }
  }

  lemma {:induction false} ProcessShown(dates: set<int>)
    requires dates != {}
    ensures Datestr(dates).Printed? && ProcessDates(Datestr(dates).text) == ReadItems(ShowSpans(SpansOf(dates)))
  {
    var spans := SpansOf(dates);
    ShowSpansLength(spans);
    forall i | 0 <= i < |spans| ensures Without(',', ShowSpans(spans)[i]) {
      ShowSpanPlain(spans[i]);
    }
    SplitJoin(ShowSpans(spans), ',');
  }

  /** Consecutive years lie within the years of four digits. */
  ghost predicate ConsecutiveInside(dates: set<int>) {
    forall y :: y in dates && y + 1 in dates ==> 1000 <= y <= 9998
  }

  /** The main result, exact: a set of years comes back if and only if no two consecutive years of
      it reach outside 1000 to 9999. */
  lemma {:induction false} YearsRoundTrip(dates: set<int>)
    requires dates != {}
    ensures Datestr(dates).Printed?
    ensures ProcessDates(Datestr(dates).text) == dates <==>
            ConsecutiveInside(dates)
  {
    hide Datestr, ProcessDates, ReadItems, ShowSpans;
    ProcessShown(dates);
    ReadShownSpans(SpansOf(dates));
    ReadableIff(SpansOf(dates));
  }

  lemma ReadableIff(spans: seq<Span>)
    requires Separated(spans)
    ensures AllReadable(spans) <==> ConsecutiveInside(Union(spans))
  {
    if ConsecutiveInside(Union(spans)) {
      forall i | 0 <= i < |spans| ensures Readable(spans[i]) {
        RunInside(spans, i);
      }
    }
    if AllReadable(spans) {
      var all := Union(spans);
      forall y | y in all && y + 1 in all ensures 1000 <= y <= 9998 {
        var i := RunOfBoth(spans, y);
        assert Readable(spans[i]);
      }
    }
  }

  lemma RunInside(spans: seq<Span>, i: nat)
    requires Separated(spans) && i < |spans|
    requires ConsecutiveInside(Union(spans))
    ensures Readable(spans[i])
  {
    var s := spans[i];
    if s.first < s.last {
      UnionHolds(spans, s.first);
      UnionHolds(spans, s.first + 1);
      UnionHolds(spans, s.last - 1);
      UnionHolds(spans, s.last);
      assert s.last - 1 + 1 in Union(spans);
    }
  }

  lemma RunOfBoth(spans: seq<Span>, y: int) returns (i: nat)
    requires Separated(spans) && y in Union(spans) && y + 1 in Union(spans)
    ensures i < |spans| && spans[i].first <= y < spans[i].last
  {
    UnionHolds(spans, y);
    UnionHolds(spans, y + 1);
    i :| 0 <= i < |spans| && spans[i].first <= y <= spans[i].last;
    var j :| 0 <= j < |spans| && spans[j].first <= y + 1 <= spans[j].last;
    InOneRun(spans, i, j, y, y + 1);
  }
}
