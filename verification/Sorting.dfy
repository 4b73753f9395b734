/** Python's list sort, as the scripts use it: stable, by a comparison that is total and transitive.
    The scripts call the library's sort, so it is modelled as a function rather than as a loop;
    the lemmas pin it down as the one ordered, stable rearrangement of its argument. */
module Sorting {

  /** What a comparison must be for sorting by it to make sense. */
  ghost predicate TotalPreorder<T(!new)>(le: (T, T) -> bool) {
    && (forall x, y :: le(x, y) || le(y, x))
    && (forall x, y, z :: le(x, y) && le(y, z) ==> le(x, z))
  }

  ghost predicate Ordered<T>(le: (T, T) -> bool, s: seq<T>) {
    forall i, j :: 0 <= i < j < |s| ==> le(s[i], s[j])
  }

  /** Puts x behind every element that may stand before it. */
  function Insert<T>(le: (T, T) -> bool, s: seq<T>, x: T): seq<T> {
    if s == [] then [x]
    else if le(s[|s| - 1], x) then s + [x]
    else Insert(le, s[..|s| - 1], x) + [s[|s| - 1]]
  }

  function Sort<T>(le: (T, T) -> bool, s: seq<T>): (r: seq<T>)
    ensures |r| == |s|
  {
    if s == [] then []
    else
      var r := Insert(le, Sort(le, s[..|s| - 1]), s[|s| - 1]);
      InsertLength(le, Sort(le, s[..|s| - 1]), s[|s| - 1]);
      r
  }

  lemma {:induction false} InsertLength<T>(le: (T, T) -> bool, s: seq<T>, x: T)
    ensures |Insert(le, s, x)| == |s| + 1
  {
    if s != [] && !le(s[|s| - 1], x) {
      InsertLength(le, s[..|s| - 1], x);
    }
  }

  /** The elements of s that satisfy p, in the order of s. */
  function Filter<T>(p: T -> bool, s: seq<T>): seq<T> {
    if s == [] then []
    else Filter(p, s[..|s| - 1]) + (if p(s[|s| - 1]) then [s[|s| - 1]] else [])
  }

  lemma {:induction false} FilterMembers<T>(p: T -> bool, s: seq<T>)
    ensures forall x :: x in Filter(p, s) <==> x in s && p(x)
  {
    if s != [] {
      FilterMembers(p, s[..|s| - 1]);
      assert s == s[..|s| - 1] + [s[|s| - 1]];
    }
  }

  lemma {:induction false} FilterConcat<T>(p: T -> bool, a: seq<T>, b: seq<T>)
    ensures Filter(p, a + b) == Filter(p, a) + Filter(p, b)
  {
    if b == [] {
      assert a + b == a;
    } else {
      assert (a + b)[..|a + b| - 1] == a + b[..|b| - 1];
      FilterConcat(p, a, b[..|b| - 1]);
    }
  }

  lemma FilterNext<T>(p: T -> bool, s: seq<T>, x: T)
    ensures Filter(p, s + [x]) == Filter(p, s) + (if p(x) then [x] else [])
  {
  }

  lemma {:induction false} FilterNone<T>(p: T -> bool, s: seq<T>)
    ensures Filter(p, s) == [] <==> forall i :: 0 <= i < |s| ==> !p(s[i])
  {
    if s != [] {
      FilterNone(p, s[..|s| - 1]);
      if Filter(p, s) == [] {
        forall i | 0 <= i < |s| ensures !p(s[i]) {
          if i < |s| - 1 {
            assert s[i] == s[..|s| - 1][i];
          }
        }
      }
    }
  }

  lemma {:induction false} InsertPermutes<T>(le: (T, T) -> bool, s: seq<T>, x: T)
    ensures multiset(Insert(le, s, x)) == multiset(s) + multiset{x}
  {
    if s != [] && !le(s[|s| - 1], x) {
      InsertPermutes(le, s[..|s| - 1], x);
      assert s == s[..|s| - 1] + [s[|s| - 1]];
    }
  }

  lemma {:induction false} SortPermutes<T>(le: (T, T) -> bool, s: seq<T>)
    ensures multiset(Sort(le, s)) == multiset(s)
  {
    if s != [] {
      SortPermutes(le, s[..|s| - 1]);
      InsertPermutes(le, Sort(le, s[..|s| - 1]), s[|s| - 1]);
      assert s == s[..|s| - 1] + [s[|s| - 1]];
    }
  }

  lemma {:induction false} InsertOrdered<T(!new)>(le: (T, T) -> bool, s: seq<T>, x: T)
    requires TotalPreorder(le) && Ordered(le, s)
    ensures Ordered(le, Insert(le, s, x))
  {
    if s != [] && !le(s[|s| - 1], x) {
      var front, last := s[..|s| - 1], s[|s| - 1];
      InsertOrdered(le, front, x);
      var r := Insert(le, front, x);
      InsertPermutes(le, front, x);
      forall i | 0 <= i < |r| ensures le(r[i], last) {
        assert r[i] in multiset(r);
        assert r[i] in front || r[i] == x;
      }
    }
  }

  lemma {:induction false} SortOrdered<T(!new)>(le: (T, T) -> bool, s: seq<T>)
    requires TotalPreorder(le)
    ensures Ordered(le, Sort(le, s))
  {
    if s != [] {
      SortOrdered(le, s[..|s| - 1]);
      InsertOrdered(le, Sort(le, s[..|s| - 1]), s[|s| - 1]);
    }
  }

  /** Insertion stops at a part that is already in front: it only touches the rear. */
  lemma {:induction false} InsertBehind<T>(le: (T, T) -> bool, front: seq<T>, s: seq<T>, x: T)
    requires forall i :: 0 <= i < |front| ==> le(front[i], x)
    ensures Insert(le, front + s, x) == front + Insert(le, s, x)
  {
    var all := front + s;
    if s == [] {
      assert all == front;
    } else {
      assert all[|all| - 1] == s[|s| - 1];
      assert all[..|all| - 1] == front + s[..|s| - 1];
      if !le(s[|s| - 1], x) {
        InsertBehind(le, front, s[..|s| - 1], x);
      }
    }
  }

  lemma {:induction false} SortOfOrdered<T>(le: (T, T) -> bool, s: seq<T>)
    requires Ordered(le, s)
    ensures Sort(le, s) == s
  {
    if |s| > 0 {
      SortOfOrdered(le, s[..|s| - 1]);
      assert s == s[..|s| - 1] + [s[|s| - 1]];
    }
  }

  /** Inserting behind everything filters to inserting behind what is left. */
  lemma FilterLast<T(!new)>(le: (T, T) -> bool, p: T -> bool, s: seq<T>, x: T)
    requires TotalPreorder(le) && Ordered(le, s) && s != [] && le(s[|s| - 1], x) && Filter(p, s) != []
    ensures le(Filter(p, s)[|Filter(p, s)| - 1], x)
  {
    FilterMembers(p, s);
    hide Filter;
    var y := Filter(p, s)[|Filter(p, s)| - 1];
    assert y in Filter(p, s);
    var i :| 0 <= i < |s| && s[i] == y;
    assert le(s[i], s[|s| - 1]);
  }

  lemma FilterAppend<T(!new)>(le: (T, T) -> bool, p: T -> bool, s: seq<T>, x: T)
    requires TotalPreorder(le) && Ordered(le, s) && s != [] && le(s[|s| - 1], x)
    ensures Filter(p, s + [x]) == if p(x) then Insert(le, Filter(p, s), x) else Filter(p, s)
  {
    hide TotalPreorder, Ordered;
    if Filter(p, s) != [] { FilterLast(le, p, s, x); }
    assert (s + [x])[..|s|] == s;
  }

  lemma {:induction false} FilterInsert<T(!new)>(le: (T, T) -> bool, p: T -> bool, s: seq<T>, x: T)
    requires TotalPreorder(le) && Ordered(le, s)
    ensures Filter(p, Insert(le, s, x)) == if p(x) then Insert(le, Filter(p, s), x) else Filter(p, s)
  {
    if s == [] {
      assert Filter(p, [x]) == Filter(p, []) + if p(x) then [x] else [];
    } else {
      var front, last := s[..|s| - 1], s[|s| - 1];
      var f := Filter(p, s);
      if le(last, x) {
        FilterAppend(le, p, s, x);
      } else {
        FilterInsert(le, p, front, x);
        var r := Insert(le, front, x) + [last];
        assert r[..|r| - 1] == Insert(le, front, x);
        var g := Filter(p, front);
        if p(last) {
          assert (g + [last])[..|g|] == g;
        } else if p(x) {
          assert f == g;
        }
      }
    }
  }

  /** Sorting and filtering commute. For p the class of one element this is stability. */
  lemma {:induction false} FilterSort<T(!new)>(le: (T, T) -> bool, p: T -> bool, s: seq<T>)
    requires TotalPreorder(le)
    ensures Filter(p, Sort(le, s)) == Sort(le, Filter(p, s))
  {
    if s != [] {
      var front, last := s[..|s| - 1], s[|s| - 1];
      FilterSort(le, p, front);
      SortOrdered(le, front);
      FilterInsert(le, p, Sort(le, front), last);
      var g := Filter(p, front);
      if p(last) {
        assert (g + [last])[..|g|] == g;
      } else {
        assert g + [] == g;
      }
    }
  }
}
