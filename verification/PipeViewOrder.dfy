/** What the reorder queue of PipeView achieves: bounded disorder in, total order out. */
module PipeViewOrder {
  import opened Sorting
  import opened PipeView

  /** The assumption stated at the head of the script: no instruction is out of order by more
      than k places. */
  ghost predicate DisorderWithin(ins: seq<Inst>, k: int) {
    forall i, j :: 0 <= i < j < |ins| && ins[i].sn > ins[j].sn ==> j - i <= k
  }

  /** How many instructions of s come after sn. */
  function CountAbove(s: seq<Inst>, sn: int): nat {
    if s == [] then 0 else CountAbove(s[..|s| - 1], sn) + (if s[|s| - 1].sn > sn then 1 else 0)
  }

  /** The weaker assumption that the proof needs. */
  ghost predicate FewAbove(ins: seq<Inst>, k: int) {
    forall j :: 0 <= j < |ins| ==> CountAbove(ins[..j], ins[j].sn) <= k
  }

  lemma {:induction false} CountAboveConcat(a: seq<Inst>, b: seq<Inst>, sn: int)
    ensures CountAbove(a + b, sn) == CountAbove(a, sn) + CountAbove(b, sn)
  {
    if b == [] {
      assert a + b == a;
    } else {
      assert (a + b)[..|a + b| - 1] == a + b[..|b| - 1];
      CountAboveConcat(a, b[..|b| - 1], sn);
    }
  }

  lemma {:induction false} CountAboveInsert(s: seq<Inst>, x: Inst, sn: int)
    ensures CountAbove(Insert(SnLe, s, x), sn) == CountAbove(s, sn) + (if x.sn > sn then 1 else 0)
  {
    if s == [] {
      assert [x][..0] == [];
    } else if SnLe(s[|s| - 1], x) {
      assert (s + [x])[..|s|] == s;
    } else {
      CountAboveInsert(s[..|s| - 1], x, sn);
      var r := Insert(SnLe, s[..|s| - 1], x);
      assert (r + [s[|s| - 1]])[..|r|] == r;
    }
  }

  lemma {:induction false} CountAboveSort(s: seq<Inst>, sn: int)
    ensures CountAbove(Sort(SnLe, s), sn) == CountAbove(s, sn)
  {
    if s != [] {
      CountAboveSort(s[..|s| - 1], sn);
      CountAboveInsert(Sort(SnLe, s[..|s| - 1]), s[|s| - 1], sn);
    }
  }

  lemma {:induction false} CountAboveBounds(s: seq<Inst>, sn: int)
    ensures CountAbove(s, sn) <= |s|
    ensures (forall i :: 0 <= i < |s| ==> s[i].sn > sn) ==> CountAbove(s, sn) == |s|
    ensures (forall i :: 0 <= i < |s| ==> s[i].sn <= sn) ==> CountAbove(s, sn) == 0
  {
    if s != [] {
      CountAboveBounds(s[..|s| - 1], sn);
    }
  }

  /** A bound on places is a bound on counts: the k places before j can hold no more than k. */
  lemma DisorderBoundsCount(ins: seq<Inst>, k: nat)
    requires DisorderWithin(ins, k)
    ensures FewAbove(ins, k)
  {
    forall j | 0 <= j < |ins| ensures CountAbove(ins[..j], ins[j].sn) <= k {
      var m := if j > k then j - k else 0;
      assert ins[..j] == ins[..m] + ins[m..j];
      CountAboveConcat(ins[..m], ins[m..j], ins[j].sn);
      CountAboveBounds(ins[..m], ins[j].sn);
      CountAboveBounds(ins[m..j], ins[j].sn);
    }
  }

  /** The pigeonhole: once anything was popped, the min_threshold instructions that stay behind
      keep every later arrival from belonging in front of it. */
  lemma {:induction false} PoppedStayBelow(min: nat, popped: seq<Inst>, queue: seq<Inst>, x: Inst)
    requires Ordered(SnLe, popped + queue)
    requires popped != [] ==> |queue| >= min
    requires CountAbove(popped + queue, x.sn) <= min
    ensures forall i :: 0 <= i < |popped| ==> SnLe(popped[i], x)
  {
    if i :| 0 <= i < |popped| && !SnLe(popped[i], x) {
      var all := popped + queue;
      assert all[i] == popped[i] && all[i].sn > x.sn;
      assert all == all[..i] + all[i..];
      CountAboveConcat(all[..i], all[i..], x.sn);
      forall j | 0 <= j < |all[i..]| ensures all[i..][j].sn > x.sn {
        assert all[i..][j] == all[i + j];
        assert SnLe(all[i], all[i + j]);
      }
      CountAboveBounds(all[i..], x.sn);
      assert false;
    }
  }

  /** At every moment of a run the popped instructions followed by the sorted queue are the sorted
      input so far: nothing is lost, doubled or out of order, whatever the two thresholds are. */
  lemma {:induction false} FeedSorts(min: nat, max: nat, ins: seq<Inst>)
    requires FewAbove(ins, min)
    ensures var st := Feed(min, max, State([], []), ins);
            && st.popped + Sort(SnLe, st.queue) == Sort(SnLe, ins)
            && (st.popped != [] ==> |st.queue| >= min)
  {
    hide Flush, CountAbove;
    if ins == [] {
      assert Sort(SnLe, ins) == [];
    } else {
      var front, x := ins[..|ins| - 1], ins[|ins| - 1];
      forall j | 0 <= j < |front| ensures CountAbove(front[..j], front[j].sn) <= min {
        assert front[..j] == ins[..j];
      }
      FeedSorts(min, max, front);
      var st := Feed(min, max, State([], []), front);
      SnLeIsTotal();
      SortOrdered(SnLe, front);
      CountAboveSort(front, x.sn);
      PoppedStayBelow(min, st.popped, Sort(SnLe, st.queue), x);
      InsertBehind(SnLe, st.popped, Sort(SnLe, st.queue), x);
      assert (st.queue + [x])[..|st.queue|] == st.queue;
      assert st.popped + Sort(SnLe, st.queue + [x]) == Sort(SnLe, ins);
      FlushKeepsOrder(State(st.queue + [x], st.popped), min);
    }
  }

  lemma FlushKeepsOrder(st: State, lower: nat)
    ensures var f := Flush(st, lower);
            && f.popped + Sort(SnLe, f.queue) == st.popped + Sort(SnLe, st.queue)
            && (|st.queue| > lower ==> |f.queue| == lower)
            && (|st.queue| <= lower ==> f.popped == st.popped && |f.queue| == |st.queue|)
  {
    var s := Sort(SnLe, st.queue);
    var n := if |s| > lower then |s| - lower else 0;
    SnLeIsTotal();
    SortOrdered(SnLe, st.queue);
    SortOfOrdered(SnLe, s[n..]);
    assert st.popped + s[..n] + s[n..] == st.popped + s;
  }

  /** The queue never holds more than the larger threshold. */
  lemma {:induction false} QueueStaysSmall(min: nat, max: nat, ins: seq<Inst>)
    ensures |Feed(min, max, State([], []), ins).queue| <= if min > max then min else max
  {
    if ins != [] {
      QueueStaysSmall(min, max, ins[..|ins| - 1]);
      var st := Feed(min, max, State([], []), ins[..|ins| - 1]);
      FlushKeepsOrder(State(st.queue + [ins[|ins| - 1]], st.popped), min);
    }
  }

  /** The claim at the head of the script: if no instruction is out of order by more than
      min_threshold places, what comes out is the whole input, sorted. */
  lemma {:induction false} StreamSorts(min: nat, max: nat, ins: seq<Inst>)
    requires DisorderWithin(ins, min)
    ensures Stream(min, max, ins) == Sort(SnLe, ins)
  {
    DisorderBoundsCount(ins, min);
    FeedSorts(min, max, ins);
    var st := Feed(min, max, State([], []), ins);
    var s := Sort(SnLe, st.queue);
    assert s[..|s|] == s;
  }

  // ---------------------------------------------------------------- the bound is tight

  function Numbered(sn: int): Inst { Inst(sn, "", "", "", map[]) }

  function Evens(n: nat): seq<Inst> { seq(n, i requires 0 <= i => Numbered(2 * i)) }

  /** Ascending input with one latecomer that is out of order by min + 1 places. */
  function OneTooLate(min: nat, max: nat): seq<Inst> {
    var m := if min > max then min else max;
    Evens(m + 1) + [Numbered(2 * (m - min) - 1)]
  }

  /** Ascending input waits in the queue until it fills it; then all but min of it is popped. */
  lemma {:induction false} FeedAscending(min: nat, max: nat, m: nat, s: seq<Inst>)
    requires Ordered(SnLe, s) && m == (if min > max then min else max)
    requires |s| <= m + 1
    ensures |s| <= m ==> Feed(min, max, State([], []), s) == State(s, [])
    ensures |s| == m + 1 ==> Feed(min, max, State([], []), s) == State(s[|s| - min..], s[..|s| - min])
  {
    if s != [] {
      var front, x := s[..|s| - 1], s[|s| - 1];
      FeedAscending(min, max, m, front);
      EnqueueAscending(min, max, m, front, x, s);
    }
  }

  lemma EnqueueAscending(min: nat, max: nat, m: nat, front: seq<Inst>, x: Inst, s: seq<Inst>)
    requires s == front + [x] && Ordered(SnLe, s) && m == (if min > max then min else max)
    ensures |s| <= m ==> Enqueue(min, max, State(front, []), x) == State(s, [])
    ensures |s| == m + 1 ==> Enqueue(min, max, State(front, []), x) == State(s[|s| - min..], s[..|s| - min])
  {
    SortOfOrdered(SnLe, s);
    assert s[0..] == s && s[..0] == [];
    if |s| > min {
      assert [] + s[..|s| - min] == s[..|s| - min];
    }
  }

  /** One place more and the claim fails, for every pair of thresholds. */
  lemma ThresholdIsTight(min: nat, max: nat)
    ensures var ins := OneTooLate(min, max);
            DisorderWithin(ins, min + 1) && !Ordered(SnLe, Stream(min, max, ins))
  {
    hide Flush, Sort;
    var m := if min > max then min else max;
    var ins := OneTooLate(min, max);
    var x := ins[m + 1];
    assert ins[..m + 1] == Evens(m + 1);
    FeedAscending(min, max, m, Evens(m + 1));
    var st := Feed(min, max, State([], []), Evens(m + 1));
    assert st.popped[m - min] == Numbered(2 * (m - min));
    LateOnesComeLate(min, max, st, x);
  }

  /** What is queued last comes out behind everything that was popped before it. */
  lemma LateOnesComeLate(min: nat, max: nat, st: State, x: Inst)
    ensures var all := Flush(Enqueue(min, max, st, x), 0).popped;
            st.popped <= all && exists k :: |st.popped| <= k < |all| && all[k] == x
  {
    var e := Enqueue(min, max, st, x);
    FlushPermutes(State(st.queue + [x], st.popped), min);
    FlushPermutes(e, 0);
    FoundBehind(st.popped, st.queue + [x], Flush(e, 0).popped, x);
  }

  lemma FoundBehind(front: seq<Inst>, rest: seq<Inst>, all: seq<Inst>, x: Inst)
    requires front <= all && x in rest
    requires multiset(all) == multiset(front) + multiset(rest)
    ensures exists k :: |front| <= k < |all| && all[k] == x
  {
    var tail := all[|front|..];
    assert all == front + tail;
    assert multiset(tail) == multiset(all) - multiset(front);
    assert x in multiset(rest);
    assert x in multiset(tail);
    var k :| 0 <= k < |tail| && tail[k] == x;
    assert all[|front| + k] == x;
  }

  lemma FlushPermutes(st: State, lower: nat)
    ensures var f := Flush(st, lower);
            && multiset(f.popped) + multiset(f.queue) == multiset(st.popped) + multiset(st.queue)
            && st.popped <= f.popped
            && (lower == 0 ==> f.queue == [])
  {
    var s := Sort(SnLe, st.queue);
    var n := if |s| > lower then |s| - lower else 0;
    SortPermutes(SnLe, st.queue);
    assert s[..n] + s[n..] == s;
  }
}
