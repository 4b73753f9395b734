/** When the greedy pass of PortBinding binds every port, and what it has bound when it does. */
module PortBindingProofs {
  import opened Counting
  import opened Sorting
  import opened Text
  import opened PortBinding

  // ---------------------------------------------------------------- what the caller hands over

  /** Each port reference is the source of one connection, and each connection is listed in both
      directions. This is what gathering the connections of all objects yields. */
  ghost predicate Symmetric(conns: seq<Conn>) {
    && (forall i, j :: 0 <= i < j < |conns| ==> conns[i].from != conns[j].from)
    && (forall c {:trigger Rev(c)} :: c in conns ==> Rev(c) in conns)
    && (forall c :: c in conns ==> c.from != c.to)
  }

  predicate Touches(c: Conn, r: PortRef) { c.from == r || c.to == r }

  predicate AtPort(c: Conn, k: Key) { KeyOf(c.from) == k || KeyOf(c.to) == k }

  /** How many of the connections are made at port k. */
  function CountPort(made: seq<Conn>, k: Key): nat {
    if made == [] then 0 else CountPort(made[..|made| - 1], k) + (if AtPort(made[|made| - 1], k) then 1 else 0)
  }

  /** Every connection comes when exactly index many others were made at each of its ports: so
      each port is bound at 0, 1, 2 and so on, in this order. */
  ghost predicate InOrder(made: seq<Conn>) {
    forall i :: 0 <= i < |made| ==>
      && KeyOf(made[i].from) != KeyOf(made[i].to)
      && made[i].from.index == CountPort(made[..i], KeyOf(made[i].from))
      && made[i].to.index == CountPort(made[..i], KeyOf(made[i].to))
  }

  // ---------------------------------------------------------------- safety of every prefix

  lemma CountPortNext(made: seq<Conn>, c: Conn, k: Key)
    ensures CountPort(made + [c], k) == CountPort(made, k) + (if AtPort(c, k) then 1 else 0)
  {
  }

  lemma {:induction false} CountPortMonotone(made: seq<Conn>, i: nat, k: Key)
    requires i <= |made|
    ensures CountPort(made[..i], k) <= CountPort(made, k)
  {
    if i == |made| {
      assert made[..i] == made;
    } else {
      assert made[..|made| - 1][..i] == made[..i];
      CountPortMonotone(made[..|made| - 1], i, k);
    }
  }

  /** The counters count, the connections made come from the list, and they are in order. */
  ghost predicate PassInv(conns: seq<Conn>, p: Pass) {
    && !p.failed
    && p.counts.Keys == Sources(conns)
    && (forall k :: k in p.counts ==> p.counts[k] == CountPort(p.made, k))
    && (forall c :: c in p.made ==> c in conns)
    && InOrder(p.made)
  }

  lemma InOrderNext(made: seq<Conn>, c: Conn)
    requires InOrder(made) && KeyOf(c.from) != KeyOf(c.to)
    requires c.from.index == CountPort(made, KeyOf(c.from)) && c.to.index == CountPort(made, KeyOf(c.to))
    ensures InOrder(made + [c])
  {
    hide CountPort, KeyOf;
    forall i | 0 <= i < |made + [c]| ensures (made + [c])[..i] == if i < |made| then made[..i] else made {
    }
  }

  /** A turn makes its connection or does nothing, and counts what it makes. */
  lemma TryMakes(p: Pass, c: Conn)
    requires !p.failed && KeyOf(c.from) in p.counts && KeyOf(c.to) in p.counts && KeyOf(c.from) != KeyOf(c.to)
    ensures var p' := Try(p, c);
            && !p'.failed && p'.counts.Keys == p.counts.Keys
            && (p' == p
                || (p'.made == p.made + [c]
                    && p.counts[KeyOf(c.from)] == c.from.index && p.counts[KeyOf(c.to)] == c.to.index
                    && forall k :: k in p.counts ==> p'.counts[k] == p.counts[k] + if AtPort(c, k) then 1 else 0))
  {
  }

  /** Two references of one port are not bound together: their indices differ. */
  lemma OnePortOnly(conns: seq<Conn>, p: Pass, c: Conn)
    requires Symmetric(conns) && c in conns && !p.failed && KeyOf(c.from) in p.counts && KeyOf(c.from) == KeyOf(c.to)
    ensures Try(p, c) == p
  {
  }

  lemma {:induction false} TryKeepsInv(conns: seq<Conn>, p: Pass, c: Conn)
    requires Symmetric(conns) && PassInv(conns, p) && c in conns
    ensures PassInv(conns, Try(p, c))
  {
    var f, t := KeyOf(c.from), KeyOf(c.to);
    assert Rev(c) in conns;
    assert f in Sources(conns) && t in Sources(conns);
    if f == t {
      OnePortOnly(conns, p, c);
    } else {
      TryMakes(p, c);
      hide Try, KeyOf, Sources, Symmetric, InOrder, CountPort, AtPort;
      var p' := Try(p, c);
      if p' != p {
        forall k ensures CountPort(p'.made, k) == CountPort(p.made, k) + if AtPort(c, k) then 1 else 0 {
          CountPortNext(p.made, c, k);
        }
        InOrderNext(p.made, c);
      }
    }
  }

  lemma {:induction false} TryAllKeepsInv(conns: seq<Conn>, s: seq<Conn>)
    requires Symmetric(conns) && forall c :: c in s ==> c in conns
    ensures PassInv(conns, TryAll(Start(conns), s))
  {
    if s != [] {
      TryAllKeepsInv(conns, s[..|s| - 1]);
      TryKeepsInv(conns, TryAll(Start(conns), s[..|s| - 1]), s[|s| - 1]);
    }
  }

  ghost predicate SameMembers(s: seq<Conn>, conns: seq<Conn>) {
    forall c :: c in s <==> c in conns
  }

  lemma SortedMembers(conns: seq<Conn>)
    ensures SameMembers(Sort(ConnLe, conns), conns)
  {
    SortPermutes(ConnLe, conns);
    var s := Sort(ConnLe, conns);
    forall c ensures c in s <==> c in conns {
      assert c in s <==> c in multiset(s);
      assert c in conns <==> c in multiset(conns);
    }
  }

  /** Indices are bound in order at every port whether or not the pass succeeds. */
  lemma PassIsInOrder(conns: seq<Conn>)
    requires Symmetric(conns)
    ensures PassInv(conns, RunPass(conns))
    ensures Verdict(conns) != KeyError
  {
    SortedMembers(conns);
    TryAllKeepsInv(conns, Sort(ConnLe, conns));
  }

  /** A connection to a port that is nobody's source is an error when its own index is right, and
      otherwise goes unnoticed. */
  lemma UnknownPeer(c: Conn)
    requires KeyOf(c.from) != KeyOf(c.to)
    ensures Verdict([c]) == if c.from.index == 0 then KeyError else CantBeOrdered
  {
    assert Sort(ConnLe, [c]) == [c] by { SortPermutes(ConnLe, [c]); SortOfOrdered(ConnLe, [c]); }
    assert [c][..0] == [];
    assert TryAll(Start([c]), [c]) == Try(Start([c]), c);
    assert c in [c];
  }

  // ---------------------------------------------------------------- bound references

  ghost predicate IsBound(made: seq<Conn>, r: PortRef) {
    exists i :: 0 <= i < |made| && Touches(made[i], r)
  }

  lemma BoundNext(made: seq<Conn>, c: Conn, r: PortRef)
    ensures IsBound(made + [c], r) <==> IsBound(made, r) || Touches(c, r)
  {
    var all := made + [c];
    if IsBound(made, r) {
      var i :| 0 <= i < |made| && Touches(made[i], r);
      assert Touches(all[i], r);
    }
    if Touches(c, r) {
      assert Touches(all[|made|], r);
    }
  }

  lemma OneMoreAtPort(c: Conn, r: PortRef, n: nat)
    requires KeyOf(c.from) != KeyOf(c.to)
    requires KeyOf(c.from) == KeyOf(r) ==> c.from.index == n
    requires KeyOf(c.to) == KeyOf(r) ==> c.to.index == n
    ensures r.index < n + (if AtPort(c, KeyOf(r)) then 1 else 0) <==> r.index < n || Touches(c, r)
  {
  }

  /** The bound indices of a port are those below its count. */
  lemma {:induction false} BoundBelowCount(made: seq<Conn>, r: PortRef)
    requires InOrder(made)
    ensures IsBound(made, r) <==> r.index < CountPort(made, KeyOf(r))
  {
    if made != [] {
      var front, c := made[..|made| - 1], made[|made| - 1];
      InOrderFront(made, |made| - 1);
      BoundBelowCount(front, r);
      assert made == front + [c];
      assert KeyOf(c.from) != KeyOf(c.to);
      assert c.from.index == CountPort(front, KeyOf(c.from)) && c.to.index == CountPort(front, KeyOf(c.to));
      hide IsBound, InOrder, Touches, AtPort, KeyOf;
      BoundNext(front, c, r);
      OneMoreAtPort(c, r, CountPort(front, KeyOf(r)));
    }
  }

  /** No reference is bound twice. */
  lemma BoundOnce(made: seq<Conn>, r: PortRef, i: nat, j: nat)
    requires InOrder(made) && i <= j < |made|
    requires Touches(made[i], r) && Touches(made[j], r)
    ensures i == j
  {
    if i < j {
      var k := KeyOf(r);
      assert made[..i + 1] == made[..i] + [made[i]];
      CountPortNext(made[..i], made[i], k);
      assert made[..j][..i + 1] == made[..i + 1];
      CountPortMonotone(made[..j], i + 1, k);
    }
  }

  // ---------------------------------------------------------------- half the list is all of it

  function Ends(made: seq<Conn>): seq<PortRef> {
    if made == [] then [] else Ends(made[..|made| - 1]) + [made[|made| - 1].from, made[|made| - 1].to]
  }

  lemma {:induction false} EndsAreBound(made: seq<Conn>)
    ensures |Ends(made)| == 2 * |made|
    ensures forall r :: r in Ends(made) <==> IsBound(made, r)
  {
    if made != [] {
      var front, c := made[..|made| - 1], made[|made| - 1];
      EndsAreBound(front);
      forall r ensures r in Ends(made) <==> IsBound(made, r) {
        if IsBound(front, r) {
          var i :| 0 <= i < |front| && Touches(front[i], r);
          assert Touches(made[i], r);
        }
        if IsBound(made, r) {
          var i :| 0 <= i < |made| && Touches(made[i], r);
          if i < |front| { assert Touches(front[i], r); }
        }
        if Touches(c, r) { assert Touches(made[|made| - 1], r); }
      }
    }
  }

  lemma InOrderFront(made: seq<Conn>, n: nat)
    requires InOrder(made) && n <= |made|
    ensures InOrder(made[..n])
  {
    forall i | 0 <= i < n ensures made[..n][..i] == made[..i] {
    }
  }

  lemma {:induction false} EndsDistinct(made: seq<Conn>)
    requires InOrder(made)
    ensures Distinct(Ends(made))
  {
    if made != [] {
      var front, c := made[..|made| - 1], made[|made| - 1];
      InOrderFront(made, |made| - 1);
      EndsDistinct(front);
      EndsAreBound(front);
      BoundBelowCount(front, c.from);
      BoundBelowCount(front, c.to);
      assert c.from !in Ends(front) && c.to !in Ends(front) && c.from != c.to;
    }
  }

  function Froms(conns: seq<Conn>): seq<PortRef> { seq(|conns|, i requires 0 <= i < |conns| => conns[i].from) }

  lemma FromsMembers(conns: seq<Conn>, r: PortRef)
    ensures r in Froms(conns) <==> exists c :: c in conns && c.from == r
  {
    var fs := Froms(conns);
    if r in fs {
      var i :| 0 <= i < |fs| && fs[i] == r;
      assert conns[i] in conns && conns[i].from == r;
    }
    if c :| c in conns && c.from == r {
      var i :| 0 <= i < |conns| && conns[i] == c;
      assert fs[i] == r;
    }
  }

  /** Connections of the list, made in order. */
  ghost predicate MadeFrom(conns: seq<Conn>, made: seq<Conn>) {
    InOrder(made) && forall c :: c in made ==> c in conns
  }

  ghost predicate AllBound(conns: seq<Conn>, made: seq<Conn>) {
    forall c :: c in conns ==> IsBound(made, c.from)
  }

  lemma EndsAreSources(conns: seq<Conn>, made: seq<Conn>, r: PortRef)
    requires Symmetric(conns) && MadeFrom(conns, made) && r in Ends(made)
    ensures r in Froms(conns)
  {
    EndsAreBound(made);
    var i :| 0 <= i < |made| && Touches(made[i], r);
    var c := made[i];
    assert c in conns && Rev(c) in conns;
    FromsMembers(conns, r);
    assert c.from == r || Rev(c).from == r;
  }

  /** Half as many connections as the list holds have been made exactly when every reference is bound. */
  lemma HalfIsAll(conns: seq<Conn>, made: seq<Conn>)
    requires Symmetric(conns) && MadeFrom(conns, made)
    ensures |made| * 2 == |conns| <==> AllBound(conns, made)
  {
    var fs, es := Froms(conns), Ends(made);
    EndsAreBound(made);
    EndsDistinct(made);
    DistinctSize(es);
    DistinctSize(fs);
    var f, e := set r | r in fs, set r | r in es;
    forall r | r in e ensures r in f {
      EndsAreSources(conns, made, r);
    }
    if |made| * 2 == |conns| {
      SubsetOfSameSize(e, f);
      forall c | c in conns ensures IsBound(made, c.from) {
        FromsMembers(conns, c.from);
        assert c.from in f;
      }
    }
    if AllBound(conns, made) {
      forall r | r in f ensures r in e {
        FromsMembers(conns, r);
      }
      assert e == f;
    }
  }

  // ---------------------------------------------------------------- safety of success

  lemma SameSource(conns: seq<Conn>, a: Conn, b: Conn)
    requires Symmetric(conns) && a in conns && b in conns && a.from == b.from
    ensures a == b
  {
  }

  /** A connection of the list that ends in r is the one from r, in one of its directions. */
  lemma OneConnectionPerRef(conns: seq<Conn>, c: Conn, d: Conn)
    requires Symmetric(conns) && c in conns && d in conns && Touches(d, c.from)
    ensures d == c || d == Rev(c)
  {
    assert Rev(d) in conns;
    if d.from == c.from {
      SameSource(conns, d, c);
    } else {
      SameSource(conns, Rev(d), c);
    }
  }

  lemma {:induction false} OneDirection(conns: seq<Conn>, made: seq<Conn>, c: Conn)
    requires Symmetric(conns) && MadeFrom(conns, made) && AllBound(conns, made) && c in conns
    ensures (c in made) != (Rev(c) in made)
  {
    var i :| 0 <= i < |made| && Touches(made[i], c.from);
    OneConnectionPerRef(conns, c, made[i]);
    if c in made && Rev(c) in made {
      var m :| 0 <= m < |made| && made[m] == c;
      var n :| 0 <= n < |made| && made[n] == Rev(c);
      if m <= n { BoundOnce(made, c.from, m, n); } else { BoundOnce(made, c.from, n, m); }
    }
  }

  lemma BoundMeansAllBound(conns: seq<Conn>)
    requires Symmetric(conns)
    ensures MadeFrom(conns, RunPass(conns).made)
    ensures Verdict(conns) == Bound <==> AllBound(conns, RunPass(conns).made)
  {
    PassIsInOrder(conns);
    HalfIsAll(conns, RunPass(conns).made);
  }

  /** Success: one direction of each connection is bound, never both. */
  lemma BoundMeansOneDirection(conns: seq<Conn>, c: Conn)
    requires Symmetric(conns) && Verdict(conns) == Bound && c in conns
    ensures (c in RunPass(conns).made) != (Rev(c) in RunPass(conns).made)
  {
    BoundMeansAllBound(conns);
    OneDirection(conns, RunPass(conns).made, c);
  }

  /** Success: every reference is an end of exactly one bound connection, and it is bound when its
      port has exactly index many connections. */
  lemma BoundMeansEveryRefOnce(conns: seq<Conn>, c: Conn)
    requires Symmetric(conns) && Verdict(conns) == Bound && c in conns
    ensures var made := RunPass(conns).made;
            exists i :: 0 <= i < |made| && Touches(made[i], c.from)
              && c.from.index == CountPort(made[..i], KeyOf(c.from))
              && forall j :: 0 <= j < |made| && Touches(made[j], c.from) ==> j == i
  {
    BoundMeansAllBound(conns);
    EveryRefOnce(conns, RunPass(conns).made, c.from);
  }

  lemma {:induction false} EveryRefOnce(conns: seq<Conn>, made: seq<Conn>, r: PortRef)
    requires MadeFrom(conns, made) && IsBound(made, r)
    ensures exists i :: 0 <= i < |made| && Touches(made[i], r)
              && r.index == CountPort(made[..i], KeyOf(r))
              && forall j :: 0 <= j < |made| && Touches(made[j], r) ==> j == i
  {
    var i :| 0 <= i < |made| && Touches(made[i], r);
    forall j | 0 <= j < |made| && Touches(made[j], r) ensures j == i {
      if i <= j { BoundOnce(made, r, i, j); } else { BoundOnce(made, r, j, i); }
    }
  }

  // ---------------------------------------------------------------- exactly when it succeeds

  function Pred(r: PortRef): PortRef
    requires r.index > 0
  {
    r.(index := r.index - 1)
  }

  ghost predicate PredecessorFirst(chosen: set<Conn>, c: Conn, r: PortRef) {
    r.index > 0 ==> exists d :: d in chosen && Touches(d, Pred(r)) && Before(d, c)
  }

  ghost predicate InItsPlace(chosen: set<Conn>, c: Conn) {
    PredecessorFirst(chosen, c, c.from) && PredecessorFirst(chosen, c, c.to)
  }

  /** A choice of one direction for each connection in which no reference comes before its
      predecessor at the same port. */
  ghost predicate GoodChoice(conns: seq<Conn>, chosen: set<Conn>) {
    && (forall c :: c in chosen ==> c in conns)
    && (forall c {:trigger Rev(c)} :: c in conns ==> (c in chosen) != (Rev(c) in chosen))
    && (forall c {:trigger InItsPlace(chosen, c)} :: c in chosen ==> InItsPlace(chosen, c))
  }

  lemma {:induction false} MadeIsSorted(p: Pass, s: seq<Conn>)
    requires Ordered(ConnLe, s) && p.made == []
    ensures Ordered(ConnLe, TryAll(p, s).made)
    ensures forall c :: c in TryAll(p, s).made ==> c in s
  {
    if s != [] {
      MadeIsSorted(p, s[..|s| - 1]);
      var m := TryAll(p, s[..|s| - 1]).made;
      forall i | 0 <= i < |m| ensures ConnLe(m[i], s[|s| - 1]) {
        assert m[i] in s[..|s| - 1];
      }
    }
  }

  lemma MadePredecessorFirst(made: seq<Conn>, i: nat, r: PortRef)
    requires InOrder(made) && Ordered(ConnLe, made) && i < |made| && Touches(made[i], r)
    ensures PredecessorFirst((set c | c in made), made[i], r)
  {
    if r.index > 0 {
      InOrderFront(made, i);
      BoundBelowCount(made[..i], Pred(r));
      var j :| 0 <= j < i && Touches(made[..i][j], Pred(r));
      var c, d := made[i], made[j];
      if ConnLe(c, d) {
        ConnLeTotal(c, d);
        BoundOnce(made, c.from, j, i);
      }
      assert d in made;
    }
  }

  /** If the pass succeeds there is a good choice: what it has made. */
  lemma SuccessIsGoodChoice(conns: seq<Conn>)
    requires Symmetric(conns) && Verdict(conns) == Bound
    ensures GoodChoice(conns, set c | c in RunPass(conns).made)
  {
    BoundMeansAllBound(conns);
    ConnLeIsTotal();
    SortOrdered(ConnLe, conns);
    MadeIsSorted(Start(conns), Sort(ConnLe, conns));
    MadeIsGood(conns, RunPass(conns).made);
  }

  lemma {:induction false} MadeIsGood(conns: seq<Conn>, made: seq<Conn>)
    requires Symmetric(conns) && MadeFrom(conns, made) && AllBound(conns, made) && Ordered(ConnLe, made)
    ensures GoodChoice(conns, set c | c in made)
  {
    var chosen := set c | c in made;
    forall c | c in conns ensures (c in chosen) != (Rev(c) in chosen) {
      OneDirection(conns, made, c);
    }
    forall c | c in chosen ensures InItsPlace(chosen, c) {
      var i :| 0 <= i < |made| && made[i] == c;
      MadePredecessorFirst(made, i, c.from);
      MadePredecessorFirst(made, i, c.to);
    }
  }

  /** The chosen connections among the first n are bound. */
  ghost predicate Ahead(chosen: set<Conn>, s: seq<Conn>, n: nat, made: seq<Conn>)
    requires n <= |s|
  {
    forall i :: 0 <= i < n && s[i] in chosen ==> IsBound(made, s[i].from) && IsBound(made, s[i].to)
  }

  /** When a chosen connection has its turn, the indices below it are bound already. */
  lemma {:induction false} PredecessorsBound(chosen: set<Conn>, s: seq<Conn>, n: nat, made: seq<Conn>, r: PortRef)
    requires Ordered(ConnLe, s) && n < |s| && InOrder(made)
    requires forall c :: c in chosen ==> c in s
    requires PredecessorFirst(chosen, s[n], r) && Ahead(chosen, s, n, made)
    ensures CountPort(made, KeyOf(r)) >= r.index
  {
    if r.index > 0 {
      var d :| d in chosen && Touches(d, Pred(r)) && Before(d, s[n]);
      var i :| 0 <= i < |s| && s[i] == d;
      assert i < n;
      BoundBelowCount(made, Pred(r));
    }
  }

  /** Both ends of a connection are bound or neither is. */
  lemma BoundTogether(conns: seq<Conn>, made: seq<Conn>, c: Conn)
    requires Symmetric(conns) && c in conns && forall d :: d in made ==> d in conns
    ensures IsBound(made, c.from) <==> IsBound(made, c.to)
  {
    assert Rev(c) in conns;
    if IsBound(made, c.from) {
      var i :| 0 <= i < |made| && Touches(made[i], c.from);
      OneConnectionPerRef(conns, c, made[i]);
      assert Touches(made[i], c.to);
    }
    if IsBound(made, c.to) {
      var i :| 0 <= i < |made| && Touches(made[i], c.to);
      OneConnectionPerRef(conns, Rev(c), made[i]);
      assert Touches(made[i], c.from);
    }
  }

  lemma StaysBound(made: seq<Conn>, c: Conn, r: PortRef)
    ensures IsBound(made, r) ==> IsBound(made + [c], r)
    ensures Touches(c, r) ==> IsBound(made + [c], r)
  {
    BoundNext(made, c, r);
  }

  lemma StaysBoundAfter(p: Pass, c: Conn, r: PortRef)
    requires IsBound(p.made, r)
    ensures IsBound(Try(p, c).made, r)
  {
    StaysBound(p.made, c, r);
  }

  /** A chosen connection that has its turn with its predecessors bound is bound after it. */
  lemma {:induction false} TurnBinds(conns: seq<Conn>, p: Pass, c: Conn)
    requires Symmetric(conns) && PassInv(conns, p) && c in conns
    requires CountPort(p.made, KeyOf(c.from)) >= c.from.index && CountPort(p.made, KeyOf(c.to)) >= c.to.index
    ensures IsBound(Try(p, c).made, c.from) && IsBound(Try(p, c).made, c.to)
  {
    hide IsBound, InOrder;
    BoundTogether(conns, p.made, c);
    BoundBelowCount(p.made, c.from);
    BoundBelowCount(p.made, c.to);
    StaysBound(p.made, c, c.from);
    StaysBound(p.made, c, c.to);
    assert Rev(c) in conns;
    assert KeyOf(c.from) in Sources(conns) && KeyOf(Rev(c).from) in Sources(conns);
  }

  lemma AheadNext(chosen: set<Conn>, s: seq<Conn>, n: nat, p: Pass)
    requires n < |s| && Ahead(chosen, s, n, p.made)
    requires s[n] in chosen ==> IsBound(Try(p, s[n]).made, s[n].from) && IsBound(Try(p, s[n]).made, s[n].to)
    ensures Ahead(chosen, s, n + 1, Try(p, s[n]).made)
  {
    forall i | 0 <= i < n && s[i] in chosen
      ensures IsBound(Try(p, s[n]).made, s[i].from) && IsBound(Try(p, s[n]).made, s[i].to)
    {
      StaysBoundAfter(p, s[n], s[i].from);
      StaysBoundAfter(p, s[n], s[i].to);
    }
  }

  lemma {:induction false} AheadTurn(conns: seq<Conn>, chosen: set<Conn>, s: seq<Conn>, n: nat, p: Pass)
    requires Symmetric(conns) && GoodChoice(conns, chosen) && PassInv(conns, p)
    requires Ordered(ConnLe, s) && n < |s| && SameMembers(s, conns)
    requires Ahead(chosen, s, n, p.made) && s[n] in chosen
    ensures IsBound(Try(p, s[n]).made, s[n].from) && IsBound(Try(p, s[n]).made, s[n].to)
  {
    assert InItsPlace(chosen, s[n]);
    PredecessorsBound(chosen, s, n, p.made, s[n].from);
    PredecessorsBound(chosen, s, n, p.made, s[n].to);
    TurnBinds(conns, p, s[n]);
  }

  /** The greedy pass is never behind a good choice. */
  lemma {:induction false} GreedyStaysAhead(conns: seq<Conn>, chosen: set<Conn>, s: seq<Conn>, n: nat)
    requires Symmetric(conns) && GoodChoice(conns, chosen)
    requires Ordered(ConnLe, s) && n <= |s| && SameMembers(s, conns)
    ensures Ahead(chosen, s, n, TryAll(Start(conns), s[..n]).made)
  {
    if n > 0 {
      GreedyStaysAhead(conns, chosen, s, n - 1);
      TryAllKeepsInv(conns, s[..n - 1]);
      assert s[..n][..n - 1] == s[..n - 1];
      var p := TryAll(Start(conns), s[..n - 1]);
      if s[n - 1] in chosen {
        AheadTurn(conns, chosen, s, n - 1, p);
      }
      AheadNext(chosen, s, n - 1, p);
    }
  }

  lemma AheadAtEnd(conns: seq<Conn>, chosen: set<Conn>, s: seq<Conn>, made: seq<Conn>)
    requires GoodChoice(conns, chosen) && SameMembers(s, conns) && Ahead(chosen, s, |s|, made)
    ensures AllBound(conns, made)
  {
    forall c | c in conns ensures IsBound(made, c.from) {
      var d := if c in chosen then c else Rev(c);
      assert d in s;
      var i :| 0 <= i < |s| && s[i] == d;
    }
  }

  lemma GoodChoiceSucceeds(conns: seq<Conn>, chosen: set<Conn>)
    requires Symmetric(conns) && GoodChoice(conns, chosen)
    ensures Verdict(conns) == Bound
  {
    var s := Sort(ConnLe, conns);
    SortedMembers(conns);
    ConnLeIsTotal();
    SortOrdered(ConnLe, conns);
    GreedyStaysAhead(conns, chosen, s, |s|);
    assert s[..|s|] == s;
    AheadAtEnd(conns, chosen, s, RunPass(conns).made);
    BoundMeansAllBound(conns);
  }

  /** The main result. The pass succeeds exactly when some choice of directions would: greed
      costs nothing. */
  lemma SucceedsIffGoodChoice(conns: seq<Conn>)
    requires Symmetric(conns)
    ensures Verdict(conns) == Bound <==> exists chosen :: GoodChoice(conns, chosen)
  {
    if Verdict(conns) == Bound {
      SuccessIsGoodChoice(conns);
    }
    if chosen :| GoodChoice(conns, chosen) {
      GoodChoiceSucceeds(conns, chosen);
    }
  }

  // ---------------------------------------------------------------- the order spelled out

  /** A reference comes before another by its object, then its port, then its index. */
  lemma RefOrder(a: PortRef, b: PortRef)
    ensures RefLe(a, b) && !RefLe(b, a) <==>
            || Lower(a.obj, b.obj)
            || (a.obj == b.obj && Lower(a.port, b.port))
            || (a.obj == b.obj && a.port == b.port && a.index < b.index)
  {
    StrLeMeans(a.obj, b.obj);
    StrLeMeans(b.obj, a.obj);
    StrLeMeans(a.port, b.port);
    StrLeMeans(b.port, a.port);
    StrLeTotal(a.obj, b.obj);
    StrLeTotal(a.port, b.port);
  }

  /** A connection comes before another by its source, then its destination. */
  lemma ConnOrder(a: Conn, b: Conn)
    ensures Before(a, b) <==>
            || Lower(a.from.obj, b.from.obj)
            || (a.from.obj == b.from.obj && Lower(a.from.port, b.from.port))
            || (a.from.obj == b.from.obj && a.from.port == b.from.port && a.from.index < b.from.index)
            || (a.from == b.from && Lower(a.to.obj, b.to.obj))
            || (a.from == b.from && a.to.obj == b.to.obj && Lower(a.to.port, b.to.port))
            || (a.from == b.from && a.to.obj == b.to.obj && a.to.port == b.to.port && a.to.index < b.to.index)
  {
    RefOrder(a.from, b.from);
    RefOrder(a.to, b.to);
    RefLeTotal(a.from, b.from);
    RefLeTotal(a.to, b.to);
    RefLeTotal(a.from, a.from);
  }

  /** The connections are made in that order. */
  lemma MadeInOrder(conns: seq<Conn>, i: nat, j: nat)
    requires Symmetric(conns) && i < j < |RunPass(conns).made|
    ensures var a, b := RunPass(conns).made[i].from, RunPass(conns).made[j].from;
            || Lower(a.obj, b.obj)
            || (a.obj == b.obj && Lower(a.port, b.port))
            || (a.obj == b.obj && a.port == b.port && a.index < b.index)
  {
    hide Lower, RefLe, InOrder;
    var made := RunPass(conns).made;
    PassIsInOrder(conns);
    ConnLeIsTotal();
    SortOrdered(ConnLe, conns);
    MadeIsSorted(Start(conns), Sort(ConnLe, conns));
    assert ConnLe(made[i], made[j]);
    if made[i].from == made[j].from { BoundOnce(made, made[i].from, i, j); }
    RefLeTotal(made[i].from, made[j].from);
    RefOrder(made[i].from, made[j].from);
  }

  /** Three connections in a triangle, which succeeds because objects are compared before ports. */
  function Triangle(): seq<Conn> {
    var a0, a1 := PortRef("a", "q", 0), PortRef("a", "q", 1);
    var b0, b1 := PortRef("b", "q", 0), PortRef("b", "q", 1);
    var c0, c1 := PortRef("c", "p", 0), PortRef("c", "p", 1);
    [Conn(a0, b0), Conn(a1, c1), Conn(b0, a0), Conn(b1, c0), Conn(c0, b1), Conn(c1, a1)]
  }

  lemma TriangleIsSorted()
    ensures Sort(ConnLe, Triangle()) == Triangle()
  {
    var s := Triangle();
    assert StrLe("a", "b") && StrLe("b", "c") && StrLe("a", "c");
    forall i, j | 0 <= i < j < |s| ensures ConnLe(s[i], s[j]) {
    }
    SortOfOrdered(ConnLe, s);
  }

  lemma TryTwo(p: Pass, s: seq<Conn>, a: Conn, b: Conn)
    ensures TryAll(p, s + [a, b]) == Try(Try(TryAll(p, s), a), b)
  {
    assert (s + [a, b])[..|s| + 1] == s + [a] && (s + [a])[..|s|] == s;
  }

  lemma TriangleStart()
    ensures Start(Triangle()) == Pass(map[Key("a", "q") := 0, Key("b", "q") := 0, Key("c", "p") := 0], [], false)
  {
    var s := Triangle();
    assert s[0] in s && s[2] in s && s[4] in s;
    assert Sources(s) == {Key("a", "q"), Key("b", "q"), Key("c", "p")};
  }

  lemma TriangleBinds()
    ensures Verdict(Triangle()) == Bound
    ensures RunPass(Triangle()).made == [Triangle()[0], Triangle()[3], Triangle()[5]]
  {
    var s := Triangle();
    TriangleIsSorted();
    TriangleStart();
    var p := Start(s);
    TryTwo(p, [], s[0], s[1]);
    TryTwo(p, [s[0], s[1]], s[2], s[3]);
    TryTwo(p, [s[0], s[1], s[2], s[3]], s[4], s[5]);
    assert [] + [s[0], s[1]] == [s[0], s[1]];
    assert [s[0], s[1]] + [s[2], s[3]] == [s[0], s[1], s[2], s[3]];
    assert [s[0], s[1], s[2], s[3]] + [s[4], s[5]] == s;
    TriangleTurns(s, Key("a", "q"), Key("b", "q"), Key("c", "p"));
  }

  lemma TriangleTurns(s: seq<Conn>, a: Key, b: Key, c: Key)
    requires |s| == 6 && a != b && b != c && a != c
    requires KeyOf(s[0].from) == KeyOf(s[1].from) == KeyOf(s[2].to) == KeyOf(s[5].to) == a
    requires KeyOf(s[2].from) == KeyOf(s[3].from) == KeyOf(s[0].to) == KeyOf(s[4].to) == b
    requires KeyOf(s[4].from) == KeyOf(s[5].from) == KeyOf(s[3].to) == KeyOf(s[1].to) == c
    requires s[0].from.index == 0 && s[0].to.index == 0 && s[1].to.index == 1 && s[2].from.index == 0
    requires s[3].from.index == 1 && s[3].to.index == 0 && s[4].from.index == 0
    requires s[5].from.index == 1 && s[5].to.index == 1
    ensures Try(Try(Try(Try(Try(Try(Pass(map[a := 0, b := 0, c := 0], [], false), s[0]),
                s[1]), s[2]), s[3]), s[4]), s[5])
         == Pass(map[a := 2, b := 2, c := 2], [s[0], s[3], s[5]], false)
  {
    var p1 := Try(Pass(map[a := 0, b := 0, c := 0], [], false), s[0]);
    assert p1 == Pass(map[a := 1, b := 1, c := 0], [s[0]], false);
    assert Try(p1, s[1]) == p1 && Try(p1, s[2]) == p1;
    var p4 := Try(p1, s[3]);
    assert p4 == Pass(map[a := 1, b := 2, c := 1], [s[0], s[3]], false);
    assert Try(p4, s[4]) == p4;
  }

  // ---------------------------------------------------------------- a class that succeeds

  /** The port has one reference only. */
  ghost predicate Scalar(conns: seq<Conn>, k: Key) {
    forall c :: c in conns && KeyOf(c.from) == k ==> c.from.index == 0
  }

  /** The indices of a port have no gaps. */
  ghost predicate Contiguous(conns: seq<Conn>) {
    forall c :: c in conns && c.from.index > 0 ==>
      exists d :: d in conns && d.from == c.from.(index := c.from.index - 1)
  }

  /** If no connection joins two vector ports, the one pass always succeeds. */
  lemma ScalarPeersSucceed(conns: seq<Conn>)
    requires Symmetric(conns) && Contiguous(conns)
    requires forall c :: c in conns ==> Scalar(conns, KeyOf(c.from)) || Scalar(conns, KeyOf(c.to))
    ensures Verdict(conns) == Bound
  {
    var chosen := set c | c in conns && FromVector(conns, c);
    forall c | c in conns ensures (c in chosen) != (Rev(c) in chosen) {
      assert Rev(c) in conns;
      RefLeTotal(c.from, c.to);
    }
    forall c | c in chosen ensures InItsPlace(chosen, c) {
      assert Rev(c) in conns && c.to.index == 0;
      if c.from.index > 0 {
        var d :| d in conns && d.from == Pred(c.from);
        FromVectorPred(conns, c, d);
      }
    }
    GoodChoiceSucceeds(conns, chosen);
  }

  lemma FromVectorPred(conns: seq<Conn>, c: Conn, d: Conn)
    requires c in conns && FromVector(conns, c) && c.from.index > 0
    requires d in conns && d.from == Pred(c.from)
    requires Scalar(conns, KeyOf(d.from)) || Scalar(conns, KeyOf(d.to))
    ensures FromVector(conns, d) && Touches(d, Pred(c.from)) && Before(d, c)
  {
  }

  /** The direction that leads away from a vector port; between scalar ports, the smaller one. */
  ghost predicate FromVector(conns: seq<Conn>, c: Conn) {
    if Scalar(conns, KeyOf(c.from)) && Scalar(conns, KeyOf(c.to)) then RefLe(c.from, c.to)
    else Scalar(conns, KeyOf(c.to))
  }

  // ---------------------------------------------------------------- where it fails

  /** The comment in the source says that sorting always makes one of each pair bindable. Two
      crossing connections between vector ports refute it. */
  function Crossing(): seq<Conn> {
    var a0, a1 := PortRef("a", "p", 0), PortRef("a", "p", 1);
    var b0, b1 := PortRef("b", "q", 0), PortRef("b", "q", 1);
    [Conn(a0, b1), Conn(a1, b0), Conn(b0, a1), Conn(b1, a0)]
  }

  lemma CrossingIsSymmetric()
    ensures Symmetric(Crossing()) && Contiguous(Crossing())
  {
  }

  /** In a good choice for the crossing each of the two connections would have to come first. */
  lemma CrossingHasNoGoodChoice(chosen: set<Conn>)
    ensures !GoodChoice(Crossing(), chosen)
  {
    var s := Crossing();
    assert s[0] in s && s[1] in s && s[2] in s && s[2] == Rev(s[1]);
    if GoodChoice(s, chosen) {
      var u := if s[0] in chosen then s[0] else Rev(s[0]);
      var v := if s[1] in chosen then s[1] else Rev(s[1]);
      CrossingIsSymmetric();
      ComesAfter(s, chosen, u, v, s[2], PortRef("b", "q", 1));
      ComesAfter(s, chosen, v, u, s[0], PortRef("a", "p", 1));
    }
  }

  lemma ComesAfter(conns: seq<Conn>, chosen: set<Conn>, u: Conn, v: Conn, b: Conn, r: PortRef)
    requires Symmetric(conns) && GoodChoice(conns, chosen) && u in chosen && v in chosen
    requires b in conns && (v == b || v == Rev(b))
    requires (u.from == r || u.to == r) && r.index > 0 && b.from == Pred(r)
    ensures Before(v, u)
  {
    assert InItsPlace(chosen, u);
    var d :| d in chosen && Touches(d, Pred(r)) && Before(d, u);
    OneConnectionPerRef(conns, b, d);
    assert d == v;
  }

  lemma CrossingFails()
    ensures Verdict(Crossing()) == CantBeOrdered
  {
    CrossingIsSymmetric();
    PassIsInOrder(Crossing());
    SucceedsIffGoodChoice(Crossing());
    forall chosen ensures !GoodChoice(Crossing(), chosen) {
      CrossingHasNoGoodChoice(chosen);
    }
  }

  /** Why a connection from a reference to itself is excluded: it is listed once and counts twice,
      so two of them make up for a pair that is not bound, and the final check passes. */
  function Looped(): seq<Conn> {
    var b0, b1 := PortRef("b", "p", 0), PortRef("b", "p", 1);
    var c0, x0 := PortRef("c", "p", 0), PortRef("x", "p", 0);
    [Conn(b0, b0), Conn(b1, x0), Conn(c0, c0), Conn(x0, b1)]
  }

  lemma LoopedIsSorted()
    ensures Sort(ConnLe, Looped()) == Looped()
  {
    var s := Looped();
    assert StrLe("b", "c") && StrLe("b", "x") && StrLe("c", "x");
    forall i, j | 0 <= i < j < |s| ensures ConnLe(s[i], s[j]) {
    }
    SortOfOrdered(ConnLe, s);
  }

  lemma TryFour(p: Pass, a: Conn, b: Conn, c: Conn, d: Conn)
    ensures TryAll(p, [a, b, c, d]) == Try(Try(Try(Try(p, a), b), c), d)
  {
    var s := [a, b, c, d];
    assert s[..3] == [a, b, c] && s[..3][..2] == [a, b] && [a, b][..1] == [a] && [a][..0] == [];
    assert TryAll(p, [a]) == Try(p, a);
    assert TryAll(p, [a, b]) == Try(Try(p, a), b);
    assert TryAll(p, [a, b, c]) == Try(Try(Try(p, a), b), c);
  }

  lemma LoopedStart()
    ensures Start(Looped()) == Pass(map[Key("b", "p") := 0, Key("c", "p") := 0, Key("x", "p") := 0], [], false)
  {
  }

  lemma LoopsFoolTheCheck()
    ensures Verdict(Looped()) == Bound
    ensures RunPass(Looped()).made == [Looped()[0], Looped()[2]]
    ensures Looped()[1] !in RunPass(Looped()).made && Rev(Looped()[1]) !in RunPass(Looped()).made
  {
    var s := Looped();
    LoopedIsSorted();
    LoopedStart();
    TryFour(Start(s), s[0], s[1], s[2], s[3]);
    LoopedTurns(s, Key("b", "p"), Key("c", "p"), Key("x", "p"));
  }

  lemma LoopedTurns(s: seq<Conn>, b: Key, c: Key, x: Key)
    requires |s| == 4 && b != c && c != x && b != x
    requires KeyOf(s[0].from) == KeyOf(s[0].to) == b && s[0].from.index == 0 && s[0].to.index == 0
    requires KeyOf(s[1].from) == b && s[1].from.index == 1
    requires KeyOf(s[2].from) == KeyOf(s[2].to) == c && s[2].from.index == 0 && s[2].to.index == 0
    requires KeyOf(s[3].from) == x && KeyOf(s[3].to) == b && s[3].to.index == 1
    ensures Try(Try(Try(Try(Pass(map[b := 0, c := 0, x := 0], [], false), s[0]), s[1]), s[2]), s[3])
         == Pass(map[b := 2, c := 2, x := 0], [s[0], s[2]], false)
  {
  }

  // ---------------------------------------------------------------- when the final check is right

  /** Every reference is a source once, and every connection is listed in both directions. */
  ghost predicate BothWays(conns: seq<Conn>) {
    && (forall i, j :: 0 <= i < j < |conns| ==> conns[i].from != conns[j].from)
    && (forall c {:trigger Rev(c)} :: c in conns ==> Rev(c) in conns)
  }

  function IsLoop(c: Conn): bool { c.from == c.to }

  function EndSet(made: seq<Conn>): set<PortRef> {
    if made == [] then {} else EndSet(made[..|made| - 1]) + {made[|made| - 1].from, made[|made| - 1].to}
  }

  function Loops(made: seq<Conn>): nat {
    if made == [] then 0 else Loops(made[..|made| - 1]) + if IsLoop(made[|made| - 1]) then 1 else 0
  }

  /** Counters are above all that is bound, so that nothing is bound twice; a self-connection gives
      one end and not two. */
  ghost predicate LoopInv(conns: seq<Conn>, p: Pass) {
    && !p.failed && p.counts.Keys == Sources(conns)
    && (forall c :: c in p.made ==> c in conns)
    && EndsBelow(EndSet(p.made), p.counts)
    && |EndSet(p.made)| + Loops(p.made) == 2 * |p.made|
  }

  ghost predicate EndsBelow(ends: set<PortRef>, counts: map<Key, nat>) {
    forall r :: r in ends ==> KeyOf(r) in counts && r.index < counts[KeyOf(r)]
  }

  lemma EndsStayBelow(ends: set<PortRef>, counts: map<Key, nat>, after: map<Key, nat>)
    requires EndsBelow(ends, counts) && after.Keys == counts.Keys && forall k :: k in counts ==> after[k] >= counts[k]
    ensures EndsBelow(ends, after)
  {
  }

  lemma NewEnd(ends: set<PortRef>, counts: map<Key, nat>, r: PortRef)
    requires EndsBelow(ends, counts) && KeyOf(r) in counts && counts[KeyOf(r)] == r.index
    ensures r !in ends
  {
  }

  lemma TwoMoreBelow(ends: set<PortRef>, counts: map<Key, nat>, c: Conn)
    requires EndsBelow(ends, counts) && KeyOf(c.from) in counts && KeyOf(c.to) in counts
    requires c.from.index < counts[KeyOf(c.from)] && c.to.index < counts[KeyOf(c.to)]
    ensures EndsBelow(ends + {c.from, c.to}, counts)
  {
  }

  lemma EndSetNext(made: seq<Conn>, c: Conn)
    ensures EndSet(made + [c]) == EndSet(made) + {c.from, c.to}
    ensures Loops(made + [c]) == Loops(made) + if IsLoop(c) then 1 else 0
    ensures c.from !in EndSet(made) && c.to !in EndSet(made) ==>
              |EndSet(made + [c])| == |EndSet(made)| + if IsLoop(c) then 1 else 2
  {
    assert (made + [c])[..|made|] == made;
    assert {c.from, c.to} == if IsLoop(c) then {c.from} else {c.from} + {c.to};
  }

  /** Counters only grow, and pass the connection that is made. */
  lemma TryCounts(p: Pass, c: Conn)
    requires !p.failed && KeyOf(c.from) in p.counts && KeyOf(c.to) in p.counts
    ensures var p' := Try(p, c);
            && !p'.failed && p'.counts.Keys == p.counts.Keys
            && (forall k :: k in p.counts ==> p'.counts[k] >= p.counts[k])
            && (p'.made == p.made
                || (p'.made == p.made + [c]
                    && p.counts[KeyOf(c.from)] == c.from.index < p'.counts[KeyOf(c.from)]
                    && p.counts[KeyOf(c.to)] == c.to.index < p'.counts[KeyOf(c.to)]))
  {
  }

  lemma TryKeepsLoopInv(conns: seq<Conn>, p: Pass, c: Conn)
    requires BothWays(conns) && LoopInv(conns, p) && c in conns
    ensures LoopInv(conns, Try(p, c))
  {
    assert Rev(c) in conns;
    assert KeyOf(c.from) in Sources(conns) && KeyOf(Rev(c).from) in Sources(conns);
    TryCounts(p, c);
    hide Try, EndSet, Loops, Sources, BothWays, EndsBelow, KeyOf;
    var p' := Try(p, c);
    EndsStayBelow(EndSet(p.made), p.counts, p'.counts);
    if p'.made != p.made {
      NewEnd(EndSet(p.made), p.counts, c.from);
      NewEnd(EndSet(p.made), p.counts, c.to);
      EndSetNext(p.made, c);
      TwoMoreBelow(EndSet(p.made), p'.counts, c);
    }
  }

  lemma {:induction false} TryAllKeepsLoopInv(conns: seq<Conn>, s: seq<Conn>)
    requires BothWays(conns) && forall c :: c in s ==> c in conns
    ensures LoopInv(conns, TryAll(Start(conns), s))
  {
    if s != [] {
      TryAllKeepsLoopInv(conns, s[..|s| - 1]);
      TryKeepsLoopInv(conns, TryAll(Start(conns), s[..|s| - 1]), s[|s| - 1]);
    }
  }

  lemma {:induction false} EndSetIsBound(made: seq<Conn>, r: PortRef)
    ensures r in EndSet(made) <==> IsBound(made, r)
  {
    if made != [] {
      var front, c := made[..|made| - 1], made[|made| - 1];
      EndSetIsBound(front, r);
      assert made == front + [c];
      StaysBound(front, c, r);
      if i :| 0 <= i < |made| && Touches(made[i], r) {
        if i < |front| { assert Touches(front[i], r); }
      }
    }
  }

  lemma {:induction false} SomeLoop(made: seq<Conn>, i: nat)
    requires i < |made| && IsLoop(made[i])
    ensures Loops(made) > 0
  {
    if i < |made| - 1 { SomeLoop(made[..|made| - 1], i); }
  }

  /** Everything is bound exactly if the set of bound ends is as large as the list. */
  lemma AllBoundBySize(conns: seq<Conn>, made: seq<Conn>)
    requires BothWays(conns) && forall c :: c in made ==> c in conns
    ensures AllBound(conns, made) <==> |EndSet(made)| == |conns|
  {
    var fs := Froms(conns);
    DistinctSize(fs);
    var f := set r | r in fs;
    forall r | r in EndSet(made) ensures r in f {
      EndSetIsBound(made, r);
      var i :| 0 <= i < |made| && Touches(made[i], r);
      var c := made[i];
      assert c in conns && Rev(c) in conns;
      FromsMembers(conns, r);
      assert c.from == r || Rev(c).from == r;
    }
    if |EndSet(made)| == |conns| {
      SubsetOfSameSize(EndSet(made), f);
      forall c | c in conns ensures IsBound(made, c.from) {
        FromsMembers(conns, c.from);
        EndSetIsBound(made, c.from);
      }
    }
    if AllBound(conns, made) {
      forall r | r in f ensures r in EndSet(made) {
        FromsMembers(conns, r);
        EndSetIsBound(made, r);
      }
      assert EndSet(made) == f;
    }
  }

  lemma BoundLoopIsMade(conns: seq<Conn>, made: seq<Conn>, c: Conn)
    requires BothWays(conns) && (forall d :: d in made ==> d in conns)
    requires c in conns && IsLoop(c) && IsBound(made, c.from)
    ensures Loops(made) > 0
  {
    var i :| 0 <= i < |made| && Touches(made[i], c.from);
    var d := if made[i].from == c.from then made[i] else Rev(made[i]);
    assert made[i] in conns && Rev(made[i]) in conns;
    var j :| 0 <= j < |conns| && conns[j] == d;
    var k :| 0 <= k < |conns| && conns[k] == c;
    assert j == k;
    SomeLoop(made, i);
  }

  lemma {:induction false} NoLoops(made: seq<Conn>)
    requires forall c :: c in made ==> !IsLoop(c)
    ensures Loops(made) == 0
  {
    if made != [] { NoLoops(made[..|made| - 1]); }
  }

  /** The final check and complete binding go together exactly on lists without self-connections.
      With one, the check passes only when something is not bound, and fails when everything is. */
  lemma CheckIsRightIffNoLoops(conns: seq<Conn>)
    requires BothWays(conns)
    ensures var made := RunPass(conns).made;
            Verdict(conns) == Bound || AllBound(conns, made) ==>
              ((Verdict(conns) == Bound && AllBound(conns, made)) <==> forall c :: c in conns ==> !IsLoop(c))
    ensures Verdict(conns) != KeyError
  {
    hide TryAll, Sort, Start, EndSet, Loops, IsLoop, BothWays;
    SortedMembers(conns);
    TryAllKeepsLoopInv(conns, Sort(ConnLe, conns));
    var made := RunPass(conns).made;
    AllBoundBySize(conns, made);
    if AllBound(conns, made) {
      forall c | c in conns && IsLoop(c) ensures Loops(made) > 0 {
        BoundLoopIsMade(conns, made, c);
      }
    }
    if forall c :: c in conns ==> !IsLoop(c) {
      NoLoops(made);
    }
  }
}
