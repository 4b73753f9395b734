/** What a run of CheckpointUpgrade ends with, when it ends well, and in which order scripts run. */
module CheckpointUpgradeProofs {
  import opened CheckpointUpgrade

  ghost function Union(rounds: seq<set<Tag>>): set<Tag> {
    if rounds == [] then {} else rounds[0] + Union(rounds[1..])
  }

  lemma {:induction false} UnionHolds(rounds: seq<set<Tag>>, t: Tag)
    ensures t in Union(rounds) <==> exists k :: 0 <= k < |rounds| && t in rounds[k]
  {
    if rounds != [] {
      UnionHolds(rounds[1..], t);
      if k :| 0 <= k < |rounds| && t in rounds[k] {
        if k > 0 { assert t in rounds[1..][k - 1]; }
      }
      if k :| 0 <= k < |rounds[1..]| && t in rounds[1..][k] {
        assert t in rounds[k + 1];
      }
    }
  }

  // ---------------------------------------------------------------- the end of a run

  /** A run applies what was pending, apart from what it gives up on, and nothing else. */
  lemma {:induction false} RoundsApply(reg: Registry, pending: set<Tag>, tags: set<Tag>)
    requires Valid(reg) && pending <= reg.tagSet + reg.untagSet
    ensures var r := Rounds(reg, pending, tags);
            && r.stuck <= pending
            && Union(r.rounds) == pending - r.stuck
            && r.tags == After(reg, pending - r.stuck, tags)
    decreases pending
  {
    if pending != {} {
      var ready := Ready(reg, pending, tags);
      if ready != {} {
        RoundsApply(reg, pending - ready, After(reg, ready, tags));
        var r := Rounds(reg, pending - ready, After(reg, ready, tags));
        var all := Rounds(reg, pending, tags);
        assert all.rounds[1..] == r.rounds;
        AfterJoins(reg, ready, pending - ready - r.stuck, tags);
        assert ready + (pending - ready - r.stuck) == pending - r.stuck;
      } else {
        assert pending - pending == {};
        assert After(reg, {}, tags) == tags;
      }
    } else {
      assert After(reg, {}, tags) == tags;
    }
  }

  lemma AfterJoins(reg: Registry, a: set<Tag>, b: set<Tag>, tags: set<Tag>)
    requires Valid(reg)
    ensures After(reg, b, After(reg, a, tags)) == After(reg, a + b, tags)
  {
  }

  /** A successful run leaves every tag that has an upgrader and none that has a downgrader, and
      keeps the tags it does not know. */
  lemma FinalTags(reg: Registry, tags: set<Tag>)
    requires Valid(reg) && Upgrade(reg, tags).stuck == {}
    ensures Upgrade(reg, tags).tags == tags + reg.tagSet - reg.untagSet
  {
    RoundsApply(reg, ToApply(reg, tags), tags);
    forall t | t in reg.tagSet ensures t !in reg.untagSet {
    }
  }

  /** Running again on the result finds nothing to do. */
  lemma SecondRunDoesNothing(reg: Registry, tags: set<Tag>)
    requires Valid(reg) && Upgrade(reg, tags).stuck == {}
    ensures Upgrade(reg, Upgrade(reg, tags).tags) == Run([], Upgrade(reg, tags).tags, {})
  {
    FinalTags(reg, tags);
    var end := Upgrade(reg, tags).tags;
    forall t | t in reg.tagSet ensures t !in reg.untagSet {
    }
    assert ToApply(reg, end) == {};
  }

  // ---------------------------------------------------------------- rounds

  /** The tags at the start of round k. */
  ghost function TagsAt(reg: Registry, tags: set<Tag>, rounds: seq<set<Tag>>, k: nat): set<Tag>
    requires k <= |rounds|
  {
    if k == 0 then tags else After(reg, rounds[k - 1], TagsAt(reg, tags, rounds, k - 1))
  }

  lemma {:induction false} TagsAtShift(reg: Registry, tags: set<Tag>, rounds: seq<set<Tag>>, k: nat)
    requires 0 < k <= |rounds|
    ensures TagsAt(reg, tags, rounds, k) == TagsAt(reg, After(reg, rounds[0], tags), rounds[1..], k - 1)
  {
    if k > 1 {
      TagsAtShift(reg, tags, rounds, k - 1);
    }
  }

  /** Every script runs in one round only, and finds all its dependencies at the start of it. */
  lemma {:induction false} RoundIsReady(reg: Registry, pending: set<Tag>, tags: set<Tag>, k: nat, t: Tag)
    requires Valid(reg) && pending <= reg.tagSet + reg.untagSet
    requires var r := Rounds(reg, pending, tags).rounds; k < |r| && t in r[k]
    ensures var r := Rounds(reg, pending, tags).rounds;
            && t in pending
            && IsReady(reg, TagsAt(reg, tags, r, k), t)
            && forall j :: 0 <= j < |r| && t in r[j] ==> j == k
    decreases pending
  {
    var r := Rounds(reg, pending, tags).rounds;
    var ready := Ready(reg, pending, tags);
    assert pending != {} && ready != {};
    var pending', tags' := pending - ready, After(reg, ready, tags);
    var rest := Rounds(reg, pending', tags');
    assert r == [ready] + rest.rounds && r[1..] == rest.rounds;
    RoundsApply(reg, pending', tags');
    if k > 0 {
      RoundIsReady(reg, pending', tags', k - 1, t);
      TagsAtShift(reg, tags, r, k);
      forall j | 0 <= j < |r| && t in r[j] ensures j == k {
        assert j > 0 && t in rest.rounds[j - 1];
      }
    } else {
      UnionHolds(rest.rounds, t);
      assert forall i :: 0 <= i < |rest.rounds| ==> t !in rest.rounds[i];
      assert forall j :: 0 < j < |r| ==> r[j] == rest.rounds[j - 1];
    }
  }

  /** A tag that is present at the start of round k was there from the start or is that of an
      upgrader of an earlier round. */
  lemma {:induction false} PresentSince(reg: Registry, tags: set<Tag>, rounds: seq<set<Tag>>, k: nat, d: Tag)
    requires k <= |rounds| && d in TagsAt(reg, tags, rounds, k)
    ensures d in tags || exists j :: 0 <= j < k && d in rounds[j]
  {
    if k > 0 && d !in rounds[k - 1] {
      PresentSince(reg, tags, rounds, k - 1, d);
    }
  }

  /** A tag that was removed does not come back: only its own script could add it. */
  lemma {:induction false} GoneAfterDowngrade(reg: Registry, tags: set<Tag>, rounds: seq<set<Tag>>,
                                              j: nat, k: nat, d: Tag)
    requires Valid(reg) && j < k <= |rounds| && d in rounds[j] && d in reg.untagSet
    ensures d !in TagsAt(reg, tags, rounds, k)
  {
    if k > j + 1 {
      GoneAfterDowngrade(reg, tags, rounds, j, k - 1, d);
    }
  }

  predicate DependsOn(reg: Registry, t: Tag, d: Tag) { t in reg.byTag && d in reg.byTag[t].depends }

  /** Dependency order: a dependency that the checkpoint did not have runs in an earlier round. */
  lemma DependencyRunsEarlier(reg: Registry, tags: set<Tag>, k: nat, t: Tag, d: Tag)
    requires Valid(reg)
    requires k < |Upgrade(reg, tags).rounds| && t in Upgrade(reg, tags).rounds[k]
    requires DependsOn(reg, t, d) && d !in tags
    ensures exists j :: 0 <= j < k && d in Upgrade(reg, tags).rounds[j]
  {
    RoundIsReady(reg, ToApply(reg, tags), tags, k, t);
    PresentSince(reg, tags, Upgrade(reg, tags).rounds, k, d);
  }

  /** The header says that a script that depends on a tag with a downgrader waits for its removal.
      In fact it must run before the removal or in the same round. */
  lemma DependentRunsBeforeDowngrade(reg: Registry, tags: set<Tag>, j: nat, k: nat, t: Tag, d: Tag)
    requires Valid(reg)
    requires var r := Upgrade(reg, tags).rounds; j < |r| && k < |r| && d in r[j] && t in r[k]
    requires DependsOn(reg, t, d) && d in reg.untagSet
    ensures k <= j
  {
    if k > j {
      RoundIsReady(reg, ToApply(reg, tags), tags, k, t);
      GoneAfterDowngrade(reg, tags, Upgrade(reg, tags).rounds, j, k, d);
    }
  }

  /** And where the tag is already gone, as the header asks, the script can never run. */
  lemma AbsentDowngradeBlocks(reg: Registry, tags: set<Tag>, t: Tag, d: Tag)
    requires Valid(reg) && t in ToApply(reg, tags)
    requires DependsOn(reg, t, d) && d in reg.untagSet && d !in tags
    ensures t in Upgrade(reg, tags).stuck
  {
    var r := Upgrade(reg, tags);
    RoundsApply(reg, ToApply(reg, tags), tags);
    if t !in r.stuck {
      UnionHolds(r.rounds, t);
      var k :| 0 <= k < |r.rounds| && t in r.rounds[k];
      DependencyRunsEarlier(reg, tags, k, t, d);
      var j :| 0 <= j < k && d in r.rounds[j];
      RoundIsReady(reg, ToApply(reg, tags), tags, j, d);
    }
  }

  /** The tags that the n-th script of round k finds, when rounds are run as the log says. */
  ghost function TagsAtTurn(reg: Registry, tags: set<Tag>, rounds: seq<set<Tag>>,
                            log: seq<seq<Tag>>, k: nat, n: nat): set<Tag>
    requires k < |log| == |rounds| && n <= |log[k]|
  {
    After(reg, Elements(log[k][..n]), TagsAt(reg, tags, rounds, k))
  }

  /** The n-th script of round k depends on d, which has a downgrader. */
  predicate Concerned(reg: Registry, log: seq<seq<Tag>>, k: nat, n: nat, d: Tag) {
    k < |log| && n < |log[k]| && DependsOn(reg, log[k][n], d) && d in reg.untagSet
  }

  /** What the header asks: a script that depends on a tag with a downgrader runs when that tag is gone. */
  ghost predicate KeepsHeader(reg: Registry, tags: set<Tag>, rounds: seq<set<Tag>>, log: seq<seq<Tag>>)
    requires |log| == |rounds|
  {
    forall k: nat, n: nat, d :: Concerned(reg, log, k, n, d) ==> d !in TagsAtTurn(reg, tags, rounds, log, k, n)
  }

  /** A run keeps to the header exactly if every script that depends on such a tag comes behind its
      removal in the same round. */
  lemma KeepsHeaderIff(reg: Registry, tags: set<Tag>, log: seq<seq<Tag>>)
    requires Valid(reg) && Lists(log, Upgrade(reg, tags).rounds)
    ensures KeepsHeader(reg, tags, Upgrade(reg, tags).rounds, log) <==>
            forall k: nat, n: nat, d :: Concerned(reg, log, k, n, d) ==> d in Elements(log[k][..n])
  {
    var rounds := Upgrade(reg, tags).rounds;
    forall k: nat, n: nat, d | Concerned(reg, log, k, n, d)
      ensures d !in TagsAtTurn(reg, tags, rounds, log, k, n) <==> d in Elements(log[k][..n])
    {
      FoundAtTurn(reg, tags, log, k, n, d);
    }
  }

  lemma FoundAtTurn(reg: Registry, tags: set<Tag>, log: seq<seq<Tag>>, k: nat, n: nat, d: Tag)
    requires Valid(reg) && Lists(log, Upgrade(reg, tags).rounds) && Concerned(reg, log, k, n, d)
    ensures d !in TagsAtTurn(reg, tags, Upgrade(reg, tags).rounds, log, k, n) <==> d in Elements(log[k][..n])
  {
    hide Rounds, TagsAt, ToApply, Elements;
    ListedIsIn(log, Upgrade(reg, tags).rounds, k, n);
    KnownToApply(reg, tags);
    RoundIsReady(reg, ToApply(reg, tags), tags, k, log[k][n]);
    assert d !in reg.tagSet;
  }

  lemma ListedIsIn(log: seq<seq<Tag>>, rounds: seq<set<Tag>>, k: nat, n: nat)
    requires Lists(log, rounds) && k < |log| && n < |log[k]|
    ensures k < |rounds| && log[k][n] in rounds[k]
  {
    assert log[k][n] in Elements(log[k]);
  }

  lemma KnownToApply(reg: Registry, tags: set<Tag>)
    ensures ToApply(reg, tags) <= reg.tagSet + reg.untagSet
  {
  }

  ghost predicate DependsOnDowngrades(reg: Registry, scripts: set<Tag>) {
    exists t, d :: t in scripts && DependsOn(reg, t, d) && d in reg.untagSet
  }

  /** A log that has t first in its round. */
  lemma {:induction false} LogWithFirst(rounds: seq<set<Tag>>, k: nat, t: Tag) returns (log: seq<seq<Tag>>)
    requires k < |rounds| ==> t in rounds[k]
    ensures Lists(log, rounds) && (k < |rounds| ==> log[k] != [] && log[k][0] == t)
  {
    if rounds == [] {
      log := [];
    } else {
      var m := |rounds| - 1;
      var front := LogWithFirst(rounds[..m], k, t);
      var last;
      if k == m {
        last := ListedOnce(rounds[m] - {t});
        ElementsOfFirst(t, last);
        last := [t] + last;
      } else {
        last := ListedOnce(rounds[m]);
      }
      log := front + [last];
    }
  }

  lemma ElementsOfFirst(t: Tag, l: seq<Tag>)
    ensures Elements([t] + l) == {t} + Elements(l)
  {
  }

  /** Whatever order Python takes, every run keeps to the header: exactly if no script that is
      applied depends on such a tag at all. */
  lemma HeaderHoldsIff(reg: Registry, tags: set<Tag>)
    requires Valid(reg)
    ensures var run := Upgrade(reg, tags);
            (forall log :: Lists(log, run.rounds) ==> KeepsHeader(reg, tags, run.rounds, log)) <==>
            !DependsOnDowngrades(reg, ToApply(reg, tags) - run.stuck)
  {
    hide Rounds, TagsAt, ToApply, Elements, KeepsHeader;
    var run := Upgrade(reg, tags);
    KnownToApply(reg, tags);
    RoundsApply(reg, ToApply(reg, tags), tags);
    if DependsOnDowngrades(reg, ToApply(reg, tags) - run.stuck) {
      var t, d :| t in ToApply(reg, tags) - run.stuck && DependsOn(reg, t, d) && d in reg.untagSet;
      UnionHolds(run.rounds, t);
      var k :| 0 <= k < |run.rounds| && t in run.rounds[k];
      var log := LogWithFirst(run.rounds, k, t);
      FirstFinds(reg, tags, log, k, d);
    } else {
      forall log | Lists(log, run.rounds) ensures KeepsHeader(reg, tags, run.rounds, log) {
        KeepsHeaderIff(reg, tags, log);
        forall k: nat, n: nat, d ensures !Concerned(reg, log, k, n, d) {
          NobodyConcerned(reg, tags, log, k, n, d);
        }
      }
    }
  }

  lemma FirstFinds(reg: Registry, tags: set<Tag>, log: seq<seq<Tag>>, k: nat, d: Tag)
    requires Valid(reg) && Lists(log, Upgrade(reg, tags).rounds) && Concerned(reg, log, k, 0, d)
    ensures !KeepsHeader(reg, tags, Upgrade(reg, tags).rounds, log)
  {
    KeepsHeaderIff(reg, tags, log);
  }

  lemma NobodyConcerned(reg: Registry, tags: set<Tag>, log: seq<seq<Tag>>, k: nat, n: nat, d: Tag)
    requires Valid(reg) && Lists(log, Upgrade(reg, tags).rounds)
    requires !DependsOnDowngrades(reg, ToApply(reg, tags) - Upgrade(reg, tags).stuck)
    ensures !Concerned(reg, log, k, n, d)
  {
    hide Rounds, ToApply, Elements;
    if k < |log| && n < |log[k]| {
      var run := Upgrade(reg, tags);
      KnownToApply(reg, tags);
      RoundsApply(reg, ToApply(reg, tags), tags);
      ListedIsIn(log, run.rounds, k, n);
      UnionHolds(run.rounds, log[k][n]);
    }
  }

  /** A script that depends on a tag with a downgrader. */
  function Dependent(): Registry {
    Registry({"t"}, {"d"}, map["t" := Script(true, ["d"]), "d" := Script(false, [])], map[])
  }

  lemma DependentRun()
    ensures Valid(Dependent()) && Upgrade(Dependent(), {"d"}) == Run([{"t", "d"}], {"t"}, {})
  {
    var reg := Dependent();
    var ready := Ready(reg, {"t", "d"}, {"d"});
    assert ToApply(reg, {"d"}) == {"t", "d"};
    assert ready == {"t", "d"};
    assert ready - ready == {};
    assert After(reg, ready, {"d"}) == {"t"};
    assert Rounds(reg, {}, {"t"}) == Run([], {"t"}, {});
  }

  /** Both run in the first round, in an order that Python's sets decide: if the dependent comes
      first it finds the tag, and only if it comes second the tag is gone. */
  lemma HeaderFails()
    ensures var rounds := Upgrade(Dependent(), {"d"}).rounds;
            && Lists([["t", "d"]], rounds) && !KeepsHeader(Dependent(), {"d"}, rounds, [["t", "d"]])
            && Lists([["d", "t"]], rounds) && KeepsHeader(Dependent(), {"d"}, rounds, [["d", "t"]])
  {
    var reg, first, second := Dependent(), [["t", "d"]], [["d", "t"]];
    DependentRun();
    hide Upgrade, KeepsHeader;
    assert Elements(first[0]) == {"t", "d"} == Elements(second[0]);
    assert Concerned(reg, first, 0, 0, "d");
    FirstFinds(reg, {"d"}, first, 0, "d");
    KeepsHeaderIff(reg, {"d"}, second);
    forall k: nat, n: nat, d | Concerned(reg, second, k, n, d) ensures d in Elements(second[k][..n]) {
      assert second[0][..1] == ["d"];
    }
  }

  // ---------------------------------------------------------------- exactly when it ends well

  ghost predicate NoDowngradePending(reg: Registry, tags: set<Tag>) { reg.untagSet !! tags }

  /** A set that no pending script can leave: with all dependencies of a script it has its tag. */
  ghost predicate Closed(reg: Registry, pending: set<Tag>, s: set<Tag>)
    requires pending <= reg.byTag.Keys
  {
    forall t :: t in pending && IsReady(reg, s, t) ==> t in s
  }

  /** The tags at the end of a run form the least closed set above those it started with. */
  lemma {:induction false} EndIsLeast(reg: Registry, pending: set<Tag>, tags: set<Tag>)
    requires Valid(reg) && pending <= reg.tagSet
    ensures var r := Rounds(reg, pending, tags);
            && r.tags == tags + (pending - r.stuck)
            && Closed(reg, pending, r.tags)
            && forall s :: tags <= s && Closed(reg, pending, s) ==> r.tags <= s
    decreases pending
  {
    var r := Rounds(reg, pending, tags);
    forall t | t in reg.tagSet ensures t !in reg.untagSet {
    }
    RoundsApply(reg, pending, tags);
    if pending != {} {
      var ready := Ready(reg, pending, tags);
      if ready != {} {
        var pending', tags' := pending - ready, After(reg, ready, tags);
        assert tags' == tags + ready;
        EndIsLeast(reg, pending', tags');
        forall s | tags <= s && Closed(reg, pending, s) ensures r.tags <= s {
          forall t | t in ready ensures t in s {
            assert IsReady(reg, s, t);
          }
          assert Closed(reg, pending', s);
        }
      } else {
        forall t | t in pending ensures !IsReady(reg, tags, t) {
          assert t !in ready;
        }
      }
    }
  }

  /** An order in which the scripts could be run by hand: each after all its dependencies. */
  ghost predicate GoodOrder(reg: Registry, tags: set<Tag>, order: seq<Tag>)
    requires Elements(order) <= reg.byTag.Keys
  {
    forall i :: 0 <= i < |order| ==> IsReady(reg, tags + Elements(order[..i]), order[i])
  }

  /** Whatever can be put in order lies in every closed set above the tags. */
  lemma {:induction false} OrderStaysInside(reg: Registry, pending: set<Tag>, tags: set<Tag>,
                                            order: seq<Tag>, s: set<Tag>, n: nat)
    requires pending <= reg.byTag.Keys && Elements(order) <= pending && GoodOrder(reg, tags, order)
    requires tags <= s && Closed(reg, pending, s) && n <= |order|
    ensures Elements(order[..n]) <= s
  {
    if n > 0 {
      OrderStaysInside(reg, pending, tags, order, s, n - 1);
      ReadyStays(reg, tags + Elements(order[..n - 1]), s, order[n - 1]);
      assert order[n - 1] in Elements(order);
      assert order[..n] == order[..n - 1] + [order[n - 1]];
      ElementsNext(order[..n - 1], order[n - 1]);
    }
  }

  lemma ReadyStays(reg: Registry, a: set<Tag>, b: set<Tag>, t: Tag)
    requires a <= b && t in reg.byTag && IsReady(reg, a, t)
    ensures IsReady(reg, b, t)
  {
  }

  /** The main result for upgrades. With no downgrade pending a run applies everything exactly when
      its scripts can be put in an order at all; the order in which Python walks through its sets
      does not matter. */
  lemma SucceedsIffOrderable(reg: Registry, tags: set<Tag>)
    requires Valid(reg) && NoDowngradePending(reg, tags)
    ensures Upgrade(reg, tags).stuck == {} <==>
            exists order :: Elements(order) == ToApply(reg, tags) && GoodOrder(reg, tags, order)
  {
    var pending := ToApply(reg, tags);
    var r := Upgrade(reg, tags);
    EndIsLeast(reg, pending, tags);
    if order :| Elements(order) == pending && GoodOrder(reg, tags, order) {
      OrderStaysInside(reg, pending, tags, order, r.tags, |order|);
      assert order[..|order|] == order;
      RoundsApply(reg, pending, tags);
      assert pending !! tags;
    }
    if r.stuck == {} {
      var order := OrderOf(reg, pending, tags);
    }
  }

  /** An order read off the rounds. */
  lemma {:induction false} OrderOf(reg: Registry, pending: set<Tag>, tags: set<Tag>) returns (order: seq<Tag>)
    requires Valid(reg) && pending <= reg.tagSet && Rounds(reg, pending, tags).stuck == {}
    ensures Elements(order) == pending && GoodOrder(reg, tags, order)
    decreases pending
  {
    if pending == {} {
      order := [];
    } else {
      var ready := Ready(reg, pending, tags);
      var tags' := After(reg, ready, tags);
      forall t | t in reg.tagSet ensures t !in reg.untagSet {
      }
      assert tags' == tags + ready;
      var rest := OrderOf(reg, pending - ready, tags');
      var first := Listed(ready);
      order := first + rest;
      assert Elements(order) == Elements(first) + Elements(rest);
      forall i | 0 <= i < |order| ensures IsReady(reg, tags + Elements(order[..i]), order[i]) {
        if i < |first| {
          assert order[i] in ready;
        } else {
          assert order[..i] == first + rest[..i - |first|];
          assert tags + Elements(order[..i]) == tags' + Elements(rest[..i - |first|]);
        }
      }
    }
  }

  lemma Listed(s: set<Tag>) returns (l: seq<Tag>)
    ensures Elements(l) == s
  {
    l := ListedOnce(s);
  }

  lemma {:induction false} ListedOnce(s: set<Tag>) returns (l: seq<Tag>)
    ensures Elements(l) == s && |l| == |s|
  {
    if s == {} {
      l := [];
    } else {
      var t :| t in s;
      l := ListedOnce(s - {t});
      ElementsNext(l, t);
      l := l + [t];
    }
  }

  // ---------------------------------------------------------------- with downgrades pending

  /** Nothing is pending twice or for nothing: upgraders whose tag is missing, downgraders whose tag
      is present. */
  ghost predicate Outstanding(reg: Registry, pending: set<Tag>, tags: set<Tag>) {
    && pending <= reg.tagSet + reg.untagSet
    && forall t :: t in pending ==> (t in tags <==> t in reg.untagSet)
  }

  /** d is a dependency that t has to wait for. */
  predicate WaitsFor(reg: Registry, tags: set<Tag>, t: Tag, d: Tag) { DependsOn(reg, t, d) && d !in tags }

  /** Ranks of the pending scripts. A script waits for scripts of lower rank only, one of them of the
      rank just below its own, and is not ranked above the removal of a tag that it depends on. */
  ghost predicate Ranks(reg: Registry, pending: set<Tag>, tags: set<Tag>, rank: map<Tag, nat>) {
    && rank.Keys == pending
    && (forall t, d :: t in pending && WaitsFor(reg, tags, t, d) ==> d in pending && rank[d] < rank[t])
    && (forall t :: t in pending && rank[t] > 0 ==>
          exists d :: WaitsFor(reg, tags, t, d) && d in pending && rank[d] + 1 == rank[t])
    && (forall t, d :: t in pending && DependsOn(reg, t, d) && d in pending && d in reg.untagSet ==> rank[t] <= rank[d])
  }

  lemma OutstandingIsKnown(reg: Registry, pending: set<Tag>, tags: set<Tag>)
    requires Valid(reg) && Outstanding(reg, pending, tags)
    ensures pending <= reg.byTag.Keys
  {
  }

  /** The scripts of rank zero are those of the next round. */
  lemma RankZeroIsReady(reg: Registry, pending: set<Tag>, tags: set<Tag>, rank: map<Tag, nat>, t: Tag)
    requires Valid(reg) && Outstanding(reg, pending, tags) && Ranks(reg, pending, tags, rank) && t in pending
    ensures rank[t] == 0 <==> IsReady(reg, tags, t)
  {
    if !IsReady(reg, tags, t) {
      var d :| d in reg.byTag[t].depends && d !in tags;
      assert WaitsFor(reg, tags, t, d);
    }
  }

  lemma {:induction false} SomeReady(reg: Registry, pending: set<Tag>, tags: set<Tag>, rank: map<Tag, nat>, t: Tag)
    requires Valid(reg) && Outstanding(reg, pending, tags) && Ranks(reg, pending, tags, rank) && t in pending
    ensures Ready(reg, pending, tags) != {}
    decreases rank[t]
  {
    RankZeroIsReady(reg, pending, tags, rank, t);
    if rank[t] == 0 {
      assert t in Ready(reg, pending, tags);
    } else {
      var d :| WaitsFor(reg, tags, t, d) && d in pending && rank[d] + 1 == rank[t];
      SomeReady(reg, pending, tags, rank, d);
    }
  }

  lemma OutstandingNext(reg: Registry, pending: set<Tag>, tags: set<Tag>, ready: set<Tag>)
    requires Valid(reg) && Outstanding(reg, pending, tags) && ready <= pending
    ensures Outstanding(reg, pending - ready, After(reg, ready, tags))
    ensures forall d :: d in After(reg, ready, tags) <==>
              (d in tags && !(d in ready && d in reg.untagSet)) || (d in ready && d in reg.tagSet)
  {
  }

  function Lowered(pending: set<Tag>, rank: map<Tag, nat>): map<Tag, nat>
    requires pending <= rank.Keys && forall t :: t in pending ==> rank[t] > 0
  {
    map t | t in pending :: rank[t] - 1
  }

  /** After a round what waits has rank above zero, and waits for nothing new. */
  lemma WaitsOn(reg: Registry, pending: set<Tag>, tags: set<Tag>, rank: map<Tag, nat>, t: Tag, d: Tag)
    requires Valid(reg) && Outstanding(reg, pending, tags) && Ranks(reg, pending, tags, rank)
    requires var ready := Ready(reg, pending, tags);
             t in pending - ready && WaitsFor(reg, After(reg, ready, tags), t, d)
    ensures WaitsFor(reg, tags, t, d) && d in pending - Ready(reg, pending, tags) && rank[d] < rank[t]
  {
    var ready := Ready(reg, pending, tags);
    OutstandingNext(reg, pending, tags, ready);
    RankZeroIsReady(reg, pending, tags, rank, t);
    if d in pending { RankZeroIsReady(reg, pending, tags, rank, d); }
    hide Ready, After, IsReady;
    assert DependsOn(reg, t, d);
  }

  lemma NextBelow(reg: Registry, pending: set<Tag>, tags: set<Tag>, rank: map<Tag, nat>, t: Tag) returns (d: Tag)
    requires Valid(reg) && Outstanding(reg, pending, tags) && Ranks(reg, pending, tags, rank)
    requires t in pending && rank[t] > 1
    ensures var ready := Ready(reg, pending, tags);
            WaitsFor(reg, After(reg, ready, tags), t, d) && d in pending - ready && rank[d] + 1 == rank[t]
  {
    var ready := Ready(reg, pending, tags);
    OutstandingNext(reg, pending, tags, ready);
    d :| WaitsFor(reg, tags, t, d) && d in pending && rank[d] + 1 == rank[t];
    RankZeroIsReady(reg, pending, tags, rank, d);
  }

  lemma KeptBelow(reg: Registry, pending: set<Tag>, tags: set<Tag>, rank: map<Tag, nat>, t: Tag, d: Tag)
    requires Ranks(reg, pending, tags, rank) && t in pending && DependsOn(reg, t, d)
             && d in pending && d in reg.untagSet
    ensures rank[t] <= rank[d]
  {
  }

  /** After a round the ranks of the rest are one lower. */
  lemma RanksAfterRound(reg: Registry, pending: set<Tag>, tags: set<Tag>, rank: map<Tag, nat>)
    requires Valid(reg) && Outstanding(reg, pending, tags) && Ranks(reg, pending, tags, rank)
    ensures var ready := Ready(reg, pending, tags);
            && (forall t :: t in pending - ready ==> rank[t] > 0)
            && Ranks(reg, pending - ready, After(reg, ready, tags), Lowered(pending - ready, rank))
  {
    OutstandingIsKnown(reg, pending, tags);
    RanksKeys(reg, pending, tags, rank);
    var ready := Ready(reg, pending, tags);
    var rest, after := pending - ready, After(reg, ready, tags);
    forall t | t in rest ensures rank[t] > 0 {
      RankZeroIsReady(reg, pending, tags, rank, t);
    }
    var low := Lowered(rest, rank);
    assert low.Keys == rest && forall t :: t in rest ==> low[t] == rank[t] - 1;
    hide *;
    forall t, d | t in rest && WaitsFor(reg, after, t, d) ensures d in rest && low[d] < low[t] {
      WaitsOn(reg, pending, tags, rank, t, d);
    }
    forall t | t in rest && low[t] > 0
      ensures exists d :: WaitsFor(reg, after, t, d) && d in rest && low[d] + 1 == low[t] {
      var d := NextBelow(reg, pending, tags, rank, t);
    }
    forall t, d | t in rest && DependsOn(reg, t, d) && d in rest && d in reg.untagSet ensures low[t] <= low[d] {
      KeptBelow(reg, pending, tags, rank, t, d);
    }
    RanksAre(reg, rest, after, low);
  }

  function Raised(ready: set<Tag>, rest: set<Tag>, low: map<Tag, nat>): map<Tag, nat>
    requires rest <= low.Keys
  {
    map t | t in ready + rest :: if t in ready then 0 else low[t] + 1
  }

  /** What a round does to the tags and to what waits for what. */
  ghost predicate OneRound(reg: Registry, pending: set<Tag>, tags: set<Tag>, ready: set<Tag>, after: set<Tag>) {
    && Outstanding(reg, pending, tags) && ready <= pending
    && (forall t :: t in pending ==> (t in ready <==> forall d :: !WaitsFor(reg, tags, t, d)))
    && (forall d :: d in after <==>
          (d in tags && !(d in ready && d in reg.untagSet)) || (d in ready && d in reg.tagSet))
  }

  lemma ReadyIsOneRound(reg: Registry, pending: set<Tag>, tags: set<Tag>)
    requires Valid(reg) && Outstanding(reg, pending, tags)
    ensures var ready := Ready(reg, pending, tags); OneRound(reg, pending, tags, ready, After(reg, ready, tags))
  {
    var ready := Ready(reg, pending, tags);
    OutstandingNext(reg, pending, tags, ready);
    forall t | t in pending ensures t in ready <==> forall d :: !WaitsFor(reg, tags, t, d) {
      if t !in ready {
        var d :| d in reg.byTag[t].depends && d !in tags;
        assert WaitsFor(reg, tags, t, d);
      }
    }
  }

  lemma RaisedWaits(reg: Registry, pending: set<Tag>, tags: set<Tag>, ready: set<Tag>, after: set<Tag>,
                    low: map<Tag, nat>, t: Tag, d: Tag)
    requires Valid(reg) && OneRound(reg, pending, tags, ready, after) && Ranks(reg, pending - ready, after, low)
    requires t in pending && WaitsFor(reg, tags, t, d)
    ensures d in pending && Raised(ready, pending - ready, low)[d] < Raised(ready, pending - ready, low)[t]
  {
    assert d !in after ==> WaitsFor(reg, after, t, d);
  }

  lemma RaisedIsTight(reg: Registry, pending: set<Tag>, tags: set<Tag>, ready: set<Tag>, after: set<Tag>,
                      low: map<Tag, nat>, t: Tag) returns (d: Tag)
    requires Valid(reg) && OneRound(reg, pending, tags, ready, after) && Ranks(reg, pending - ready, after, low)
    requires t in pending - ready
    ensures WaitsFor(reg, tags, t, d) && d in pending
    ensures Raised(ready, pending - ready, low)[d] + 1 == Raised(ready, pending - ready, low)[t]
  {
    if low[t] > 0 {
      d :| WaitsFor(reg, after, t, d) && d in pending - ready && low[d] + 1 == low[t];
    } else {
      d :| WaitsFor(reg, tags, t, d);
      assert d !in after ==> WaitsFor(reg, after, t, d);
    }
  }

  lemma RaisedKeeps(reg: Registry, pending: set<Tag>, tags: set<Tag>, ready: set<Tag>, after: set<Tag>,
                    low: map<Tag, nat>, t: Tag, d: Tag)
    requires Valid(reg) && OneRound(reg, pending, tags, ready, after) && Ranks(reg, pending - ready, after, low)
    requires t in pending && DependsOn(reg, t, d) && d in pending && d in reg.untagSet
    ensures Raised(ready, pending - ready, low)[t] <= Raised(ready, pending - ready, low)[d]
  {
    assert d !in after ==> WaitsFor(reg, after, t, d);
  }

  /** And ranks of the rest extend to the scripts of the round. */
  lemma RanksBeforeRound(reg: Registry, pending: set<Tag>, tags: set<Tag>, low: map<Tag, nat>)
    requires Valid(reg) && Outstanding(reg, pending, tags)
    requires var ready := Ready(reg, pending, tags); Ranks(reg, pending - ready, After(reg, ready, tags), low)
    ensures var ready := Ready(reg, pending, tags); Ranks(reg, pending, tags, Raised(ready, pending - ready, low))
  {
    hide *;
    OutstandingIsKnown(reg, pending, tags);
    var ready := Ready(reg, pending, tags);
    var after := After(reg, ready, tags);
    ReadyIsOneRound(reg, pending, tags);
    RanksKeys(reg, pending - ready, after, low);
    var rank := Raised(ready, pending - ready, low);
    RaisedKeys(reg, pending, tags, ready, after, low);
    forall t, d | t in pending && WaitsFor(reg, tags, t, d) ensures d in pending && rank[d] < rank[t] {
      RaisedWaits(reg, pending, tags, ready, after, low, t, d);
    }
    forall t | t in pending && rank[t] > 0
      ensures exists d :: WaitsFor(reg, tags, t, d) && d in pending && rank[d] + 1 == rank[t]
    {
      var d := RaisedIsTight(reg, pending, tags, ready, after, low, t);
    }
    forall t, d | t in pending && DependsOn(reg, t, d) && d in pending && d in reg.untagSet ensures rank[t] <= rank[d] {
      RaisedKeeps(reg, pending, tags, ready, after, low, t, d);
    }
    RanksAre(reg, pending, tags, rank);
  }

  lemma RanksKeys(reg: Registry, pending: set<Tag>, tags: set<Tag>, rank: map<Tag, nat>)
    requires Ranks(reg, pending, tags, rank)
    ensures rank.Keys == pending
  {
  }

  lemma RaisedKeys(reg: Registry, pending: set<Tag>, tags: set<Tag>, ready: set<Tag>,
                   after: set<Tag>, low: map<Tag, nat>)
    requires OneRound(reg, pending, tags, ready, after) && low.Keys == pending - ready
    ensures var rank := Raised(ready, pending - ready, low);
            rank.Keys == pending && forall t :: t in pending && rank[t] > 0 ==> t in pending - ready
  {
  }

  lemma RanksAre(reg: Registry, pending: set<Tag>, tags: set<Tag>, rank: map<Tag, nat>)
    requires rank.Keys == pending
    requires forall t, d :: t in pending && WaitsFor(reg, tags, t, d) ==> d in pending && rank[d] < rank[t]
    requires forall t :: t in pending && rank[t] > 0 ==>
               exists d :: WaitsFor(reg, tags, t, d) && d in pending && rank[d] + 1 == rank[t]
    requires forall t, d :: t in pending && DependsOn(reg, t, d) && d in pending && d in reg.untagSet ==>
               rank[t] <= rank[d]
    ensures Ranks(reg, pending, tags, rank)
  {
  }

  lemma {:induction false} RoundsIffRanks(reg: Registry, pending: set<Tag>, tags: set<Tag>)
    requires Valid(reg) && Outstanding(reg, pending, tags)
    ensures Rounds(reg, pending, tags).stuck == {} <==> exists rank :: Ranks(reg, pending, tags, rank)
    decreases pending
  {
    var ready := Ready(reg, pending, tags);
    if pending == {} {
      assert Ranks(reg, pending, tags, map[]);
    } else if ready == {} {
      if rank :| Ranks(reg, pending, tags, rank) {
        var t :| t in pending;
        SomeReady(reg, pending, tags, rank, t);
      }
    } else {
      OutstandingNext(reg, pending, tags, ready);
      RoundsIffRanks(reg, pending - ready, After(reg, ready, tags));
      if rank :| Ranks(reg, pending, tags, rank) {
        RanksAfterRound(reg, pending, tags, rank);
      }
      if low :| Ranks(reg, pending - ready, After(reg, ready, tags), low) {
        RanksBeforeRound(reg, pending, tags, low);
      }
    }
  }

  /** The main result with downgrades: a run applies everything exactly if its scripts can be ranked.
      In particular no script may wait for a tag that was removed before, and none may come behind
      the removal of a tag that it depends on. */
  lemma SucceedsIffRanked(reg: Registry, tags: set<Tag>)
    requires Valid(reg)
    ensures Upgrade(reg, tags).stuck == {} <==> exists rank :: Ranks(reg, ToApply(reg, tags), tags, rank)
  {
    forall t | t in reg.tagSet ensures t !in reg.untagSet {
    }
    RoundsIffRanks(reg, ToApply(reg, tags), tags);
  }

  // ---------------------------------------------------------------- what a file gets

  /** What process_file reports: nothing to do exactly if every upgrade is there and no downgrade
      pending; otherwise the tags with all upgrades and without all downgrades, or what is stuck. */
  lemma OutcomeOf(reg: Registry, tags: set<Tag>)
    requires Valid(reg)
    ensures Report(Upgrade(reg, tags), false) == NothingToDo <==> reg.tagSet <= tags && reg.untagSet !! tags
    ensures var run := Upgrade(reg, tags);
            run.stuck != {} ==>
              run.stuck <= (reg.tagSet - tags) + (reg.untagSet * tags)
              && Report(run, false) == Report(run, true) == Unresolved(run.stuck)
    ensures var run := Upgrade(reg, tags);
            run.stuck == {} ==>
              Report(run, true) == Written(tags + reg.tagSet - reg.untagSet)
              && (Report(run, false) != NothingToDo ==> Report(run, false) == Written(tags + reg.tagSet - reg.untagSet))
  {
    RoundsApply(reg, ToApply(reg, tags), tags);
    if Upgrade(reg, tags).stuck == {} { FinalTags(reg, tags); }
    SomethingToDo(reg, tags);
  }

  lemma SomethingToDo(reg: Registry, tags: set<Tag>)
    requires Valid(reg)
    ensures ToApply(reg, tags) == {} <==> reg.tagSet <= tags && reg.untagSet !! tags
    ensures ToApply(reg, tags) == {} <==> Upgrade(reg, tags).rounds == [] && Upgrade(reg, tags).stuck == {}
  {
    if reg.tagSet <= tags && reg.untagSet !! tags {
      assert ToApply(reg, tags) == {};
    }
    if ToApply(reg, tags) == {} {
      forall t | t in reg.tagSet ensures t in tags {
        assert t !in ToApply(reg, tags);
      }
      forall t | t in reg.untagSet ensures t !in tags {
        assert t !in ToApply(reg, tags);
      }
    }
  }

  // ---------------------------------------------------------------- files of the old scheme

  /** A checkpoint of version ver counts as having the tags of versions 2 to ver. */
  lemma LegacyTagsAre(reg: Registry, ver: int, t: Tag)
    ensures t in LegacyTags(reg, ver) <==> exists v :: 2 <= v <= ver && v in reg.legacy && reg.legacy[v] == t
  {
  }

  /** So the scripts of these versions are not run again, up to and including its own. */
  lemma OldVersionsStay(reg: Registry, ver: int, v: int, log: seq<seq<Tag>>)
    requires Valid(reg) && Lists(log, Upgrade(reg, LegacyTags(reg, ver)).rounds)
    requires 2 <= v <= ver && v in reg.legacy && reg.legacy[v] in reg.tagSet
    ensures forall k :: 0 <= k < |log| ==> reg.legacy[v] !in log[k]
  {
    var t, tags := reg.legacy[v], LegacyTags(reg, ver);
    LegacyTagsAre(reg, ver, t);
    KnownToApply(reg, tags);
    assert t !in ToApply(reg, tags);
    forall k, n | 0 <= k < |log| && 0 <= n < |log[k]| ensures log[k][n] != t {
      ListedIsIn(log, Upgrade(reg, tags).rounds, k, n);
      RoundIsReady(reg, ToApply(reg, tags), tags, k, log[k][n]);
    }
  }

  /** And those of later versions are run, or given up on. */
  lemma NewVersionsRun(reg: Registry, ver: int, v: int)
    requires Valid(reg) && v > ver && v in reg.legacy && reg.legacy[v] in reg.tagSet
    requires forall u :: 2 <= u <= ver && u in reg.legacy ==> reg.legacy[u] != reg.legacy[v]
    ensures var run := Upgrade(reg, LegacyTags(reg, ver));
            reg.legacy[v] in run.stuck || exists k :: 0 <= k < |run.rounds| && reg.legacy[v] in run.rounds[k]
  {
    var t, tags := reg.legacy[v], LegacyTags(reg, ver);
    LegacyTagsAre(reg, ver, t);
    KnownToApply(reg, tags);
    assert t in ToApply(reg, tags);
    RoundsApply(reg, ToApply(reg, tags), tags);
    UnionHolds(Upgrade(reg, tags).rounds, t);
  }

  /** A checkpoint of the newest version is written with tags instead of the version, and no script
      is run, if nothing but the old scheme is there. */
  lemma NewestIsWritten(reg: Registry, ver: int)
    requires Valid(reg)
    requires forall t :: t in reg.tagSet ==> exists v :: 2 <= v <= ver && v in reg.legacy && reg.legacy[v] == t
    requires forall v :: 2 <= v <= ver && v in reg.legacy ==> reg.legacy[v] !in reg.untagSet
    ensures Upgrade(reg, LegacyTags(reg, ver)).rounds == []
    ensures Report(Upgrade(reg, LegacyTags(reg, ver)), true) == Written(LegacyTags(reg, ver))
  {
    var tags := LegacyTags(reg, ver);
    forall t ensures (t in reg.tagSet ==> t in tags) && (t in reg.untagSet ==> t !in tags) {
      LegacyTagsAre(reg, ver, t);
    }
    assert ToApply(reg, tags) == {};
  }

  // ---------------------------------------------------------------- the legacy chain

  /** Version v of the old scheme has an upgrader that depends on version v - 1, and its own tag. */
  ghost predicate LinkedAt(reg: Registry, v: int) {
    && v in reg.legacy && v - 1 in reg.legacy
    && reg.legacy[v] in reg.tagSet
    && DependsOn(reg, reg.legacy[v], reg.legacy[v - 1])
    && forall u :: u in reg.legacy && u != v ==> reg.legacy[u] != reg.legacy[v]
  }

  ghost predicate Chained(reg: Registry, last: int) {
    forall v :: 3 <= v <= last ==> LinkedAt(reg, v)
  }

  /** From a legacy checkpoint the remaining versions run in increasing order, one a round at most. */
  lemma {:induction false} LegacyInOrder(reg: Registry, ver: int, last: int, v: int, w: int, j: nat, k: nat)
    requires Valid(reg) && Chained(reg, last) && 2 <= v && ver < v < w <= last
    requires v in reg.legacy && w in reg.legacy
    requires var r := Upgrade(reg, LegacyTags(reg, ver)).rounds;
             j < |r| && k < |r| && reg.legacy[v] in r[j] && reg.legacy[w] in r[k]
    ensures j < k
    decreases w
  {
    var tags := LegacyTags(reg, ver);
    var r := Upgrade(reg, tags).rounds;
    assert LinkedAt(reg, w);
    var d := reg.legacy[w - 1];
    assert d !in tags by {
      if w > 3 { assert LinkedAt(reg, w - 1); } else { assert tags == {}; }
    }
    DependencyRunsEarlier(reg, tags, k, reg.legacy[w], d);
    var i :| 0 <= i < k && d in r[i];
    if v < w - 1 {
      LegacyInOrder(reg, ver, last, v, w - 1, j, i);
    } else {
      RoundIsReady(reg, ToApply(reg, tags), tags, j, d);
    }
  }
}
