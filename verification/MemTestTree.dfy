/** The cache tree of the memory tester (gem5/configs/example/memtest.py): a recursive
    construction that numbers its subsystems by a global table, against a closed-form count. */
module MemTestTree {
  import opened Counting

  /** A prototype cache, by the parameters that are scaled from level to level. */
  datatype Proto = Proto(size: nat, latency: nat, assoc: nat, mshrs: nat, writebackClean: bool, mostlyIncl: bool)

  /** A subsystem is named by its level and its index on that level. */
  datatype SubSystem = SubSystem(level: nat, index: nat)

  /** What the checks on the command line leave (and what the random generator makes). */
  predicate ValidSpec(cachespec: seq<nat>, testerspec: seq<nat>) {
    && |cachespec| >= 1 && |testerspec| == |cachespec| + 1
    && testerspec[|testerspec| - 1] != 0
    && forall i :: 0 <= i < |cachespec| ==> cachespec[i] >= 1
  }

  // ---------------------------------------------------------------- counting

  function Product(s: seq<nat>): nat { if s == [] then 1 else s[0] * Product(s[1..]) }

  /** Testers on level i from the memory, for each of the subsystems there. */
  function Weighted(cachespec: seq<nat>, testerspec: seq<nat>, n: nat): nat
    requires n <= |testerspec| && n <= |cachespec| + 1
  {
    if n == 0 then 0
    else Weighted(cachespec, testerspec, n - 1) + testerspec[n - 1] * Product(cachespec[..n - 1])
  }

  lemma {:induction false} ProductNext(s: seq<nat>, x: nat)
    ensures Product(s + [x]) == Product(s) * x
  {
    if s == [] {
      assert [] + [x] == [x] && [x][1..] == [];
    } else {
      assert (s + [x])[1..] == s[1..] + [x];
      ProductNext(s[1..], x);
    }
  }

  method NumTesters(cachespec: seq<nat>, testerspec: seq<nat>) returns (total: nat)
    ensures var n := if |testerspec| < |cachespec| + 1 then |testerspec| else |cachespec| + 1;
            total == Weighted(cachespec, testerspec, n)
  {
    var multiplier: seq<nat> := [1];
    for i := 0 to |cachespec|
      invariant |multiplier| == i + 1
      invariant forall j :: 0 <= j <= i ==> multiplier[j] == Product(cachespec[..j])
    {
      ProductNext(cachespec[..i], cachespec[i]);
      assert cachespec[..i + 1] == cachespec[..i] + [cachespec[i]];
      multiplier := multiplier + [multiplier[i] * cachespec[i]];
    }
    total := 0;
    var n := if |testerspec| < |multiplier| then |testerspec| else |multiplier|;
    for i := 0 to n
      invariant total == Weighted(cachespec, testerspec, i)
    {
      total := total + testerspec[i] * multiplier[i];
    }
  }

  // ---------------------------------------------------------------- prototypes

  function Scaled(prev: Proto, scale: nat): Proto {
    Proto(prev.size * scale, prev.latency * 10, prev.assoc * scale, prev.mshrs * scale,
          !prev.writebackClean, !prev.mostlyIncl)
  }

  /** One prototype for each cache level: the first for the level nearest to memory, the last is L1,
      and each is scaled from the one behind it. */
  method MakePrototypes(cachespec: seq<nat>, l1: Proto) returns (protos: seq<Proto>)
    requires |cachespec| >= 1
    ensures |protos| == |cachespec| && protos[|protos| - 1] == l1
    ensures forall k :: 0 <= k < |protos| - 1 ==> protos[k] == Scaled(protos[k + 1], cachespec[|protos| - 2 - k])
  {
    protos := [l1];
    for i := 0 to |cachespec| - 1
      invariant |protos| == i + 1 && protos[i] == l1
      invariant forall k :: 0 <= k < i ==> protos[k] == Scaled(protos[k + 1], cachespec[i - 1 - k])
    {
      protos := [Scaled(protos[0], cachespec[i])] + protos;
    }
  }

  function Power(b: nat, m: nat): nat { if m == 0 then 1 else b * Power(b, m - 1) }

  /** p is l1 with its sizes and its latency multiplied, and its policies turned around or not. */
  predicate IsScaled(p: Proto, l1: Proto, fan: nat, slow: nat, turned: bool) {
    && p.size == l1.size * fan && p.assoc == l1.assoc * fan && p.mshrs == l1.mshrs * fan
    && p.latency == l1.latency * slow
    && p.writebackClean == (l1.writebackClean != turned) && p.mostlyIncl == (l1.mostlyIncl != turned)
  }

  lemma ScaledOnce(p: Proto, l1: Proto, fan: nat, slow: nat, turned: bool, scale: nat)
    requires IsScaled(p, l1, fan, slow, turned)
    ensures IsScaled(Scaled(p, scale), l1, fan * scale, 10 * slow, !turned)
  {
    Associates(l1.size, fan, scale);
    Associates(l1.assoc, fan, scale);
    Associates(l1.mshrs, fan, scale);
    Associates(l1.latency, slow, 10);
  }

  /** After m levels of scaling sizes have grown with the fan-out of these levels and latencies
      tenfold on each; inclusion and clean writebacks alternate. */
  lemma {:induction false} PrototypeIs(cachespec: seq<nat>, l1: Proto, protos: seq<Proto>, m: nat)
    requires |protos| == |cachespec| && m < |protos| && protos[|protos| - 1] == l1
    requires forall k :: 0 <= k < |protos| - 1 ==> protos[k] == Scaled(protos[k + 1], cachespec[|protos| - 2 - k])
    ensures IsScaled(protos[|protos| - 1 - m], l1, Product(cachespec[..m]), Power(10, m), m % 2 == 1)
  {
    if m == 0 {
      assert cachespec[..0] == [];
    } else {
      hide IsScaled, Scaled, Product, Power;
      PrototypeIs(cachespec, l1, protos, m - 1);
      FanAndSlow(cachespec, m);
      var k := |protos| - 1 - m;
      assert protos[k] == Scaled(protos[k + 1], cachespec[m - 1]);
      ScaledOnce(protos[k + 1], l1, Product(cachespec[..m - 1]), Power(10, m - 1), (m - 1) % 2 == 1, cachespec[m - 1]);
      assert (m % 2 == 1) == !((m - 1) % 2 == 1);
    }
  }

  lemma FanAndSlow(cachespec: seq<nat>, m: nat)
    requires 0 < m <= |cachespec|
    ensures Product(cachespec[..m]) == Product(cachespec[..m - 1]) * cachespec[m - 1]
    ensures Power(10, m) == 10 * Power(10, m - 1)
  {
    hide Product;
    assert cachespec[..m] == cachespec[..m - 1] + [cachespec[m - 1]];
    ProductNext(cachespec[..m - 1], cachespec[m - 1]);
  }

  lemma Associates(a: nat, b: nat, c: nat)
    ensures (a * b) * c == a * (b * c)
  {
  }

  // ---------------------------------------------------------------- the tree

  /** How many testers a subsystem holds together with the subtrees behind its caches. */
  function TestersBelow(ncaches: seq<nat>, testers: seq<nat>): nat
    requires |testers| == |ncaches| + 1
  {
    testers[0] + if ncaches == [] then 0 else ncaches[0] * TestersBelow(ncaches[1..], testers[1..])
  }

  /** How many subsystems of level l there are in a tree of this level. */
  function SubsystemsBelow(ncaches: seq<nat>, level: nat, l: nat): nat
    requires |ncaches| == level
  {
    if l > level then 0 else Product(ncaches[..level - l])
  }

  class System {
    const cachespec: seq<nat>
    const testerspec: seq<nat>
    var nextSubsysIndex: seq<nat>
    var subsystems: seq<SubSystem>
    var testers: nat

    constructor (cachespec: seq<nat>, testerspec: seq<nat>)
      requires ValidSpec(cachespec, testerspec)
      ensures this.cachespec == cachespec && this.testerspec == testerspec && Valid()
      ensures subsystems == [] && testers == 0 && forall l :: 0 <= l <= |cachespec| ==> nextSubsysIndex[l] == 0
    {
      this.cachespec, this.testerspec := cachespec, testerspec;
      nextSubsysIndex := seq(|cachespec| + 1, _ => 0);
      subsystems, testers := [], 0;
    }

    /** The names given are those below the counters, each given once. */
    ghost predicate Valid()
      reads this
    {
      && ValidSpec(cachespec, testerspec) && |nextSubsysIndex| == |cachespec| + 1
      && Distinct(subsystems)
      && (forall s :: s in subsystems ==> s.level <= |cachespec| && s.index < nextSubsysIndex[s.level])
      && forall l: nat, i: nat :: l <= |cachespec| && i < nextSubsysIndex[l] ==> SubSystem(l, i) in subsystems
    }

    /** The table has grown by so many subsystems on each level as so many trees of a level have. */
    ghost predicate Grown(before: seq<nat>, trees: nat, ncaches: seq<nat>, level: nat)
      requires |ncaches| == level && |before| == |nextSubsysIndex|
      reads this
    {
      forall l :: 0 <= l < |before| ==> nextSubsysIndex[l] == before[l] + trees * SubsystemsBelow(ncaches, level, l)
    }

    /** make_cache_level: every list access is in range, and the one exit is not reached. */
    method MakeCacheLevel(ncaches: seq<nat>, prototypes: seq<Proto>, level: nat, nextCache: bool)
      requires Valid() && level <= |cachespec|
      requires ncaches == cachespec[|cachespec| - level..] && |prototypes| == level
      requires level < |cachespec| ==> nextCache
      modifies this
      ensures Valid() && old(subsystems) <= subsystems
      ensures testers == old(testers) + TestersBelow(ncaches, testerspec[|cachespec| - level..])
      ensures Grown(old(nextSubsysIndex), 1, ncaches, level)
      decreases level, 1
    {
      var ntesters := testerspec[|cachespec| - level];
      NewSubsystem(level, ntesters);
      if level != 0 {
        MakeSubtrees(ncaches, prototypes, level);
        GrownSplit(ncaches, level);
      } else {
        assert nextCache && ntesters > 0;       // no exit for want of a cache, and testers[0] exists
      }
    }

    method NewSubsystem(level: nat, ntesters: nat)
      requires Valid() && level <= |cachespec|
      modifies this
      ensures Valid() && subsystems == old(subsystems) + [SubSystem(level, old(nextSubsysIndex)[level])]
      ensures testers == old(testers) + ntesters
      ensures nextSubsysIndex == old(nextSubsysIndex)[level := old(nextSubsysIndex)[level] + 1]
    {
      var index := nextSubsysIndex[level];
      nextSubsysIndex := nextSubsysIndex[level := index + 1];
      subsystems := subsystems + [SubSystem(level, index)];
      testers := testers + ntesters;
    }

    /** The loop over the caches that fan out: a subtree behind each. */
    method MakeSubtrees(ncaches: seq<nat>, prototypes: seq<Proto>, level: nat)
      requires Valid() && 0 < level <= |cachespec|
      requires ncaches == cachespec[|cachespec| - level..] && |prototypes| == level
      modifies this
      ensures Valid() && old(subsystems) <= subsystems
      ensures testers == old(testers) + ncaches[0] * TestersBelow(ncaches[1..], testerspec[|cachespec| - level + 1..])
      ensures Grown(old(nextSubsysIndex), ncaches[0], ncaches[1..], level - 1)
      decreases level, 0
    {
      var rest := prototypes[1..];
      ghost var start, each := testers, TestersBelow(ncaches[1..], testerspec[|cachespec| - level + 1..]);
      for i := 0 to ncaches[0]
        invariant Valid() && old(subsystems) <= subsystems
        invariant testers == start + i * each
        invariant Grown(old(nextSubsysIndex), i, ncaches[1..], level - 1)
      {
        ghost var before := nextSubsysIndex;
        MakeCacheLevel(ncaches[1..], rest, level - 1, true);
        OneMore(i, each);
        GrownNext(old(nextSubsysIndex), before, nextSubsysIndex, i, ncaches[1..], level - 1);
      }
    }

    /** The top-level call creates as many testers as the closed formula says, and on each level as
        many subsystems as the product of the cache counts nearer to memory; all names differ. */
    method Build(prototypes: seq<Proto>)
      requires Valid() && |prototypes| == |cachespec|
      requires subsystems == [] && testers == 0 && forall l :: 0 <= l <= |cachespec| ==> nextSubsysIndex[l] == 0
      modifies this
      ensures Valid() && testers == Weighted(cachespec, testerspec, |testerspec|)
      ensures forall l :: 0 <= l <= |cachespec| ==> nextSubsysIndex[l] == Product(cachespec[..|cachespec| - l])
      ensures Distinct(subsystems)
      ensures forall l: nat, i: nat :: SubSystem(l, i) in subsystems <==>
        l <= |cachespec| && i < Product(cachespec[..|cachespec| - l])
    {
      assert cachespec[0..] == cachespec && testerspec[0..] == testerspec;
      MakeCacheLevel(cachespec, prototypes, |cachespec|, false);
      TestersAreWeighted(cachespec, testerspec);
    }
  }

  lemma OneMore(i: nat, x: nat)
    ensures (i + 1) * x == i * x + x
  {
  }

  lemma GrownNext(start: seq<nat>, before: seq<nat>, after: seq<nat>, i: nat, ncaches: seq<nat>, level: nat)
    requires |ncaches| == level && |start| == |before| == |after|
    requires forall l :: 0 <= l < |start| ==> before[l] == start[l] + i * SubsystemsBelow(ncaches, level, l)
    requires forall l :: 0 <= l < |before| ==> after[l] == before[l] + 1 * SubsystemsBelow(ncaches, level, l)
    ensures forall l :: 0 <= l < |start| ==> after[l] == start[l] + (i + 1) * SubsystemsBelow(ncaches, level, l)
  {
  }

  /** A tree is its root and the trees behind its caches. */
  lemma GrownSplit(ncaches: seq<nat>, level: nat)
    requires |ncaches| == level > 0
    ensures forall l :: 0 <= l ==>
      SubsystemsBelow(ncaches, level, l)
        == (if l == level then 1 else 0) + ncaches[0] * SubsystemsBelow(ncaches[1..], level - 1, l)
  {
    forall l: nat
      ensures SubsystemsBelow(ncaches, level, l)
           == (if l == level then 1 else 0) + ncaches[0] * SubsystemsBelow(ncaches[1..], level - 1, l)
    {
      if l < level {
        assert ncaches[..level - l][1..] == ncaches[1..][..level - 1 - l];
      }
    }
  }

  lemma {:induction false} TestersAreWeighted(ncaches: seq<nat>, testers: seq<nat>)
    requires |testers| == |ncaches| + 1
    ensures TestersBelow(ncaches, testers) == Weighted(ncaches, testers, |testers|)
  {
    if ncaches == [] {
      assert Weighted(ncaches, testers, 0) == 0 && Product(ncaches[..0]) == 1;
    } else {
      TestersAreWeighted(ncaches[1..], testers[1..]);
      WeightedShift(ncaches, testers, |testers|);
    }
  }

  /** Horner's rule on a prefix. */
  lemma {:induction false} WeightedShift(ncaches: seq<nat>, testers: seq<nat>, n: nat)
    requires |testers| == |ncaches| + 1 && ncaches != [] && 1 <= n <= |testers|
    ensures Weighted(ncaches, testers, n) == testers[0] + ncaches[0] * Weighted(ncaches[1..], testers[1..], n - 1)
  {
    if n == 1 {
      assert Product(ncaches[..0]) == 1;
    } else {
      WeightedShift(ncaches, testers, n - 1);
      assert ncaches[..n - 1][1..] == ncaches[1..][..n - 2];
      Distribute(ncaches[0], Weighted(ncaches[1..], testers[1..], n - 2), testers[n - 1],
                 Product(ncaches[1..][..n - 2]));
    }
  }

  lemma Distribute(c: nat, w: nat, t: nat, p: nat)
    ensures c * w + t * (c * p) == c * (w + t * p)
  {
  }
}
