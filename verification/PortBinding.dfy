/** Binding the ports of a configuration read back from a file
    (gem5/configs/example/read_config.py): one greedy pass over the sorted connections, each of
    which is listed in both directions. */
module PortBinding {
  import opened Sorting
  import opened Text

  // ---------------------------------------------------------------- data

  datatype PortRef = PortRef(obj: string, port: string, index: nat)
  datatype Key = Key(obj: string, port: string)
  datatype Conn = Conn(from: PortRef, to: PortRef)

  function KeyOf(r: PortRef): Key { Key(r.obj, r.port) }

  function Rev(c: Conn): Conn { Conn(c.to, c.from) }

  datatype Outcome = Bound | KeyError | CantBeOrdered

  // ---------------------------------------------------------------- the order of connections

  predicate RefLe(a: PortRef, b: PortRef) {
    if a.obj != b.obj then StrLe(a.obj, b.obj)
    else if a.port != b.port then StrLe(a.port, b.port)
    else a.index <= b.index
  }

  function ConnLe(a: Conn, b: Conn): bool {
    if a.from != b.from then RefLe(a.from, b.from) else RefLe(a.to, b.to)
  }

  lemma RefLeTotal(a: PortRef, b: PortRef)
    ensures RefLe(a, b) || RefLe(b, a)
    ensures RefLe(a, b) && RefLe(b, a) ==> a == b
  {
    StrLeTotal(a.obj, b.obj);
    StrLeTotal(a.port, b.port);
  }

  lemma RefLeTransitive(a: PortRef, b: PortRef, c: PortRef)
    requires RefLe(a, b) && RefLe(b, c)
    ensures RefLe(a, c)
  {
    if StrLe(a.obj, b.obj) && StrLe(b.obj, c.obj) { StrLeTransitive(a.obj, b.obj, c.obj); }
    if StrLe(a.port, b.port) && StrLe(b.port, c.port) { StrLeTransitive(a.port, b.port, c.port); }
    StrLeTotal(a.obj, b.obj);
    StrLeTotal(b.obj, c.obj);
    StrLeTotal(a.port, b.port);
    StrLeTotal(b.port, c.port);
  }

  lemma ConnLeTotal(a: Conn, b: Conn)
    ensures ConnLe(a, b) || ConnLe(b, a)
    ensures ConnLe(a, b) && ConnLe(b, a) ==> a == b
  {
    RefLeTotal(a.from, b.from);
    RefLeTotal(a.to, b.to);
  }

  lemma ConnLeTransitive(a: Conn, b: Conn, c: Conn)
    requires ConnLe(a, b) && ConnLe(b, c)
    ensures ConnLe(a, c)
  {
    RefLeTotal(a.from, b.from);
    RefLeTotal(b.from, c.from);
    if RefLe(a.from, b.from) && RefLe(b.from, c.from) { RefLeTransitive(a.from, b.from, c.from); }
    if RefLe(a.to, b.to) && RefLe(b.to, c.to) { RefLeTransitive(a.to, b.to, c.to); }
  }

  lemma ConnLeIsTotal()
    ensures TotalPreorder(ConnLe)
  {
    forall a, b ensures ConnLe(a, b) || ConnLe(b, a) { ConnLeTotal(a, b); }
    forall a, b, c | ConnLe(a, b) && ConnLe(b, c) ensures ConnLe(a, c) { ConnLeTransitive(a, b, c); }
  }

  ghost predicate Before(a: Conn, b: Conn) { ConnLe(a, b) && !ConnLe(b, a) }

  // ---------------------------------------------------------------- the pass

  /** The local state of bind_ports: how many connections each port has, and what is to be bound. */
  datatype Pass = Pass(counts: map<Key, nat>, made: seq<Conn>, failed: bool)

  function Sources(conns: seq<Conn>): set<Key> { set c | c in conns :: KeyOf(c.from) }

  function Start(conns: seq<Conn>): Pass {
    Pass(map k | k in Sources(conns) :: 0, [], false)
  }

  function Increment(counts: map<Key, nat>, k: Key): map<Key, nat>
    requires k in counts
  {
    counts[k := counts[k] + 1]
  }

  /** One turn of the loop. Looking up a port that is nobody's source is a KeyError. */
  function Try(p: Pass, c: Conn): Pass {
    var f, t := KeyOf(c.from), KeyOf(c.to);
    if p.failed then p
    else if f !in p.counts then p.(failed := true)
    else if p.counts[f] != c.from.index then p
    else if t !in p.counts then p.(failed := true)
    else if p.counts[t] != c.to.index then p
    else Pass(Increment(Increment(p.counts, f), t), p.made + [c], false)
  }

  function TryAll(p: Pass, s: seq<Conn>): Pass {
    if s == [] then p else Try(TryAll(p, s[..|s| - 1]), s[|s| - 1])
  }

  function RunPass(conns: seq<Conn>): Pass { TryAll(Start(conns), Sort(ConnLe, conns)) }

  function Verdict(conns: seq<Conn>): Outcome {
    var p := RunPass(conns);
    if p.failed then KeyError else if |p.made| * 2 != |conns| then CantBeOrdered else Bound
  }

  class ConfigManager {
    /** The assignments made to object ports, oldest first. */
    var bindings: seq<Conn>

    constructor ()
      ensures bindings == []
    {
      bindings := [];
    }

    method BindPorts(connections: seq<Conn>) returns (outcome: Outcome)
      modifies this
      ensures outcome == Verdict(connections)
      ensures bindings == old(bindings) + if outcome == Bound then RunPass(connections).made else []
    {
      var portBindIndices := ZeroIndices(connections);
      var connectionsToMake, failed := StepThrough(connections, Sort(ConnLe, connections), portBindIndices);
      if failed {
        return KeyError;
      }
      if |connectionsToMake| * 2 != |connections| {
        return CantBeOrdered;
      }
      for i := 0 to |connectionsToMake|
        invariant bindings == old(bindings) + connectionsToMake[..i]
      {
        bindings := bindings + [connectionsToMake[i]];
      }
      outcome := Bound;
    }
  }

  /** The first loop of bind_ports. */
  method ZeroIndices(connections: seq<Conn>) returns (portBindIndices: map<Key, nat>)
    ensures portBindIndices == Start(connections).counts
  {
    portBindIndices := map[];
    for i := 0 to |connections|
      invariant portBindIndices == Start(connections[..i]).counts
    {
      portBindIndices := portBindIndices[KeyOf(connections[i].from) := 0];
      assert connections[..i + 1] == connections[..i] + [connections[i]];
    }
    assert connections[..|connections|] == connections;
  }

  /** The loop over the sorted connections. */
  method StepThrough(connections: seq<Conn>, sorted: seq<Conn>, zeros: map<Key, nat>)
    returns (connectionsToMake: seq<Conn>, failed: bool)
    requires zeros == Start(connections).counts
    ensures failed == TryAll(Start(connections), sorted).failed
    ensures !failed ==> connectionsToMake == TryAll(Start(connections), sorted).made
  {
    hide TryAll;
    var portBindIndices := zeros;
    connectionsToMake := [];
    TryNone(Start(connections), sorted);
    for i := 0 to |sorted|
      invariant TryAll(Start(connections), sorted[..i]) == Pass(portBindIndices, connectionsToMake, false)
    {
      var c := sorted[i];
      var f, t := KeyOf(c.from), KeyOf(c.to);
      TryNext(Start(connections), sorted, i);
      if f !in portBindIndices || (portBindIndices[f] == c.from.index && t !in portBindIndices) {
        FailureStays(Start(connections), sorted, i + 1);
        return connectionsToMake, true;
      }
      if portBindIndices[f] == c.from.index && portBindIndices[t] == c.to.index {
        connectionsToMake := connectionsToMake + [c];
        portBindIndices := portBindIndices[f := portBindIndices[f] + 1];
        portBindIndices := portBindIndices[t := portBindIndices[t] + 1];
      }
    }
    assert sorted[..|sorted|] == sorted;
    failed := false;
  }

  lemma TryNone(p: Pass, s: seq<Conn>)
    ensures TryAll(p, s[..0]) == p
  {
  }

  lemma TryNext(p: Pass, s: seq<Conn>, n: nat)
    requires n < |s|
    ensures TryAll(p, s[..n + 1]) == Try(TryAll(p, s[..n]), s[n])
  {
    assert s[..n + 1][..n] == s[..n];
  }

  lemma {:induction false} FailureStays(p: Pass, s: seq<Conn>, n: nat)
    requires n <= |s| && TryAll(p, s[..n]).failed
    ensures TryAll(p, s).failed
  {
    if n == |s| {
      assert s[..n] == s;
    } else {
      assert s[..|s| - 1][..n] == s[..n];
      FailureStays(p, s[..|s| - 1], n);
    }
  }
}
