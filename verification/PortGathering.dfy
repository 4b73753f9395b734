/** From the text of a configuration to the connection list that is bound
    (gem5/configs/example/read_config.py): parsing port references, and listing the peers of every
    port of every object. */
module PortGathering {
  import opened Counting
  import opened Text
  import opened PortBinding
  import opened PortBindingProofs

  // ---------------------------------------------------------------- port references as text

  predicate PortChar(c: char) { c != '.' && c != '[' }

  /** The longest stretch of characters a port name may have, from position i. */
  function NameEnd(s: string, i: nat): (e: nat)
    requires i <= |s|
    ensures i <= e <= |s|
    ensures forall j :: i <= j < e ==> PortChar(s[j])
    ensures e < |s| ==> !PortChar(s[e])
    decreases |s| - i
  {
    if i < |s| && PortChar(s[i]) then NameEnd(s, i + 1) else i
  }

  function DigitsEnd(s: string, i: nat): (e: nat)
    requires i <= |s|
    ensures i <= e <= |s|
    ensures AllDigits(s[i..e])
    ensures e < |s| ==> !IsDigit(s[e])
    decreases |s| - i
  {
    if i < |s| && IsDigit(s[i]) then DigitsEnd(s, i + 1) else i
  }

  /** A dot with the first character of a port name behind it, and no line break before it. */
  predicate Splits(s: string, d: nat) {
    d + 1 < |s| && s[d] == '.' && PortChar(s[d + 1]) && Without('\n', s[..d])
  }

  /** The last dot before position n that splits the reference. */
  function LastSplit(s: string, n: nat): (d: Option<nat>)
    ensures d.Some? ==> d.value < n && Splits(s, d.value)
    ensures forall i :: (if d.Some? then d.value + 1 else 0) <= i < n ==> !Splits(s, i)
  {
    if n == 0 then None else if Splits(s, n - 1) then Some(n - 1) else LastSplit(s, n - 1)
  }

  /** PortConnection.from_string. Without a match it fails on None.groups(). What follows the
      reference is ignored, and so is an index that is not closed. */
  function FromString(s: string): Option<PortRef> {
    var d := LastSplit(s, |s|);
    if d.None? then None
    else
      var e := NameEnd(s, d.value + 1);
      var f := if e < |s| && s[e] == '[' then DigitsEnd(s, e + 1) else e;
      var index := if e + 1 < f < |s| && s[f] == ']' then ReadNat(s[e + 1..f]) else 0;
      Some(PortRef(s[..d.value], s[d.value + 1..e], index))
  }

  /** PortConnection.__str__ */
  function ToString(r: PortRef): string {
    r.obj + "." + r.port + "[" + ShowNat(r.index) + "]"
  }

  predicate Readable(r: PortRef) {
    r.port != [] && (forall i :: 0 <= i < |r.port| ==> PortChar(r.port[i])) && Without('\n', r.obj)
  }

  lemma ParsedIsReadable(s: string)
    requires FromString(s).Some?
    ensures Readable(FromString(s).value)
  {
  }

  lemma ShownSplits(r: PortRef)
    requires Readable(r)
    ensures LastSplit(ToString(r), |ToString(r)|) == Some(|r.obj|)
  {
    var s := ToString(r);
    var d := |r.obj|;
    var e := d + 1 + |r.port|;
    assert s[..d] == r.obj && s[d] == '.' && s[d + 1] == r.port[0];
    forall i | d < i < |s| ensures s[i] != '.' {
      if i < e {
        assert s[i] == r.port[i - d - 1];
      } else if e < i < |s| - 1 {
        assert s[i] == ShowNat(r.index)[i - e - 1];
      }
    }
    assert Splits(s, d);
  }

  lemma {:induction false} NameEndIs(s: string, i: nat, e: nat)
    requires i <= e < |s| && !PortChar(s[e]) && forall j :: i <= j < e ==> PortChar(s[j])
    ensures NameEnd(s, i) == e
    decreases e - i
  {
  }

  lemma {:induction false} DigitsEndIs(s: string, i: nat, e: nat)
    requires i <= e < |s| && !IsDigit(s[e]) && forall j :: i <= j < e ==> IsDigit(s[j])
    ensures DigitsEnd(s, i) == e
    decreases e - i
  {
  }

  /** The parts of a reference with an index. */
  lemma FromParts(s: string, d: nat, e: nat, f: nat)
    requires d < e < |s| && LastSplit(s, |s|) == Some(d) && NameEnd(s, d + 1) == e && s[e] == '['
    requires e + 1 < f < |s| && DigitsEnd(s, e + 1) == f && s[f] == ']' && AllDigits(s[e + 1..f])
    ensures FromString(s) == Some(PortRef(s[..d], s[d + 1..e], ReadNat(s[e + 1..f])))
  {
    hide LastSplit, NameEnd, DigitsEnd, ReadNat;
  }

  lemma ToParts(r: PortRef, s: string)
    requires s == ToString(r)
    ensures var d, f := |r.obj|, |s| - 1;
            var e := d + 1 + |r.port|;
            && e + 1 < f && s[..d] == r.obj && s[d + 1..e] == r.port
            && s[e] == '[' && s[e + 1..f] == ShowNat(r.index) && s[f] == ']'
    ensures forall j :: |r.obj| < j <= |r.obj| + |r.port| ==> s[j] == r.port[j - |r.obj| - 1]
  {
    hide ShowNat;
  }

  lemma ShownIsRead(r: PortRef)
    requires Readable(r)
    ensures FromString(ToString(r)) == Some(r)
  {
    hide LastSplit, NameEnd, DigitsEnd, ShowNat, FromString, ToString;
    var s := ToString(r);
    var d, f := |r.obj|, |s| - 1;
    var e := d + 1 + |r.port|;
    ShownSplits(r);
    ToParts(r, s);
    NameEndIs(s, d + 1, e);
    forall j | e + 1 <= j < f ensures IsDigit(s[j]) {
      assert s[j] == s[e + 1..f][j - e - 1];
    }
    DigitsEndIs(s, e + 1, f);
    ReadShow(r.index);
    FromParts(s, d, e, f);
  }

  /** Exactly the references that can be told apart from their text are read back as written. */
  lemma RefRoundTrip(r: PortRef)
    ensures FromString(ToString(r)) == Some(r) <==> Readable(r)
  {
    if Readable(r) {
      ShownIsRead(r);
    }
    if FromString(ToString(r)) == Some(r) {
      ParsedIsReadable(ToString(r));
    }
  }

  /** A reference without an index has index zero. */
  lemma NoIndexIsZero(obj: string, port: string)
    requires Readable(PortRef(obj, port, 0))
    ensures FromString(obj + "." + port) == Some(PortRef(obj, port, 0))
  {
    var s := obj + "." + port;
    var d := |obj|;
    assert s[..d] == obj && s[d] == '.' && s[d + 1..] == port;
    forall i | d < i < |s| ensures PortChar(s[i]) {
      assert s[i] == port[i - d - 1];
    }
    assert Splits(s, d);
    assert forall i :: d < i < |s| ==> !Splits(s, i);
    assert LastSplit(s, |s|) == Some(d);
    NameEndAtEnd(s, d + 1);
    assert s[d + 1..|s|] == port;
  }

  lemma {:induction false} NameEndAtEnd(s: string, i: nat)
    requires i <= |s| && forall j :: i <= j < |s| ==> PortChar(s[j])
    ensures NameEnd(s, i) == |s|
    decreases |s| - i
  {
    if i < |s| { NameEndAtEnd(s, i + 1); }
  }

  /** The last dot in front of the index divides object and port. */
  lemma RefExample()
    ensures FromString("system.cpu.port[12]") == Some(PortRef("system.cpu", "port", 12))
    ensures ToString(PortRef("system.cpu", "port", 12)) == "system.cpu.port[12]"
  {
    var r := PortRef("system.cpu", "port", 12);
    assert ShowNat(12) == ShowNat(1) + "2" == "12";
    assert ToString(r) == "system.cpu.port[12]";
    ShownIsRead(r);
  }

  // ---------------------------------------------------------------- gathering

  datatype Object = Object(name: string, ports: seq<string>)

  /** What the file says of each port: its peers. */
  type Config = map<Key, seq<string>>

  function PeersOf(config: Config, k: Key): seq<string> { if k in config then config[k] else [] }

  function Append(a: Option<seq<Conn>>, b: Option<seq<Conn>>): Option<seq<Conn>> {
    if a.Some? && b.Some? then Some(a.value + b.value) else None
  }

  function GatherPeers(k: Key, peers: seq<string>): Option<seq<Conn>> {
    if peers == [] then Some([])
    else
      var n := |peers| - 1;
      var to := FromString(peers[n]);
      Append(GatherPeers(k, peers[..n]),
             if to.None? then None else Some([Conn(PortRef(k.obj, k.port, n), to.value)]))
  }

  function GatherPorts(config: Config, obj: string, ports: seq<string>): Option<seq<Conn>> {
    if ports == [] then Some([])
    else
      var k := Key(obj, ports[|ports| - 1]);
      Append(GatherPorts(config, obj, ports[..|ports| - 1]), GatherPeers(k, PeersOf(config, k)))
  }

  function Gather(config: Config, objects: seq<Object>): Option<seq<Conn>> {
    if objects == [] then Some([])
    else
      var o := objects[|objects| - 1];
      Append(Gather(config, objects[..|objects| - 1]), GatherPorts(config, o.name, o.ports))
  }

  method GatherPortConnections(config: Config, obj: Object) returns (parsed: Option<seq<Conn>>)
    ensures parsed == GatherPorts(config, obj.name, obj.ports)
  {
    hide FromString, GatherPeers, GatherPorts;
    PortsNext(config, obj.name, obj.ports, 0);
    var list: seq<Conn> := [];
    for p := 0 to |obj.ports|
      invariant GatherPorts(config, obj.name, obj.ports[..p]) == Some(list)
    {
      PortsNext(config, obj.name, obj.ports, p + 1);
      var k := Key(obj.name, obj.ports[p]);
      var peers := PeersOf(config, k);
      ghost var before := list;
      PeersNext(k, peers, 0);
      for index := 0 to |peers|
        invariant GatherPeers(k, peers[..index]).Some?
        invariant list == before + GatherPeers(k, peers[..index]).value
      {
        PeersNext(k, peers, index + 1);
        var to := FromString(peers[index]);
        if to.None? {
          PeersFail(k, peers, index + 1);
          PortsFail(config, obj.name, obj.ports, p + 1);
          return None;
        }
        list := list + [Conn(PortRef(obj.name, obj.ports[p], index), to.value)];
      }
      assert peers[..|peers|] == peers;
    }
    assert obj.ports[..|obj.ports|] == obj.ports;
    parsed := Some(list);
  }

  method GatherAll(config: Config, objects: seq<Object>) returns (connections: Option<seq<Conn>>)
    ensures connections == Gather(config, objects)
  {
    var list: seq<Conn> := [];
    for i := 0 to |objects|
      invariant Gather(config, objects[..i]) == Some(list)
    {
      assert objects[..i + 1][..i] == objects[..i];
      var more := GatherPortConnections(config, objects[i]);
      if more.None? {
        ObjectsFail(config, objects, i + 1);
        return None;
      }
      list := list + more.value;
    }
    assert objects[..|objects|] == objects;
    connections := Some(list);
  }

  lemma PeersNext(k: Key, peers: seq<string>, n: nat)
    requires n <= |peers|
    ensures GatherPeers(k, peers[..n])
         == if n == 0 then Some([])
            else Append(GatherPeers(k, peers[..n - 1]),
                        if FromString(peers[n - 1]).None? then None
                        else Some([Conn(PortRef(k.obj, k.port, n - 1), FromString(peers[n - 1]).value)]))
  {
    if n > 0 { assert peers[..n][..n - 1] == peers[..n - 1]; }
  }

  lemma PortsNext(config: Config, obj: string, ports: seq<string>, n: nat)
    requires n <= |ports|
    ensures GatherPorts(config, obj, ports[..n])
         == if n == 0 then Some([])
            else Append(GatherPorts(config, obj, ports[..n - 1]),
                        GatherPeers(Key(obj, ports[n - 1]), PeersOf(config, Key(obj, ports[n - 1]))))
  {
    if n > 0 { assert ports[..n][..n - 1] == ports[..n - 1]; }
  }

  lemma {:induction false} PeersFail(k: Key, peers: seq<string>, n: nat)
    requires n <= |peers| && GatherPeers(k, peers[..n]) == None
    ensures GatherPeers(k, peers) == None
  {
    if n == |peers| {
      assert peers[..n] == peers;
    } else {
      assert peers[..|peers| - 1][..n] == peers[..n];
      PeersFail(k, peers[..|peers| - 1], n);
    }
  }

  lemma {:induction false} PortsFail(config: Config, obj: string, ports: seq<string>, n: nat)
    requires n <= |ports| && GatherPorts(config, obj, ports[..n]) == None
    ensures GatherPorts(config, obj, ports) == None
  {
    if n == |ports| {
      assert ports[..n] == ports;
    } else {
      assert ports[..|ports| - 1][..n] == ports[..n];
      PortsFail(config, obj, ports[..|ports| - 1], n);
    }
  }

  lemma {:induction false} ObjectsFail(config: Config, objects: seq<Object>, n: nat)
    requires n <= |objects| && Gather(config, objects[..n]) == None
    ensures Gather(config, objects) == None
  {
    if n == |objects| {
      assert objects[..n] == objects;
    } else {
      assert objects[..|objects| - 1][..n] == objects[..n];
      ObjectsFail(config, objects[..|objects| - 1], n);
    }
  }

  // ---------------------------------------------------------------- what is gathered

  /** The configuration names c.to as the peer of c.from. */
  predicate Lists(config: Config, c: Conn) {
    var peers := PeersOf(config, KeyOf(c.from));
    c.from.index < |peers| && FromString(peers[c.from.index]) == Some(c.to)
  }

  predicate HasPort(objects: seq<Object>, k: Key) {
    exists i :: 0 <= i < |objects| && objects[i].name == k.obj && k.port in objects[i].ports
  }

  ghost predicate SourcesDiffer(conns: seq<Conn>) {
    forall i, j :: 0 <= i < j < |conns| ==> conns[i].from != conns[j].from
  }

  lemma {:induction false} PeersGathered(k: Key, peers: seq<string>)
    requires GatherPeers(k, peers).Some?
    ensures var g := GatherPeers(k, peers).value;
            |g| == |peers| && forall i :: 0 <= i < |g| ==>
              g[i].from == PortRef(k.obj, k.port, i) && FromString(peers[i]) == Some(g[i].to)
  {
    if peers != [] { PeersGathered(k, peers[..|peers| - 1]); }
  }

  lemma {:induction false} PortsGathered(config: Config, obj: string, ports: seq<string>)
    requires GatherPorts(config, obj, ports).Some? && Distinct(ports)
    ensures var g := GatherPorts(config, obj, ports).value;
            && SourcesDiffer(g)
            && forall c :: c in g <==> c.from.obj == obj && c.from.port in ports && Lists(config, c)
  {
    if ports != [] {
      var n := |ports| - 1;
      var k := Key(obj, ports[n]);
      PortsGathered(config, obj, ports[..n]);
      PeersGathered(k, PeersOf(config, k));
      var a, b := GatherPorts(config, obj, ports[..n]).value, GatherPeers(k, PeersOf(config, k)).value;
      assert ports[n] !in ports[..n];
      forall c ensures c in b <==> KeyOf(c.from) == k && Lists(config, c) {
        if KeyOf(c.from) == k && Lists(config, c) { assert b[c.from.index] == c; }
      }
      Joined(a, b);
    } else {
      assert GatherPorts(config, obj, ports).value == [];
    }
  }

  lemma Joined(a: seq<Conn>, b: seq<Conn>)
    requires SourcesDiffer(a) && SourcesDiffer(b)
    requires forall c, d :: c in a && d in b ==> c.from != d.from
    ensures SourcesDiffer(a + b)
  {
  }

  ghost predicate NamesDiffer(objects: seq<Object>) {
    && (forall i, j :: 0 <= i < j < |objects| ==> objects[i].name != objects[j].name)
    && (forall i :: 0 <= i < |objects| ==> Distinct(objects[i].ports))
  }

  /** Every port reference is a source once, and the list says exactly what the file says. */
  lemma {:induction false} GatheredExactly(config: Config, objects: seq<Object>)
    requires Gather(config, objects).Some? && NamesDiffer(objects)
    ensures SourcesDiffer(Gather(config, objects).value)
    ensures forall c :: c in Gather(config, objects).value <==> HasPort(objects, KeyOf(c.from)) && Lists(config, c)
  {
    var g := Gather(config, objects).value;
    if objects == [] {
      assert g == [];
    } else {
      var n := |objects| - 1;
      var o := objects[n];
      GatheredExactly(config, objects[..n]);
      PortsGathered(config, o.name, o.ports);
      var a, b := Gather(config, objects[..n]).value, GatherPorts(config, o.name, o.ports).value;
      assert g == a + b;
      forall k ensures HasPort(objects, k) <==> HasPort(objects[..n], k) || (k.obj == o.name && k.port in o.ports) {
        HasPortNext(objects, k);
      }
      forall c, d | c in a && d in b ensures c.from != d.from {
        assert HasPort(objects[..n], KeyOf(c.from));
      }
      Joined(a, b);
    }
  }

  lemma HasPortNext(objects: seq<Object>, k: Key)
    requires objects != []
    ensures var o := objects[|objects| - 1];
            HasPort(objects, k) <==> HasPort(objects[..|objects| - 1], k) || (k.obj == o.name && k.port in o.ports)
  {
  }

  // ---------------------------------------------------------------- what binding needs of the file

  /** Peers name each other, and nothing is its own peer. */
  ghost predicate PeersAgree(config: Config, objects: seq<Object>) {
    forall c: Conn {:trigger Lists(config, c)} :: HasPort(objects, KeyOf(c.from)) && Lists(config, c) ==>
      HasPort(objects, KeyOf(c.to)) && Lists(config, Rev(c)) && c.from != c.to
  }

  /** The promise bind_ports asks of its list is one about the file alone. */
  lemma SymmetricIffPeersAgree(config: Config, objects: seq<Object>)
    requires Gather(config, objects).Some? && NamesDiffer(objects)
    ensures Symmetric(Gather(config, objects).value) <==> PeersAgree(config, objects)
  {
    var g := Gather(config, objects).value;
    GatheredExactly(config, objects);
    if Symmetric(g) {
      forall c: Conn | HasPort(objects, KeyOf(c.from)) && Lists(config, c)
        ensures HasPort(objects, KeyOf(c.to)) && Lists(config, Rev(c)) && c.from != c.to
      {
        assert c in g && Rev(c) in g;
      }
    }
    if PeersAgree(config, objects) {
      forall c | c in g ensures Rev(c) in g && c.from != c.to {
        assert Lists(config, c);
      }
    }
  }

  /** Indices are positions in the list of peers, so that they have no gaps. */
  lemma GatheredIsContiguous(config: Config, objects: seq<Object>)
    requires Gather(config, objects).Some? && NamesDiffer(objects)
    ensures Contiguous(Gather(config, objects).value)
  {
    hide FromString, Gather, HasPort;
    var g := Gather(config, objects).value;
    GatheredExactly(config, objects);
    forall c | c in g && c.from.index > 0
      ensures exists d :: d in g && d.from == c.from.(index := c.from.index - 1)
    {
      AllParsed(config, objects, KeyOf(c.from), c.from.index - 1);
      var r := c.from.(index := c.from.index - 1);
      var d := Conn(r, FromString(PeersOf(config, KeyOf(r))[r.index]).value);
      assert Lists(config, d);
      assert d in g;
    }
  }

  lemma {:induction false} AllParsed(config: Config, objects: seq<Object>, k: Key, i: nat)
    requires Gather(config, objects).Some? && HasPort(objects, k) && i < |PeersOf(config, k)|
    ensures FromString(PeersOf(config, k)[i]).Some?
  {
    var n := |objects| - 1;
    HasPortNext(objects, k);
    if HasPort(objects[..n], k) {
      AllParsed(config, objects[..n], k, i);
    } else {
      PortParsed(config, objects[n].name, objects[n].ports, k, i);
    }
  }

  lemma {:induction false} PortParsed(config: Config, obj: string, ports: seq<string>, k: Key, i: nat)
    requires GatherPorts(config, obj, ports).Some?
    requires k.obj == obj && k.port in ports && i < |PeersOf(config, k)|
    ensures FromString(PeersOf(config, k)[i]).Some?
  {
    var n := |ports| - 1;
    if k.port == ports[n] {
      PeersGathered(k, PeersOf(config, k));
    } else {
      PortParsed(config, obj, ports[..n], k, i);
    }
  }

  /** A file in which peers agree and no two ports with several peers are joined is bound, whatever
      the names and the order in which the objects come. */
  lemma ScalarFilesBind(config: Config, objects: seq<Object>)
    requires Gather(config, objects).Some? && NamesDiffer(objects) && PeersAgree(config, objects)
    requires forall c: Conn {:trigger Lists(config, c)} :: HasPort(objects, KeyOf(c.from)) && Lists(config, c) ==>
               |PeersOf(config, KeyOf(c.from))| <= 1 || |PeersOf(config, KeyOf(c.to))| <= 1
    ensures Verdict(Gather(config, objects).value) == Bound
  {
    hide FromString, Gather, HasPort, Verdict, Symmetric, Contiguous, PeersAgree;
    var g := Gather(config, objects).value;
    GatheredExactly(config, objects);
    SymmetricIffPeersAgree(config, objects);
    GatheredIsContiguous(config, objects);
    forall c | c in g ensures Scalar(g, KeyOf(c.from)) || Scalar(g, KeyOf(c.to)) {
      assert Lists(config, c);
    }
    ScalarPeersSucceed(g);
  }
}
