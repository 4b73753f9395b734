/** Round trips of ProtoStream: of a varint, and of a file of messages. */
module ProtoStreamProofs {
  import opened Bits
  import opened Files
  import opened Text
  import opened ProtoStream

  // ---------------------------------------------------------------- varints

  lemma {:induction false} VarintShape(v: nat)
    ensures GroupSum(Varint(v)) == v
    ensures !More(Varint(v)[|Varint(v)| - 1])
    ensures forall i :: 0 <= i < |Varint(v)| - 1 ==> More(Varint(v)[i])
  {
    if v >= 0x80 {
      VarintShape(v / 0x80);
      var s := Varint(v);
      assert s[1..] == Varint(v / 0x80);
      assert s[0] % 0x80 == v % 0x80;
    } else {
      assert [v][1..] == [];
    }
  }

  /** A varint has one byte for each seven bits of its value. */
  lemma {:induction false} VarintLength(v: nat, n: nat)
    requires n > 0
    ensures |Varint(v)| <= n <==> v < Pow2(7 * n)
  {
    Pow2Of7();
    if n == 1 {
      if v >= 0x80 { assert |Varint(v / 0x80)| >= 1; }
    } else {
      Pow2Adds(7, 7 * (n - 1));
      assert 7 * n == 7 + 7 * (n - 1);
      if v >= 0x80 {
        VarintLength(v / 0x80, n - 1);
      } else {
        assert Pow2(7 * (n - 1)) >= 1;
      }
    }
  }

  lemma DecodeVarint(v: nat, rest: seq<Byte>)
    ensures |Varint(v)| <= 10 ==> Decode(Varint(v) + rest) == (Value(Low32(v), |Varint(v)|), rest)
    ensures |Varint(v)| > 10 ==> Decode(Varint(v) + rest).0 == TooLong
  {
    hide Varint, Low32, GroupSum, Marked;
    var s := Varint(v);
    var n := |s| - 1;
    VarintShape(v);
    MarkedIs(s + rest, n);
    assert (s + rest)[..n + 1] == s && (s + rest)[n + 1..] == rest;
  }

  /** Decoding what was encoded, for every number: below 2**63 its low 32 bits come back, up to
      2**70 they come back with all higher bits set, and beyond it decoding is refused. What
      follows in the file is left alone. */
  lemma VarintRoundTrip(v: nat, rest: seq<Byte>)
    ensures v < 0x8000_0000_0000_0000 ==>
      Decode(Varint(v) + rest) == (Value(v % 0x1_0000_0000, |Varint(v)|), rest)
    ensures 0x8000_0000_0000_0000 <= v < 0x40_0000_0000_0000_0000 ==>
      Decode(Varint(v) + rest) == (Value(v % 0x1_0000_0000 - 0x1_0000_0000, 10), rest)
    ensures v >= 0x40_0000_0000_0000_0000 ==> Decode(Varint(v) + rest).0 == TooLong
  {
    hide Varint, Decode, Low32;
    Pow2Of70();
    VarintLength(v, 9);
    VarintLength(v, 10);
    DecodeVarint(v, rest);
    Low32Of(v);
  }

  lemma Low32Of(v: nat)
    ensures Low32(v) == if v < 0x8000_0000_0000_0000 then v % 0x1_0000_0000 else v % 0x1_0000_0000 - 0x1_0000_0000
  {
  }

  /** Whatever the bytes are, no more than ten are read, and a value that is read agrees with its
      groups in the low 32 bits. */
  lemma DecodeReadsTenAtMost(s: seq<Byte>)
    ensures var (r, rest) := Decode(s);
            && rest == s[|s| - |rest|..]
            && |s| - |rest| <= 10
            && (r.Value? && r.size > 0 ==>
                  r.size == |s| - |rest| && (r.value - GroupSum(s[..r.size])) % 0x1_0000_0000 == 0)
  {
  }

  /** The examples of the Protocol Buffers Encoding document: 1 is one byte, 150 and 300 are two, the
      low groups first. */
  lemma VarintExamples()
    ensures Varint(1) == [0x01] && Varint(150) == [0x96, 0x01] && Varint(300) == [0xac, 0x02]
  {
    assert Varint(150 / 0x80) == [1] && Varint(300 / 0x80) == [2];
  }

  /** A file that ends inside a varint reads as (0, 0), like one that has ended before. */
  lemma DecodeAtEnd(s: seq<Byte>)
    requires |s| < 10 && forall i :: 0 <= i < |s| ==> More(s[i])
    ensures Decode(s) == (Value(0, 0), [])
  {
    MarkedIs(s, |s|);
  }

  // ---------------------------------------------------------------- files of messages

  function WriteAll<M>(serialize: M -> seq<Byte>, ms: seq<M>): seq<Byte> {
    if ms == [] then [] else Frame(serialize(ms[0])) + WriteAll(serialize, ms[1..])
  }

  /** What a loop reads that goes on until there is no message, and how it ends. */
  function ReadAll<M>(parse: seq<Byte> -> Option<M>, s: seq<Byte>): (seq<M>, ReadResult<M>)
    decreases |s|
  {
    var (r, rest) := DecodeOne(parse, s);
    if !r.Message? then ([], r)
    else
      var (ms, end) := ReadAll(parse, rest);
      ([r.message] + ms, end)
  }

  /** The messages up to the first whose encoding is empty. */
  function UpToEmpty<M>(serialize: M -> seq<Byte>, ms: seq<M>): seq<M> {
    if ms == [] || serialize(ms[0]) == [] then [] else [ms[0]] + UpToEmpty(serialize, ms[1..])
  }

  /** The library's parser undoes its serializer on these messages. */
  ghost predicate Inverse<M>(serialize: M -> seq<Byte>, parse: seq<Byte> -> Option<M>, ms: seq<M>) {
    forall m :: m in ms ==> parse(serialize(m)) == Some(m)
  }

  ghost predicate Fits<M>(serialize: M -> seq<Byte>, ms: seq<M>) {
    forall m :: m in ms ==> |serialize(m)| < 0x1_0000_0000
  }

  lemma FrameRoundTrip<M>(serialize: M -> seq<Byte>, parse: seq<Byte> -> Option<M>, m: M, rest: seq<Byte>)
    requires parse(serialize(m)) == Some(m) && |serialize(m)| < 0x1_0000_0000
    ensures DecodeOne(parse, Frame(serialize(m)) + rest) ==
      if serialize(m) == [] then (NoMessage, rest) else (Message(m), rest)
  {
    var p := serialize(m);
    VarintRoundTrip(|p|, p + rest);
    assert Frame(p) + rest == Varint(|p|) + (p + rest);
    assert Taken(p + rest, |p|) == p && Left(p + rest, |p|) == rest;
  }

  /** What the library does not parse is its error, not the end of the file. */
  lemma FrameFails<M>(parse: seq<Byte> -> Option<M>, payload: seq<Byte>, rest: seq<Byte>)
    requires payload != [] && parse(payload) == None && |payload| < 0x1_0000_0000
    ensures DecodeOne(parse, Frame(payload) + rest) == (ParseError, rest)
  {
    hide Decode, Varint;
    VarintRoundTrip(|payload|, payload + rest);
    assert Frame(payload) + rest == Varint(|payload|) + (payload + rest);
    assert Taken(payload + rest, |payload|) == payload && Left(payload + rest, |payload|) == rest;
  }

  /** A file of messages is read back up to the first message with an empty encoding, which looks
      like the end of the file. */
  lemma {:induction false} FileRoundTrip<M>(serialize: M -> seq<Byte>, parse: seq<Byte> -> Option<M>, ms: seq<M>)
    requires Inverse(serialize, parse, ms) && Fits(serialize, ms)
    ensures ReadAll(parse, WriteAll(serialize, ms)) == (UpToEmpty(serialize, ms), NoMessage)
  {
    if ms == [] {
      assert Decode([]) == (Value(0, 0), []);
    } else {
      FrameRoundTrip(serialize, parse, ms[0], WriteAll(serialize, ms[1..]));
      FileRoundTrip(serialize, parse, ms[1..]);
    }
  }

  /** So all of them come back exactly when none is empty. */
  lemma AllReadIffNoneEmpty<M>(serialize: M -> seq<Byte>, parse: seq<Byte> -> Option<M>, ms: seq<M>)
    requires Inverse(serialize, parse, ms) && Fits(serialize, ms)
    ensures ReadAll(parse, WriteAll(serialize, ms)).0 == ms <==> forall m :: m in ms ==> serialize(m) != []
  {
    FileRoundTrip(serialize, parse, ms);
    UpToEmptyIsAll(serialize, ms);
  }

  lemma {:induction false} UpToEmptyIsAll<M>(serialize: M -> seq<Byte>, ms: seq<M>)
    ensures |UpToEmpty(serialize, ms)| <= |ms|
    ensures UpToEmpty(serialize, ms) == ms <==> forall m :: m in ms ==> serialize(m) != []
  {
    if ms != [] {
      UpToEmptyIsAll(serialize, ms[1..]);
      assert ms == [ms[0]] + ms[1..];
    }
  }
}
