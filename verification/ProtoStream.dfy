/** Length-prefixed messages in a byte stream (gem5/util/protolib.py). The prefix is the variable
    length integer of the section "Base 128 Varints" of the Protocol Buffers Encoding document. */
module ProtoStream {
  import opened Bits
  import opened Files
  import opened Text

  // ---------------------------------------------------------------- varints

  /** The bytes of a varint: groups of seven bits, low ones first, all but the last marked. */
  function Varint(v: nat): (s: seq<Byte>)
    ensures s != []
  {
    if v < 0x80 then [v] else [0x80 + v % 0x80] + Varint(v / 0x80)
  }

  predicate More(b: Byte) { b >= 0x80 }

  /** How many bytes at the front of s ask for another one. */
  function Marked(s: seq<Byte>): (n: nat)
    ensures n <= |s| && (n < |s| ==> !More(s[n])) && forall i :: 0 <= i < n ==> More(s[i])
  {
    if s == [] || !More(s[0]) then 0 else 1 + Marked(s[1..])
  }

  /** The number that seven-bit groups stand for. */
  function GroupSum(s: seq<Byte>): nat {
    if s == [] then 0 else s[0] % 0x80 + 0x80 * GroupSum(s[1..])
  }

  /** result | ~0xffffffff on Python's integers: the low 32 bits, with every higher bit set. */
  function SetHighBits(x: int): int { x % 0x1_0000_0000 - 0x1_0000_0000 }

  function Low32(x: nat): int {
    if x > 0x7fff_ffff_ffff_ffff then SetHighBits(x - 0x1_0000_0000_0000_0000) else x % 0x1_0000_0000
  }

  /** The value read and the number of bytes, (0, 0) at the end of the file, or the IOError. */
  datatype VarintResult = Value(value: int, size: nat) | TooLong

  /** What is decoded from the front of s, and what is left. */
  function Decode(s: seq<Byte>): (VarintResult, seq<Byte>) {
    var n := Marked(s);
    if n >= 10 then (TooLong, s[10..])
    else if n == |s| then (Value(0, 0), [])
    else (Value(Low32(GroupSum(s[..n + 1])), n + 1), s[n + 1..])
  }

  method EncodeVarint32(out: OutFile, v: nat)
    modifies out
    ensures out.data == old(out.data) + Varint(v)
  {
    LowBits(v);
    var bits: nat, value := BitAnd(v, 0x7f), ShiftRight(v, 7);
    ghost var all := out.data + Varint(v);
    while value != 0
      invariant bits < 0x80
      invariant all == out.data + Varint(bits + 0x80 * value)
      decreases value
    {
      VarintStep(bits, value);
      assert all == (out.data + [0x80 + bits]) + Varint(value);
      bits := WriteMarked(out, bits, value);
      value := ShiftRight(value, 7);
    }
    out.Write([bits]);
  }

  /** Writes a group with the mark that more follow, and takes the next one. */
  method WriteMarked(out: OutFile, bits: nat, value: nat) returns (next: nat)
    requires bits < 0x80
    modifies out
    ensures out.data == old(out.data) + [0x80 + bits]
    ensures next == value % 0x80 && ShiftRight(value, 7) == value / 0x80
  {
    MarkIsPlus(bits);
    out.Write([BitOr(0x80, bits)]);
    LowBits(value);
    next := BitAnd(value, 0x7f);
  }

  method DecodeVarint32(f: InFile) returns (r: VarintResult)
    requires f.Valid()
    modifies f
    ensures f.Valid() && (r, f.Rest()) == Decode(old(f.Rest()))
  {
    assert GroupSum([]) == 0;
    hide GroupSum, Marked, BitAnd, BitOr, ShiftLeft, More;
    var result: nat, shift, pos := 0, 0, 0;
    ghost var s := f.Rest();
    while true
      invariant f.Valid() && pos < 10 && pos <= |s| && f.Rest() == s[pos..]
      invariant forall i :: 0 <= i < pos ==> More(s[i])
      invariant shift == 7 * pos
      invariant result == GroupSum(s[..pos])
      decreases 10 - pos
    {
      var c := f.Read(1);
      if |c| == 0 {
        MarkedIs(s, pos);
        return Value(0, 0);
      }
      var b := c[0];
      assert s[..pos + 1] == s[..pos] + [b];
      LowBits(b);
      GroupSumNext(s[..pos], b);
      result := BitOr(result, ShiftLeft(BitAnd(b, 0x7f), shift));
      pos := pos + 1;
      HighBit(b);
      if BitAnd(b, 0x80) == 0 {
        MarkedIs(s, pos - 1);
        Low32Masks(result);
        if result > 0x7fff_ffff_ffff_ffff {
          return Value(SetHighBits(result - 0x1_0000_0000_0000_0000), pos);
        }
        return Value(BitAnd(result, 0xffff_ffff), pos);
      }
      shift := shift + 7;
      if shift >= 64 {
        assert s[..10] == s[..pos];
        MarkedAtLeast(s, 10);
        return TooLong;
      }
    }
  }

  // ---------------------------------------------------------------- messages

  /** True and the message, False, or the exception of the library's parser. */
  datatype ReadResult<M> = Message(message: M) | NoMessage | ParseError

  function Frame(payload: seq<Byte>): seq<Byte> { Varint(|payload|) + payload }

  /** One message from the front of s, and what is left. */
  function DecodeOne<M>(parse: seq<Byte> -> Option<M>, s: seq<Byte>): (ReadResult<M>, seq<Byte>) {
    var (v, rest) := Decode(s);
    if v == TooLong || v.value == 0 then (NoMessage, rest)
    else match parse(Taken(rest, v.value))
      case Some(m) => (Message(m), Left(rest, v.value))
      case None => (ParseError, Left(rest, v.value))
  }

  method EncodeMessage<M>(out: OutFile, message: M, serialize: M -> seq<Byte>)
    modifies out
    ensures out.data == old(out.data) + Frame(serialize(message))
  {
    var bytes := serialize(message);
    EncodeVarint32(out, |bytes|);
    out.Write(bytes);
  }

  method DecodeMessage<M>(f: InFile, parse: seq<Byte> -> Option<M>) returns (r: ReadResult<M>)
    requires f.Valid()
    modifies f
    ensures f.Valid() && (r, f.Rest()) == DecodeOne(parse, old(f.Rest()))
  {
    var v := DecodeVarint32(f);
    if v == TooLong || v.value == 0 {
      return NoMessage;
    }
    var buf := f.Read(v.value);
    match parse(buf) {
      case Some(m) => r := Message(m);
      case None => r := ParseError;
    }
  }

  lemma VarintStep(bits: nat, value: nat)
    requires bits < 0x80 && value != 0
    ensures Varint(bits + 0x80 * value) == [0x80 + bits] + Varint(value)
    ensures value == value % 0x80 + 0x80 * (value / 0x80)
  {
  }

  // ---------------------------------------------------------------- the operators used

  lemma LowBits(v: nat)
    ensures BitAnd(v, 0x7f) == v % 0x80 && ShiftRight(v, 7) == v / 0x80
  {
    Pow2Of7();
    AndMask(v, 7);
    ShiftRightDivides(v, 7);
  }

  lemma Low32Masks(v: nat)
    ensures BitAnd(v, 0xffff_ffff) == v % 0x1_0000_0000
  {
    Pow2Of32();
    AndMask(v, 32);
  }

  lemma MarkIsPlus(bits: nat)
    requires bits < 0x80
    ensures BitOr(0x80, bits) == 0x80 + bits
  {
    Pow2Of7();
    OrIsPlus(bits, 1, 7);
    OrCommutes(0x80, bits);
  }

  lemma {:induction false} OrCommutes(a: nat, b: nat)
    ensures BitOr(a, b) == BitOr(b, a)
    decreases a + b
  {
    if a > 0 && b > 0 {
      OrCommutes(a / 2, b / 2);
    }
  }

  lemma HighBit(b: Byte)
    ensures BitAnd(b, 0x80) == 0 <==> !More(b)
  {
    Pow2Of7();
    AndBit(b, 7);
  }

  lemma {:induction false} MarkedAtLeast(s: seq<Byte>, n: nat)
    requires n <= |s| && forall i :: 0 <= i < n ==> More(s[i])
    ensures Marked(s) >= n
  {
  }

  lemma MarkedIs(s: seq<Byte>, n: nat)
    requires n <= |s| && (forall i :: 0 <= i < n ==> More(s[i])) && (n < |s| ==> !More(s[n]))
    ensures Marked(s) == n
  {
  }

  lemma {:induction false} GroupSumFits(s: seq<Byte>)
    ensures GroupSum(s) < Pow2(7 * |s|)
  {
    if s != [] {
      GroupSumFits(s[1..]);
      Pow2Of7();
      Pow2Adds(7, 7 * |s[1..]|);
      assert 7 * |s| == 7 + 7 * |s[1..]|;
    }
  }

  /** Each group lies above the bits of those before it, so that or-ing it in adds it. */
  lemma {:induction false} GroupSumNext(s: seq<Byte>, b: Byte)
    ensures GroupSum(s + [b]) == BitOr(GroupSum(s), ShiftLeft(b % 0x80, 7 * |s|))
  {
    GroupSumFits(s);
    ShiftLeftMultiplies(b % 0x80, 7 * |s|);
    OrIsPlus(GroupSum(s), b % 0x80, 7 * |s|);
    GroupSumAppend(s, b);
  }

  lemma {:induction false} GroupSumAppend(s: seq<Byte>, b: Byte)
    ensures GroupSum(s + [b]) == GroupSum(s) + b % 0x80 * Pow2(7 * |s|)
  {
    if s == [] {
      assert s + [b] == [b] && [b][1..] == [];
      assert Pow2(0) == 1;
    } else {
      assert (s + [b])[1..] == s[1..] + [b];
      GroupSumAppend(s[1..], b);
      Pow2Of7();
      Pow2Adds(7, 7 * |s[1..]|);
      assert 7 * |s| == 7 + 7 * |s[1..]|;
      var p, g := Pow2(7 * |s[1..]|), b % 0x80;
      assert 0x80 * (g * p) == g * (0x80 * p);
    }
  }
}
