/** The main loops of the two converters, and the way from text to messages and back. */
module DepTraceFiles {
  import opened Files
  import opened Text
  import opened ProtoStream
  import opened ProtoStreamProofs
  import opened DepTrace
  import opened DepTraceProofs

  const MAGIC: seq<Byte> := [0x67, 0x65, 0x6d, 0x35]          // "gem5"

  /** The file starts with the characters "gem5". */
  lemma MagicSpells()
    ensures |MAGIC| == 4 && forall i :: 0 <= i < 4 ==> MAGIC[i] == "gem5"[i] as int
  {
  }

  // ---------------------------------------------------------------- text to messages

  /** The loop over the items of a dependency list. */
  method AppendDeps(items: seq<string>) returns (deps: Option<seq<nat>>)
    ensures deps == ReadDeps(items)
  {
    var list: seq<nat> := [];
    for i := 0 to |items|
      invariant ReadDeps(items[..i]) == Some(list)
    {
      assert items[..i + 1][..i] == items[..i];
      if items[i] != "" {
        var n := ReadField(items[i], UINT64);
        if n == None {
          BadItemStays(items, i + 1);
          return None;
        }
        list := list + [n.value];
      }
    }
    assert items[..|items|] == items;
    deps := Some(list);
  }

  lemma {:induction false} BadItemStays(items: seq<string>, n: nat)
    requires n <= |items| && ReadDeps(items[..n]) == None
    ensures ReadDeps(items) == None
  {
    if n == |items| {
      assert items[..n] == items;
    } else {
      assert items[..|items| - 1][..n] == items[..n];
      BadItemStays(items[..|items| - 1], n);
    }
  }

  method ParseRecord(line: string) returns (p: Parsed)
    ensures p == ParseLine(line)
  {
    var parts := Split(Strip(line), ':');
    if |parts| != 3 {
      return ValueError;
    }
    var info := ReadInfo(Split(parts[0], ','));
    if info.BadInfo? {
      return info.error;
    }
    var record := info.record;
    var rob := AppendDeps(Split(Strip(parts[1]), ','));
    var reg := AppendDeps(Split(parts[2], ','));
    if rob == None || reg == None {
      return ValueError;
    }
    p := Parsed(record.(robDep := rob.value, regDep := reg.value));
  }

  /** The records of the lines up to the first that is not accepted. */
  function Accepted(lines: seq<string>): seq<Record> {
    if lines == [] || !ParseLine(lines[0]).Parsed? then []
    else [ParseLine(lines[0]).record] + Accepted(lines[1..])
  }

  lemma {:induction false} AcceptedIsAll(lines: seq<string>)
    ensures |Accepted(lines)| <= |lines|
    ensures |Accepted(lines)| == |lines| <==> forall l :: l in lines ==> ParseLine(l).Parsed?
    ensures forall i :: 0 <= i < |Accepted(lines)| ==> ParseLine(lines[i]) == Parsed(Accepted(lines)[i])
  {
    if lines != [] {
      AcceptedIsAll(lines[1..]);
      assert lines == [lines[0]] + lines[1..];
    }
  }

  function EncodedFile(header: seq<Byte>, serialize: Record -> seq<Byte>, rs: seq<Record>): seq<Byte> {
    MAGIC + Frame(header) + WriteAll(serialize, rs)
  }

  /** main of the encoder: stops with an error at the first line it does not accept. */
  method EncodeTrace<H>(lines: seq<string>, header: H, serializeHeader: H -> seq<Byte>,
                        serialize: Record -> seq<Byte>, out: OutFile) returns (numRecords: nat, error: Option<Parsed>)
    requires out.data == []
    modifies out
    ensures out.data == EncodedFile(serializeHeader(header), serialize, Accepted(lines))
    ensures numRecords == |Accepted(lines)|
    ensures if error == None then numRecords == |lines|
            else numRecords < |lines| && error == Some(ParseLine(lines[numRecords])) && !error.value.Parsed?
  {
    hide ParseLine;
    out.Write(MAGIC);
    EncodeMessage(out, header, serializeHeader);
    numRecords, error := EncodeRecords(lines, serialize, out);
  }

  method EncodeRecords(lines: seq<string>, serialize: Record -> seq<Byte>, out: OutFile)
    returns (numRecords: nat, error: Option<Parsed>)
    modifies out
    ensures out.data == old(out.data) + WriteAll(serialize, Accepted(lines))
    ensures numRecords == |Accepted(lines)|
    ensures if error == None then numRecords == |lines|
            else numRecords < |lines| && error == Some(ParseLine(lines[numRecords])) && !error.value.Parsed?
  {
    hide ParseLine;
    numRecords := 0;
    ghost var all := out.data + WriteAll(serialize, Accepted(lines));
    ghost var rest := Accepted(lines);
    assert lines[0..] == lines;
    while numRecords < |lines|
      invariant numRecords <= |lines| && rest == Accepted(lines[numRecords..])
      invariant |Accepted(lines)| == numRecords + |rest|
      invariant all == out.data + WriteAll(serialize, rest)
    {
      var p := ParseRecord(lines[numRecords]);
      if !p.Parsed? {
        assert rest == [];
        return numRecords, Some(p);
      }
      AcceptedNext(lines, numRecords, serialize);
      EncodeMessage(out, p.record, serialize);
      rest := rest[1..];
      numRecords := numRecords + 1;
    }
    error := None;
  }

  lemma AcceptedNext(lines: seq<string>, n: nat, serialize: Record -> seq<Byte>)
    requires n < |lines| && ParseLine(lines[n]).Parsed?
    ensures Accepted(lines[n..]) != [] && Accepted(lines[n..])[1..] == Accepted(lines[n + 1..])
    ensures WriteAll(serialize, Accepted(lines[n..]))
         == Frame(serialize(ParseLine(lines[n]).record)) + WriteAll(serialize, Accepted(lines[n + 1..]))
  {
  }

  // ---------------------------------------------------------------- messages to text

  /** The writes for one record, in the order of the script. */
  method WriteRecord(r: Record) returns (text: string)
    ensures text == PrintLine(r)
  {
    var fields := WriteInfo(r);
    var rob := WriteDeps(r.robDep);
    var reg := WriteDeps(r.regDep);
    text := fields + ":" + rob + ":" + reg + "\n";
    ThreeParts(fields, rob, reg);
  }

  /** The writes up to the first colon: optional fields only where the record has them. */
  method WriteInfo(r: Record) returns (text: string)
    ensures text == Join(InfoFields(r), ',')
  {
    assert ShowNat(0) == "0" && ShowNat(1) == "1";
    text := ShowNat(r.seqNum);
    ghost var done := [ShowNat(r.seqNum)];
    text, done := WriteField(text, if r.pc.Some? then ShowNat(r.pc.value) else "0", done);
    text, done := WriteField(text, if r.weight.Some? then ShowNat(r.weight.value) else "1", done);
    text, done := WriteField(text, TypeName(r.rtype), done);
    assert done == [ShowNat(r.seqNum), ShowOr(r.pc, 0), ShowOr(r.weight, 1), TypeName(r.rtype)];
    text, done := WriteOptional(text, r.pAddr, done);
    text, done := WriteOptional(text, r.size, done);
    text, done := WriteOptional(text, r.flags, done);
    text, done := WriteField(text, ShowNat(r.compDelay), done);
  }

  method WriteField(before: string, field: string, ghost done: seq<string>)
    returns (text: string, ghost all: seq<string>)
    requires done != [] && before == Join(done, ',')
    ensures all == done + [field] && text == Join(all, ',')
  {
    text, all := before + "," + field, done + [field];
    JoinNext(done, field, ',');
  }

  method WriteOptional(before: string, field: Option<nat>, ghost done: seq<string>)
    returns (text: string, ghost all: seq<string>)
    requires done != [] && before == Join(done, ',')
    ensures all == done + OptShow(field) && text == Join(all, ',')
  {
    text, all := before, done;
    if field.Some? {
      text, all := WriteField(before, ShowNat(field.value), done);
    }
  }

  lemma ThreeParts(a: string, b: string, c: string)
    ensures Join([a, b, c], ':') == a + ":" + b + ":" + c
  {
    assert [a, b, c][1..] == [b, c] && [b, c][1..] == [c];
    assert Join([b, c], ':') == b + [':'] + c;
    assert a + [':'] + (b + [':'] + c) == a + ":" + b + ":" + c;
  }

  method WriteDeps(deps: seq<nat>) returns (text: string)
    ensures text == DepText(deps)
  {
    text := "";
    for i := 0 to |deps|
      invariant text == DepText(deps[..i])
    {
      assert deps[..i + 1][..i] == deps[..i];
      JoinNext([""] + ShowAll(deps[..i]), ShowNat(deps[i]), ',');
      assert [""] + ShowAll(deps[..i + 1]) == [""] + ShowAll(deps[..i]) + [ShowNat(deps[i])];
      text := text + "," + ShowNat(deps[i]);
    }
    assert deps[..|deps|] == deps;
  }

  lemma {:induction false} JoinNext(parts: seq<string>, last: string, c: char)
    requires parts != []
    ensures Join(parts + [last], c) == Join(parts, c) + [c] + last
  {
    assert (parts + [last])[1..] == parts[1..] + [last];
    if |parts| > 1 {
      JoinNext(parts[1..], last, c);
    } else {
      assert (parts + [last])[1..] == [last];
    }
  }

  function PrintAll(rs: seq<Record>): string {
    if rs == [] then "" else PrintLine(rs[0]) + PrintAll(rs[1..])
  }

  datatype Decoded = Text(lines: string) | Unrecognized | HeaderError | RecordError(lines: string)

  /** What the decoder makes of the bytes of a file. */
  function DecodedFile<H>(parseHeader: seq<Byte> -> Option<H>, parse: seq<Byte> -> Option<Record>,
                          data: seq<Byte>): Decoded {
    if Taken(data, 4) != MAGIC then Unrecognized
    else
      var (h, rest) := DecodeOne(parseHeader, Left(data, 4));
      if h.ParseError? then HeaderError
      else
        var (rs, end) := ReadAll(parse, rest);
        if end.ParseError? then RecordError(PrintAll(rs)) else Text(PrintAll(rs))
  }

  /** main of the decoder. */
  method DecodeTrace<H>(f: InFile, parseHeader: seq<Byte> -> Option<H>, parse: seq<Byte> -> Option<Record>)
    returns (result: Decoded)
    requires f.Valid()
    modifies f
    ensures result == DecodedFile(parseHeader, parse, old(f.Rest()))
  {
    var magic := f.Read(4);
    if magic != MAGIC {
      return Unrecognized;
    }
    var header := DecodeMessage(f, parseHeader);
    if header.ParseError? {
      return HeaderError;
    }
    var text, end := DecodeRecords(f, parse);
    result := if end.ParseError? then RecordError(text) else Text(text);
  }

  /** Decodes and prints messages until there is none. */
  method DecodeRecords(f: InFile, parse: seq<Byte> -> Option<Record>) returns (text: string, end: ReadResult<Record>)
    requires f.Valid()
    modifies f
    ensures text == PrintAll(ReadAll(parse, old(f.Rest())).0) && end == ReadAll(parse, old(f.Rest())).1
  {
    hide PrintAll, ReadAll, DecodeOne, Unread;
    ghost var s, all := f.Rest(), ReadAll(parse, f.Rest());
    AllUnread(parse, s);
    text := "";
    end := DecodeMessage(f, parse);
    while end.Message?
      invariant f.Valid() && (end, f.Rest()) == DecodeOne(parse, s)
      invariant Unread(parse, all, text, s)
      decreases |s|
    {
      UnreadNext(parse, all, text, s);
      s := f.Rest();
      var line := WriteRecord(end.message);
      text := text + line;
      end := DecodeMessage(f, parse);
    }
    UnreadEnd(parse, all, text, s);
  }

  /** What is still to be read from s completes the text. */
  ghost predicate Unread(parse: seq<Byte> -> Option<Record>, all: (seq<Record>, ReadResult<Record>),
                         text: string, s: seq<Byte>) {
    all.1 == ReadAll(parse, s).1 && PrintAll(all.0) == text + PrintAll(ReadAll(parse, s).0)
  }

  lemma AllUnread(parse: seq<Byte> -> Option<Record>, s: seq<Byte>)
    ensures Unread(parse, ReadAll(parse, s), "", s)
  {
    hide PrintAll, ReadAll;
    assert "" + PrintAll(ReadAll(parse, s).0) == PrintAll(ReadAll(parse, s).0);
  }

  lemma UnreadNext(parse: seq<Byte> -> Option<Record>, all: (seq<Record>, ReadResult<Record>),
                   text: string, s: seq<Byte>)
    requires Unread(parse, all, text, s) && DecodeOne(parse, s).0.Message?
    ensures var (r, rest) := DecodeOne(parse, s);
            |rest| < |s| && Unread(parse, all, text + PrintLine(r.message), rest)
  {
    hide PrintAll, ReadAll, DecodeOne, PrintLine;
    ReadAllNext(parse, s);
    var (r, rest) := DecodeOne(parse, s);
    var more := PrintAll(ReadAll(parse, rest).0);
    assert text + (PrintLine(r.message) + more) == (text + PrintLine(r.message)) + more;
  }

  lemma UnreadEnd(parse: seq<Byte> -> Option<Record>, all: (seq<Record>, ReadResult<Record>),
                  text: string, s: seq<Byte>)
    requires Unread(parse, all, text, s) && !DecodeOne(parse, s).0.Message?
    ensures text == PrintAll(all.0) && DecodeOne(parse, s).0 == all.1
  {
    assert PrintAll([]) == "";
    hide PrintAll, ReadAll, DecodeOne;
    ReadAllNext(parse, s);
  }

  lemma ReadAllNext(parse: seq<Byte> -> Option<Record>, s: seq<Byte>)
    ensures var (r, rest) := DecodeOne(parse, s);
            && (r.Message? ==> (ReadAll(parse, s).1 == ReadAll(parse, rest).1 && |rest| < |s|
                 && PrintAll(ReadAll(parse, s).0) == PrintLine(r.message) + PrintAll(ReadAll(parse, rest).0)))
            && (!r.Message? ==> ReadAll(parse, s) == ([], r))
  {
  }

  /** A file that does not start with "gem5" is not read. */
  lemma WrongMagic<H>(parseHeader: seq<Byte> -> Option<H>, parse: seq<Byte> -> Option<Record>, data: seq<Byte>)
    requires |data| < 4 || exists i :: 0 <= i < 4 && data[i] != "gem5"[i] as int
    ensures DecodedFile(parseHeader, parse, data) == Unrecognized
  {
    hide DecodeOne, ReadAll, PrintAll;
    MagicSpells();
    if |data| >= 4 {
      var i :| 0 <= i < 4 && data[i] != "gem5"[i] as int;
      assert data[..4][i] != MAGIC[i];
    }
  }

  // ---------------------------------------------------------------- there and back

  /** What the conversion to messages needs of the protobuf library: the records of the trace, and
      the header, fit and come back, and no record is empty (it has required fields). */
  ghost predicate LibraryServes(serialize: Record -> seq<Byte>, parse: seq<Byte> -> Option<Record>, rs: seq<Record>) {
    && Inverse(serialize, parse, rs) && Fits(serialize, rs)
    && forall r :: r in rs ==> serialize(r) != []
  }

  /** A text trace that is accepted, turned into messages and back into text, gives for each line
      the canonical line with the same meaning. */
  lemma {:induction false} TraceRoundTrip<H>(lines: seq<string>, header: H,
                                             serializeHeader: H -> seq<Byte>, parseHeader: seq<Byte> -> Option<H>,
                          serialize: Record -> seq<Byte>, parse: seq<Byte> -> Option<Record>)
    requires forall l :: l in lines ==> ParseLine(l).Parsed?
    requires parseHeader(serializeHeader(header)) == Some(header) && |serializeHeader(header)| < 0x1_0000_0000
    requires LibraryServes(serialize, parse, Accepted(lines))
    ensures DecodedFile(parseHeader, parse, EncodedFile(serializeHeader(header), serialize, Accepted(lines)))
         == Text(PrintAll(Accepted(lines)))
    ensures |Accepted(lines)| == |lines|
    ensures forall i :: 0 <= i < |lines| ==> ParseLine(PrintLine(Accepted(lines)[i])) == ParseLine(lines[i])
  {
    hide ParseLine, PrintLine;
    var rs := Accepted(lines);
    var h := serializeHeader(header);
    var tail := WriteAll(serialize, rs);
    var data := EncodedFile(h, serialize, rs);
    assert data == MAGIC + (Frame(h) + tail);
    assert Taken(data, 4) == MAGIC && Left(data, 4) == Frame(h) + tail;
    FrameRoundTrip(serializeHeader, parseHeader, header, tail);
    AllReadIffNoneEmpty(serialize, parse, rs);
    FileRoundTrip(serialize, parse, rs);
    AcceptedIsAll(lines);
    forall i | 0 <= i < |lines| ensures ParseLine(PrintLine(rs[i])) == ParseLine(lines[i]) {
      ParsedPrintsBack(lines[i]);
    }
  }

  function Concat(lines: seq<string>): string {
    if lines == [] then "" else lines[0] + Concat(lines[1..])
  }

  /** A text trace that the decoder itself could have written comes back character by character. */
  lemma {:induction false} CanonicalTextIsKept(rs: seq<Record>, lines: seq<string>)
    requires |lines| == |rs|
    requires forall i :: 0 <= i < |rs| ==> InRange(rs[i]) && WellShaped(rs[i]) && lines[i] == PrintLine(rs[i])
    ensures forall i :: 0 <= i < |lines| ==> ParseLine(lines[i]) == Parsed(WithDefaults(rs[i]))
    ensures PrintAll(Accepted(lines)) == Concat(lines)
  {
    forall i | 0 <= i < |lines| ensures ParseLine(lines[i]) == Parsed(WithDefaults(rs[i])) {
      LineRoundTrip(rs[i]);
    }
    if lines != [] {
      DefaultsPrintTheSame(rs[0]);
      CanonicalTextIsKept(rs[1..], lines[1..]);
      var rest := Accepted(lines[1..]);
      assert ([ParseLine(lines[0]).record] + rest)[1..] == rest;
    }
  }
}
