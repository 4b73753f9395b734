/** Instruction dependency traces as text and as protobuf messages
    (gem5/util/decode_inst_dep_trace.py prints them, gem5/util/encode_inst_dep_trace.py parses). */
module DepTrace {
  import opened Text

  /** The enumeration of the message definition (gem5/src/proto/inst_dep_record.proto). */
  datatype RecordType = INVALID | LOAD | STORE | COMP

  datatype Record = Record(
    seqNum: nat, pc: Option<nat>, weight: Option<nat>, rtype: RecordType,
    pAddr: Option<nat>, size: Option<nat>, flags: Option<nat>,
    compDelay: nat, robDep: seq<nat>, regDep: seq<nat>)

  const UINT32 := 0x1_0000_0000
  const UINT64 := 0x1_0000_0000_0000_0000

  predicate OptBelow(o: Option<nat>, n: nat) { o.Some? ==> o.value < n }

  predicate AllBelow(s: seq<nat>, n: nat) { forall i :: 0 <= i < |s| ==> s[i] < n }

  /** The fields hold what their protobuf types can hold. */
  predicate InRange(r: Record) {
    && r.seqNum < UINT64 && OptBelow(r.pc, UINT64) && OptBelow(r.weight, UINT32)
    && OptBelow(r.pAddr, UINT64) && OptBelow(r.size, UINT32) && OptBelow(r.flags, UINT32)
    && r.compDelay < UINT64 && AllBelow(r.robDep, UINT64) && AllBelow(r.regDep, UINT64)
  }

  // ---------------------------------------------------------------- printing

  function TypeName(t: RecordType): string {
    match t
    case INVALID => "INVALID"
    case LOAD => "LOAD"
    case STORE => "STORE"
    case COMP => "COMP"
  }

  function OptShow(o: Option<nat>): seq<string> { if o.Some? then [ShowNat(o.value)] else [] }

  function ShowOr(o: Option<nat>, default: nat): string { ShowNat(if o.Some? then o.value else default) }

  /** The comma-separated fields in front of the first colon. */
  function InfoFields(r: Record): seq<string> {
    [ShowNat(r.seqNum), ShowOr(r.pc, 0), ShowOr(r.weight, 1), TypeName(r.rtype)]
    + OptShow(r.pAddr) + OptShow(r.size) + OptShow(r.flags) + [ShowNat(r.compDelay)]
  }

  function ShowAll(ns: seq<nat>): seq<string> {
    if ns == [] then [] else ShowAll(ns[..|ns| - 1]) + [ShowNat(ns[|ns| - 1])]
  }

  /** A list of dependencies: each with a comma in front. */
  function DepText(ns: seq<nat>): string { Join([""] + ShowAll(ns), ',') }

  function Body(r: Record): string { Join([Join(InfoFields(r), ','), DepText(r.robDep), DepText(r.regDep)], ':') }

  function PrintLine(r: Record): string { Body(r) + "\n" }

  // ---------------------------------------------------------------- parsing

  datatype Parsed = Parsed(record: Record) | IndexError | ValueError | UnsupportedType | InvalidType

  function ReadType(s: string): Option<RecordType> {
    if s == "INVALID" then Some(INVALID) else if s == "LOAD" then Some(LOAD)
    else if s == "STORE" then Some(STORE) else if s == "COMP" then Some(COMP) else None
  }

  /** long(s), assigned to an unsigned field: a ValueError if it is no number or does not fit. */
  function ReadField(s: string, limit: nat): Option<nat> {
    match ParseInt(s)
    case Some(n) => if 0 <= n < limit then Some(n) else None
    case None => None
  }

  /** The items of a dependency list that are not empty. */
  function ReadDeps(items: seq<string>): Option<seq<nat>> {
    if items == [] then Some([])
    else
      var front, last := ReadDeps(items[..|items| - 1]), items[|items| - 1];
      if front == None then None
      else if last == "" then front
      else match ReadField(last, UINT64)
        case Some(n) => Some(front.value + [n])
        case None => None
  }

  datatype Info = Info(record: Record) | BadInfo(error: Parsed)

  /** What stands in front of the first colon, as a record without dependencies. */
  function ReadInfo(items: seq<string>): Info {
    if |items| < 4 then BadInfo(if ReadHead(items) then IndexError else ValueError)
    else if !ReadHead(items) then BadInfo(ValueError)
    else
      var seqNum, pc, weight := ReadField(items[0], UINT64).value, ReadField(items[1], UINT64).value,
          ReadField(items[2], UINT32).value;
      var t := ReadType(items[3]);
      if t == None then BadInfo(UnsupportedType)
      else if t.value == INVALID then BadInfo(InvalidType)
      else if t.value == LOAD || t.value == STORE then
        if |items| < 8 then BadInfo(ValueError)
        else
          var a, s, f, d := ReadField(items[4], UINT64), ReadField(items[5], UINT32),
                            ReadField(items[6], UINT32), ReadField(items[7], UINT64);
          if a == None || s == None || f == None || d == None then BadInfo(ValueError)
          else Info(Record(seqNum, Some(pc), Some(weight), t.value, a, s, f, d.value, [], []))
      else
        if |items| < 5 then BadInfo(IndexError)
        else match ReadField(items[4], UINT64)
          case Some(d) => Info(Record(seqNum, Some(pc), Some(weight), t.value, None, None, None, d, [], []))
          case None => BadInfo(ValueError)
  }

  /** The three leading numbers, as far as they are there. */
  predicate ReadHead(items: seq<string>) {
    && (|items| > 0 ==> ReadField(items[0], UINT64).Some?)
    && (|items| > 1 ==> ReadField(items[1], UINT64).Some?)
    && (|items| > 2 ==> ReadField(items[2], UINT32).Some?)
  }

  function ParseLine(line: string): Parsed {
    var parts := Split(Strip(line), ':');
    if |parts| != 3 then ValueError
    else match ReadInfo(Split(parts[0], ','))
      case BadInfo(e) => e
      case Info(r) =>
        var rob, reg := ReadDeps(Split(Strip(parts[1]), ',')), ReadDeps(Split(parts[2], ','));
        if rob == None || reg == None then ValueError
        else Parsed(r.(robDep := rob.value, regDep := reg.value))
  }
}
