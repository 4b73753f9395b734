/** The printer and the parser of DepTrace undo each other exactly on well-shaped records. */
module DepTraceProofs {
  import opened Text
  import opened DepTrace

  /** Records that have an address, size and flags just when they are memory accesses. */
  predicate WellShaped(r: Record) {
    match r.rtype
    case INVALID => false
    case COMP => r.pAddr == None && r.size == None && r.flags == None
    case _ => r.pAddr.Some? && r.size.Some? && r.flags.Some?
  }

  /** The defaults that printing writes for a missing program counter and weight. */
  function WithDefaults(r: Record): Record {
    r.(pc := Some(if r.pc.Some? then r.pc.value else 0), weight := Some(if r.weight.Some? then r.weight.value else 1))
  }

  // ---------------------------------------------------------------- fields

  lemma FieldRoundTrip(n: nat, limit: nat)
    requires n < limit
    ensures ReadField(ShowNat(n), limit) == Some(n)
  {
    ParseShowInt(n);
  }

  predicate Plain(s: string) { Without(',', s) && Without(':', s) }

  lemma DigitsArePlain(s: string)
    requires AllDigits(s)
    ensures Plain(s)
  {
  }

  lemma {:induction false} ShowAllPlain(ns: seq<nat>)
    ensures |ShowAll(ns)| == |ns|
    ensures forall i :: 0 <= i < |ns| ==> Plain(ShowAll(ns)[i]) && ShowAll(ns)[i] == ShowNat(ns[i])
  {
    if ns != [] {
      ShowAllPlain(ns[..|ns| - 1]);
      DigitsArePlain(ShowNat(ns[|ns| - 1]));
    }
  }

  lemma OptShowPlain(o: Option<nat>)
    ensures forall i :: 0 <= i < |OptShow(o)| ==> Plain(OptShow(o)[i]) && OptShow(o)[i] != ""
  {
    if o.Some? { DigitsArePlain(ShowNat(o.value)); }
  }

  lemma AllPlainNext(a: seq<string>, b: seq<string>)
    requires forall i :: 0 <= i < |a| ==> Plain(a[i]) && a[i] != ""
    requires forall i :: 0 <= i < |b| ==> Plain(b[i]) && b[i] != ""
    ensures forall i :: 0 <= i < |a + b| ==> Plain((a + b)[i]) && (a + b)[i] != ""
  {
  }

  lemma InfoFieldsPlain(r: Record)
    ensures forall i :: 0 <= i < |InfoFields(r)| ==> Plain(InfoFields(r)[i]) && InfoFields(r)[i] != ""
  {
    var w := WithDefaults(r);
    DigitsArePlain(ShowNat(r.seqNum));
    DigitsArePlain(ShowNat(w.pc.value));
    DigitsArePlain(ShowNat(w.weight.value));
    DigitsArePlain(ShowNat(r.compDelay));
    assert Plain(TypeName(r.rtype)) && TypeName(r.rtype) != "";
    var head := [ShowNat(r.seqNum), ShowNat(w.pc.value), ShowNat(w.weight.value), TypeName(r.rtype)];
    OptShowPlain(r.pAddr);
    OptShowPlain(r.size);
    OptShowPlain(r.flags);
    assert InfoFields(r) == head + OptShow(r.pAddr) + OptShow(r.size) + OptShow(r.flags) + [ShowNat(r.compDelay)];
    hide Plain, ShowNat, OptShow, InfoFields, TypeName;
    AllPlainNext(head, OptShow(r.pAddr));
    AllPlainNext(head + OptShow(r.pAddr), OptShow(r.size));
    AllPlainNext(head + OptShow(r.pAddr) + OptShow(r.size), OptShow(r.flags));
    AllPlainNext(head + OptShow(r.pAddr) + OptShow(r.size) + OptShow(r.flags), [ShowNat(r.compDelay)]);
  }

  lemma {:induction false} JoinWithout(parts: seq<string>, c: char, d: char)
    requires parts != [] && c != d && forall i :: 0 <= i < |parts| ==> Without(d, parts[i])
    ensures Without(d, Join(parts, c))
  {
    if |parts| > 1 {
      JoinWithout(parts[1..], c, d);
    }
  }

  // ---------------------------------------------------------------- dependency lists

  lemma {:induction false} ReadDepsOfShown(ns: seq<nat>)
    requires AllBelow(ns, UINT64)
    ensures ReadDeps([""] + ShowAll(ns)) == Some(ns)
  {
    hide ShowNat, Strip, ParseInt;
    var items := [""] + ShowAll(ns);
    ShowAllPlain(ns);
    if ns == [] {
      assert items == [""] && [""][..0] == [];
      assert ReadDeps([""][..0]) == Some([]);
    } else {
      var front, last := ns[..|ns| - 1], ns[|ns| - 1];
      assert items[..|items| - 1] == [""] + ShowAll(front);
      ReadDepsOfShown(front);
      FieldRoundTrip(last, UINT64);
      assert items[|items| - 1] == ShowNat(last);
      assert front + [last] == ns;
    }
  }

  lemma DepTextShape(ns: seq<nat>)
    ensures Strip(DepText(ns)) == DepText(ns) && Without(':', DepText(ns))
    ensures DepText(ns) == "" || !IsSpace(DepText(ns)[|DepText(ns)| - 1])
    ensures Split(DepText(ns), ',') == [""] + ShowAll(ns)
  {
    var items := [""] + ShowAll(ns);
    assert ns == [] ==> items == [""] && DepText(ns) == "";
    hide ShowNat, ShowAll, Join, Split, Strip;
    ShowAllPlain(ns);
    SplitJoin(items, ',');
    JoinWithout(items, ',', ':');
    if ns != [] {
      JoinEnds(items, ',');
      assert items[|items| - 1] == ShowNat(ns[|ns| - 1]);
    }
    StripNothing(DepText(ns));
  }

  lemma DepTextRoundTrip(ns: seq<nat>)
    requires AllBelow(ns, UINT64)
    ensures ReadDeps(Split(Strip(DepText(ns)), ',')) == ReadDeps(Split(DepText(ns), ',')) == Some(ns)
  {
    DepTextShape(ns);
    ReadDepsOfShown(ns);
  }

  /** A joined text begins like its first part, or with the separator, and ends like its last. */
  lemma {:induction false} JoinEnds(parts: seq<string>, c: char)
    requires parts != [] && parts[|parts| - 1] != ""
    ensures var j := Join(parts, c);
            && j != [] && j[|j| - 1] == parts[|parts| - 1][|parts[|parts| - 1]| - 1]
            && j[0] == if parts[0] != "" then parts[0][0] else c
  {
    if |parts| > 1 {
      JoinEnds(parts[1..], c);
    }
  }

  // ---------------------------------------------------------------- lines

  lemma InfoShape(r: Record)
    ensures var j := Join(InfoFields(r), ',');
            Without(':', j) && j != "" && IsDigit(j[0]) && Split(j, ',') == InfoFields(r)
  {
    var info := InfoFields(r);
    InfoFieldsPlain(r);
    SplitJoin(info, ',');
    JoinWithout(info, ',', ':');
    JoinEnds(info, ',');
    assert info[0] == ShowNat(r.seqNum);
  }

  lemma BodyParts(r: Record)
    ensures Strip(PrintLine(r)) == Body(r)
    ensures Split(Body(r), ':') == [Join(InfoFields(r), ','), DepText(r.robDep), DepText(r.regDep)]
  {
    hide InfoFields, DepText, Strip, Split;
    InfoShape(r);
    DepTextShape(r.robDep);
    DepTextShape(r.regDep);
    JoinThree(Join(InfoFields(r), ','), DepText(r.robDep), DepText(r.regDep));
    StripNewline(Body(r));
  }

  lemma JoinThree(a: string, b: string, c: string)
    requires a != "" && IsDigit(a[0]) && Without(':', a) && Without(':', b) && Without(':', c)
    requires c == "" || !IsSpace(c[|c| - 1])
    ensures var j := Join([a, b, c], ':');
            j != "" && IsDigit(j[0]) && !IsSpace(j[|j| - 1]) && Split(j, ':') == [a, b, c]
  {
    SplitJoin([a, b, c], ':');
    assert [a, b, c][1..] == [b, c] && [b, c][1..] == [c];
    assert Join([b, c], ':') == b + [':'] + c;
    var j := Join([a, b, c], ':');
    assert j == a + [':'] + (b + [':'] + c);
    if c == "" { assert j[|j| - 1] == ':'; }
  }

  lemma StripNewline(s: string)
    requires s != "" && !IsSpace(s[0]) && !IsSpace(s[|s| - 1])
    ensures Strip(s + "\n") == s
  {
    var t := s + "\n";
    assert t[0] == s[0] && t[..|t| - 1] == s;
    assert StripLeft(t) == t;
    assert StripRight(t) == StripRight(s) == s;
  }

  lemma HeadFields(r: Record)
    ensures var items := InfoFields(r);
            && |items| >= 5
            && items[0] == ShowNat(r.seqNum)
            && items[1] == ShowNat(WithDefaults(r).pc.value)
            && items[2] == ShowNat(WithDefaults(r).weight.value)
            && items[3] == TypeName(r.rtype)
  {
  }

  lemma HeadRoundTrip(r: Record)
    requires InRange(r)
    ensures var items := InfoFields(r);
            && |items| >= 5 && ReadHead(items) && ReadType(items[3]) == Some(r.rtype)
            && ReadField(items[0], UINT64) == Some(r.seqNum)
            && ReadField(items[1], UINT64) == WithDefaults(r).pc
            && ReadField(items[2], UINT32) == WithDefaults(r).weight
  {
    HeadFields(r);
    FieldRoundTrip(r.seqNum, UINT64);
    FieldRoundTrip(WithDefaults(r).pc.value, UINT64);
    FieldRoundTrip(WithDefaults(r).weight.value, UINT32);
  }

  /** The fields behind the type of a load or store: four of them just when it is well shaped. */
  lemma TailOfAccess(r: Record)
    ensures var items := InfoFields(r);
            && |items| <= 8
            && (|items| == 8 <==> r.pAddr.Some? && r.size.Some? && r.flags.Some?)
            && (|items| == 8 ==>
                  (items[4] == ShowNat(r.pAddr.value) && items[5] == ShowNat(r.size.value)
                   && items[6] == ShowNat(r.flags.value) && items[7] == ShowNat(r.compDelay)))
  {
  }

  lemma AccessRoundTrip(r: Record)
    requires InRange(r) && (r.rtype == LOAD || r.rtype == STORE)
    ensures WellShaped(r) ==> ReadInfo(InfoFields(r)) == Info(WithDefaults(r).(robDep := [], regDep := []))
    ensures !WellShaped(r) ==> ReadInfo(InfoFields(r)) == BadInfo(ValueError)
  {
    hide InfoFields, ShowNat, ReadField, ReadType;
    HeadRoundTrip(r);
    TailOfAccess(r);
    if WellShaped(r) {
      FieldRoundTrip(r.pAddr.value, UINT64);
      FieldRoundTrip(r.size.value, UINT32);
      FieldRoundTrip(r.flags.value, UINT32);
      FieldRoundTrip(r.compDelay, UINT64);
    }
  }

  lemma OtherRoundTrip(r: Record)
    requires InRange(r) && r.rtype == COMP
    ensures WellShaped(r) ==> ReadInfo(InfoFields(r)) == Info(WithDefaults(r).(robDep := [], regDep := []))
    ensures ReadInfo(InfoFields(r)).Info? ==> WellShaped(ReadInfo(InfoFields(r)).record)
  {
    HeadRoundTrip(r);
    FieldRoundTrip(r.compDelay, UINT64);
    if WellShaped(r) {
      assert InfoFields(r)[4] == ShowNat(r.compDelay);
    }
  }

  /** The dependencies of a list, each behind a comma. */
  lemma {:induction false} DepTextNext(ns: seq<nat>, n: nat)
    ensures DepText([]) == "" && DepText(ns + [n]) == DepText(ns) + "," + ShowNat(n)
  {
    assert [""] + ShowAll([]) == [""];
    assert (ns + [n])[..|ns|] == ns;
    assert [""] + ShowAll(ns + [n]) == ([""] + ShowAll(ns)) + [ShowNat(n)];
    JoinMore([""] + ShowAll(ns), ShowNat(n), ',');
  }

  lemma {:induction false} JoinMore(parts: seq<string>, last: string, c: char)
    requires parts != []
    ensures Join(parts + [last], c) == Join(parts, c) + [c] + last
  {
    var all := parts + [last];
    if |parts| == 1 {
      assert all[1..] == [last];
    } else {
      assert all[1..] == parts[1..] + [last];
      JoinMore(parts[1..], last, c);
    }
  }

  /** The text of a load or store, field by field. */
  lemma AccessText(r: Record)
    requires WellShaped(r) && r.rtype != COMP
    ensures var d := WithDefaults(r);
            var name := if r.rtype == LOAD then "LOAD" else "STORE";
            var head := ShowNat(r.seqNum) + "," + ShowNat(d.pc.value) + "," + ShowNat(d.weight.value) + "," + name;
            var tail := ShowNat(r.pAddr.value) + "," + ShowNat(r.size.value) + "," + ShowNat(r.flags.value)
              + "," + ShowNat(r.compDelay);
            PrintLine(r) == (head + "," + tail) + ":" + DepText(r.robDep) + ":" + DepText(r.regDep) + "\n"
  {
    hide ShowNat, DepText;
    var d := WithDefaults(r);
    var name := if r.rtype == LOAD then "LOAD" else "STORE";
    var head := [ShowNat(r.seqNum), ShowNat(d.pc.value), ShowNat(d.weight.value), name];
    var tail := [ShowNat(r.pAddr.value), ShowNat(r.size.value), ShowNat(r.flags.value), ShowNat(r.compDelay)];
    assert InfoFields(r) == head + tail;
    hide InfoFields, PrintLine, Join;
    JoinHead(head, tail);
    JoinFour(head[0], head[1], head[2], head[3]);
    JoinFour(tail[0], tail[1], tail[2], tail[3]);
    ThreeInLine(r, Join(InfoFields(r), ','));
  }

  /** And of a computation. */
  lemma CompText(r: Record)
    requires WellShaped(r) && r.rtype == COMP
    ensures var d := WithDefaults(r);
            PrintLine(r) == ShowNat(r.seqNum) + "," + ShowNat(d.pc.value) + "," + ShowNat(d.weight.value) + ",COMP,"
              + ShowNat(r.compDelay) + ":" + DepText(r.robDep) + ":" + DepText(r.regDep) + "\n"
  {
    hide ShowNat, DepText;
    var d := WithDefaults(r);
    var head := [ShowNat(r.seqNum), ShowNat(d.pc.value), ShowNat(d.weight.value), "COMP"];
    assert InfoFields(r) == head + [ShowNat(r.compDelay)];
    JoinHead(head, [ShowNat(r.compDelay)]);
    JoinFour(head[0], head[1], head[2], head[3]);
    ThreeInLine(r, Join(InfoFields(r), ','));
  }

  lemma {:induction false} JoinHead(a: seq<string>, b: seq<string>)
    requires a != [] && b != []
    ensures Join(a + b, ',') == Join(a, ',') + "," + Join(b, ',')
  {
    if |a| == 1 {
      assert (a + b)[1..] == b;
    } else {
      assert (a + b)[1..] == a[1..] + b;
      JoinHead(a[1..], b);
    }
  }

  lemma JoinFour(a: string, b: string, c: string, d: string)
    ensures Join([a, b, c, d], ',') == a + "," + b + "," + c + "," + d
  {
    assert [a, b, c, d][1..] == [b, c, d] && [b, c, d][1..] == [c, d] && [c, d][1..] == [d];
    assert Join([c, d], ',') == c + "," + d;
    assert Join([b, c, d], ',') == b + "," + (c + "," + d);
  }

  lemma ThreeInLine(r: Record, info: string)
    requires info == Join(InfoFields(r), ',')
    ensures PrintLine(r) == info + ":" + DepText(r.robDep) + ":" + DepText(r.regDep) + "\n"
  {
    var a, b := DepText(r.robDep), DepText(r.regDep);
    assert [info, a, b][1..] == [a, b] && [a, b][1..] == [b];
    assert Join([a, b], ':') == a + ":" + b;
    assert Join([info, a, b], ':') == info + ":" + (a + ":" + b);
  }

  /** How a line fails whose leading numbers are fine: by its type first, then for want of fields. */
  lemma BadInfoIs(items: seq<string>)
    requires ReadHead(items)
    ensures |items| < 4 ==> ReadInfo(items) == BadInfo(IndexError)
    ensures |items| >= 4 && items[3] !in ["INVALID", "LOAD", "STORE", "COMP"] ==>
              ReadInfo(items) == BadInfo(UnsupportedType)
    ensures |items| >= 4 && items[3] == "INVALID" ==> ReadInfo(items) == BadInfo(InvalidType)
    ensures 4 <= |items| < 8 && items[3] in ["LOAD", "STORE"] ==> ReadInfo(items) == BadInfo(ValueError)
    ensures |items| == 4 && items[3] == "COMP" ==> ReadInfo(items) == BadInfo(IndexError)
  {
    hide ReadField;
  }

  /** Empty items of a dependency list are passed over, and one that is no number makes it fail. */
  lemma ReadDepsNext(items: seq<string>, item: string)
    ensures item == "" ==> ReadDeps(items + [item]) == ReadDeps(items)
    ensures item != "" && ReadField(item, UINT64).None? ==> ReadDeps(items + [item]) == None
    ensures item != "" && ReadField(item, UINT64).Some? && ReadDeps(items).Some? ==>
              ReadDeps(items + [item]) == Some(ReadDeps(items).value + [ReadField(item, UINT64).value])
  {
    hide ReadField;
    assert (items + [item])[..|items|] == items;
  }

  /** The main result, exact: a printed record comes back, with the defaults filled in, if and only
      if it has address, size and flags just when it is a load or a store, and a valid type. */
  lemma LineRoundTrip(r: Record)
    requires InRange(r)
    ensures ParseLine(PrintLine(r)) == Parsed(WithDefaults(r)) <==> WellShaped(r)
  {
    LineParses(r);
    match r.rtype {
      case INVALID => HeadRoundTrip(r);
      case COMP => OtherRoundTrip(r);
      case _ => AccessRoundTrip(r);
    }
  }

  /** Parsing a printed line comes down to its fields before the first colon. */
  lemma LineParses(r: Record)
    requires InRange(r)
    ensures ParseLine(PrintLine(r)) == match ReadInfo(InfoFields(r))
      case BadInfo(e) => e
      case Info(i) => Parsed(i.(robDep := r.robDep, regDep := r.regDep))
  {
    BodyParts(r);
    InfoShape(r);
    DepTextRoundTrip(r.robDep);
    DepTextRoundTrip(r.regDep);
  }

  /** Printing does not show whether the defaults were filled in. */
  lemma DefaultsPrintTheSame(r: Record)
    ensures PrintLine(WithDefaults(r)) == PrintLine(r)
  {
  }

  lemma {:induction false} ReadDepsInRange(items: seq<string>)
    requires ReadDeps(items).Some?
    ensures AllBelow(ReadDeps(items).value, UINT64)
  {
    if items != [] {
      ReadDepsInRange(items[..|items| - 1]);
    }
  }

  /** Every line that is accepted at all gives a record that prints to a line with the same meaning. */
  lemma ParsedPrintsBack(line: string)
    requires ParseLine(line).Parsed?
    ensures var r := ParseLine(line).record;
            InRange(r) && WellShaped(r) && WithDefaults(r) == r && ParseLine(PrintLine(r)) == Parsed(r)
  {
    hide PrintLine, ReadDeps, Split, Strip;
    var r := ParseLine(line).record;
    var parts := Split(Strip(line), ':');
    ReadDepsInRange(Split(Strip(parts[1]), ','));
    ReadDepsInRange(Split(parts[2], ','));
    LineRoundTrip(r);
  }
}
