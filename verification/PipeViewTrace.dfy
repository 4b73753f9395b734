/** The viewer on the traces that the simulator writes: seven lines for each instruction
    (gem5/src/cpu/o3/dyn_inst_impl.hh), with other output in between. */
module PipeViewTrace {
  import opened Sorting
  import opened PipeView
  import opened PipeViewOrder

  datatype Record = Record(
    sn: int, pc: string, upc: string, disasm: string,
    fetch: int, decode: int, rename: int, dispatch: int, issue: int, complete: int, retire: int, store: int)

  function Marks(r: Record): seq<Line> {
    [MarkLine(Decoded, r.decode), MarkLine(Renamed, r.rename), MarkLine(Dispatched, r.dispatch),
     MarkLine(Issued, r.issue), MarkLine(Completed, r.complete), RetireLine(r.retire, r.store)]
  }

  function Emit(r: Record): seq<Line> {
    [FetchLine(r.fetch, r.pc, r.upc, r.sn, r.disasm)] + Marks(r)
  }

  function Trace(rs: seq<Record>): seq<Line> {
    if rs == [] then [] else Emit(rs[0]) + Trace(rs[1..])
  }

  function StripOther(lines: seq<Line>): seq<Line> {
    if lines == [] then []
    else if lines[0].Other? then StripOther(lines[1..])
    else [lines[0]] + StripOther(lines[1..])
  }

  /** The instruction that a record describes. */
  function InstOf(store: bool, r: Record): Inst {
    var t := map[Fetched := r.fetch, Decoded := r.decode, Renamed := r.rename, Dispatched := r.dispatch,
                 Issued := r.issue, Completed := r.complete, Retired := r.retire];
    Inst(r.sn, r.pc, r.upc, if r.retire == 0 then "-----" + r.disasm else r.disasm,
         if store then t[Stored := r.store] else t)
  }

  function Insts(store: bool, rs: seq<Record>): (r: seq<Inst>)
    ensures |r| == |rs| && forall i :: 0 <= i < |r| ==> r[i] == InstOf(store, rs[i])
  {
    seq(|rs|, i requires 0 <= i < |rs| => InstOf(store, rs[i]))
  }

  // ---------------------------------------------------------------- other output is ignored

  lemma {:induction false} CollectStrips(l: Limit, store: bool, lines: seq<Line>, curr: Inst)
    ensures Collect(l, store, lines, curr) == Collect(l, store, StripOther(lines), curr)
  {
    if lines != [] {
      var rest := StripOther(lines[1..]);
      assert ([lines[0]] + rest)[1..] == rest;
      match lines[0] {
        case Other => CollectStrips(l, store, lines[1..], curr);
        case MarkLine(s, t) => CollectStrips(l, store, lines[1..], WithTick(curr, s, t));
        case FetchLine(_, _, _, _, _) => CollectStrips(l, store, lines[1..], AtFetch(curr, lines[0]));
        case RetireLine(_, _) => CollectStrips(l, store, lines[1..], AtRetire(curr, lines[0], store));
      }
    }
  }

  lemma {:induction false} FetchStrips(lines: seq<Line>)
    ensures StripOther(FromFetch(lines)) == FromFetch(StripOther(lines))
    ensures FromFetch(lines) == [] <==> FromFetch(StripOther(lines)) == []
  {
    if lines != [] {
      var rest := StripOther(lines[1..]);
      assert ([lines[0]] + rest)[1..] == rest;
      FetchStrips(lines[1..]);
    }
  }

  lemma {:induction false} StartStrips(w: Window, lines: seq<Line>)
    ensures StripOther(FromStart(w, lines)) == FromStart(w, StripOther(lines))
  {
    if lines != [] {
      var rest := StripOther(lines[1..]);
      assert ([lines[0]] + rest)[1..] == rest;
      StartStrips(w, lines[1..]);
    }
  }

  lemma BodyStrips(w: Window, lines: seq<Line>)
    ensures StripOther(Body(w, lines)) == Body(w, StripOther(lines))
    ensures Body(w, lines) == [] <==> Body(w, StripOther(lines)) == []
  {
    StartStrips(w, lines);
    FetchStrips(FromStart(w, lines));
  }

  // ---------------------------------------------------------------- what is queued

  lemma CollectStep(l: Limit, store: bool, line: Line, rest: seq<Line>, curr: Inst)
    ensures line.MarkLine? ==>
      Collect(l, store, [line] + rest, curr) == Collect(l, store, rest, WithTick(curr, line.stage, line.tick))
    ensures line.FetchLine? ==>
      Collect(l, store, [line] + rest, curr) ==
        if Beyond(l, line.tick, line.sn) then Reading([], true) else Collect(l, store, rest, AtFetch(curr, line))
    ensures line.RetireLine? ==>
      var c := AtRetire(curr, line, store);
      var r := Collect(l, store, rest, c);
      Collect(l, store, [line] + rest, curr) == Reading([c] + r.items, r.stopped)
  {
  }

  /** Ticks left over from an earlier instruction are only those that each record overwrites. */
  ghost predicate NoForeignTicks(store: bool, i: Inst) {
    Stored in i.ticks ==> store
  }

  lemma CollectRecord(l: Limit, store: bool, r: Record, rest: seq<Line>, curr: Inst)
    requires NoForeignTicks(store, curr)
    ensures Collect(l, store, Emit(r) + rest, curr) ==
      if Beyond(l, r.fetch, r.sn) then Reading([], true)
      else var t := Collect(l, store, rest, InstOf(store, r));
           Reading([InstOf(store, r)] + t.items, t.stopped)
  {
    var e := Emit(r);
    assert e + rest == [e[0]] + (Marks(r) + rest);
    CollectStep(l, store, e[0], Marks(r) + rest, curr);
    CollectMarks(l, store, r, rest, AtFetch(curr, e[0]));
  }

  lemma CollectMarks(l: Limit, store: bool, r: Record, rest: seq<Line>, c0: Inst)
    requires NoForeignTicks(store, c0) && c0.sn == r.sn && c0.pc == r.pc && c0.upc == r.upc && c0.disasm == r.disasm
    requires Fetched in c0.ticks && c0.ticks[Fetched] == r.fetch
    ensures var t := Collect(l, store, rest, InstOf(store, r));
            Collect(l, store, Marks(r) + rest, c0) == Reading([InstOf(store, r)] + t.items, t.stopped)
  {
    var m := Marks(r);
    assert m + rest == [m[0], m[1], m[2], m[3], m[4]] + ([m[5]] + rest);
    CollectFive(l, store, m[0], m[1], m[2], m[3], m[4], [m[5]] + rest, c0);
    var c5 := FiveTicks(c0, m[0], m[1], m[2], m[3], m[4]);
    CollectStep(l, store, m[5], rest, c5);
    TicksOverwritten(store, r, c0, AtRetire(c5, m[5], store));
  }

  function FiveTicks(i: Inst, a: Line, b: Line, c: Line, d: Line, e: Line): Inst
    requires a.MarkLine? && b.MarkLine? && c.MarkLine? && d.MarkLine? && e.MarkLine?
  {
    i.(ticks := i.ticks[a.stage := a.tick][b.stage := b.tick][c.stage := c.tick][d.stage := d.tick][e.stage := e.tick])
  }

  lemma CollectFive(l: Limit, store: bool, a: Line, b: Line, c: Line, d: Line, e: Line, rest: seq<Line>, curr: Inst)
    requires a.MarkLine? && b.MarkLine? && c.MarkLine? && d.MarkLine? && e.MarkLine?
    ensures Collect(l, store, [a, b, c, d, e] + rest, curr)
         == Collect(l, store, rest, FiveTicks(curr, a, b, c, d, e))
  {
    assert [a, b, c, d, e] + rest == [a, b] + ([c, d] + ([e] + rest));
    CollectTwo(l, store, a, b, [c, d] + ([e] + rest), curr);
    var c2 := WithTick(WithTick(curr, a.stage, a.tick), b.stage, b.tick);
    CollectTwo(l, store, c, d, [e] + rest, c2);
    var c4 := WithTick(WithTick(c2, c.stage, c.tick), d.stage, d.tick);
    CollectStep(l, store, e, rest, c4);
  }

  lemma CollectTwo(l: Limit, store: bool, a: Line, b: Line, rest: seq<Line>, curr: Inst)
    requires a.MarkLine? && b.MarkLine?
    ensures Collect(l, store, [a, b] + rest, curr)
         == Collect(l, store, rest, WithTick(WithTick(curr, a.stage, a.tick), b.stage, b.tick))
  {
  }

  lemma TicksOverwritten(store: bool, r: Record, c0: Inst, c: Inst)
    requires NoForeignTicks(store, c0) && Fetched in c0.ticks && c0.ticks[Fetched] == r.fetch
    requires c.sn == r.sn && c.pc == r.pc && c.upc == r.upc && c.disasm == InstOf(store, r).disasm
    requires var t := c0.ticks[Decoded := r.decode][Renamed := r.rename][Dispatched := r.dispatch]
                              [Issued := r.issue][Completed := r.complete][Retired := r.retire];
             c.ticks == if store then t[Stored := r.store] else t
    ensures c == InstOf(store, r)
  {
    var a, b := c.ticks, InstOf(store, r).ticks;
    forall s: Stage ensures (s in a <==> s in b) && (s in a ==> a[s] == b[s]) {
      match s
      case Fetched =>
      case Decoded =>
      case Renamed =>
      case Dispatched =>
      case Issued =>
      case Completed =>
      case Retired =>
      case Stored =>
    }
    assert a == b;
  }

  /** The index of the first record that makes the script give up reading. */
  function StopIndex(l: Limit, rs: seq<Record>): (k: nat)
    ensures k <= |rs| && (k < |rs| ==> Beyond(l, rs[k].fetch, rs[k].sn))
    ensures forall i :: 0 <= i < k ==> !Beyond(l, rs[i].fetch, rs[i].sn)
  {
    if rs == [] || Beyond(l, rs[0].fetch, rs[0].sn) then 0 else 1 + StopIndex(l, rs[1..])
  }

  lemma InstsNext(store: bool, rs: seq<Record>, k: nat)
    requires 0 < k <= |rs|
    ensures Insts(store, rs[..k]) == [InstOf(store, rs[0])] + Insts(store, rs[1..][..k - 1])
  {
    hide InstOf;
  }

  lemma InstsHaveNoForeignTicks(store: bool, r: Record)
    ensures NoForeignTicks(store, InstOf(store, r))
  {
  }

  lemma {:induction false} CollectTrace(l: Limit, store: bool, rs: seq<Record>, curr: Inst)
    requires NoForeignTicks(store, curr)
    ensures var k := StopIndex(l, rs);
            Collect(l, store, Trace(rs), curr) == Reading(Insts(store, rs[..k]), k < |rs|)
  {
    hide Emit, InstOf, NoForeignTicks, Insts, Beyond;
    if rs == [] {
      assert Insts(store, []) == [];
    } else {
      hide Collect;
      CollectRecord(l, store, rs[0], Trace(rs[1..]), curr);
      InstsHaveNoForeignTicks(store, rs[0]);
      if !Beyond(l, rs[0].fetch, rs[0].sn) {
        CollectTrace(l, store, rs[1..], InstOf(store, rs[0]));
        InstsNext(store, rs, StopIndex(l, rs));
      }
    }
  }

  // ---------------------------------------------------------------- where reading starts

  /** The first record that is read: an instruction cut by the edge of the window is skipped. */
  ghost function StartIndex(w: Window, rs: seq<Record>): (k: nat)
    ensures k <= |rs|
  {
    if rs == [] || AtStart(w, Emit(rs[0])[0]) then 0
    else if exists i :: 0 <= i < |Marks(rs[0])| && AtStart(w, Marks(rs[0])[i]) then 1
    else 1 + StartIndex(w, rs[1..])
  }

  lemma {:induction false} StartInside(w: Window, a: seq<Line>, b: seq<Line>)
    requires forall i :: 0 <= i < |a| ==> !a[i].FetchLine?
    ensures (exists i :: 0 <= i < |a| && AtStart(w, a[i])) ==> Body(w, a + b) == FromFetch(b)
    ensures (forall i :: 0 <= i < |a| ==> !AtStart(w, a[i])) ==> Body(w, a + b) == Body(w, b)
  {
    if a == [] {
      assert a + b == b;
    } else if AtStart(w, a[0]) {
      FetchBehind(a, b);
    } else {
      assert (a + b)[1..] == a[1..] + b;
      StartInside(w, a[1..], b);
      if i :| 0 <= i < |a| && AtStart(w, a[i]) {
        assert a[1..][i - 1] == a[i];
      }
    }
  }

  lemma {:induction false} FetchBehind(a: seq<Line>, b: seq<Line>)
    requires forall i :: 0 <= i < |a| ==> !a[i].FetchLine?
    ensures FromFetch(a + b) == FromFetch(b)
  {
    if a == [] {
      assert a + b == b;
    } else {
      assert (a + b)[1..] == a[1..] + b;
      FetchBehind(a[1..], b);
    }
  }

  lemma BodyStep(w: Window, lines: seq<Line>)
    requires lines != []
    ensures Body(w, lines) == if AtStart(w, lines[0]) then FromFetch(lines) else Body(w, lines[1..])
  {
  }

  lemma EmitParts(r: Record, rest: seq<Line>)
    ensures Emit(r)[0].FetchLine? && (Emit(r) + rest)[1..] == Marks(r) + rest
    ensures forall i :: 0 <= i < |Marks(r)| ==> !Marks(r)[i].FetchLine?
  {
  }

  lemma TraceStartsWithFetch(rs: seq<Record>)
    ensures FromFetch(Trace(rs)) == Trace(rs)
  {
  }

  lemma {:induction false} BodyOfTrace(w: Window, rs: seq<Record>)
    ensures Body(w, Trace(rs)) == Trace(rs[StartIndex(w, rs)..])
  {
    if rs == [] {
      assert rs[0..] == rs;
    } else {
      var e, rest := Emit(rs[0]), Trace(rs[1..]);
      EmitParts(rs[0], rest);
      hide Emit, Marks, AtStart, Body;
      BodyStep(w, Trace(rs));
      TraceStartsWithFetch(rs);
      if AtStart(w, e[0]) {
        assert rs[0..] == rs;
      } else {
        hide FromFetch, FromStart;
        StartInside(w, Marks(rs[0]), rest);
        BodyOfTrace(w, rs[1..]);
        var k := StartIndex(w, rs[1..]);
        assert rs[1..][k..] == rs[1 + k..];
        TraceStartsWithFetch(rs[1..]);
      }
    }
  }

  /** Skipping to the start loses nothing: no skipped instruction is in the window. Unlike the end
      of the window its start needs no margin. */
  lemma {:induction false} SkippedAreOutside(w: Window, store: bool, rs: seq<Record>, i: nat)
    requires w.startTick >= 0 && w.startSn >= 0
    requires i < StartIndex(w, rs)
    ensures !Kept(w, InstOf(store, rs[i]))
  {
    assert !AtStart(w, Emit(rs[0])[0]);
    if i > 0 {
      SkippedAreOutside(w, store, rs[1..], i - 1);
    }
  }

  // ---------------------------------------------------------------- the whole script

  /** The records that are read, from the first at the start of the window up to the first that
      is beyond its end. */
  ghost function ReadPart(w: Window, l: Limit, rs: seq<Record>): seq<Record> {
    var body := rs[StartIndex(w, rs)..];
    body[..StopIndex(l, body)]
  }

  ghost function UnreadPart(w: Window, l: Limit, rs: seq<Record>): seq<Record> {
    var body := rs[StartIndex(w, rs)..];
    body[StopIndex(l, body)..]
  }

  /** What the user asked for: all instructions of the trace, sorted, and those in the window shown. */
  ghost function Wanted(w: Window, store: bool, rs: seq<Record>): seq<Inst> {
    Filter(Keep(w), Sort(SnLe, Insts(store, rs)))
  }

  lemma CollectReads(w: Window, l: Limit, store: bool, lines: seq<Line>, rs: seq<Record>)
    requires StripOther(lines) == Trace(rs)
    ensures Collect(l, store, Body(w, lines), BLANK)
         == Reading(Insts(store, ReadPart(w, l, rs)), UnreadPart(w, l, rs) != [])
    ensures Body(w, lines) == [] ==> ReadPart(w, l, rs) == [] && UnreadPart(w, l, rs) == []
  {
    BodyStrips(w, lines);
    BodyOfTrace(w, rs);
    CollectStrips(l, store, Body(w, lines), BLANK);
    CollectTrace(l, store, rs[StartIndex(w, rs)..], BLANK);
  }

  lemma ReadIsInOrder(w: Window, l: Limit, min: nat, max: nat, store: bool, rs: seq<Record>)
    requires DisorderWithin(Insts(store, rs), min)
    ensures Stream(min, max, Insts(store, ReadPart(w, l, rs))) == Sort(SnLe, Insts(store, ReadPart(w, l, rs)))
  {
    var ins := Insts(store, ReadPart(w, l, rs));
    SliceKeepsDisorder(Insts(store, rs), ins, StartIndex(w, rs), min);
    StreamSorts(min, max, ins);
  }

  lemma ProcessReads(w: Window, l: Limit, min: nat, max: nat, store: bool, call: StopCall,
                     lines: seq<Line>, rs: seq<Record>)
    requires StripOther(lines) == Trace(rs)
    requires DisorderWithin(Insts(store, rs), min)
    ensures var r := Process(w, l, min, max, store, call, [], lines);
            && (UnreadPart(w, l, rs) == [] || call == Complete ==>
                  r.shown == Wanted(w, store, ReadPart(w, l, rs)) && r.outcome != TypeError)
            && (UnreadPart(w, l, rs) != [] && call == OneArgumentShort ==> r.outcome == TypeError)
  {
    CollectReads(w, l, store, lines, rs);
    ReadIsInOrder(w, l, min, max, store, rs);
    var ins := Insts(store, ReadPart(w, l, rs));
    if Body(w, lines) == [] {
      assert ins == [];
      assert Sort(SnLe, ins) == [];
    }
  }

  lemma SliceKeepsDisorder(all: seq<Inst>, part: seq<Inst>, from: nat, k: int)
    requires from + |part| <= |all| && DisorderWithin(all, k)
    requires forall i :: 0 <= i < |part| ==> part[i] == all[from + i]
    ensures DisorderWithin(part, k)
  {
  }

  lemma {:induction false} WantedSplits(w: Window, store: bool, a: seq<Record>, b: seq<Record>)
    ensures Wanted(w, store, a + b) == Sort(SnLe, Filter(Keep(w), Insts(store, a)) + Filter(Keep(w), Insts(store, b)))
  {
    assert Insts(store, a + b) == Insts(store, a) + Insts(store, b);
    SnLeIsTotal();
    FilterSort(SnLe, Keep(w), Insts(store, a + b));
    FilterConcat(Keep(w), Insts(store, a), Insts(store, b));
  }

  /** Leaving out part of the input shows the same exactly when nothing of it was wanted. */
  lemma WantedWithout(w: Window, store: bool, a: seq<Record>, b: seq<Record>)
    ensures Wanted(w, store, a) == Wanted(w, store, a + b) <==> Filter(Keep(w), Insts(store, b)) == []
    ensures Filter(Keep(w), Insts(store, a)) == [] ==> Wanted(w, store, a + b) == Wanted(w, store, b)
  {
    var fa, fb := Filter(Keep(w), Insts(store, a)), Filter(Keep(w), Insts(store, b));
    WantedSplits(w, store, a, b);
    WantedSplits(w, store, a, []);
    WantedSplits(w, store, [], b);
    assert a + [] == a && [] + b == b && Insts(store, []) == [];
    assert fa + [] == fa && [] + fb == fb;
    if fb != [] {
      assert |Sort(SnLe, fa + fb)| > |Sort(SnLe, fa)|;
    }
  }

  lemma NoneKept(w: Window, store: bool, rs: seq<Record>)
    ensures Filter(Keep(w), Insts(store, rs)) == [] <==> forall r :: r in rs ==> !Kept(w, InstOf(store, r))
  {
    var ins := Insts(store, rs);
    FilterNone(Keep(w), ins);
    if Filter(Keep(w), ins) == [] {
      forall r | r in rs ensures !Kept(w, InstOf(store, r)) {
        var i :| 0 <= i < |rs| && rs[i] == r;
        assert !Keep(w)(ins[i]);
      }
    }
  }

  /** What is wanted of the whole trace is wanted of its part from the start on. */
  lemma SkippingIsHarmless(w: Window, store: bool, rs: seq<Record>)
    requires w.startTick >= 0 && w.startSn >= 0
    ensures Wanted(w, store, rs) == Wanted(w, store, rs[StartIndex(w, rs)..])
  {
    var k := StartIndex(w, rs);
    forall r | r in rs[..k] ensures !Kept(w, InstOf(store, r)) {
      var i :| 0 <= i < k && rs[i] == r;
      SkippedAreOutside(w, store, rs, i);
    }
    NoneKept(w, store, rs[..k]);
    WantedWithout(w, store, rs[..k], rs[k..]);
    assert rs == rs[..k] + rs[k..];
  }

  /** The main result, exact: with the completed flush call the script shows what was asked for
      if and only if no instruction behind the early stop lies in the window. */
  lemma {:induction false} ShownIsWanted(w: Window, l: Limit, min: nat, max: nat, store: bool,
                                         lines: seq<Line>, rs: seq<Record>)
    requires StripOther(lines) == Trace(rs)
    requires DisorderWithin(Insts(store, rs), min)
    requires w.startTick >= 0 && w.startSn >= 0
    ensures Process(w, l, min, max, store, Complete, [], lines).shown == Wanted(w, store, rs) <==>
            forall r :: r in UnreadPart(w, l, rs) ==> !Kept(w, InstOf(store, r))
  {
    ProcessReads(w, l, min, max, store, Complete, lines, rs);
    SkippingIsHarmless(w, store, rs);
    StoppingIsHarmless(w, store, rs[StartIndex(w, rs)..], StopIndex(l, rs[StartIndex(w, rs)..]));
  }

  lemma StoppingIsHarmless(w: Window, store: bool, rs: seq<Record>, m: nat)
    requires m <= |rs|
    ensures Wanted(w, store, rs[..m]) == Wanted(w, store, rs) <==>
            forall r :: r in rs[m..] ==> !Kept(w, InstOf(store, r))
  {
    WantedWithout(w, store, rs[..m], rs[m..]);
    NoneKept(w, store, rs[m..]);
    assert rs == rs[..m] + rs[m..];
  }

  // ---------------------------------------------------------------- in terms of the records

  /** What an instruction on show tells of its record. */
  lemma ShownTells(store: bool, r: Record)
    ensures var i := InstOf(store, r);
            && i.sn == r.sn && i.pc == r.pc && i.upc == r.upc
            && (r.retire != 0 ==> i.disasm == r.disasm) && (r.retire == 0 ==> i.disasm == "-----" + r.disasm)
            && i.Tick(Fetched) == r.fetch && i.Tick(Decoded) == r.decode && i.Tick(Renamed) == r.rename
            && i.Tick(Dispatched) == r.dispatch && i.Tick(Issued) == r.issue && i.Tick(Completed) == r.complete
            && i.Tick(Retired) == r.retire && (store ==> i.Tick(Stored) == r.store)
  {
  }

  /** The bounds of the window, for a record. A bound that is not positive is none. */
  lemma KeptMeans(w: Window, store: bool, r: Record)
    ensures Kept(w, InstOf(store, r)) <==>
            && (w.startSn <= 0 || r.sn >= w.startSn) && (w.stopSn <= 0 || r.sn <= w.stopSn)
            && (w.startTick <= 0 || r.fetch >= w.startTick) && (w.stopTick <= 0 || r.fetch <= w.stopTick)
            && (w.committedOnly ==> r.retire != 0)
  {
    ShownTells(store, r);
  }

  /** When nothing behind the early stop lies in the window, a record is shown exactly if it lies in
      the window, and nothing else is shown. */
  lemma ShownExactly(w: Window, l: Limit, min: nat, max: nat, store: bool, lines: seq<Line>, rs: seq<Record>)
    requires StripOther(lines) == Trace(rs)
    requires DisorderWithin(Insts(store, rs), min)
    requires w.startTick >= 0 && w.startSn >= 0
    requires forall r :: r in UnreadPart(w, l, rs) ==> !Kept(w, InstOf(store, r))
    ensures forall r :: r in rs ==>
              (InstOf(store, r) in Process(w, l, min, max, store, Complete, [], lines).shown <==>
                 && (w.startSn <= 0 || r.sn >= w.startSn) && (w.stopSn <= 0 || r.sn <= w.stopSn)
                 && (w.startTick <= 0 || r.fetch >= w.startTick) && (w.stopTick <= 0 || r.fetch <= w.stopTick)
                 && (w.committedOnly ==> r.retire != 0))
    ensures forall i :: i in Process(w, l, min, max, store, Complete, [], lines).shown ==>
              exists r :: r in rs && i == InstOf(store, r)
  {
    hide Process, UnreadPart, Kept, InstOf;
    ShownIsWanted(w, l, min, max, store, lines, rs);
    WantedMembers(w, store, rs);
    forall r | r in rs
      ensures InstOf(store, r) in Wanted(w, store, rs) <==>
                && (w.startSn <= 0 || r.sn >= w.startSn) && (w.stopSn <= 0 || r.sn <= w.stopSn)
                && (w.startTick <= 0 || r.fetch >= w.startTick) && (w.stopTick <= 0 || r.fetch <= w.stopTick)
                && (w.committedOnly ==> r.retire != 0)
    {
      KeptMeans(w, store, r);
    }
  }

  lemma WantedMembers(w: Window, store: bool, rs: seq<Record>)
    ensures forall r :: r in rs ==> (InstOf(store, r) in Wanted(w, store, rs) <==> Kept(w, InstOf(store, r)))
    ensures forall i :: i in Wanted(w, store, rs) ==> exists r :: r in rs && i == InstOf(store, r)
  {
    hide InstOf, Kept;
    var ins := Insts(store, rs);
    SortPermutes(SnLe, ins);
    FilterMembers(Keep(w), Sort(SnLe, ins));
    forall i ensures i in Sort(SnLe, ins) <==> i in ins {
      assert i in Sort(SnLe, ins) <==> i in multiset(Sort(SnLe, ins));
      assert i in ins <==> i in multiset(ins);
    }
    forall r | r in rs ensures InstOf(store, r) in ins {
      var k :| 0 <= k < |rs| && rs[k] == r;
      assert ins[k] == InstOf(store, r);
    }
    forall i | i in ins ensures exists r :: r in rs && i == InstOf(store, r) {
      var k :| 0 <= k < |ins| && ins[k] == i;
      assert rs[k] in rs;
    }
  }

  /** Reading begins with the first record that is fetched at the start of the window or later; if
      any other stage of a record before it reaches the start, with the record behind that one. */
  lemma {:induction false} StartsAtTick(w: Window, rs: seq<Record>)
    requires w.startTick != 0
    ensures var k := StartIndex(w, rs);
            && (forall i :: 0 <= i < k ==> rs[i].fetch < w.startTick)
            && (forall i :: 0 <= i < k - 1 ==> !Reaches(w.startTick, rs[i]))
            && (k < |rs| ==> rs[k].fetch >= w.startTick || (k > 0 && Reaches(w.startTick, rs[k - 1])))
  {
    if rs != [] && rs[0].fetch < w.startTick {
      StartsAtTick(w, rs[1..]);
      var m := Marks(rs[0]);
      assert m[0].tick == rs[0].decode && m[1].tick == rs[0].rename && m[2].tick == rs[0].dispatch
        && m[3].tick == rs[0].issue && m[4].tick == rs[0].complete && m[5].tick == rs[0].retire;
    }
  }

  /** Some stage behind the fetch comes at the tick or later. */
  predicate Reaches(tick: int, r: Record) {
    r.decode >= tick || r.rename >= tick || r.dispatch >= tick
      || r.issue >= tick || r.complete >= tick || r.retire >= tick
  }

  /** Without a starting tick, it begins with the first sequence number at the start, or at once. */
  lemma {:induction false} StartsAtSn(w: Window, rs: seq<Record>)
    requires w.startTick == 0
    ensures var k := StartIndex(w, rs);
            && (w.startSn == 0 ==> k == 0)
            && (w.startSn != 0 ==>
                  (forall i :: 0 <= i < k ==> rs[i].sn < w.startSn) && (k < |rs| ==> rs[k].sn >= w.startSn))
  {
    if rs != [] && w.startSn != 0 && rs[0].sn < w.startSn { StartsAtSn(w, rs[1..]); }
  }

  /** Reading ends in front of the first record that is beyond the end by more than the margin. */
  lemma ReadsUpTo(w: Window, l: Limit, rs: seq<Record>)
    ensures var k, part := StartIndex(w, rs), ReadPart(w, l, rs);
            && rs[k..] == part + UnreadPart(w, l, rs)
            && (forall r :: r in part ==>
                  (l.stopTick <= 0 || r.fetch <= l.stopTick + l.tickMargin)
                    && (l.stopSn <= 0 || r.sn <= l.stopSn + l.snMargin))
            && (UnreadPart(w, l, rs) != [] ==>
                  var r := UnreadPart(w, l, rs)[0];
                  (l.stopTick > 0 && r.fetch > l.stopTick + l.tickMargin)
                    || (l.stopSn > 0 && r.sn > l.stopSn + l.snMargin))
  {
  }

  /** A trace without anything to read leaves no output at all. */
  lemma {:induction false} FoundIff(w: Window, l: Limit, min: nat, max: nat, store: bool,
                                    call: StopCall, queue: seq<Inst>,
                 lines: seq<Line>, rs: seq<Record>)
    requires StripOther(lines) == Trace(rs)
    ensures Process(w, l, min, max, store, call, queue, lines).outcome == NothingFound <==> StartIndex(w, rs) == |rs|
  {
    hide Body, StartIndex, Collect, Feed;
    BodyStrips(w, lines);
    BodyOfTrace(w, rs);
  }

  /** The script as it stands fails exactly when it stops early, whatever the trace and the queue. */
  lemma FailsIffUnread(w: Window, l: Limit, min: nat, max: nat, store: bool, queue: seq<Inst>,
                       lines: seq<Line>, rs: seq<Record>)
    requires StripOther(lines) == Trace(rs)
    ensures Process(w, l, min, max, store, OneArgumentShort, queue, lines).outcome == TypeError <==>
            UnreadPart(w, l, rs) != []
  {
    hide ReadPart, UnreadPart, Collect, Body, Feed;
    CollectReads(w, l, store, lines, rs);
  }

  /** As the script stands, the same holds exactly when it never stops early; otherwise it fails. */
  lemma ShownAsWritten(w: Window, l: Limit, min: nat, max: nat, store: bool, lines: seq<Line>, rs: seq<Record>)
    requires StripOther(lines) == Trace(rs)
    requires DisorderWithin(Insts(store, rs), min)
    requires w.startTick >= 0 && w.startSn >= 0
    ensures var r := Process(w, l, min, max, store, OneArgumentShort, [], lines);
            && (r.outcome == TypeError <==> UnreadPart(w, l, rs) != [])
            && (r.outcome != TypeError ==> r.shown == Wanted(w, store, rs))
  {
    ProcessReads(w, l, min, max, store, OneArgumentShort, lines, rs);
    ProcessReads(w, l, min, max, store, Complete, lines, rs);
    ShownIsWanted(w, l, min, max, store, lines, rs);
  }

  /** So the first instruction behind the end of the window ends the script with the error. */
  lemma FirstBehindFails(w: Window, l: Limit, min: nat, max: nat, store: bool, r: Record)
    requires AtStart(w, Emit(r)[0]) && Beyond(l, r.fetch, r.sn)
    ensures Process(w, l, min, max, store, OneArgumentShort, [], Trace([r])).outcome == TypeError
  {
    hide Process, Emit, AtStart, Beyond;
    assert StripOther(Trace([r])) == Trace([r]) by { TraceHasNoOther([r]); }
    FailsIffUnread(w, l, min, max, store, [], Trace([r]), [r]);
  }

  lemma {:induction false} NoOther(lines: seq<Line>)
    requires forall i :: 0 <= i < |lines| ==> !lines[i].Other?
    ensures StripOther(lines) == lines
  {
    if lines != [] {
      NoOther(lines[1..]);
      assert lines == [lines[0]] + lines[1..];
    }
  }

  lemma {:induction false} TraceHasNoOther(rs: seq<Record>)
    ensures forall i :: 0 <= i < |Trace(rs)| ==> !Trace(rs)[i].Other?
    ensures StripOther(Trace(rs)) == Trace(rs)
  {
    if rs != [] { TraceHasNoOther(rs[1..]); }
    NoOther(Trace(rs));
  }

  /** One record fetched at tick 5000, when the window ends at tick 1 and the margin is 2000. */
  lemma StopFails(min: nat, max: nat)
    ensures var r := Record(1, "", "", "", 5000, 0, 0, 0, 0, 0, 0, 0);
            Process(Window(0, 1, 0, 0, false), Limit(1, 2000, 0, max), min, max, false,
                    OneArgumentShort, [], Trace([r])).outcome
              == TypeError
  {
    hide Process;
    FirstBehindFails(Window(0, 1, 0, 0, false), Limit(1, 2000, 0, max), min, max, false,
                     Record(1, "", "", "", 5000, 0, 0, 0, 0, 0, 0, 0));
  }

  /** The assumption behind tick_drift: once a fetch is past the stop by more than the margin, no
      later fetch falls back into the window. */
  ghost predicate StaysBeyond(w: Window, l: Limit, rs: seq<Record>) {
    forall i, j :: 0 <= i < j < |rs| && Beyond(l, rs[i].fetch, rs[i].sn) ==>
      (w.stopTick > 0 && rs[j].fetch > w.stopTick) || (w.stopSn > 0 && rs[j].sn > w.stopSn)
  }

  /** Under that assumption the early stop is harmless. */
  lemma DriftSuffices(w: Window, l: Limit, min: nat, max: nat, store: bool, lines: seq<Line>, rs: seq<Record>)
    requires StripOther(lines) == Trace(rs)
    requires DisorderWithin(Insts(store, rs), min)
    requires w.startTick >= 0 && w.startSn >= 0
    requires l.stopTick == w.stopTick && l.stopSn == w.stopSn && l.tickMargin >= 0
    requires StaysBeyond(w, l, rs)
    ensures Process(w, l, min, max, store, Complete, [], lines).shown == Wanted(w, store, rs)
  {
    forall r | r in UnreadPart(w, l, rs) ensures !Kept(w, InstOf(store, r)) {
      var i :| 0 <= i < |UnreadPart(w, l, rs)| && UnreadPart(w, l, rs)[i] == r;
      UnreadAreOutside(w, l, store, rs, i);
    }
    ShownIsWanted(w, l, min, max, store, lines, rs);
  }

  lemma UnreadAreOutside(w: Window, l: Limit, store: bool, rs: seq<Record>, i: nat)
    requires l.stopTick == w.stopTick && l.stopSn == w.stopSn && l.tickMargin >= 0
    requires StaysBeyond(w, l, rs) && i < |UnreadPart(w, l, rs)|
    ensures !Kept(w, InstOf(store, UnreadPart(w, l, rs)[i]))
  {
  }
}
