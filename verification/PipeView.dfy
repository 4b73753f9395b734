/** The O3 pipeline viewer (gem5/util/o3-pipeview.py): a bounded queue that sorts an almost
    sorted stream of instructions on the fly, between a skip to the start of a window and an
    early stop behind its end. */
module PipeView {
  import opened Sorting

  // ---------------------------------------------------------------- data

  datatype Stage = Fetched | Decoded | Renamed | Dispatched | Issued | Completed | Retired | Stored

  /** The stages that a trace line of the short form can name. */
  type MiddleStage = s: Stage | s in {Decoded, Renamed, Dispatched, Issued, Completed} witness Decoded

  /** One line of the trace, split at its colons. */
  datatype Line =
    | Other                                                // not an O3PipeView line
    | FetchLine(tick: int, pc: string, upc: string, sn: int, disasm: string)
    | MarkLine(stage: MiddleStage, tick: int)
    | RetireLine(tick: int, storeTick: int)

  /** The dictionary that collects what the lines say about the current instruction. */
  datatype Inst = Inst(sn: int, pc: string, upc: string, disasm: string, ticks: map<Stage, int>) {
    function Tick(s: Stage): int { if s in ticks then ticks[s] else 0 }
  }

  const BLANK := Inst(0, "", "", "", map[])

  /** What the user asked to see. A bound that is not positive is no bound. */
  datatype Window = Window(startTick: int, stopTick: int, startSn: int, stopSn: int, committedOnly: bool)

  /** When to give up reading: behind the window by more than a margin. */
  datatype Limit = Limit(stopTick: int, tickMargin: int, stopSn: int, snMargin: nat)

  /** The flush call at the early stop: as the script has it, one argument short, or with the
      argument list that the flush at the end of the trace has. */
  datatype StopCall = OneArgumentShort | Complete

  datatype Outcome = NothingFound | Shown | TypeError

  // ---------------------------------------------------------------- the window

  function SnLe(a: Inst, b: Inst): bool { a.sn <= b.sn }

  lemma SnLeIsTotal()
    ensures TotalPreorder(SnLe)
  {
  }

  predicate Kept(w: Window, i: Inst) {
    && !(w.startSn > 0 && i.sn < w.startSn)
    && !(w.stopSn > 0 && i.sn > w.stopSn)
    && !(w.startTick > 0 && i.Tick(Fetched) < w.startTick)
    && !(w.stopTick > 0 && i.Tick(Fetched) > w.stopTick)
    && !(w.committedOnly && i.Tick(Retired) == 0)
  }

  function Keep(w: Window): Inst -> bool { (i: Inst) => Kept(w, i) }

  predicate Beyond(l: Limit, tick: int, sn: int) {
    || (l.stopTick > 0 && tick > l.stopTick + l.tickMargin)
    || (l.stopSn > 0 && sn > l.stopSn + l.snMargin)
  }

  // ---------------------------------------------------------------- the reorder queue

  /** The queue and, in order, everything that was ever popped from it. */
  datatype State = State(queue: seq<Inst>, popped: seq<Inst>)

  function Flush(st: State, lower: nat): State {
    var s := Sort(SnLe, st.queue);
    var n := if |s| > lower then |s| - lower else 0;
    State(s[n..], st.popped + s[..n])
  }

  function Enqueue(min: nat, max: nat, st: State, x: Inst): State {
    var st' := State(st.queue + [x], st.popped);
    if |st'.queue| > max then Flush(st', min) else st'
  }

  function Feed(min: nat, max: nat, st: State, ins: seq<Inst>): State {
    if ins == [] then st
    else Enqueue(min, max, Feed(min, max, st, ins[..|ins| - 1]), ins[|ins| - 1])
  }

  /** Everything popped when ins goes through an empty queue that is flushed at the end. */
  function Stream(min: nat, max: nat, ins: seq<Inst>): seq<Inst> {
    Flush(Feed(min, max, State([], []), ins), 0).popped
  }

  // ---------------------------------------------------------------- reading the trace

  function WithTick(i: Inst, s: Stage, t: int): Inst { i.(ticks := i.ticks[s := t]) }

  function AtFetch(curr: Inst, l: Line): Inst
    requires l.FetchLine?
  {
    Inst(l.sn, l.pc, l.upc, l.disasm, curr.ticks[Fetched := l.tick])
  }

  function AtRetire(curr: Inst, l: Line, store: bool): Inst
    requires l.RetireLine?
  {
    var c := WithTick(curr, Retired, l.tick);
    var d := if l.tick == 0 then c.(disasm := "-----" + c.disasm) else c;
    if store then WithTick(d, Stored, l.storeTick) else d
  }

  datatype Reading = Reading(items: seq<Inst>, stopped: bool)

  /** What the main loop queues, and whether it left early. */
  function Collect(l: Limit, store: bool, lines: seq<Line>, curr: Inst): Reading {
    if lines == [] then Reading([], false)
    else match lines[0]
      case Other => Collect(l, store, lines[1..], curr)
      case MarkLine(s, t) => Collect(l, store, lines[1..], WithTick(curr, s, t))
      case FetchLine(t, _, _, sn, _) =>
        if Beyond(l, t, sn) then Reading([], true)
        else Collect(l, store, lines[1..], AtFetch(curr, lines[0]))
      case RetireLine(_, _) =>
        var c := AtRetire(curr, lines[0], store);
        var r := Collect(l, store, lines[1..], c);
        Reading([c] + r.items, r.stopped)
  }

  predicate AtStart(w: Window, l: Line) {
    if w.startTick != 0 then !l.Other? && l.tick >= w.startTick
    else if w.startSn != 0 then l.FetchLine? && l.sn >= w.startSn
    else true
  }

  /** The lines from the first one on that is at the start of the window. */
  function FromStart(w: Window, lines: seq<Line>): seq<Line> {
    if lines == [] || AtStart(w, lines[0]) then lines else FromStart(w, lines[1..])
  }

  function FromFetch(lines: seq<Line>): seq<Line> {
    if lines == [] || lines[0].FetchLine? then lines else FromFetch(lines[1..])
  }

  /** The lines that the main loop sees. */
  function Body(w: Window, lines: seq<Line>): seq<Line> {
    FromFetch(FromStart(w, lines))
  }

  datatype Result = Result(outcome: Outcome, shown: seq<Inst>, queue: seq<Inst>)

  /** What one call of process_trace does to a queue. */
  function Process(w: Window, l: Limit, min: nat, max: nat, store: bool, call: StopCall,
                   queue: seq<Inst>, trace: seq<Line>): Result
  {
    var body := Body(w, trace);
    if body == [] then Result(NothingFound, [], queue)
    else
      var r := Collect(l, store, body, BLANK);
      var st := Feed(min, max, State(queue, []), r.items);
      if r.stopped && call == OneArgumentShort then Result(TypeError, Filter(Keep(w), st.popped), st.queue)
      else Result(Shown, Filter(Keep(w), Flush(st, 0).popped), [])
  }

  // ---------------------------------------------------------------- the script

  /** The global table insts, with the output file as the list of printed instructions. */
  class Viewer {
    var queue: seq<Inst>
    var maxThreshold: nat
    var minThreshold: nat
    var window: Window
    var tickDrift: int
    var printed: seq<Inst>

    constructor ()
      ensures queue == [] && maxThreshold == 2000 && minThreshold == 1000
      ensures window == Window(0, 0, 0, 0, false) && tickDrift == 2000
      ensures printed == []
    {
      queue, maxThreshold, minThreshold := [], 2000, 1000;
      window, tickDrift := Window(0, 0, 0, 0, false), 2000;
      printed := [];
    }

    /** What was shown is what was on show before plus what passes the window of all that was popped. */
    ghost predicate Shows(before: seq<Inst>, st: State)
      reads this`queue, this`printed, this`window
    {
      queue == st.queue && printed == before + Filter(Keep(window), st.popped)
    }

    /** Pops the first instruction and prints it if it lies in the window. */
    method PopFirst()
      requires queue != []
      modifies this`queue, this`printed
      ensures queue == old(queue)[1..]
      ensures printed == old(printed) + if Kept(window, old(queue)[0]) then [old(queue)[0]] else []
    {
      var item := queue[0];
      queue := queue[1..];
      if window.startSn > 0 && item.sn < window.startSn { return; }
      if window.stopSn > 0 && item.sn > window.stopSn { return; }
      if window.startTick > 0 && item.Tick(Fetched) < window.startTick { return; }
      if window.stopTick > 0 && item.Tick(Fetched) > window.stopTick { return; }
      if window.committedOnly && item.Tick(Retired) == 0 { return; }
      printed := printed + [item];
    }

    /** The loop of print_insts: pops the queue down to the lower threshold. */
    method PopDown(lower: nat)
      modifies this`queue, this`printed
      ensures var n := if |old(queue)| > lower then |old(queue)| - lower else 0;
              && queue == old(queue)[n..]
              && printed == old(printed) + Filter(Keep(window), old(queue)[..n])
    {
      ghost var s, n := queue, 0;
      while |queue| > lower
        invariant n <= |s| && queue == s[n..]
        invariant n > 0 ==> n + lower <= |s|
        invariant printed == old(printed) + Filter(Keep(window), s[..n])
        decreases |queue|
      {
        FilterNext(Keep(window), s[..n], s[n]);
        assert s[..n + 1] == s[..n] + [s[n]];
        PopFirst();
        n := n + 1;
      }
    }

    /** print_insts: sorts the queue in place, then pops and prints. */
    method PrintInsts(lower: nat, ghost before: seq<Inst>, ghost st: State)
      requires Shows(before, st)
      modifies this`queue, this`printed
      ensures Shows(before, Flush(st, lower))
    {
      hide Sort, Filter;
      queue := Sort(SnLe, queue);
      ghost var n := if |queue| > lower then |queue| - lower else 0;
      FilterConcat(Keep(window), st.popped, queue[..n]);
      PopDown(lower);
    }

    /** queue_inst: flushes down to the minimum when the queue outgrows the maximum. */
    method QueueInst(inst: Inst, ghost before: seq<Inst>, ghost st: State)
      requires Shows(before, st)
      modifies this`queue, this`printed
      ensures Shows(before, Enqueue(minThreshold, maxThreshold, st, inst))
    {
      queue := queue + [inst];
      if |queue| > maxThreshold {
        PrintInsts(minThreshold, before, State(st.queue + [inst], st.popped));
      }
    }

    method ProcessTrace(trace: seq<Line>, cycleTime: int, committedOnly: bool, store: bool,
                        startTick: int, stopTick: int, startSn: int, stopSn: int, call: StopCall)
      returns (outcome: Outcome)
      modifies this
      ensures window == Window(startTick, stopTick, startSn, stopSn, committedOnly)
      ensures tickDrift == old(tickDrift) * cycleTime
      ensures maxThreshold == old(maxThreshold) && minThreshold == old(minThreshold)
      ensures var r := Process(window, Limit(stopTick, tickDrift, stopSn, maxThreshold),
                               minThreshold, maxThreshold, store, call, old(queue), trace);
              outcome == r.outcome && queue == r.queue && printed == old(printed) + r.shown
    {
      window := Window(startTick, stopTick, startSn, stopSn, committedOnly);
      tickDrift := tickDrift * cycleTime;
      var pos := SkipToFetch(trace);
      if pos == |trace| {
        return NothingFound;
      }
      outcome := MainLoop(trace, pos, store, call);
    }

    /** Skips the lines in front of the window, then the rest of an instruction that is cut by
        its edge. */
    method SkipToFetch(trace: seq<Line>) returns (pos: nat)
      ensures pos <= |trace| && trace[pos..] == Body(window, trace)
    {
      pos := 0;
      if window.startTick != 0 {
        while pos < |trace| && (trace[pos].Other? || trace[pos].tick < window.startTick)
          invariant pos <= |trace| && FromStart(window, trace) == FromStart(window, trace[pos..])
        {
          assert trace[pos..][1..] == trace[pos + 1..];
          pos := pos + 1;
        }
      } else if window.startSn != 0 {
        while pos < |trace| && (!trace[pos].FetchLine? || trace[pos].sn < window.startSn)
          invariant pos <= |trace| && FromStart(window, trace) == FromStart(window, trace[pos..])
        {
          assert trace[pos..][1..] == trace[pos + 1..];
          pos := pos + 1;
        }
      }
      while pos < |trace| && !trace[pos].FetchLine?
        invariant pos <= |trace| && Body(window, trace) == FromFetch(trace[pos..])
      {
        assert trace[pos..][1..] == trace[pos + 1..];
        pos := pos + 1;
      }
    }

    /** The region of interest: lines are read from pos on until the trace or the window ends. */
    method MainLoop(trace: seq<Line>, start: nat, store: bool, call: StopCall) returns (outcome: Outcome)
      requires start <= |trace|
      modifies this`queue, this`printed
      ensures var r := Collect(Limit(window.stopTick, tickDrift, window.stopSn, maxThreshold), store,
                               trace[start..], BLANK);
              var st := Feed(minThreshold, maxThreshold, State(old(queue), []), r.items);
              if r.stopped && call == OneArgumentShort
              then outcome == TypeError && Shows(old(printed), st)
              else outcome == Shown && Shows(old(printed), Flush(st, 0))
    {
      ghost var l := Limit(window.stopTick, tickDrift, window.stopSn, maxThreshold);
      ghost var before, st := printed, State(queue, []);
      DriveFeeds(l, store, minThreshold, maxThreshold, trace[start..], BLANK, st);
      ghost var end := Drive(l, store, minThreshold, maxThreshold, trace[start..], BLANK, st);
      var curr := BLANK;
      var pos := start;
      while pos < |trace|
        invariant start <= pos <= |trace|
        invariant end == Drive(l, store, minThreshold, maxThreshold, trace[pos..], curr, st)
        invariant Shows(before, st)
      {
        var line := trace[pos];
        assert trace[pos..][1..] == trace[pos + 1..];
        match line {
          case Other =>
          case MarkLine(s, t) =>
            curr := WithTick(curr, s, t);
          case FetchLine(t, _, _, sn, _) =>
            if (window.stopTick > 0 && t > window.stopTick + tickDrift)
               || (window.stopSn > 0 && sn > window.stopSn + maxThreshold) {
              if call == OneArgumentShort {
                return TypeError;
              }
              break;
            }
            curr := AtFetch(curr, line);
          case RetireLine(_, _) =>
            curr := AtRetire(curr, line, store);
            QueueInst(curr, before, st);
            st := Enqueue(minThreshold, maxThreshold, st, curr);
        }
        pos := pos + 1;
      }
      PrintInsts(0, before, st);
      outcome := Shown;
    }
  }

  /** The main loop as a machine that moves one line at a time: the queue when it ends, and
      whether it ended early. */
  ghost function Drive(l: Limit, store: bool, min: nat, max: nat, lines: seq<Line>,
                       curr: Inst, st: State): (State, bool) {
    if lines == [] then (st, false)
    else match lines[0]
      case Other => Drive(l, store, min, max, lines[1..], curr, st)
      case MarkLine(s, t) => Drive(l, store, min, max, lines[1..], WithTick(curr, s, t), st)
      case FetchLine(t, _, _, sn, _) =>
        if Beyond(l, t, sn) then (st, true)
        else Drive(l, store, min, max, lines[1..], AtFetch(curr, lines[0]), st)
      case RetireLine(_, _) =>
        var c := AtRetire(curr, lines[0], store);
        Drive(l, store, min, max, lines[1..], c, Enqueue(min, max, st, c))
  }

  lemma {:induction false} FeedFront(min: nat, max: nat, st: State, x: Inst, ins: seq<Inst>)
    ensures Feed(min, max, st, [x] + ins) == Feed(min, max, Enqueue(min, max, st, x), ins)
  {
    var all := [x] + ins;
    if ins == [] {
      assert all == [x] && Feed(min, max, st, [x][..0]) == st;
    } else {
      assert all[..|all| - 1] == [x] + ins[..|ins| - 1];
      FeedFront(min, max, st, x, ins[..|ins| - 1]);
    }
  }

  lemma {:induction false} DriveFeeds(l: Limit, store: bool, min: nat, max: nat, lines: seq<Line>,
                                      curr: Inst, st: State)
    ensures var r := Collect(l, store, lines, curr);
            Drive(l, store, min, max, lines, curr, st) == (Feed(min, max, st, r.items), r.stopped)
  {
    hide Enqueue, WithTick, AtFetch, AtRetire, Beyond;
    if lines != [] {
      match lines[0] {
        case Other => DriveFeeds(l, store, min, max, lines[1..], curr, st);
        case MarkLine(s, t) => DriveFeeds(l, store, min, max, lines[1..], WithTick(curr, s, t), st);
        case FetchLine(t, _, _, sn, _) =>
          if !Beyond(l, t, sn) {
            DriveFeeds(l, store, min, max, lines[1..], AtFetch(curr, lines[0]), st);
          }
        case RetireLine(_, _) =>
          var c := AtRetire(curr, lines[0], store);
          DriveFeeds(l, store, min, max, lines[1..], c, Enqueue(min, max, st, c));
          FeedFront(min, max, st, c, Collect(l, store, lines[1..], c).items);
      }
    }
  }
}
