/** The timeline that print_inst draws for one instruction (gem5/util/o3-pipeview.py), without
    colours: lines of cells, each line a window of width times cycle_time ticks. */
module Timeline {
  import opened Sorting

  datatype Cell = Dot | Mark(stage: nat)

  /** The stages by their index in the list of the script: fetch, decode, rename, dispatch, issue,
      complete, retire, and store if store completions are shown. */
  const DISPATCH := 3
  const ISSUE := 4

  /** The names of the stages. */
  const NAMES: seq<string> := ["fetch", "decode", "rename", "dispatch", "issue", "complete", "retire", "store"]

  /** The places of the stage names in alphabetical order, which decides between equal offsets. */
  const NAME_ORDER: seq<nat> := [3, 1, 5, 2, 4, 0, 6, 7]

  datatype Event = Event(offset: nat, stage: nat)

  predicate ValidTicks(ticks: seq<nat>) { 7 <= |ticks| <= 8 }

  /** Stages that did not happen have tick 0; the others come no earlier than the fetch. */
  predicate FetchedFirst(ticks: seq<nat>) {
    ValidTicks(ticks) && ticks[0] > 0 && forall s :: 0 <= s < |ticks| && ticks[s] != 0 ==> ticks[s] >= ticks[0]
  }

  // ---------------------------------------------------------------- the layout

  /** The ticks that one line covers. */
  function SpanOf(width: nat, cycle: nat): (span: nat)
    requires width > 0 && cycle > 0
    ensures span > 0
  {
    assert width * cycle >= 1 * cycle;
    width * cycle
  }

  function Last(ticks: seq<nat>): (m: nat)
    ensures forall s :: 0 <= s < |ticks| ==> ticks[s] <= m
  {
    if ticks == [] then 0
    else
      var m := Last(ticks[..|ticks| - 1]);
      if m < ticks[|ticks| - 1] then ticks[|ticks| - 1] else m
  }

  /** The first tick of the window that the fetch falls in. */
  function Base(fetch: nat, span: nat): (base: nat)
    requires span > 0
    ensures base <= fetch < base + span
  {
    assert fetch == fetch / span * span + fetch % span;
    fetch / span * span
  }

  predicate Compact(ticks: seq<nat>, span: nat)
    requires ValidTicks(ticks)
  {
    Last(ticks) - ticks[0] < span
  }

  function NumLines(ticks: seq<nat>, span: nat): nat
    requires ValidTicks(ticks) && span > 0
  {
    if Compact(ticks, span) then 1 else (Last(ticks) - Base(ticks[0], span)) / span + 1
  }

  /** The ticks that line i shows. In compact form the one line goes on past its right edge. */
  predicate OnLine(ticks: seq<nat>, span: nat, i: nat, tick: nat)
    requires ValidTicks(ticks) && span > 0
  {
    var start := Base(ticks[0], span) + i * span;
    var end := start + span + if NumLines(ticks, span) == 1 then ticks[0] - Base(ticks[0], span) else 0;
    tick != 0 && start <= tick < end
  }

  predicate EventLe(a: Event, b: Event) {
    a.offset < b.offset || (a.offset == b.offset && Order(a.stage) <= Order(b.stage))
  }

  function Order(stage: nat): nat { if stage < 8 then NAME_ORDER[stage] else stage }

  /** The events of line i among the first n stages. */
  function Events(ticks: seq<nat>, span: nat, i: nat, n: nat): seq<Event>
    requires ValidTicks(ticks) && span > 0 && n <= |ticks|
  {
    if n == 0 then []
    else
      var e := if OnLine(ticks, span, i, ticks[n - 1]) then [Event(ticks[n - 1] % span, n - 1)] else [];
      Events(ticks, span, i, n - 1) + e
  }

  /** A dispatch at the tick of the issue is not drawn. */
  predicate Drawn(ticks: seq<nat>, stage: nat)
    requires ValidTicks(ticks)
  {
    !(stage == DISPATCH && ticks[DISPATCH] == ticks[ISSUE])
  }

  function IsDrawn(ticks: seq<nat>): Event -> bool
    requires ValidTicks(ticks)
  {
    (e: Event) => Drawn(ticks, e.stage)
  }

  function DrawnOf(ticks: seq<nat>, events: seq<Event>): seq<Event>
    requires ValidTicks(ticks)
  {
    Filter(IsDrawn(ticks), events)
  }

  /** Python's dot * n: nothing if n is negative. */
  function Dots(n: int): (s: seq<Cell>)
    ensures |s| == (if n < 0 then 0 else n) && forall i :: 0 <= i < |s| ==> s[i] == Dot
  {
    if n < 0 then [] else seq(n, _ => Dot)
  }

  datatype Drawing = Drawing(cells: seq<Cell>, pos: nat)

  function Place(d: Drawing, column: nat, stage: nat): Drawing {
    Drawing(d.cells + Dots(column - d.pos) + [Mark(stage)], column + 1)
  }

  function Draw(cycle: nat, events: seq<Event>): Drawing
    requires cycle > 0
  {
    if events == [] then Drawing([], 0)
    else
      var e := events[|events| - 1];
      Place(Draw(cycle, events[..|events| - 1]), e.offset / cycle, e.stage)
  }

  function Line(ticks: seq<nat>, width: nat, cycle: nat, i: nat): seq<Cell>
    requires ValidTicks(ticks) && width > 0 && cycle > 0
  {
    var d := Draw(cycle, DrawnOf(ticks, Sort(EventLe, Events(ticks, SpanOf(width, cycle), i, |ticks|))));
    d.cells + Dots(width - d.pos)
  }

  function FirstLines(ticks: seq<nat>, width: nat, cycle: nat, n: nat): (lines: seq<seq<Cell>>)
    requires ValidTicks(ticks) && width > 0 && cycle > 0
    ensures |lines| == n
  {
    if n == 0 then [] else FirstLines(ticks, width, cycle, n - 1) + [Line(ticks, width, cycle, n - 1)]
  }

  // ---------------------------------------------------------------- the script

  /** The lines of one instruction; None stands for the IndexError on a line without events. */
  datatype Rendered = Lines(lines: seq<seq<Cell>>) | IndexError

  method PrintInst(ticks: seq<nat>, width: nat, cycle: nat) returns (r: Rendered)
    requires ValidTicks(ticks) && width > 0 && cycle > 0
    ensures r == IndexError <==>
            Compact(ticks, SpanOf(width, cycle)) && Events(ticks, SpanOf(width, cycle), 0, |ticks|) == []
    ensures r.Lines? ==> r.lines == FirstLines(ticks, width, cycle, NumLines(ticks, SpanOf(width, cycle)))
  {
    var span := SpanOf(width, cycle);
    var numLines := NumLines(ticks, span);
    var lines: seq<seq<Cell>> := [];
    LongIsNotOne(ticks, span);
    hide NumLines, Events, Line, SpanOf, Compact;
    for i := 0 to numLines
      invariant lines == FirstLines(ticks, width, cycle, i)
      invariant i > 0 && numLines == 1 ==> Events(ticks, span, 0, |ticks|) != []
    {
      var empty, line := OneLine(ticks, width, cycle, i);
      if numLines == 1 && empty {
        return IndexError;
      }
      lines := lines + [line];
    }
    r := Lines(lines);
  }

  method OneLine(ticks: seq<nat>, width: nat, cycle: nat, i: nat) returns (empty: bool, line: seq<Cell>)
    requires ValidTicks(ticks) && width > 0 && cycle > 0
    ensures empty <==> Events(ticks, SpanOf(width, cycle), i, |ticks|) == []
    ensures line == Line(ticks, width, cycle, i)
  {
    var events := CollectEvents(ticks, SpanOf(width, cycle), i);
    empty := events == [];
    line := DrawLine(ticks, width, cycle, Sort(EventLe, events));
    LineIs(ticks, width, cycle, i);
  }

  lemma LineIs(ticks: seq<nat>, width: nat, cycle: nat, i: nat)
    requires ValidTicks(ticks) && width > 0 && cycle > 0
    ensures var d := Draw(cycle, DrawnOf(ticks, Sort(EventLe, Events(ticks, SpanOf(width, cycle), i, |ticks|))));
            Line(ticks, width, cycle, i) == d.cells + Dots(width - d.pos)
  {
  }

  lemma LongIsNotOne(ticks: seq<nat>, span: nat)
    requires ValidTicks(ticks) && span > 0
    ensures NumLines(ticks, span) >= 1
    ensures NumLines(ticks, span) == 1 <==> Compact(ticks, span)
  {
  }

  method CollectEvents(ticks: seq<nat>, span: nat, i: nat) returns (events: seq<Event>)
    requires ValidTicks(ticks) && span > 0
    ensures events == Events(ticks, span, i, |ticks|)
  {
    events := [];
    for n := 0 to |ticks|
      invariant events == Events(ticks, span, i, n)
    {
      if OnLine(ticks, span, i, ticks[n]) {
        events := events + [Event(ticks[n] % span, n)];
      }
    }
  }

  method DrawLine(ticks: seq<nat>, width: nat, cycle: nat, events: seq<Event>) returns (line: seq<Cell>)
    requires ValidTicks(ticks) && cycle > 0
    ensures var d := Draw(cycle, DrawnOf(ticks, events)); line == d.cells + Dots(width - d.pos)
  {
    hide Filter, Draw;
    var pos: nat := 0;
    line := [];
    DrawNothing(ticks, cycle);
    ghost var drawn: seq<Event> := [];
    for n := 0 to |events|
      invariant drawn == DrawnOf(ticks, events[..n])
      invariant Draw(cycle, drawn) == Drawing(line, pos)
    {
      var e := events[n];
      assert events[..n + 1] == events[..n] + [e];
      FilterNext(IsDrawn(ticks), events[..n], e);
      if !(e.stage == DISPATCH && ticks[DISPATCH] == ticks[ISSUE]) {
        DrawNext(cycle, drawn, e);
        drawn := drawn + [e];
        line := line + Dots(e.offset / cycle - pos) + [Mark(e.stage)];
        pos := e.offset / cycle + 1;
      }
    }
    assert events[..|events|] == events;
    line := line + Dots(width - pos);
  }

  lemma DrawNothing(ticks: seq<nat>, cycle: nat)
    requires ValidTicks(ticks) && cycle > 0
    ensures DrawnOf(ticks, []) == [] && Draw(cycle, []) == Drawing([], 0)
  {
  }

  lemma DrawNext(cycle: nat, events: seq<Event>, e: Event)
    requires cycle > 0
    ensures Draw(cycle, events + [e]) == Place(Draw(cycle, events), e.offset / cycle, e.stage)
  {
  }
}
