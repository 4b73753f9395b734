/** What the lines of Timeline show: every event once, at its column, and how long a line gets. */
module TimelineProofs {
  import opened Bits
  import opened Sorting
  import opened Text
  import opened Timeline

  // ---------------------------------------------------------------- one line for each event

  lemma {:induction false} QuotientIs(d: nat, span: nat, i: nat)
    requires span > 0
    ensures i * span <= d < i * span + span <==> d / span == i
  {
    assert d == d / span * span + d % span;
    if i * span <= d < i * span + span {
      DivMod(d, span, i, d - i * span);
    }
  }

  /** The line of an event: the only one in compact form, otherwise the window it falls in. */
  function LineOf(ticks: seq<nat>, span: nat, tick: nat): nat
    requires ValidTicks(ticks) && span > 0
  {
    if Compact(ticks, span) || tick < Base(ticks[0], span) then 0 else (tick - Base(ticks[0], span)) / span
  }

  /** Every event is on exactly one of the lines that are printed. */
  lemma {:induction false} OnExactlyOneLine(ticks: seq<nat>, span: nat, s: nat)
    requires FetchedFirst(ticks) && span > 0 && s < |ticks| && ticks[s] != 0
    ensures Base(ticks[0], span) <= ticks[s] && LineOf(ticks, span, ticks[s]) < NumLines(ticks, span)
    ensures forall i :: 0 <= i < NumLines(ticks, span) ==>
      (OnLine(ticks, span, i, ticks[s]) <==> i == LineOf(ticks, span, ticks[s]))
  {
    var base := Base(ticks[0], span);
    LongIsNotOne(ticks, span);
    var d := ticks[s] - base;
    if !Compact(ticks, span) {
      DivMonotone(d, Last(ticks) - base, span);
      forall i | 0 <= i < NumLines(ticks, span)
        ensures OnLine(ticks, span, i, ticks[s]) <==> i == LineOf(ticks, span, ticks[s])
      {
        QuotientIs(d, span, i);
      }
    }
  }

  lemma {:induction false} DivMonotone(a: nat, b: nat, d: nat)
    requires a <= b && d > 0
    ensures a / d <= b / d
  {
    assert a == a / d * d + a % d && b == b / d * d + b % d;
    if b / d < a / d { MulStep(b / d, a / d, d); }
  }

  /** Columns stay within the width. */
  lemma ColumnInWidth(tick: nat, width: nat, cycle: nat)
    requires width > 0 && cycle > 0
    ensures tick % SpanOf(width, cycle) / cycle < width
  {
  }

  // ---------------------------------------------------------------- the events of a line

  lemma {:induction false} EventsAre(ticks: seq<nat>, span: nat, i: nat, n: nat, e: Event)
    requires ValidTicks(ticks) && span > 0 && n <= |ticks|
    ensures e in Events(ticks, span, i, n) <==>
      e.stage < n && OnLine(ticks, span, i, ticks[e.stage]) && e.offset == ticks[e.stage] % span
  {
    if n > 0 {
      EventsAre(ticks, span, i, n - 1, e);
    }
  }

  lemma {:induction false} LastHappens(ticks: seq<nat>)
    ensures Last(ticks) == 0 || Last(ticks) in ticks
  {
    if ticks != [] { LastHappens(ticks[..|ticks| - 1]); }
  }

  /** What makes print_inst fail: it does exactly if no stage happened at all. */
  lemma FailsIffNothingHappened(ticks: seq<nat>, span: nat)
    requires ValidTicks(ticks) && span > 0
    ensures Compact(ticks, span) && Events(ticks, span, 0, |ticks|) == [] <==>
            forall s :: 0 <= s < |ticks| ==> ticks[s] == 0
  {
    hide Events, Last, Base;
    LastHappens(ticks);
    var es := Events(ticks, span, 0, |ticks|);
    if s: nat :| s < |ticks| && ticks[s] != 0 && Compact(ticks, span) {
      var f: nat := if ticks[0] != 0 then 0 else s;
      assert OnLine(ticks, span, 0, ticks[f]);
      EventsAre(ticks, span, 0, |ticks|, Event(ticks[f] % span, f));
    }
    if es != [] {
      EventsAre(ticks, span, 0, |ticks|, es[0]);
    }
  }

  /** Some stage comes a whole line behind the fetch: the form with several lines. */
  ghost predicate Long(ticks: seq<nat>, span: nat)
    requires ValidTicks(ticks)
  {
    exists s :: 0 <= s < |ticks| && ticks[s] >= ticks[0] + span
  }

  lemma LongIffNotCompact(ticks: seq<nat>, span: nat)
    requires ValidTicks(ticks) && span > 0
    ensures Long(ticks, span) <==> !Compact(ticks, span)
  {
    LastHappens(ticks);
    if !Compact(ticks, span) {
      var s :| 0 <= s < |ticks| && ticks[s] == Last(ticks);
    }
  }

  lemma WindowOf(fetch: nat, span: nat, i: nat, tick: nat)
    requires span > 0
    ensures Base(fetch, span) == fetch - fetch % span
    ensures Base(fetch, span) + i * span <= tick < Base(fetch, span) + i * span + span <==>
            tick / span == fetch / span + i
  {
    var q := fetch / span;
    assert Base(fetch, span) == q * span;
    assert Base(fetch, span) + i * span == (q + i) * span by { Distribute(q, i, span); }
    QuotientIs(tick, span, q + i);
  }

  lemma Distribute(a: nat, b: nat, d: nat)
    ensures a * d + b * d == (a + b) * d
  {
  }

  /** The lines are the windows of the whole time axis from that of the fetch to that of the last
      stage, and each shows the stages that fall in its window. */
  lemma LinesAreWindows(ticks: seq<nat>, span: nat, s: nat, i: nat)
    requires ValidTicks(ticks) && span > 0 && Long(ticks, span) && s < |ticks|
    ensures OnLine(ticks, span, i, ticks[s]) <==> ticks[s] != 0 && ticks[s] / span == ticks[0] / span + i
    ensures forall t :: 0 <= t < |ticks| ==> ticks[t] / span < ticks[0] / span + NumLines(ticks, span)
    ensures exists t :: 0 <= t < |ticks| && ticks[t] / span + 1 == ticks[0] / span + NumLines(ticks, span)
  {
    LongIffNotCompact(ticks, span);
    LongIsNotOne(ticks, span);
    WindowOf(ticks[0], span, i, ticks[s]);
    LastHappens(ticks);
    LinesToLast(ticks, span);
    hide NumLines, Base, Last;
    var m :| 0 <= m < |ticks| && ticks[m] == Last(ticks);
    forall t | 0 <= t < |ticks| ensures ticks[t] / span <= ticks[m] / span {
      DivMonotone(ticks[t], ticks[m], span);
    }
  }

  lemma LinesToLast(ticks: seq<nat>, span: nat)
    requires ValidTicks(ticks) && span > 0 && !Compact(ticks, span)
    ensures Last(ticks) / span + 1 == ticks[0] / span + NumLines(ticks, span)
    ensures Last(ticks) > 0
  {
    var base, n := Base(ticks[0], span), NumLines(ticks, span);
    assert Last(ticks) >= ticks[0] >= base;
    QuotientIs(Last(ticks) - base, span, n - 1);
    WindowOf(ticks[0], span, n - 1, Last(ticks));
  }

  /** The short form has one line, from the window of the fetch to a whole line behind the fetch. */
  lemma ShortLine(ticks: seq<nat>, span: nat, s: nat)
    requires ValidTicks(ticks) && span > 0 && !Long(ticks, span) && s < |ticks|
    ensures NumLines(ticks, span) == 1
    ensures OnLine(ticks, span, 0, ticks[s]) <==> ticks[s] != 0 && ticks[s] >= ticks[0] - ticks[0] % span
  {
    LongIffNotCompact(ticks, span);
    WindowOf(ticks[0], span, 0, ticks[s]);
  }

  /** In the form with several lines a later stage is never drawn left of an earlier one. */
  lemma LaterIsRight(ticks: seq<nat>, width: nat, cycle: nat, s: nat, t: nat)
    requires ValidTicks(ticks) && width > 0 && cycle > 0 && s < |ticks| && t < |ticks|
    requires ticks[s] <= ticks[t] && ticks[s] / SpanOf(width, cycle) == ticks[t] / SpanOf(width, cycle)
    ensures Column(Event(ticks[s] % SpanOf(width, cycle), s), cycle)
         <= Column(Event(ticks[t] % SpanOf(width, cycle), t), cycle)
  {
    var span := SpanOf(width, cycle);
    assert ticks[s] == ticks[s] / span * span + ticks[s] % span && ticks[t] == ticks[t] / span * span + ticks[t] % span;
    DivMonotone(ticks[s] % span, ticks[t] % span, cycle);
  }

  /** Stages at one offset are drawn in the order of their names. */
  lemma TiesByName(offset: nat, s: nat, t: nat)
    requires s < |NAMES| && t < |NAMES|
    ensures EventLe(Event(offset, s), Event(offset, t)) <==> StrLe(NAMES[s], NAMES[t])
  {
    NamesOrdered(s, t);
  }

  lemma NamesOrdered(s: nat, t: nat)
    requires s < |NAMES| && t < |NAMES|
    ensures NAME_ORDER[s] <= NAME_ORDER[t] <==> StrLe(NAMES[s], NAMES[t])
  {
    StrLeTotal(NAMES[s], NAMES[t]);
    if NAME_ORDER[s] <= NAME_ORDER[t] { NamesAscend(s, t); }
    if NAME_ORDER[t] <= NAME_ORDER[s] { NamesAscend(t, s); }
  }

  lemma NamesAscend(s: nat, t: nat)
    requires s < |NAMES| && t < |NAMES| && NAME_ORDER[s] <= NAME_ORDER[t]
    ensures StrLe(NAMES[s], NAMES[t])
  {
    var sorted := ["complete", "decode", "dispatch", "fetch", "issue", "rename", "retire", "store"];
    assert NAMES[s] == sorted[NAME_ORDER[s]] && NAMES[t] == sorted[NAME_ORDER[t]];
    SortedNames(NAME_ORDER[s], NAME_ORDER[t]);
  }

  lemma SortedNames(i: nat, j: nat)
    requires i <= j < 8
    ensures var sorted := ["complete", "decode", "dispatch", "fetch", "issue", "rename", "retire", "store"];
            StrLe(sorted[i], sorted[j])
    decreases j - i
  {
    var sorted := ["complete", "decode", "dispatch", "fetch", "issue", "rename", "retire", "store"];
    if i == j {
      StrLeTotal(sorted[i], sorted[i]);
    } else {
      SortedNames(i + 1, j);
      NextName(i);
      StrLeTransitive(sorted[i], sorted[i + 1], sorted[j]);
    }
  }

  lemma NextName(i: nat)
    requires i < 7
    ensures var sorted := ["complete", "decode", "dispatch", "fetch", "issue", "rename", "retire", "store"];
            StrLe(sorted[i], sorted[i + 1])
  {
    assert "decode"[1..] == "ecode" && "dispatch"[1..] == "ispatch";
    assert "rename"[1..] == "ename" && "retire"[1..] == "etire" && "ename"[1..] == "name" && "etire"[1..] == "tire";
  }

  /** Only a dispatch at the tick of the issue is left out. */
  lemma DrawnUnless(ticks: seq<nat>, s: nat)
    requires ValidTicks(ticks) && s < |ticks|
    ensures Drawn(ticks, s) <==> NAMES[s] != "dispatch" || ticks[3] != ticks[4]
    ensures NAMES[3] == "dispatch" && NAMES[4] == "issue"
  {
  }

  lemma EventLeIsTotal()
    ensures TotalPreorder(EventLe)
  {
  }

  /** The events that are drawn on a line, from left to right. */
  ghost function Shown(ticks: seq<nat>, span: nat, i: nat): seq<Event>
    requires ValidTicks(ticks) && span > 0
  {
    DrawnOf(ticks, Sort(EventLe, Events(ticks, span, i, |ticks|)))
  }

  lemma ShownAre(ticks: seq<nat>, span: nat, i: nat, e: Event)
    requires ValidTicks(ticks) && span > 0
    ensures e in Shown(ticks, span, i) <==>
      e.stage < |ticks| && OnLine(ticks, span, i, ticks[e.stage])
      && e.offset == ticks[e.stage] % span && Drawn(ticks, e.stage)
  {
    var es := Events(ticks, span, i, |ticks|);
    EventsAre(ticks, span, i, |ticks|, e);
    SortPermutes(EventLe, es);
    assert e in Sort(EventLe, es) <==> e in multiset(Sort(EventLe, es));
    assert e in es <==> e in multiset(es);
    FilterMembers(IsDrawn(ticks), Sort(EventLe, es));
  }

  ghost predicate LeftToRight(events: seq<Event>) {
    forall i, j :: 0 <= i < j < |events| ==> events[i].offset <= events[j].offset
  }

  lemma ShownLeftToRight(ticks: seq<nat>, span: nat, i: nat)
    requires ValidTicks(ticks) && span > 0
    ensures LeftToRight(Shown(ticks, span, i))
  {
    var es := Events(ticks, span, i, |ticks|);
    EventLeIsTotal();
    FilterSort(EventLe, IsDrawn(ticks), es);
    SortOrdered(EventLe, DrawnOf(ticks, es));
  }

  // ---------------------------------------------------------------- drawing

  function Column(e: Event, cycle: nat): nat
    requires cycle > 0
  {
    e.offset / cycle
  }

  /** How many events are in the column of the one before them. */
  function Collisions(events: seq<Event>, cycle: nat): nat
    requires cycle > 0
  {
    if |events| < 2 then 0
    else
      var again := if Column(events[|events| - 1], cycle) == Column(events[|events| - 2], cycle) then 1 else 0;
      Collisions(events[..|events| - 1], cycle) + again
  }

  ghost predicate InColumns(events: seq<Event>, width: nat, cycle: nat)
    requires cycle > 0
  {
    && (forall i, j :: 0 <= i < j < |events| ==> Column(events[i], cycle) <= Column(events[j], cycle))
    && (forall i :: 0 <= i < |events| ==> Column(events[i], cycle) < width)
  }

  lemma {:induction false} DrawingLength(events: seq<Event>, width: nat, cycle: nat)
    requires cycle > 0 && InColumns(events, width, cycle)
    ensures var d := Draw(cycle, events);
            && |d.cells| == d.pos + Collisions(events, cycle) && d.pos <= width
            && (events != [] ==> d.pos == Column(events[|events| - 1], cycle) + 1)
  {
    hide Dots;
    if events != [] {
      DrawingLength(events[..|events| - 1], width, cycle);
    }
  }

  /** The events that a line shows, as their columns are laid out. */
  lemma ShownInColumns(ticks: seq<nat>, width: nat, cycle: nat, i: nat)
    requires ValidTicks(ticks) && width > 0 && cycle > 0
    ensures InColumns(Shown(ticks, SpanOf(width, cycle), i), width, cycle)
  {
    var es := Shown(ticks, SpanOf(width, cycle), i);
    ShownLeftToRight(ticks, SpanOf(width, cycle), i);
    forall m, n | 0 <= m < n < |es| ensures Column(es[m], cycle) <= Column(es[n], cycle) {
      DivMonotone(es[m].offset, es[n].offset, cycle);
    }
    forall m | 0 <= m < |es| ensures Column(es[m], cycle) < width {
      ShownAre(ticks, SpanOf(width, cycle), i, es[m]);
      ColumnInWidth(ticks[es[m].stage], width, cycle);
    }
  }

  /** A line has as many cells as the width, and one more for every event that shares the column of
      the one drawn before it. */
  lemma LineLength(ticks: seq<nat>, width: nat, cycle: nat, i: nat)
    requires ValidTicks(ticks) && width > 0 && cycle > 0
    ensures |Line(ticks, width, cycle, i)| == width + Collisions(Shown(ticks, SpanOf(width, cycle), i), cycle)
  {
    ShownInColumns(ticks, width, cycle, i);
    DrawingLength(Shown(ticks, SpanOf(width, cycle), i), width, cycle);
  }

  // ---------------------------------------------------------------- reading a line back

  function MarksOf(cells: seq<Cell>): seq<nat> {
    if cells == [] then []
    else MarksOf(cells[..|cells| - 1]) + if cells[|cells| - 1].Mark? then [cells[|cells| - 1].stage] else []
  }

  function StagesOf(events: seq<Event>): seq<nat> {
    if events == [] then [] else StagesOf(events[..|events| - 1]) + [events[|events| - 1].stage]
  }

  lemma {:induction false} MarksConcat(a: seq<Cell>, b: seq<Cell>)
    ensures MarksOf(a + b) == MarksOf(a) + MarksOf(b)
  {
    if b == [] {
      assert a + b == a;
    } else {
      assert (a + b)[..|a + b| - 1] == a + b[..|b| - 1];
      MarksConcat(a, b[..|b| - 1]);
    }
  }

  lemma {:induction false} NoMarksInDots(cells: seq<Cell>)
    requires forall i :: 0 <= i < |cells| ==> cells[i] == Dot
    ensures MarksOf(cells) == []
  {
    if cells != [] { NoMarksInDots(cells[..|cells| - 1]); }
  }

  lemma MarksPlace(d: Drawing, column: nat, stage: nat)
    ensures MarksOf(Place(d, column, stage).cells) == MarksOf(d.cells) + [stage]
  {
    var dots := Dots(column - d.pos);
    assert MarksOf([Mark(stage)]) == [stage] by { assert [Mark(stage)][..0] == []; }
    hide MarksOf;
    NoMarksInDots(dots);
    MarksConcat(d.cells, dots);
    MarksConcat(d.cells + dots, [Mark(stage)]);
  }

  lemma {:induction false} MarksAreStages(cycle: nat, events: seq<Event>)
    requires cycle > 0
    ensures MarksOf(Draw(cycle, events).cells) == StagesOf(events)
  {
    if events != [] {
      hide MarksOf, Place;
      var e := events[|events| - 1];
      MarksAreStages(cycle, events[..|events| - 1]);
      MarksPlace(Draw(cycle, events[..|events| - 1]), e.offset / cycle, e.stage);
    }
  }

  /** The marks of a line are its events from left to right: none is lost or drawn twice, even where
      several share a column. */
  lemma LineMarks(ticks: seq<nat>, width: nat, cycle: nat, i: nat)
    requires ValidTicks(ticks) && width > 0 && cycle > 0
    ensures MarksOf(Line(ticks, width, cycle, i)) == StagesOf(Shown(ticks, SpanOf(width, cycle), i))
  {
    var es := Shown(ticks, SpanOf(width, cycle), i);
    var d := Draw(cycle, es);
    MarksAreStages(cycle, es);
    NoMarksInDots(Dots(width - d.pos));
    MarksConcat(d.cells, Dots(width - d.pos));
  }

  /** Where event n is drawn: its column, moved by the events so far that share one. */
  function PlaceOf(events: seq<Event>, cycle: nat, n: nat): nat
    requires cycle > 0 && n < |events|
  {
    Column(events[n], cycle) + Collisions(events[..n + 1], cycle)
  }

  lemma PlaceBefore(events: seq<Event>, cycle: nat, n: nat)
    requires cycle > 0 && n < |events| - 1
    ensures PlaceOf(events[..|events| - 1], cycle, n) == PlaceOf(events, cycle, n)
  {
    assert events[..|events| - 1][..n + 1] == events[..n + 1];
  }

  /** The cells of a drawing that gets one event more: dots up to its place, and its mark. */
  lemma DrawnLast(events: seq<Event>, width: nat, cycle: nat)
    requires cycle > 0 && InColumns(events, width, cycle) && events != []
    ensures var n := |events| - 1;
            var front, cells := Draw(cycle, events[..n]).cells, Draw(cycle, events).cells;
            && front <= cells && |cells| == PlaceOf(events, cycle, n) + 1
            && cells[PlaceOf(events, cycle, n)] == Mark(events[n].stage)
            && forall c :: |front| <= c < PlaceOf(events, cycle, n) ==> cells[c] == Dot
  {
    hide Collisions;
    DrawingLength(events, width, cycle);
    assert events[..|events|] == events;
  }

  /** The cell at the place of each event is its mark, also where several share a column. */
  lemma {:induction false} DrawingMark(events: seq<Event>, width: nat, cycle: nat, n: nat)
    requires cycle > 0 && InColumns(events, width, cycle) && n < |events|
    ensures var cells := Draw(cycle, events).cells;
            PlaceOf(events, cycle, n) < |cells| && cells[PlaceOf(events, cycle, n)] == Mark(events[n].stage)
  {
    hide Draw, PlaceOf;
    DrawnLast(events, width, cycle);
    if n < |events| - 1 {
      DrawingMark(events[..|events| - 1], width, cycle, n);
      PlaceBefore(events, cycle, n);
    }
  }

  /** And all other cells are dots. */
  lemma {:induction false} DrawingDot(events: seq<Event>, width: nat, cycle: nat, c: nat)
    requires cycle > 0 && InColumns(events, width, cycle)
    requires c < |Draw(cycle, events).cells|
    requires forall n: nat :: n < |events| ==> PlaceOf(events, cycle, n) != c
    ensures Draw(cycle, events).cells[c] == Dot
  {
    hide PlaceOf;
    var front := events[..|events| - 1];
    DrawnLast(events, width, cycle);
    assert c != PlaceOf(events, cycle, |events| - 1);
    if c < |Draw(cycle, front).cells| {
      forall n: nat | n < |front| ensures PlaceOf(front, cycle, n) != c {
        PlaceBefore(events, cycle, n);
      }
      DrawingDot(front, width, cycle, c);
    }
  }

  /** Events in order have their places in order: no two are drawn in one cell. */
  lemma PlacesAscend(events: seq<Event>, width: nat, cycle: nat, m: nat, n: nat)
    requires cycle > 0 && InColumns(events, width, cycle) && m < n < |events|
    ensures PlaceOf(events, cycle, m) < PlaceOf(events, cycle, n)
    decreases n
  {
    assert events[..n + 1][..n] == events[..n];
    if m < n - 1 { PlacesAscend(events, width, cycle, m, n - 1); }
  }

  /** A line is its drawing, and dots up to the width. */
  lemma LineCells(ticks: seq<nat>, width: nat, cycle: nat, i: nat, c: nat)
    requires ValidTicks(ticks) && width > 0 && cycle > 0 && c < |Line(ticks, width, cycle, i)|
    ensures var es := Shown(ticks, SpanOf(width, cycle), i);
            (forall n: nat :: n < |es| ==> PlaceOf(es, cycle, n) != c) ==> Line(ticks, width, cycle, i)[c] == Dot
  {
    hide Draw, DrawnOf, Sort, Events, PlaceOf, InColumns;
    var es := Shown(ticks, SpanOf(width, cycle), i);
    ShownInColumns(ticks, width, cycle, i);
    ShownLine(ticks, width, cycle, i);
    if c < |Draw(cycle, es).cells| && forall n: nat :: n < |es| ==> PlaceOf(es, cycle, n) != c {
      DrawingDot(es, width, cycle, c);
    }
  }

  /** The line of a stage, by whole lines since tick 0. */
  lemma LineOfIs(ticks: seq<nat>, span: nat, tick: nat)
    requires ValidTicks(ticks) && span > 0 && tick >= ticks[0]
    ensures LineOf(ticks, span, tick) == if Long(ticks, span) then tick / span - ticks[0] / span else 0
  {
    LongIffNotCompact(ticks, span);
    DivMonotone(ticks[0], tick, span);
    WindowOf(ticks[0], span, tick / span - ticks[0] / span, tick);
    if !Compact(ticks, span) {
      QuotientIs(tick - Base(ticks[0], span), span, tick / span - ticks[0] / span);
    }
  }

  /** The main result. On the one line that covers its tick, every stage that happened is drawn in
      the column of its tick, moved to the right by one for each event up to it that shares the
      column of the one before; only a dispatch at the tick of the issue is not drawn. */
  lemma {:induction false} EveryStageIsDrawn(ticks: seq<nat>, width: nat, cycle: nat, s: nat)
    requires FetchedFirst(ticks) && width > 0 && cycle > 0
    requires s < |ticks| && ticks[s] != 0 && Drawn(ticks, s)
    ensures var e := Event(ticks[s] % SpanOf(width, cycle), s);
            var i := LineOf(ticks, SpanOf(width, cycle), ticks[s]);
            var es, line := Shown(ticks, SpanOf(width, cycle), i), Line(ticks, width, cycle, i);
            && i == (if Long(ticks, SpanOf(width, cycle))
                     then ticks[s] / SpanOf(width, cycle) - ticks[0] / SpanOf(width, cycle) else 0)
            && i < NumLines(ticks, SpanOf(width, cycle)) && Column(e, cycle) < width
            && |line| == width + Collisions(es, cycle)
            && exists n: nat :: n < |es| && es[n] == e
                 && PlaceOf(es, cycle, n) < |line| && line[PlaceOf(es, cycle, n)] == Mark(s)
  {
    hide Draw, DrawnOf, Sort, Events, SpanOf, NumLines, OnLine, Collisions, Compact, Last, Base, PlaceOf;
    var span := SpanOf(width, cycle);
    OnExactlyOneLine(ticks, span, s);
    LineOfIs(ticks, span, ticks[s]);
    var i := LineOf(ticks, span, ticks[s]);
    var e := Event(ticks[s] % span, s);
    ShownAre(ticks, span, i, e);
    ColumnInWidth(ticks[s], width, cycle);
    LineLength(ticks, width, cycle, i);
    ShownInColumns(ticks, width, cycle, i);
    var es := Shown(ticks, span, i);
    var n: nat :| n < |es| && es[n] == e;
    DrawingMark(es, width, cycle, n);
    ShownLine(ticks, width, cycle, i);
  }

  lemma ShownLine(ticks: seq<nat>, width: nat, cycle: nat, i: nat)
    requires ValidTicks(ticks) && width > 0 && cycle > 0
    ensures var d := Draw(cycle, Shown(ticks, SpanOf(width, cycle), i));
            Line(ticks, width, cycle, i) == d.cells + Dots(width - d.pos)
  {
  }
}
