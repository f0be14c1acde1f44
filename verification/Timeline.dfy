/** The timeline of one instruction: its stage ticks are wrapped into lines of `width` cells of one cycle each. */
module Timeline {
  import opened Arithmetic
  import opened Basics
  import opened StableSort
  import opened ReorderQueue

  datatype Stage = Fetch | Decode | Rename | Dispatch | Issue | Complete | Retire | Store

  function Tick(x: Inst, s: Stage): nat {
    match s
    case Fetch => x.fetch
    case Decode => x.decode
    case Rename => x.rename
    case Dispatch => x.dispatch
    case Issue => x.issue
    case Complete => x.complete
    case Retire => x.retire
    case Store => x.store
  }

  function Letter(s: Stage): char {
    match s
    case Fetch => 'f'
    case Decode => 'd'
    case Rename => 'n'
    case Dispatch => 'p'
    case Issue => 'i'
    case Complete => 'c'
    case Retire => 'r'
    case Store => 's'
  }

  /** Position of the stage's name in alphabetical order: events of one tick are sorted by name. */
  function NameRank(s: Stage): nat {
    match s
    case Complete => 0
    case Decode => 1
    case Dispatch => 2
    case Fetch => 3
    case Issue => 4
    case Rename => 5
    case Retire => 6
    case Store => 7
  }

  function Stages(store: bool): seq<Stage> {
    [Fetch, Decode, Rename, Dispatch, Issue, Complete, Retire] + if store then [Store] else []
  }

  // ----- which line -----

  function Max(a: nat, b: nat): nat {
    if a >= b then a else b
  }

  /** The last tick of the given stages. */
  function Latest(x: Inst, stages: seq<Stage>): nat {
    if stages == [] then 0 else Max(Latest(x, stages[..|stages| - 1]), Tick(x, stages[|stages| - 1]))
  }

  function LastEvent(x: Inst, store: bool): nat {
    Latest(x, Stages(store))
  }

  function BaseTick(x: Inst, tw: nat): nat
    requires tw > 0
  {
    x.fetch / tw * tw
  }

  lemma BaseBelow(x: Inst, tw: nat)
    requires tw > 0
    ensures BaseTick(x, tw) <= x.fetch < BaseTick(x, tw) + tw
  {
    DivBounds(x.fetch, tw);
  }

  lemma {:induction false} LatestBounds(x: Inst, stages: seq<Stage>, s: Stage)
    requires s in stages
    ensures Tick(x, s) <= Latest(x, stages)
  {
    if s != stages[|stages| - 1] {
      LatestBounds(x, stages[..|stages| - 1], s);
    }
  }

  lemma {:induction false} LatestReached(x: Inst, stages: seq<Stage>)
    ensures Latest(x, stages) == 0 || exists s :: s in stages && Tick(x, s) == Latest(x, stages)
  {
    if stages != [] {
      var s := stages[|stages| - 1];
      LatestReached(x, stages[..|stages| - 1]);
      assert s in stages;
      if Latest(x, stages) != Tick(x, s) && Latest(x, stages) != 0 {
        var t :| t in stages[..|stages| - 1] && Tick(x, t) == Latest(x, stages);
        assert t in stages;
      }
    }
  }

  lemma LastAtLeastFetch(x: Inst, store: bool, tw: nat)
    requires tw > 0
    ensures BaseTick(x, tw) <= x.fetch <= LastEvent(x, store)
  {
    assert Stages(store)[0] == Fetch;
    LatestBounds(x, Stages(store), Fetch);
    BaseBelow(x, tw);
  }

  function NumLines(x: Inst, store: bool, tw: nat): nat
    requires tw > 0
  {
    LastAtLeastFetch(x, store, tw);
    if LastEvent(x, store) - x.fetch < tw then 1
    else (LastEvent(x, store) - BaseTick(x, tw)) / tw + 1
  }

  /** The compact form is used exactly when there is one line. */
  lemma CompactIffOneLine(x: Inst, store: bool, tw: nat)
    requires tw > 0
    ensures NumLines(x, store, tw) == 1 <==> LastEvent(x, store) - x.fetch < tw
  {
    LastAtLeastFetch(x, store, tw);
    DivBounds(LastEvent(x, store) - BaseTick(x, tw), tw);
    if LastEvent(x, store) - x.fetch >= tw {
      assert (LastEvent(x, store) - BaseTick(x, tw)) / tw != 0;
    }
  }

  function LineStart(x: Inst, tw: nat, i: nat): nat
    requires tw > 0
  {
    BaseTick(x, tw) + i * tw
  }

  /** In compact form the line goes on until one line width after the fetch. */
  function LineEnd(x: Inst, store: bool, tw: nat, i: nat): nat
    requires tw > 0
  {
    BaseBelow(x, tw);
    LineStart(x, tw, i) + tw + if NumLines(x, store, tw) == 1 then x.fetch - BaseTick(x, tw) else 0
  }

  predicate OnLine(x: Inst, store: bool, tw: nat, i: nat, tick: nat)
    requires tw > 0
  {
    LineStart(x, tw, i) <= tick < LineEnd(x, store, tw, i)
  }

  function LineOf(x: Inst, store: bool, tw: nat, tick: nat): nat
    requires tw > 0 && BaseTick(x, tw) <= tick
  {
    if NumLines(x, store, tw) == 1 then 0 else (tick - BaseTick(x, tw)) / tw
  }

  /** A stage's tick is on exactly one line, if it is not before the first line; a tick before it is on none. */
  lemma OneLinePerTick(x: Inst, store: bool, tw: nat, s: Stage)
    requires tw > 0 && s in Stages(store)
    ensures BaseTick(x, tw) <= Tick(x, s) ==>
              && LineOf(x, store, tw, Tick(x, s)) < NumLines(x, store, tw)
              && forall i: nat :: i < NumLines(x, store, tw) ==>
                                    (OnLine(x, store, tw, i, Tick(x, s)) <==> i == LineOf(x, store, tw, Tick(x, s)))
    ensures Tick(x, s) < BaseTick(x, tw) ==> forall i: nat :: !OnLine(x, store, tw, i, Tick(x, s))
  {
    LatestBounds(x, Stages(store), s);
    LastAtLeastFetch(x, store, tw);
    if NumLines(x, store, tw) == 1 {
      CompactLine(x, store, tw, Tick(x, s));
    } else {
      WrappedLine(x, store, tw, Tick(x, s));
    }
  }

  lemma CompactLine(x: Inst, store: bool, tw: nat, t: nat)
    requires tw > 0 && NumLines(x, store, tw) == 1 && t <= LastEvent(x, store)
    ensures forall i: nat :: i < 1 ==> (OnLine(x, store, tw, i, t) <==> BaseTick(x, tw) <= t)
    ensures t < BaseTick(x, tw) ==> forall i: nat :: !OnLine(x, store, tw, i, t)
  {
    CompactIffOneLine(x, store, tw);
    BaseBelow(x, tw);
    assert LineStart(x, tw, 0) == BaseTick(x, tw);
  }

  lemma WrappedLine(x: Inst, store: bool, tw: nat, t: nat)
    requires tw > 0 && NumLines(x, store, tw) != 1 && t <= LastEvent(x, store)
    ensures BaseTick(x, tw) <= t ==>
              && (t - BaseTick(x, tw)) / tw < NumLines(x, store, tw)
              && forall i: nat :: OnLine(x, store, tw, i, t) <==> i == (t - BaseTick(x, tw)) / tw
    ensures t < BaseTick(x, tw) ==> forall i: nat :: !OnLine(x, store, tw, i, t)
  {
    var base := BaseTick(x, tw);
    LastAtLeastFetch(x, store, tw);
    if base <= t {
      QuotientMonotone(t - base, LastEvent(x, store) - base, tw);
      forall i: nat
        ensures OnLine(x, store, tw, i, t) <==> i == (t - base) / tw
      {
        DivBounds(t - base, tw);
        if OnLine(x, store, tw, i, t) {
          DivUnique(t - base, tw, i);
        }
      }
    }
  }

  lemma QuotientMonotone(a: nat, b: nat, m: nat)
    requires m > 0 && a <= b
    ensures a / m <= b / m
  {
    FloorOfSum(a, b - a, m);
  }

  // ----- one line -----

  /** A letter and the cell it belongs to. */
  datatype Mark = Mark(col: nat, letter: char)

  /** `dot * n`, empty when `n` is not positive. */
  function Dots(dot: char, n: int): string {
    if n <= 0 then [] else seq(n, _ => dot)
  }

  function Render(marks: seq<Mark>, pos: nat, width: nat, dot: char): string {
    if marks == [] then Dots(dot, width - pos)
    else Dots(dot, marks[0].col - pos) + [marks[0].letter] + Render(marks[1..], marks[0].col + 1, width, dot)
  }

  /** Cells that do not go back by more than the one just written. */
  ghost predicate Ascending(marks: seq<Mark>, pos: nat, width: nat) {
    && pos <= width
    && (forall i :: 0 <= i < |marks| ==> pos <= marks[i].col + 1 <= width)
    && (forall i, j :: 0 <= i < j < |marks| ==> marks[i].col <= marks[j].col)
  }

  /** How many of the marks fall on the cell of the mark before. */
  function Coincident(marks: seq<Mark>, pos: nat): nat {
    if marks == [] then 0
    else (if marks[0].col < pos then 1 else 0) + Coincident(marks[1..], marks[0].col + 1)
  }

  /** A line has one cell a column, and one more for every coincident event. */
  lemma {:induction false} RenderLength(marks: seq<Mark>, pos: nat, width: nat, dot: char)
    requires Ascending(marks, pos, width)
    ensures |Render(marks, pos, width, dot)| == width - pos + Coincident(marks, pos)
    decreases |marks|
  {
    if marks != [] {
      RenderLength(marks[1..], marks[0].col + 1, width, dot);
    }
  }

  /** Where mark `k` ends up: its own column, shifted by the coincidences up to it. */
  function Place(marks: seq<Mark>, pos: nat, k: nat): int
    requires k < |marks|
  {
    marks[k].col - pos + Coincident(marks[..k + 1], pos)
  }

  /** What is written for the first mark. */
  function Head(m: Mark, pos: nat, dot: char): string {
    Dots(dot, m.col - pos) + [m.letter]
  }

  lemma PlaceFirst(marks: seq<Mark>, pos: nat, dot: char)
    requires marks != [] && pos <= marks[0].col + 1
    ensures Place(marks, pos, 0) == |Head(marks[0], pos, dot)| - 1
  {
    assert marks[..1][0] == marks[0] && marks[..1][1..] == [];
    assert Coincident(marks[..1], pos) == if marks[0].col < pos then 1 else 0;
  }

  lemma PlaceNext(marks: seq<Mark>, pos: nat, dot: char, k: nat)
    requires 0 < k < |marks| && pos <= marks[0].col + 1
    ensures Place(marks, pos, k) == |Head(marks[0], pos, dot)| + Place(marks[1..], marks[0].col + 1, k - 1)
  {
    assert marks[..k + 1][1..] == marks[1..][..k];
  }

  lemma {:induction false} RenderMark(marks: seq<Mark>, pos: nat, width: nat, dot: char, k: nat)
    requires Ascending(marks, pos, width) && k < |marks|
    ensures 0 <= Place(marks, pos, k) < |Render(marks, pos, width, dot)|
    ensures Render(marks, pos, width, dot)[Place(marks, pos, k)] == marks[k].letter
    decreases |marks|
  {
    assert Render(marks, pos, width, dot) == Head(marks[0], pos, dot) + Render(marks[1..], marks[0].col + 1, width, dot);
    if k == 0 {
      PlaceFirst(marks, pos, dot);
    } else {
      PlaceNext(marks, pos, dot, k);
      RenderMark(marks[1..], marks[0].col + 1, width, dot, k - 1);
    }
  }

  ghost predicate NoPlace(marks: seq<Mark>, pos: nat, c: int) {
    forall k: nat :: k < |marks| ==> c != Place(marks, pos, k)
  }

  lemma NoPlaceNext(marks: seq<Mark>, pos: nat, dot: char, c: int)
    requires marks != [] && pos <= marks[0].col + 1 && NoPlace(marks, pos, c)
    ensures c != |Head(marks[0], pos, dot)| - 1
    ensures NoPlace(marks[1..], marks[0].col + 1, c - |Head(marks[0], pos, dot)|)
  {
    PlaceFirst(marks, pos, dot);
    assert c != Place(marks, pos, 0);
    var tail, next := marks[1..], marks[0].col + 1;
    forall k: nat | k < |tail|
      ensures c - |Head(marks[0], pos, dot)| != Place(tail, next, k)
    {
      PlaceNext(marks, pos, dot, k + 1);
      assert c != Place(marks, pos, k + 1);
    }
  }

  /** Every cell that is no mark's is a dot. */
  lemma {:induction false} RenderDot(marks: seq<Mark>, pos: nat, width: nat, dot: char, c: nat)
    requires Ascending(marks, pos, width) && c < |Render(marks, pos, width, dot)| && NoPlace(marks, pos, c)
    ensures Render(marks, pos, width, dot)[c] == dot
    decreases |marks|
  {
    if marks != [] {
      var head, tail := Head(marks[0], pos, dot), Render(marks[1..], marks[0].col + 1, width, dot);
      assert Render(marks, pos, width, dot) == head + tail;
      NoPlaceNext(marks, pos, dot, c);
      if c >= |head| {
        RenderDot(marks[1..], marks[0].col + 1, width, dot, c - |head|);
        assert (head + tail)[c] == tail[c - |head|];
      } else {
        assert (head + tail)[c] == head[c];
      }
    }
  }

  lemma {:induction false} NoneCoincident(marks: seq<Mark>, pos: nat, k: nat)
    requires k <= |marks| && (marks != [] ==> pos <= marks[0].col)
    requires forall i, j :: 0 <= i < j < |marks| ==> marks[i].col < marks[j].col
    ensures Coincident(marks[..k], pos) == 0
    decreases |marks|
  {
    if k > 0 {
      NoneCoincident(marks[1..], marks[0].col + 1, k - 1);
      assert marks[..k][1..] == marks[1..][..k - 1];
    }
  }

  /** With distinct columns a line has exactly `width` cells, and each mark is in its own. */
  lemma DistinctColumns(marks: seq<Mark>, width: nat, dot: char)
    requires Ascending(marks, 0, width) && Strict(marks)
    ensures var line := Render(marks, 0, width, dot);
            |line| == width && forall k :: 0 <= k < |marks| ==> line[marks[k].col] == marks[k].letter
  {
    RenderLength(marks, 0, width, dot);
    NoneCoincident(marks, 0, |marks|);
    assert marks[..|marks|] == marks;
    forall k | 0 <= k < |marks|
      ensures Render(marks, 0, width, dot)[marks[k].col] == marks[k].letter
    {
      NoneCoincident(marks, 0, k + 1);
      RenderMark(marks, 0, width, dot, k);
    }
  }

  // ----- the events of a line -----

  datatype Event = Event(wrapped: nat, stage: Stage, tick: nat)

  /** Sort key of an event: wrapped tick, then name. */
  function ByWrapped(): Event -> int {
    (e: Event) => e.wrapped * 8 + NameRank(e.stage)
  }

  function EventOf(x: Inst, tw: nat, s: Stage): Event
    requires tw > 0
  {
    Event(Tick(x, s) % tw, s, Tick(x, s))
  }

  /** The events of line `i`, in stage order. */
  function Events(x: Inst, store: bool, tw: nat, i: nat, stages: seq<Stage>): seq<Event>
    requires tw > 0
  {
    if stages == [] then []
    else
      var front := Events(x, store, tw, i, stages[..|stages| - 1]);
      var s := stages[|stages| - 1];
      if Tick(x, s) != 0 && OnLine(x, store, tw, i, Tick(x, s)) then front + [EventOf(x, tw, s)] else front
  }

  /** A dispatch in the tick of the issue is not shown. */
  predicate Hidden(x: Inst, s: Stage) {
    s == Dispatch && x.dispatch == x.issue
  }

  function MarkOf(e: Event, cycle: nat): Mark
    requires cycle > 0
  {
    Mark(e.wrapped / cycle, Letter(e.stage))
  }

  function Marks(x: Inst, cycle: nat, events: seq<Event>): seq<Mark>
    requires cycle > 0
  {
    if events == [] then []
    else
      var e := events[0];
      var rest := Marks(x, cycle, events[1..]);
      if Hidden(x, e.stage) then rest else [MarkOf(e, cycle)] + rest
  }

  function Dot(x: Inst): char {
    if x.retire == 0 then '=' else '.'
  }

  function LineMarks(x: Inst, store: bool, cycle: nat, tw: nat, i: nat): seq<Mark>
    requires cycle > 0 && tw > 0
  {
    Marks(x, cycle, Sort(ByWrapped(), Events(x, store, tw, i, Stages(store))))
  }

  /** Line `i`; `tw` is the time of a line, `width` cells of `cycle` ticks. */
  function Line(x: Inst, store: bool, cycle: nat, width: nat, tw: nat, i: nat): string
    requires cycle > 0 && tw > 0
  {
    Render(LineMarks(x, store, cycle, tw, i), 0, width, Dot(x))
  }

  // ----- the printer -----

  method CollectEvents(x: Inst, store: bool, tw: nat, startTick: nat, endTick: nat, ghost i: nat) returns (events: seq<Event>)
    requires tw > 0 && startTick == LineStart(x, tw, i) && endTick == LineEnd(x, store, tw, i)
    ensures events == Events(x, store, tw, i, Stages(store))
  {
    events := [];
    var stages := Stages(store);
    assert stages[..0] == [];
    for k := 0 to |stages|
      invariant events == Events(x, store, tw, i, stages[..k])
    {
      assert stages[..k + 1][..k] == stages[..k];
      var tick := Tick(x, stages[k]);
      if tick != 0 {
        if tick >= startTick && tick < endTick {
          events := events + [Event(tick % tw, stages[k], tick)];
        }
      }
    }
    assert stages[..|stages|] == stages;
  }

  /** The cells and letters of the events that are not skipped. */
  method CollectMarks(x: Inst, cycle: nat, events: seq<Event>) returns (marks: seq<Mark>)
    requires cycle > 0
    ensures marks == Marks(x, cycle, events)
  {
    marks := [];
    assert events[0..] == events && [] + Marks(x, cycle, events) == Marks(x, cycle, events);
    for k := 0 to |events|
      invariant marks + Marks(x, cycle, events[k..]) == Marks(x, cycle, events)
    {
      MarksNext(x, cycle, events, k, marks);
      if Hidden(x, events[k].stage) {
        continue;
      }
      marks := marks + [MarkOf(events[k], cycle)];
    }
  }

  lemma MarksNext(x: Inst, cycle: nat, events: seq<Event>, k: nat, marks: seq<Mark>)
    requires cycle > 0 && k < |events|
    ensures marks + Marks(x, cycle, events[k..])
         == (if Hidden(x, events[k].stage) then marks else marks + [MarkOf(events[k], cycle)]) + Marks(x, cycle, events[k + 1..])
  {
    assert events[k..][0] == events[k] && events[k..][1..] == events[k + 1..];
  }

  lemma RenderNext(marks: seq<Mark>, k: nat, pos: nat, width: nat, dot: char, line: string)
    requires k < |marks|
    ensures line + Render(marks[k..], pos, width, dot)
         == (line + Head(marks[k], pos, dot)) + Render(marks[k + 1..], marks[k].col + 1, width, dot)
  {
    assert marks[k..][0] == marks[k] && marks[k..][1..] == marks[k + 1..];
  }

  /** The letters of a line with the dots between them. */
  method WriteMarks(marks: seq<Mark>, width: nat, dot: char) returns (line: string)
    ensures line == Render(marks, 0, width, dot)
  {
    line := "";
    var pos: nat := 0;
    ghost var whole := Render(marks, 0, width, dot);
    assert marks[0..] == marks && "" + whole == whole;
    for k := 0 to |marks|
      invariant line + Render(marks[k..], pos, width, dot) == whole
    {
      RenderNext(marks, k, pos, width, dot, line);
      line := line + Head(marks[k], pos, dot);
      pos := marks[k].col + 1;
    }
    line := line + Dots(dot, width - pos);
  }

  method PrintLine(x: Inst, cycle: nat, width: nat, store: bool, tw: nat, baseTick: nat, numLines: nat, i: nat)
    returns (line: Option<string>)
    requires cycle > 0 && tw > 0 && baseTick == BaseTick(x, tw) && numLines == NumLines(x, store, tw)
    ensures line.None? <==> numLines == 1 && Events(x, store, tw, i, Stages(store)) == []
    ensures line.Some? ==> line.value == Line(x, store, cycle, width, tw, i)
  {
    BaseBelow(x, tw);
    var startTick := baseTick + i * tw;
    var endTick := startTick + tw;
    if numLines == 1 {
      endTick := endTick + (x.fetch - baseTick);
    }
    var events := CollectEvents(x, store, tw, startTick, endTick, i);
    if numLines == 1 && events == [] {
      return None;
    }
    events := Sort(ByWrapped(), events);
    var marks := CollectMarks(x, cycle, events);
    var text := WriteMarks(marks, width, Dot(x));
    return Some(text);
  }

  lemma {:induction false} EventsContain(x: Inst, store: bool, tw: nat, i: nat, stages: seq<Stage>, s: Stage)
    requires tw > 0 && s in stages && Tick(x, s) != 0 && OnLine(x, store, tw, i, Tick(x, s))
    ensures EventOf(x, tw, s) in Events(x, store, tw, i, stages)
  {
    if s != stages[|stages| - 1] {
      EventsContain(x, store, tw, i, stages[..|stages| - 1], s);
    }
  }

  lemma {:induction false} EventsSound(x: Inst, store: bool, tw: nat, i: nat, stages: seq<Stage>, e: Event)
    requires tw > 0 && e in Events(x, store, tw, i, stages)
    ensures e.stage in stages && e == EventOf(x, tw, e.stage) && Tick(x, e.stage) != 0
            && OnLine(x, store, tw, i, Tick(x, e.stage))
  {
    if e in Events(x, store, tw, i, stages[..|stages| - 1]) {
      EventsSound(x, store, tw, i, stages[..|stages| - 1], e);
    }
  }

  /** An instruction without any tick is the only one whose single line is empty; it has a single line. */
  lemma NoEventsMeansZero(x: Inst, store: bool, tw: nat)
    requires tw > 0
    ensures (forall s :: s in Stages(store) ==> Tick(x, s) == 0)
       <==> NumLines(x, store, tw) == 1 && Events(x, store, tw, 0, Stages(store)) == []
  {
    var stages := Stages(store);
    var last := LastEvent(x, store);
    LastAtLeastFetch(x, store, tw);
    CompactIffOneLine(x, store, tw);
    LatestReached(x, stages);
    if last == 0 {
      forall s | s in stages
        ensures Tick(x, s) == 0
      {
        LatestBounds(x, stages, s);
      }
      if Events(x, store, tw, 0, stages) != [] {
        EventsSound(x, store, tw, 0, stages, Events(x, store, tw, 0, stages)[0]);
      }
    } else {
      var s :| s in stages && Tick(x, s) == last;
      if NumLines(x, store, tw) == 1 {
        OneLinePerTick(x, store, tw, s);
        EventsContain(x, store, tw, 0, stages, s);
      }
    }
  }

  // ----- each event in its cell -----

  lemma {:induction false} MarksContain(x: Inst, cycle: nat, events: seq<Event>, e: Event)
    requires cycle > 0 && e in events && !Hidden(x, e.stage)
    ensures MarkOf(e, cycle) in Marks(x, cycle, events)
  {
    if e != events[0] {
      MarksContain(x, cycle, events[1..], e);
    }
  }

  lemma {:induction false} MarksSound(x: Inst, cycle: nat, events: seq<Event>, m: Mark)
    requires cycle > 0 && m in Marks(x, cycle, events)
    ensures exists e :: e in events && !Hidden(x, e.stage) && m == MarkOf(e, cycle)
  {
    if m !in Marks(x, cycle, events[1..]) {
      assert events[0] in events && m == MarkOf(events[0], cycle);
    } else {
      MarksSound(x, cycle, events[1..], m);
      var e :| e in events[1..] && !Hidden(x, e.stage) && m == MarkOf(e, cycle);
      assert e in events;
    }
  }

  ghost predicate WrappedInOrder(events: seq<Event>) {
    forall i, j :: 0 <= i < j < |events| ==> events[i].wrapped <= events[j].wrapped
  }

  lemma SortedWrapped(events: seq<Event>)
    ensures WrappedInOrder(Sort(ByWrapped(), events)) && multiset(Sort(ByWrapped(), events)) == multiset(events)
  {
    SortSorted(ByWrapped(), events);
    var r := Sort(ByWrapped(), events);
    forall i, j | 0 <= i < j < |r|
      ensures r[i].wrapped <= r[j].wrapped
    {
      assert ByWrapped()(r[i]) <= ByWrapped()(r[j]);
      assert NameRank(r[i].stage) < 8 && NameRank(r[j].stage) < 8;
    }
  }

  lemma ColumnBelowWidth(wrapped: nat, cycle: nat, width: nat)
    requires cycle > 0 && wrapped < width * cycle
    ensures wrapped / cycle < width
  {
    DivBounds(wrapped, cycle);
    if wrapped / cycle >= width {
      MulMonotone(width, wrapped / cycle, cycle);
    }
  }

  /** Sorted events give marks in ascending columns, all inside the line. */
  lemma {:induction false} MarksAscending(x: Inst, cycle: nat, width: nat, events: seq<Event>, pos: nat)
    requires cycle > 0 && pos <= width && WrappedInOrder(events)
    requires forall e :: e in events ==> e.wrapped < width * cycle && pos <= e.wrapped / cycle + 1
    ensures Ascending(Marks(x, cycle, events), pos, width)
  {
    if events != [] {
      var e, rest := events[0], events[1..];
      assert e in events;
      ColumnBelowWidth(e.wrapped, cycle, width);
      forall f | f in rest
        ensures e.wrapped / cycle + 1 <= f.wrapped / cycle + 1
      {
        QuotientMonotone(e.wrapped, f.wrapped, cycle);
      }
      MarksAscending(x, cycle, width, rest, e.wrapped / cycle + 1);
      MarksAscending(x, cycle, width, rest, pos);
    }
  }

  lemma LineMarksAscending(x: Inst, store: bool, cycle: nat, width: nat, tw: nat, i: nat)
    requires cycle > 0 && tw == width * cycle && tw > 0
    ensures Ascending(LineMarks(x, store, cycle, tw, i), 0, width)
  {
    var events := Events(x, store, tw, i, Stages(store));
    SortedWrapped(events);
    SameElements(Sort(ByWrapped(), events), events);
    forall e | e in events
      ensures e.wrapped < tw
    {
      EventsSound(x, store, tw, i, Stages(store), e);
    }
    WrappedAscending(x, cycle, width, tw, Sort(ByWrapped(), events));
  }

  lemma WrappedAscending(x: Inst, cycle: nat, width: nat, tw: nat, events: seq<Event>)
    requires cycle > 0 && tw == width * cycle && WrappedInOrder(events) && forall e :: e in events ==> e.wrapped < tw
    ensures Ascending(Marks(x, cycle, events), 0, width)
  {
    MarksAscending(x, cycle, width, events, 0);
  }

  /** Every line is `width` cells long, plus one for each event that falls on the cell of the one before. */
  lemma LineLength(x: Inst, store: bool, cycle: nat, width: nat, tw: nat, i: nat)
    requires cycle > 0 && tw == width * cycle && tw > 0
    ensures |Line(x, store, cycle, width, tw, i)| == width + Coincident(LineMarks(x, store, cycle, tw, i), 0)
  {
    LineMarksAscending(x, store, cycle, width, tw, i);
    RenderLength(LineMarks(x, store, cycle, tw, i), 0, width, Dot(x));
  }

  /** The stage is shown on line `i`. */
  predicate Appears(x: Inst, store: bool, tw: nat, i: nat, s: Stage)
    requires tw > 0
  {
    s in Stages(store) && Tick(x, s) != 0 && OnLine(x, store, tw, i, Tick(x, s)) && !Hidden(x, s)
  }

  /** Its letter, in the cell of its tick's cycle, wrapped to the line. */
  function StageMark(x: Inst, tw: nat, cycle: nat, s: Stage): Mark
    requires tw > 0 && cycle > 0
  {
    Mark(Tick(x, s) % tw / cycle, Letter(s))
  }

  /** The marks of a line are exactly those of the stages that appear on it. */
  lemma LineMarksSound(x: Inst, store: bool, cycle: nat, tw: nat, i: nat, m: Mark)
    requires cycle > 0 && tw > 0 && m in LineMarks(x, store, cycle, tw, i)
    ensures exists s :: Appears(x, store, tw, i, s) && m == StageMark(x, tw, cycle, s)
  {
    var events := Events(x, store, tw, i, Stages(store));
    SortedWrapped(events);
    SameElements(Sort(ByWrapped(), events), events);
    MarksSound(x, cycle, Sort(ByWrapped(), events), m);
    var e :| e in events && !Hidden(x, e.stage) && m == MarkOf(e, cycle);
    EventsSound(x, store, tw, i, Stages(store), e);
    assert Appears(x, store, tw, i, e.stage);
  }

  lemma LineMarksComplete(x: Inst, store: bool, cycle: nat, tw: nat, i: nat, s: Stage)
    requires cycle > 0 && tw > 0 && Appears(x, store, tw, i, s)
    ensures StageMark(x, tw, cycle, s) in LineMarks(x, store, cycle, tw, i)
  {
    var events := Events(x, store, tw, i, Stages(store));
    SortedWrapped(events);
    SameElements(Sort(ByWrapped(), events), events);
    EventsContain(x, store, tw, i, Stages(store), s);
    MarksContain(x, cycle, Sort(ByWrapped(), events), EventOf(x, tw, s));
  }

  /** A mark found in the rendered line, at its place. */
  ghost predicate Found(marks: seq<Mark>, line: string, m: Mark) {
    exists k: nat :: k < |marks| && marks[k] == m && 0 <= Place(marks, 0, k) < |line| && line[Place(marks, 0, k)] == m.letter
  }

  ghost predicate Strict(marks: seq<Mark>) {
    forall a, b :: 0 <= a < b < |marks| ==> marks[a].col < marks[b].col
  }

  /** Rendering of a stage: a nonzero tick from the first line on, not hidden, has its letter on its one line; when the
      columns of that line are distinct, in the cell of its wrapped cycle, and the line is `width` cells long. */
  lemma StageInItsCell(x: Inst, store: bool, cycle: nat, width: nat, tw: nat, s: Stage)
    requires cycle > 0 && tw == width * cycle && tw > 0
    requires s in Stages(store) && Tick(x, s) != 0 && BaseTick(x, tw) <= Tick(x, s) && !Hidden(x, s)
    ensures var i, m := LineOf(x, store, tw, Tick(x, s)), StageMark(x, tw, cycle, s);
            var marks, line := LineMarks(x, store, cycle, tw, i), Line(x, store, cycle, width, tw, i);
            && i < NumLines(x, store, tw) && |line| == width + Coincident(marks, 0) && Found(marks, line, m)
            && (Strict(marks) ==> |line| == width && m.col < width && line[m.col] == Letter(s))
  {
    var i, m := LineOf(x, store, tw, Tick(x, s)), StageMark(x, tw, cycle, s);
    OneLinePerTick(x, store, tw, s);
    LineMarksAscending(x, store, cycle, width, tw, i);
    LineMarksComplete(x, store, cycle, tw, i, s);
    CellOf(LineMarks(x, store, cycle, tw, i), width, Dot(x), m);
  }

  lemma CellOf(marks: seq<Mark>, width: nat, dot: char, m: Mark)
    requires Ascending(marks, 0, width) && m in marks
    ensures var line := Render(marks, 0, width, dot);
            && |line| == width + Coincident(marks, 0) && Found(marks, line, m)
            && (Strict(marks) ==> |line| == width && m.col < width && line[m.col] == m.letter)
  {
    RenderLength(marks, 0, width, dot);
    var k :| 0 <= k < |marks| && marks[k] == m;
    RenderMark(marks, 0, width, dot, k);
    if Strict(marks) {
      DistinctColumns(marks, width, dot);
    }
  }

  // ----- the lines in the source's terms -----

  /** What the source's table says of a stage: its name, its letter, and the tick the instruction has under that name. */
  ghost function Facts(x: Inst, s: Stage): (string, char, nat) {
    match s
    case Fetch => ("fetch", 'f', x.fetch)
    case Decode => ("decode", 'd', x.decode)
    case Rename => ("rename", 'n', x.rename)
    case Dispatch => ("dispatch", 'p', x.dispatch)
    case Issue => ("issue", 'i', x.issue)
    case Complete => ("complete", 'c', x.complete)
    case Retire => ("retire", 'r', x.retire)
    case Store => ("store", 's', x.store)
  }

  /** Store completions count only if they were asked for. */
  ghost predicate Counts(store: bool, s: Stage) {
    s != Store || store
  }

  /** All ticks are less than one line after the fetch. */
  ghost predicate Short(x: Inst, store: bool, tw: nat) {
    forall s :: Counts(store, s) ==> Facts(x, s).2 < x.fetch + tw
  }

  /** The stage is drawn on line `i` of lines of `tw` ticks, the first of which starts at `base`: it has a tick, not before
      `base`, that belongs to that line, and it is not a dispatch in the tick of the issue. */
  ghost predicate DrawnOn(x: Inst, store: bool, tw: nat, base: nat, i: nat, s: Stage)
    requires tw > 0
  {
    var t := Facts(x, s).2;
    && Counts(store, s) && t != 0 && base <= t && !(s == Dispatch && x.dispatch == x.issue)
    && if Short(x, store, tw) then i == 0 else i == (t - base) / tw
  }

  /** One line if all is short; else as many as the last tick needs. */
  ghost predicate LineTotal(x: Inst, store: bool, tw: nat, base: nat, n: nat)
    requires tw > 0
  {
    if Short(x, store, tw) then n == 1
    else
      && (exists s :: Counts(store, s) && base <= Facts(x, s).2 && (Facts(x, s).2 - base) / tw + 1 == n)
      && (forall s :: Counts(store, s) && base <= Facts(x, s).2 ==> (Facts(x, s).2 - base) / tw < n)
  }

  /** Alphabetical order. */
  ghost predicate NameBefore(a: string, b: string) {
    b != [] && (a == [] || a[0] < b[0] || (a[0] == b[0] && NameBefore(a[1..], b[1..])))
  }

  /** Two stages in the order of a line: by the tick in the line, then by name. */
  ghost predicate DrawnBefore(x: Inst, tw: nat, s: Stage, t: Stage)
    requires tw > 0
  {
    var a, b := Facts(x, s).2 % tw, Facts(x, t).2 % tw;
    a < b || (a == b && NameBefore(Facts(x, s).0, Facts(x, t).0))
  }

  ghost function Column(x: Inst, tw: nat, cycle: nat, s: Stage): nat
    requires tw > 0 && cycle > 0
  {
    DivBounds(Facts(x, s).2 % tw, cycle);
    Facts(x, s).2 % tw / cycle
  }

  /** How many of the stages up to `k` share the column of the one before. */
  ghost function Crowded(x: Inst, tw: nat, cycle: nat, stages: seq<Stage>, k: nat): nat
    requires tw > 0 && cycle > 0 && k <= |stages|
  {
    if k <= 1 then 0
    else Crowded(x, tw, cycle, stages, k - 1)
         + if Column(x, tw, cycle, stages[k - 1]) == Column(x, tw, cycle, stages[k - 2]) then 1 else 0
  }

  /** Where the letter of stage `k` is: in its column, shifted by what does not fit in the columns up to it. */
  ghost function Cell(x: Inst, tw: nat, cycle: nat, stages: seq<Stage>, k: nat): nat
    requires tw > 0 && cycle > 0 && k < |stages|
  {
    Column(x, tw, cycle, stages[k]) + Crowded(x, tw, cycle, stages, k + 1)
  }

  ghost predicate NoCell(x: Inst, tw: nat, cycle: nat, stages: seq<Stage>, c: nat)
    requires tw > 0 && cycle > 0
  {
    forall k: nat :: k < |stages| ==> c != Cell(x, tw, cycle, stages, k)
  }

  ghost predicate Letters(x: Inst, tw: nat, cycle: nat, stages: seq<Stage>, line: string)
    requires tw > 0 && cycle > 0
  {
    forall k: nat :: k < |stages| ==>
                       Cell(x, tw, cycle, stages, k) < |line| && line[Cell(x, tw, cycle, stages, k)] == Facts(x, stages[k]).1
  }

  /** The line shows these stages and nothing else; between them are dots, or equal signs if the instruction was
      abandoned. */
  ghost predicate Draws(x: Inst, tw: nat, cycle: nat, width: nat, stages: seq<Stage>, line: string)
    requires tw > 0 && cycle > 0
  {
    && |line| == width + Crowded(x, tw, cycle, stages, |stages|)
    && Letters(x, tw, cycle, stages, line)
    && (forall c: nat :: c < |line| && NoCell(x, tw, cycle, stages, c) ==> line[c] == if x.retire == 0 then '=' else '.')
  }

  /** The stages of line `i`, each once, in the order of the line. */
  ghost predicate StagesOf(x: Inst, store: bool, tw: nat, base: nat, i: nat, stages: seq<Stage>)
    requires tw > 0
  {
    && (forall s :: s in stages <==> DrawnOn(x, store, tw, base, i, s))
    && (forall a, b :: 0 <= a < b < |stages| ==> stages[a] != stages[b] && DrawnBefore(x, tw, stages[a], stages[b]))
  }

  ghost predicate LineIs(x: Inst, store: bool, tw: nat, base: nat, cycle: nat, width: nat, i: nat, line: string)
    requires tw > 0 && cycle > 0
  {
    exists stages: seq<Stage> :: StagesOf(x, store, tw, base, i, stages) && Draws(x, tw, cycle, width, stages, line)
  }

  lemma FactsAgree(x: Inst, s: Stage)
    ensures Facts(x, s).1 == Letter(s) && Facts(x, s).2 == Tick(x, s)
  {
  }

  lemma CountsMeans(store: bool, s: Stage)
    ensures Counts(store, s) <==> s in Stages(store)
  {
    var all := [Fetch, Decode, Rename, Dispatch, Issue, Complete, Retire];
    assert all[0] == Fetch && all[1] == Decode && all[2] == Rename && all[3] == Dispatch && all[4] == Issue
           && all[5] == Complete && all[6] == Retire;
    assert store ==> Stages(store)[7] == Store;
    assert s != Store ==> s in all;
  }

  lemma ShortMeans(x: Inst, store: bool, tw: nat)
    requires tw > 0
    ensures Short(x, store, tw) <==> NumLines(x, store, tw) == 1
  {
    CompactIffOneLine(x, store, tw);
    LastAtLeastFetch(x, store, tw);
    LatestReached(x, Stages(store));
    forall s
      ensures Counts(store, s) <==> s in Stages(store)
      ensures Facts(x, s).2 == Tick(x, s)
    {
      CountsMeans(store, s);
      FactsAgree(x, s);
    }
    forall s | s in Stages(store)
      ensures Tick(x, s) <= LastEvent(x, store)
    {
      LatestBounds(x, Stages(store), s);
    }
  }

  lemma DrawnMeans(x: Inst, store: bool, tw: nat, i: nat, s: Stage)
    requires tw > 0 && i < NumLines(x, store, tw)
    ensures DrawnOn(x, store, tw, BaseTick(x, tw), i, s) <==> Appears(x, store, tw, i, s)
  {
    FactsAgree(x, s);
    CountsMeans(store, s);
    ShortMeans(x, store, tw);
    if s in Stages(store) {
      OneLinePerTick(x, store, tw, s);
    }
  }

  /** The last tick is on the last line. */
  lemma LastLine(x: Inst, store: bool, tw: nat) returns (s: Stage)
    requires tw > 0 && NumLines(x, store, tw) != 1
    ensures Counts(store, s) && BaseTick(x, tw) <= Facts(x, s).2
    ensures (Facts(x, s).2 - BaseTick(x, tw)) / tw + 1 == NumLines(x, store, tw)
  {
    LastAtLeastFetch(x, store, tw);
    LatestReached(x, Stages(store));
    s :| s in Stages(store) && Tick(x, s) == LastEvent(x, store);
    CountsMeans(store, s);
    FactsAgree(x, s);
  }

  lemma WithinLines(x: Inst, store: bool, tw: nat, s: Stage)
    requires tw > 0 && NumLines(x, store, tw) != 1 && Counts(store, s) && BaseTick(x, tw) <= Facts(x, s).2
    ensures (Facts(x, s).2 - BaseTick(x, tw)) / tw < NumLines(x, store, tw)
  {
    CountsMeans(store, s);
    FactsAgree(x, s);
    LatestBounds(x, Stages(store), s);
    WrappedLine(x, store, tw, Tick(x, s));
  }

  lemma TotalMeans(x: Inst, store: bool, tw: nat)
    requires tw > 0
    ensures LineTotal(x, store, tw, BaseTick(x, tw), NumLines(x, store, tw))
  {
    ShortMeans(x, store, tw);
    if !Short(x, store, tw) {
      var base, n := BaseTick(x, tw), NumLines(x, store, tw);
      var z := LastLine(x, store, tw);
      forall s | Counts(store, s) && base <= Facts(x, s).2
        ensures (Facts(x, s).2 - base) / tw < n
      {
        WithinLines(x, store, tw, s);
      }
    }
  }

  lemma RankIsAlphabetical(x: Inst, s: Stage, t: Stage)
    requires NameRank(s) < NameRank(t)
    ensures NameBefore(Facts(x, s).0, Facts(x, t).0)
  {
    NamesInOrder();
    match s
    case Complete =>
    case Decode =>
    case Dispatch =>
    case Fetch =>
    case Issue =>
    case Rename =>
    case Retire =>
    case Store =>
  }

  lemma FirstLetter(a: string, b: string)
    requires a != [] && b != [] && a[0] < b[0]
    ensures NameBefore(a, b)
  {
  }

  lemma SameLetter(c: char, a: string, b: string)
    requires NameBefore(a, b)
    ensures NameBefore([c] + a, [c] + b)
  {
    assert ([c] + a)[1..] == a && ([c] + b)[1..] == b;
  }

  /** The pairs of names that share letters at the front. */
  lemma NamesInOrder()
    ensures NameBefore("decode", "dispatch") && NameBefore("rename", "retire")
  {
    FirstLetter("ecode", "ispatch");
    SameLetter('d', "ecode", "ispatch");
    assert ['d'] + "ecode" == "decode" && ['d'] + "ispatch" == "dispatch";
    FirstLetter("name", "tire");
    SameLetter('e', "name", "tire");
    assert ['e'] + "name" == "ename" && ['e'] + "tire" == "etire";
    SameLetter('r', "ename", "etire");
    assert ['r'] + "ename" == "rename" && ['r'] + "etire" == "retire";
  }

  /** The stages of the events that are not hidden. */
  ghost function Remaining(x: Inst, events: seq<Event>): seq<Stage> {
    if events == [] then []
    else
      var rest := Remaining(x, events[1..]);
      if Hidden(x, events[0].stage) then rest else [events[0].stage] + rest
  }

  ghost predicate MarksStage(x: Inst, tw: nat, cycle: nat, m: Mark, s: Stage)
    requires tw > 0 && cycle > 0
  {
    m.col == Column(x, tw, cycle, s) && m.letter == Facts(x, s).1
  }

  lemma {:induction false} MarksOfStages(x: Inst, tw: nat, cycle: nat, events: seq<Event>)
    requires tw > 0 && cycle > 0 && forall e :: e in events ==> e == EventOf(x, tw, e.stage)
    ensures var marks, stages := Marks(x, cycle, events), Remaining(x, events);
            |marks| == |stages| && forall k :: 0 <= k < |marks| ==> MarksStage(x, tw, cycle, marks[k], stages[k])
  {
    if events != [] {
      MarksOfStages(x, tw, cycle, events[1..]);
      FactsAgree(x, events[0].stage);
    }
  }

  ghost predicate KeysIncrease(events: seq<Event>) {
    forall a, b :: 0 <= a < b < |events| ==>
                     events[a].wrapped < events[b].wrapped
                     || (events[a].wrapped == events[b].wrapped && NameRank(events[a].stage) < NameRank(events[b].stage))
  }

  ghost predicate InLineOrder(x: Inst, tw: nat, stages: seq<Stage>)
    requires tw > 0
  {
    forall a, b :: 0 <= a < b < |stages| ==> stages[a] != stages[b] && DrawnBefore(x, tw, stages[a], stages[b])
  }

  lemma {:induction false} RemainingMember(x: Inst, events: seq<Event>, s: Stage)
    ensures s in Remaining(x, events) <==> !Hidden(x, s) && exists e :: e in events && e.stage == s
  {
    if events != [] {
      RemainingMember(x, events[1..], s);
      assert events == [events[0]] + events[1..];
    }
  }

  lemma KeysGiveOrder(x: Inst, tw: nat, events: seq<Event>, j: nat)
    requires tw > 0 && 0 < j < |events| && KeysIncrease(events)
    requires events[0] == EventOf(x, tw, events[0].stage) && events[j] == EventOf(x, tw, events[j].stage)
    ensures events[0].stage != events[j].stage && DrawnBefore(x, tw, events[0].stage, events[j].stage)
  {
    var e, f := events[0], events[j];
    FactsAgree(x, e.stage);
    FactsAgree(x, f.stage);
    if e.wrapped == f.wrapped {
      RankIsAlphabetical(x, e.stage, f.stage);
    }
  }

  lemma FirstBefore(x: Inst, tw: nat, events: seq<Event>, s: Stage)
    requires tw > 0 && KeysIncrease(events) && events != []
    requires forall e :: e in events ==> e == EventOf(x, tw, e.stage)
    requires s in Remaining(x, events[1..])
    ensures events[0].stage != s && DrawnBefore(x, tw, events[0].stage, s)
  {
    RemainingMember(x, events[1..], s);
    var f :| f in events[1..] && f.stage == s;
    var j :| 1 <= j < |events| && events[j] == f;
    assert events[0] in events && events[j] in events;
    KeysGiveOrder(x, tw, events, j);
  }

  lemma ConsInOrder(x: Inst, tw: nat, s: Stage, rest: seq<Stage>)
    requires tw > 0 && InLineOrder(x, tw, rest)
    requires forall t :: t in rest ==> s != t && DrawnBefore(x, tw, s, t)
    ensures InLineOrder(x, tw, [s] + rest)
  {
    var all := [s] + rest;
    forall a, b | 0 <= a < b < |all|
      ensures all[a] != all[b] && DrawnBefore(x, tw, all[a], all[b])
    {
      assert all[b] == rest[b - 1] && rest[b - 1] in rest;
      if a > 0 {
        assert all[a] == rest[a - 1];
      }
    }
  }

  lemma {:induction false} RemainingInOrder(x: Inst, tw: nat, events: seq<Event>)
    requires tw > 0 && KeysIncrease(events) && forall e :: e in events ==> e == EventOf(x, tw, e.stage)
    ensures InLineOrder(x, tw, Remaining(x, events))
  {
    if events != [] {
      RemainingInOrder(x, tw, events[1..]);
      var rest := Remaining(x, events[1..]);
      forall s | s in rest
        ensures events[0].stage != s && DrawnBefore(x, tw, events[0].stage, s)
      {
        FirstBefore(x, tw, events, s);
      }
      ConsInOrder(x, tw, events[0].stage, rest);
    }
  }

  lemma {:induction false} EventsOnce(x: Inst, store: bool, tw: nat, i: nat, stages: seq<Stage>, e: Event)
    requires tw > 0 && Distinct(stages)
    ensures multiset(Events(x, store, tw, i, stages))[e] <= 1
  {
    if stages != [] {
      var front := stages[..|stages| - 1];
      EventsOnce(x, store, tw, i, front, e);
      if e in Events(x, store, tw, i, front) {
        EventsSound(x, store, tw, i, front, e);
      }
    }
  }

  lemma Twice(s: seq<Event>, a: nat, b: nat)
    requires a < b < |s| && s[a] == s[b]
    ensures multiset(s)[s[a]] >= 2
  {
    assert s == s[..a] + [s[a]] + s[a + 1..b] + [s[b]] + s[b + 1..];
  }

  lemma StagesDistinct(store: bool)
    ensures Distinct(Stages(store))
  {
  }

  /** The sorted events of a line: each stage once, by wrapped tick and then by name. */
  lemma SortedKeys(x: Inst, store: bool, tw: nat, i: nat)
    requires tw > 0
    ensures var events := Events(x, store, tw, i, Stages(store));
            var sorted := Sort(ByWrapped(), events);
            && (forall e :: e in sorted <==> e in events)
            && (forall e :: e in sorted ==> e == EventOf(x, tw, e.stage))
            && KeysIncrease(sorted)
  {
    var events := Events(x, store, tw, i, Stages(store));
    var sorted := Sort(ByWrapped(), events);
    SortSorted(ByWrapped(), events);
    SameElements(sorted, events);
    StagesDistinct(store);
    forall e | e in events
      ensures e == EventOf(x, tw, e.stage)
    {
      EventsSound(x, store, tw, i, Stages(store), e);
    }
    forall a, b | 0 <= a < b < |sorted|
      ensures sorted[a].wrapped < sorted[b].wrapped
              || (sorted[a].wrapped == sorted[b].wrapped && NameRank(sorted[a].stage) < NameRank(sorted[b].stage))
    {
      assert ByWrapped()(sorted[a]) <= ByWrapped()(sorted[b]);
      assert sorted[a] in sorted && sorted[b] in sorted;
      if sorted[a].stage == sorted[b].stage {
        Twice(sorted, a, b);
        EventsOnce(x, store, tw, i, Stages(store), sorted[a]);
      }
      RankDetermines(sorted[a].stage, sorted[b].stage);
    }
  }

  lemma RankDetermines(s: Stage, t: Stage)
    ensures NameRank(s) < 8 && NameRank(t) < 8 && (NameRank(s) == NameRank(t) ==> s == t)
  {
  }

  lemma {:induction false} CoincidentLast(ms: seq<Mark>, m: Mark, pos: nat)
    ensures Coincident(ms + [m], pos)
         == Coincident(ms, pos) + if m.col < (if ms == [] then pos else ms[|ms| - 1].col + 1) then 1 else 0
    decreases |ms|
  {
    if ms == [] {
      assert ms + [m] == [m] && [m][1..] == [];
    } else {
      assert (ms + [m])[1..] == ms[1..] + [m];
      CoincidentLast(ms[1..], m, ms[0].col + 1);
    }
  }

  /** Coincident marks are stages that share a column. */
  lemma {:induction false} CoincidentIsCrowded(x: Inst, tw: nat, cycle: nat, marks: seq<Mark>, stages: seq<Stage>, k: nat)
    requires tw > 0 && cycle > 0 && k <= |marks| == |stages|
    requires forall a :: 0 <= a < |marks| ==> MarksStage(x, tw, cycle, marks[a], stages[a])
    requires forall a, b :: 0 <= a < b < |marks| ==> marks[a].col <= marks[b].col
    ensures Coincident(marks[..k], 0) == Crowded(x, tw, cycle, stages, k)
  {
    if k > 0 {
      CoincidentIsCrowded(x, tw, cycle, marks, stages, k - 1);
      assert marks[..k] == marks[..k - 1] + [marks[k - 1]];
      CoincidentLast(marks[..k - 1], marks[k - 1], 0);
      if k > 1 {
        assert MarksStage(x, tw, cycle, marks[k - 1], stages[k - 1]) && MarksStage(x, tw, cycle, marks[k - 2], stages[k - 2]);
      }
    }
  }

  lemma PlaceIsCell(x: Inst, tw: nat, cycle: nat, marks: seq<Mark>, stages: seq<Stage>, k: nat)
    requires tw > 0 && cycle > 0 && k < |marks| == |stages|
    requires forall a :: 0 <= a < |marks| ==> MarksStage(x, tw, cycle, marks[a], stages[a])
    requires forall a, b :: 0 <= a < b < |marks| ==> marks[a].col <= marks[b].col
    ensures Place(marks, 0, k) == Cell(x, tw, cycle, stages, k)
  {
    CoincidentIsCrowded(x, tw, cycle, marks, stages, k + 1);
    assert MarksStage(x, tw, cycle, marks[k], stages[k]);
  }

  lemma RenderDraws(x: Inst, tw: nat, cycle: nat, width: nat, marks: seq<Mark>, stages: seq<Stage>)
    requires tw > 0 && cycle > 0 && |marks| == |stages| && Ascending(marks, 0, width)
    requires forall a :: 0 <= a < |marks| ==> MarksStage(x, tw, cycle, marks[a], stages[a])
    ensures Draws(x, tw, cycle, width, stages, Render(marks, 0, width, Dot(x)))
  {
    var line := Render(marks, 0, width, Dot(x));
    RenderLength(marks, 0, width, Dot(x));
    CoincidentIsCrowded(x, tw, cycle, marks, stages, |marks|);
    assert marks[..|marks|] == marks;
    forall k: nat | k < |stages|
      ensures Place(marks, 0, k) == Cell(x, tw, cycle, stages, k)
      ensures Cell(x, tw, cycle, stages, k) < |line| && line[Cell(x, tw, cycle, stages, k)] == Facts(x, stages[k]).1
    {
      PlaceIsCell(x, tw, cycle, marks, stages, k);
      RenderMark(marks, 0, width, Dot(x), k);
      assert MarksStage(x, tw, cycle, marks[k], stages[k]);
    }
    forall c: nat | c < |line| && NoCell(x, tw, cycle, stages, c)
      ensures line[c] == if x.retire == 0 then '=' else '.'
    {
      forall k: nat | k < |marks|
        ensures c != Place(marks, 0, k)
      {
        assert c != Cell(x, tw, cycle, stages, k);
      }
      RenderDot(marks, 0, width, Dot(x), c);
    }
  }

  lemma LineStages(x: Inst, store: bool, tw: nat, i: nat)
    requires tw > 0 && i < NumLines(x, store, tw)
    ensures StagesOf(x, store, tw, BaseTick(x, tw), i, Remaining(x, Sort(ByWrapped(), Events(x, store, tw, i, Stages(store)))))
  {
    var events := Events(x, store, tw, i, Stages(store));
    var sorted := Sort(ByWrapped(), events);
    SortedKeys(x, store, tw, i);
    RemainingInOrder(x, tw, sorted);
    forall s
      ensures s in Remaining(x, sorted) <==> DrawnOn(x, store, tw, BaseTick(x, tw), i, s)
    {
      RemainingMember(x, sorted, s);
      DrawnMeans(x, store, tw, i, s);
      if Appears(x, store, tw, i, s) {
        EventsContain(x, store, tw, i, Stages(store), s);
        assert EventOf(x, tw, s) in sorted;
      }
      forall e | e in sorted && e.stage == s
        ensures s in Stages(store) && Tick(x, s) != 0 && OnLine(x, store, tw, i, Tick(x, s))
      {
        EventsSound(x, store, tw, i, Stages(store), e);
      }
    }
  }

  /** Every line is what the source's terms say. */
  lemma LineDrawn(x: Inst, store: bool, cycle: nat, width: nat, tw: nat, i: nat)
    requires cycle > 0 && tw == width * cycle && tw > 0 && i < NumLines(x, store, tw)
    ensures LineIs(x, store, tw, BaseTick(x, tw), cycle, width, i, Line(x, store, cycle, width, tw, i))
  {
    var sorted := Sort(ByWrapped(), Events(x, store, tw, i, Stages(store)));
    SortedKeys(x, store, tw, i);
    LineStages(x, store, tw, i);
    LineMarksAscending(x, store, cycle, width, tw, i);
    MarksOfStages(x, tw, cycle, sorted);
    RenderDraws(x, tw, cycle, width, Marks(x, cycle, sorted), Remaining(x, sorted));
  }

  /** No stage has a tick. */
  ghost predicate NoTick(x: Inst, store: bool) {
    forall s :: Counts(store, s) ==> Facts(x, s).2 == 0
  }

  ghost predicate NothingDrawn(x: Inst, store: bool, tw: nat)
    requires tw > 0
  {
    NumLines(x, store, tw) == 1 && Events(x, store, tw, 0, Stages(store)) == []
  }

  lemma NoTickMeans(x: Inst, store: bool, tw: nat)
    requires tw > 0
    ensures NoTick(x, store) <==> NothingDrawn(x, store, tw)
  {
    NoEventsMeansZero(x, store, tw);
    forall s
      ensures Counts(store, s) <==> s in Stages(store)
      ensures Facts(x, s).2 == Tick(x, s)
    {
      CountsMeans(store, s);
      FactsAgree(x, s);
    }
  }

  ghost predicate AreLines(x: Inst, store: bool, cycle: nat, width: nat, tw: nat, lines: seq<string>)
    requires cycle > 0 && tw > 0
  {
    forall k :: 0 <= k < |lines| ==> lines[k] == Line(x, store, cycle, width, tw, k)
  }

  ghost predicate LinesAre(x: Inst, store: bool, tw: nat, base: nat, cycle: nat, width: nat, lines: seq<string>)
    requires tw > 0 && cycle > 0
  {
    && LineTotal(x, store, tw, base, |lines|)
    && forall i: nat :: i < |lines| ==> LineIs(x, store, tw, base, cycle, width, i, lines[i])
  }

  lemma AllDrawn(x: Inst, store: bool, cycle: nat, width: nat, tw: nat, lines: seq<string>)
    requires cycle > 0 && tw == width * cycle && tw > 0 && |lines| == NumLines(x, store, tw)
    requires AreLines(x, store, cycle, width, tw, lines)
    ensures LinesAre(x, store, tw, BaseTick(x, tw), cycle, width, lines)
  {
    TotalMeans(x, store, tw);
    forall i: nat | i < |lines|
      ensures LineIs(x, store, tw, BaseTick(x, tw), cycle, width, i, lines[i])
    {
      LineDrawn(x, store, cycle, width, tw, i);
    }
  }

  /** `print_inst`, down to the cells between the brackets. In compact form it looks at the first event without
      checking that there is one. */
  method PrintInst(x: Inst, cycle: nat, width: nat, store: bool) returns (r: Option<seq<string>>)
    requires cycle > 0 && width * cycle > 0
    ensures r.None? <==> NoTick(x, store)
    ensures r.Some? ==>
              var tw := width * cycle;
              var base := x.fetch / tw * tw;
              LinesAre(x, store, tw, base, cycle, width, r.value)
  {
    var tw := width * cycle;
    BaseBelow(x, tw);
    LastAtLeastFetch(x, store, tw);
    NoTickMeans(x, store, tw);
    var baseTick := x.fetch / tw * tw;
    var lastEventTime := LastEvent(x, store);
    var numLines := if lastEventTime - x.fetch < tw then 1 else (lastEventTime - baseTick) / tw + 1;
    assert numLines == NumLines(x, store, tw);
    var lines := [];
    for i := 0 to numLines
      invariant |lines| == i && AreLines(x, store, cycle, width, tw, lines)
      invariant i > 0 ==> !NothingDrawn(x, store, tw)
    {
      var line := PrintLine(x, cycle, width, store, tw, baseTick, numLines, i);
      if line.None? {
        return None;
      }
      lines := lines + [line.value];
    }
    AllDrawn(x, store, cycle, width, tw, lines);
    return Some(lines);
  }
}
