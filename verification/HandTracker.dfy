/** The incremental hand updater: it remembers the hour, minute and second it
    last drew, erases those hands by drawing them again in the face colour,
    draws the new hands, and sends the frame to the display once. */
module HandTracker {
  import opened Canvas
  import opened Geometry

  type Hour = h: int | 0 <= h < 24
  type Sixty = v: int | 0 <= v < 60

  /** The fields of the current time the updater reads. */
  datatype Time = Time(hour: Hour, minute: Sixty, second: Sixty)

  /** The previously drawn values; -1 means nothing has been drawn yet.  The
      hour is kept as read, 0 to 23, not reduced to the dial's twelve. */
  datatype ClockState = ClockState(previousHour: int, previousMinute: int, previousSecond: int) {
    predicate Tracking() {
      previousHour >= 0 && previousMinute >= 0 && previousSecond >= 0
    }
  }

  const Initial: ClockState := ClockState(-1, -1, -1)

  datatype Update = Update(next: ClockState, trace: seq<Command>)

  function HourStrokes(pt: Endpoint, hour: int): seq<Segment> {
    TwoStrokes(pt, HourTails(hour), HourTip(hour))
  }

  function MinuteStrokes(pt: Endpoint, minute: int): seq<Segment> {
    TwoStrokes(pt, MinuteTails(minute), MinuteTip(minute))
  }

  function SecondStroke(pt: Endpoint, second: int): seq<Segment> {
    [Segment(Centre, pt(Centre, SecondTip(second)))]
  }

  /** The five strokes that show the time `t`: two for the hour, two for the
      minute and one for the second, in drawing order. */
  function HandStrokes(pt: Endpoint, t: Time): seq<Segment> {
    HourStrokes(pt, t.hour) + MinuteStrokes(pt, t.minute) + SecondStroke(pt, t.second)
  }

  /** The strokes the state says are on the display: each hand whose
      remembered value is not negative, hour first, then minute, then
      second.  From the initial state there is nothing to erase. */
  function PreviousStrokes(pt: Endpoint, st: ClockState): (r: seq<Segment>)
    ensures |r| == (if st.previousHour >= 0 then 2 else 0) + (if st.previousMinute >= 0 then 2 else 0) +
                   (if st.previousSecond >= 0 then 1 else 0)
    ensures st.previousHour >= 0 ==> r[..2] == HourStrokes(pt, st.previousHour)
    ensures st.previousMinute >= 0 ==>
              var at := if st.previousHour >= 0 then 2 else 0;
              r[at..at + 2] == MinuteStrokes(pt, st.previousMinute)
    ensures st.previousSecond >= 0 ==> r[|r| - 1] == Segment(Centre, pt(Centre, SecondTip(st.previousSecond)))
    ensures st == Initial ==> r == []
  {
    (if st.previousHour >= 0 then HourStrokes(pt, st.previousHour) else []) +
    (if st.previousMinute >= 0 then MinuteStrokes(pt, st.previousMinute) else []) +
    (if st.previousSecond >= 0 then SecondStroke(pt, st.previousSecond) else [])
  }

  /** The commands of one tick, in order: the erase lines in the face
      colour, the hour and minute strokes in black, the second stroke in red,
      and one Show. */
  function TickTrace(erase: seq<Segment>, hour: seq<Segment>, minute: seq<Segment>, second: seq<Segment>): seq<Command> {
    Lines(erase, WatchBackground) + Lines(hour, Black) + Lines(minute, Black) + Lines(second, Red) + [Show]
  }

  /** One tick of the hand tracker: erase the remembered hands in the face
      colour, draw the hour and minute hands in black and the second hand in
      red, show the frame, and remember the new values. */
  function UpdateClock(pt: Endpoint, st: ClockState, t: Time): (r: Update)
    ensures r.next == ClockState(t.hour, t.minute, t.second) && r.next.Tracking()
  {
    var trace := TickTrace(PreviousStrokes(pt, st), HourStrokes(pt, t.hour), MinuteStrokes(pt, t.minute),
                           SecondStroke(pt, t.second));
    Update(ClockState(t.hour, t.minute, t.second), trace)
  }

  /** Every tick sends its frame to the display exactly once, after all its
      lines, and issues every erase line before any hand line. */
  lemma UpdateOrder(pt: Endpoint, st: ClockState, t: Time)
    ensures ShownOnceAtEnd(UpdateClock(pt, st, t).trace)
    ensures ErasesBeforeDraws(UpdateClock(pt, st, t).trace)
  {
    var p, h, m, s := PreviousStrokes(pt, st), HourStrokes(pt, t.hour), MinuteStrokes(pt, t.minute), SecondStroke(pt, t.second);
    assert UpdateClock(pt, st, t).trace == TickTrace(p, h, m, s);
    TickTraceOrder(p, h, m, s);
  }

  lemma TickTraceOrder(erase: seq<Segment>, hour: seq<Segment>, minute: seq<Segment>, second: seq<Segment>)
    ensures ShownOnceAtEnd(TickTrace(erase, hour, minute, second))
    ensures ErasesBeforeDraws(TickTrace(erase, hour, minute, second))
  {
    var e := Lines(erase, WatchBackground);
    var d := Lines(hour, Black) + Lines(minute, Black) + Lines(second, Red);
    var trace := TickTrace(erase, hour, minute, second);
    assert trace == e + d + [Show];
    assert forall i :: 0 <= i < |e| ==> trace[i] == e[i];
    assert forall i :: |e| <= i < |e| + |d| ==> trace[i] == d[i - |e|];
    assert forall i :: 0 <= i < |e| ==> e[i].Line? && e[i].color == WatchBackground;
    assert forall i :: 0 <= i < |d| ==> d[i].Line? && d[i].color in Foreground;
  }

  /** The erase lines of a tick are exactly the remembered strokes, and its
      hand-coloured lines are exactly the strokes of the new time. */
  lemma UpdateStrokes(pt: Endpoint, st: ClockState, t: Time)
    ensures Erased(UpdateClock(pt, st, t).trace) == PreviousStrokes(pt, st)
    ensures Drawn(UpdateClock(pt, st, t).trace) == HandStrokes(pt, t)
    ensures LinesIn(UpdateClock(pt, st, t).trace, {Black}) == HourStrokes(pt, t.hour) + MinuteStrokes(pt, t.minute)
    ensures LinesIn(UpdateClock(pt, st, t).trace, {Red}) == SecondStroke(pt, t.second)
  {
    var p, h, m, s := PreviousStrokes(pt, st), HourStrokes(pt, t.hour), MinuteStrokes(pt, t.minute), SecondStroke(pt, t.second);
    assert UpdateClock(pt, st, t).trace == TickTrace(p, h, m, s);
    TickStrokes(p, h, m, s);
  }

  /** The colour filters applied to a tick's commands give back its blocks. */
  lemma TickStrokes(erase: seq<Segment>, hour: seq<Segment>, minute: seq<Segment>, second: seq<Segment>)
    ensures Erased(TickTrace(erase, hour, minute, second)) == erase
    ensures Drawn(TickTrace(erase, hour, minute, second)) == hour + minute + second
    ensures LinesIn(TickTrace(erase, hour, minute, second), {Black}) == hour + minute
    ensures LinesIn(TickTrace(erase, hour, minute, second), {Red}) == second
  {
    TickFilter(erase, hour, minute, second, {WatchBackground});
    TickFilter(erase, hour, minute, second, Foreground);
    TickFilter(erase, hour, minute, second, {Black});
    TickFilter(erase, hour, minute, second, {Red});
  }

  lemma TickFilter(erase: seq<Segment>, hour: seq<Segment>, minute: seq<Segment>, second: seq<Segment>, colors: set<Color>)
    ensures LinesIn(TickTrace(erase, hour, minute, second), colors) ==
            (if WatchBackground in colors then erase else []) +
            (if Black in colors then hour + minute else []) +
            (if Red in colors then second else [])
  {
    var e, h, m, s := Lines(erase, WatchBackground), Lines(hour, Black), Lines(minute, Black), Lines(second, Red);
    FilterBlocks(e, h, m, s, colors);
    LinesInLines(erase, WatchBackground, colors);
    LinesInLines(hour, Black, colors);
    LinesInLines(minute, Black, colors);
    LinesInLines(second, Red, colors);
    assert LinesIn(h, colors) + LinesIn(m, colors) == if Black in colors then hour + minute else [];
  }

  lemma FilterBlocks(e: seq<Command>, h: seq<Command>, m: seq<Command>, s: seq<Command>, colors: set<Color>)
    ensures LinesIn(e + h + m + s + [Show], colors) ==
            LinesIn(e, colors) + (LinesIn(h, colors) + LinesIn(m, colors)) + LinesIn(s, colors)
  {
    calc {
      LinesIn(e + h + m + s + [Show], colors);
    == { LinesInConcat(e + h + m + s, [Show], colors); assert LinesIn([Show], colors) == []; }
      LinesIn(e + h + m + s, colors);
    == { LinesInConcat(e + h + m, s, colors); }
      LinesIn(e + h + m, colors) + LinesIn(s, colors);
    == { LinesInConcat(e + h, m, colors); }
      LinesIn(e + h, colors) + LinesIn(m, colors) + LinesIn(s, colors);
    == { LinesInConcat(e, h, colors); }
      LinesIn(e, colors) + (LinesIn(h, colors) + LinesIn(m, colors)) + LinesIn(s, colors);
    }
  }

  /** On the first call nothing is erased: no line in the face colour is
      issued at all. */
  lemma FirstUpdateErasesNothing(pt: Endpoint, t: Time)
    ensures Erased(UpdateClock(pt, Initial, t).trace) == []
    ensures forall c :: c in UpdateClock(pt, Initial, t).trace ==> !IsLineIn(c, {WatchBackground})
  {
    UpdateStrokes(pt, Initial, t);
    var trace := UpdateClock(pt, Initial, t).trace;
    assert PreviousStrokes(pt, Initial) == [];
    forall c | c in trace ensures !IsLineIn(c, {WatchBackground}) {
      var i :| 0 <= i < |trace| && trace[i] == c;
      if IsLineIn(c, {WatchBackground}) {
        LinesInContains(trace, {WatchBackground}, i);
      }
    }
  }

  /** Once tracking, every tick erases exactly five lines (two hour, two
      minute, one second), draws exactly five (four black, one red), and
      issues nothing but those ten lines and the final Show. */
  lemma TrackingUpdateCounts(pt: Endpoint, st: ClockState, t: Time)
    requires st.Tracking()
    ensures |Erased(UpdateClock(pt, st, t).trace)| == 5
    ensures |LinesIn(UpdateClock(pt, st, t).trace, {Black})| == 4
    ensures |LinesIn(UpdateClock(pt, st, t).trace, {Red})| == 1
    ensures |UpdateClock(pt, st, t).trace| == 11
  {
    UpdateStrokes(pt, st, t);
  }

  /** No ghosting: what a tick erases is, segment for segment and in order,
      what the tick before it drew; only the colour differs. */
  lemma NoGhosting(pt: Endpoint, st: ClockState, t1: Time, t2: Time)
    ensures Erased(UpdateClock(pt, UpdateClock(pt, st, t1).next, t2).trace) ==
            Drawn(UpdateClock(pt, st, t1).trace)
  {
    var u1 := UpdateClock(pt, st, t1);
    UpdateStrokes(pt, st, t1);
    UpdateStrokes(pt, u1.next, t2);
    assert PreviousStrokes(pt, u1.next) == HandStrokes(pt, t1);
  }

  /** The second hand starts at the centre, whether it is drawn or erased. */
  lemma SecondHandFromCentre(pt: Endpoint, st: ClockState, t: Time)
    ensures forall c :: c in UpdateClock(pt, st, t).trace && IsLineIn(c, {Red}) ==> c.seg.from == Point(119, 119)
    ensures st.previousSecond >= 0 ==>
            Erased(UpdateClock(pt, st, t).trace)[|Erased(UpdateClock(pt, st, t).trace)| - 1].from == Point(119, 119)
  {
    UpdateStrokes(pt, st, t);
    var trace := UpdateClock(pt, st, t).trace;
    forall c | c in trace && IsLineIn(c, {Red}) ensures c.seg.from == Centre {
      var i :| 0 <= i < |trace| && trace[i] == c;
      LinesInContains(trace, {Red}, i);
    }
  }

  /** Replaying a tick over the strokes the state remembers leaves exactly
      the strokes of the new time. */
  lemma UpdateReplay(pt: Endpoint, st: ClockState, t: Time)
    ensures Replay(multiset(PreviousStrokes(pt, st)), UpdateClock(pt, st, t).trace) ==
            multiset(HandStrokes(pt, t))
  {
    var p, h, m, s := PreviousStrokes(pt, st), HourStrokes(pt, t.hour), MinuteStrokes(pt, t.minute), SecondStroke(pt, t.second);
    assert UpdateClock(pt, st, t).trace == TickTrace(p, h, m, s);
    TickReplay(p, h, m, s);
  }

  lemma TickReplay(erase: seq<Segment>, hour: seq<Segment>, minute: seq<Segment>, second: seq<Segment>)
    ensures Replay(multiset(erase), TickTrace(erase, hour, minute, second)) ==
            multiset(hour + minute + second)
  {
    var live := multiset(erase);
    var e, h, m, s := Lines(erase, WatchBackground), Lines(hour, Black), Lines(minute, Black), Lines(second, Red);
    ReplayBlocks(live, e, h, m, s);
    ReplayLines(live, erase, WatchBackground);
    assert Replay(live, e) == multiset{};
    ReplayLines(multiset{}, hour, Black);
    assert Replay(multiset{}, h) == multiset(hour);
    ReplayLines(multiset(hour), minute, Black);
    ReplayLines(multiset(hour) + multiset(minute), second, Red);
    assert multiset(hour + minute + second) == multiset(hour) + multiset(minute) + multiset(second);
  }

  // Automatic induction on the sequence parameters is switched off: it only
  // widens the search, since the proof is four uses of ReplayConcat.
  lemma {:induction false} ReplayBlocks(live: multiset<Segment>, e: seq<Command>, h: seq<Command>, m: seq<Command>, s: seq<Command>)
    ensures Replay(live, e + h + m + s + [Show]) == Replay(Replay(Replay(Replay(live, e), h), m), s)
  {
    ReplayConcat(live, e + h + m + s, [Show]);
    ReplayConcat(live, e + h + m, s);
    ReplayConcat(live, e + h, m);
    ReplayConcat(live, e, h);
    var after := Replay(live, e + h + m + s);
    assert Replay(after, [Show]) == Replay(after, []);
  }

  /* ---------------------------------------------------------------------
     A run of the tracker over a sequence of sampled times.
     --------------------------------------------------------------------- */

  /** The state and the concatenated trace after updating at each time of
      `times` in turn. */
  function Track(pt: Endpoint, st: ClockState, times: seq<Time>): (r: Update)
    ensures times != [] ==> r.next == ClockState(times[|times| - 1].hour, times[|times| - 1].minute, times[|times| - 1].second)
    ensures times == [] ==> r.next == st
    decreases |times|
  {
    if times == [] then Update(st, [])
    else
      var before := Track(pt, st, times[..|times| - 1]);
      var u := UpdateClock(pt, before.next, times[|times| - 1]);
      Update(u.next, before.trace + u.trace)
  }

  /** Whatever the times were, after any number of ticks from the initial
      state the only hand strokes left on the face are those of the last
      time: every earlier stroke was erased by the tick after it. */
  lemma {:induction false} TrackLeavesOnlyLastHands(pt: Endpoint, times: seq<Time>)
    ensures Replay(multiset{}, Track(pt, Initial, times).trace) ==
            multiset(PreviousStrokes(pt, Track(pt, Initial, times).next))
    ensures times != [] ==>
            Replay(multiset{}, Track(pt, Initial, times).trace) == multiset(HandStrokes(pt, times[|times| - 1]))
    decreases |times|
  {
    if times == [] {
      assert PreviousStrokes(pt, Initial) == [];
    } else {
      var prefix := times[..|times| - 1];
      var before := Track(pt, Initial, prefix);
      var t := times[|times| - 1];
      var u := UpdateClock(pt, before.next, t);
      TrackLeavesOnlyLastHands(pt, prefix);
      ReplayConcat(multiset{}, before.trace, u.trace);
      UpdateReplay(pt, before.next, t);
      assert PreviousStrokes(pt, u.next) == HandStrokes(pt, t);
    }
  }
}
