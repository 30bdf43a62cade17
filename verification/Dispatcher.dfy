/** The application's main loop, one tick per iteration.  While the time-sync
    signal is unset it runs the fallback animation; once it is set it draws
    the face on the first such tick and updates the hands on every such
    tick.  The signal is only ever set, never reset, so across a run it is
    a monotone input. */
module Dispatcher {
  import opened Canvas
  import opened Geometry
  import opened HandTracker
  import opened WatchFace

  /** `drawClock` is true until the face has been drawn. */
  datatype Loop = Loop(drawClock: bool, clock: ClockState)

  const Start: Loop := Loop(true, Initial)

  /** What one tick observes: whether the signal is set, and the time read
      when it is. */
  datatype TickInput = TickInput(gotTime: bool, now: Time)

  datatype TickResult = TickResult(next: Loop, trace: seq<Command>)

  /** One iteration of the loop. */
  function Tick(pt: Endpoint, lp: Loop, input: TickInput): (r: TickResult)
    ensures !input.gotTime ==> r.next == lp && r.trace == [Shapes]
    ensures input.gotTime ==>
              !r.next.drawClock &&
              r.next.clock == ClockState(input.now.hour, input.now.minute, input.now.second)
  {
    if !input.gotTime then TickResult(lp, [Shapes])
    else
      var face := if lp.drawClock then FaceTrace(pt) else [];
      var u := UpdateClock(pt, lp.clock, input.now);
      TickResult(Loop(false, u.next), face + u.trace)
  }

  /** The state and the concatenated trace after the ticks of `ticks`.  The
      state after a run depends only on whether some tick was set and on the
      time read on the last set tick. */
  function Run(pt: Endpoint, lp: Loop, ticks: seq<TickInput>): (r: TickResult)
    ensures Synced(ticks) == [] ==> r.next == lp
    ensures Synced(ticks) != [] ==>
              var last := Synced(ticks)[|Synced(ticks)| - 1];
              !r.next.drawClock && r.next.clock == ClockState(last.hour, last.minute, last.second)
    decreases |ticks|
  {
    if ticks == [] then TickResult(lp, [])
    else
      var before := Run(pt, lp, ticks[..|ticks| - 1]);
      var s := Tick(pt, before.next, ticks[|ticks| - 1]);
      TickResult(s.next, before.trace + s.trace)
  }

  /** The times read on the ticks where the signal was set, in order. */
  function Synced(ticks: seq<TickInput>): (r: seq<Time>)
    ensures |r| <= |ticks|
    decreases |ticks|
  {
    if ticks == [] then []
    else Synced(ticks[..|ticks| - 1]) + (if ticks[|ticks| - 1].gotTime then [ticks[|ticks| - 1].now] else [])
  }

  /** The signal, once seen set, stays set. */
  predicate Monotone(ticks: seq<TickInput>) {
    forall i, j :: 0 <= i < j < |ticks| && ticks[i].gotTime ==> ticks[j].gotTime
  }

  /** The trace of n unset ticks in a row: n animation runs. */
  function Waiting(n: nat): (r: seq<Command>)
    ensures |r| == n
    ensures forall i :: 0 <= i < n ==> r[i] == Shapes
  {
    seq(n, i => Shapes)
  }

  /** Whatever strokes were on the display, the first animation run wipes
      them. */
  lemma {:induction false} ReplayWaiting(live: multiset<Segment>, n: nat)
    ensures Replay(live, Waiting(n)) == if n == 0 then live else multiset{}
  {
    if n > 0 {
      assert Waiting(n) == Waiting(n - 1) + [Shapes];
      ReplayConcat(live, Waiting(n - 1), [Shapes]);
    }
  }

  /** For any pattern of the signal, the face has been drawn exactly when
      the signal was set on some tick, and the hand tracker is in the state
      its own run over the set ticks' times leaves, which is that of the last
      set tick. */
  lemma {:induction false} RunState(pt: Endpoint, ticks: seq<TickInput>)
    ensures Run(pt, Start, ticks).next == Loop(Synced(ticks) == [], Track(pt, Initial, Synced(ticks)).next)
    decreases |ticks|
  {
    if ticks != [] {
      var prefix := ticks[..|ticks| - 1];
      var last := ticks[|ticks| - 1];
      RunState(pt, prefix);
      if last.gotTime {
        var synced := Synced(prefix) + [last.now];
        assert Synced(ticks) == synced;
        assert synced[..|synced| - 1] == Synced(prefix);
      } else {
        assert Synced(ticks) == Synced(prefix);
      }
    }
  }

  /** For any pattern of the signal, the face (its clear and its dial) is
      drawn exactly once if the signal was ever set and never otherwise, and
      the animation, which clears the screen itself, runs exactly once per
      unset tick.  So the screen is cleared once per unset tick plus once for
      the face. */
  lemma {:induction false} RunCounts(pt: Endpoint, ticks: seq<TickInput>)
    ensures multiset(Run(pt, Start, ticks).trace)[Dial] == if Synced(ticks) == [] then 0 else 1
    ensures multiset(Run(pt, Start, ticks).trace)[Shapes] == |ticks| - |Synced(ticks)|
    ensures multiset(Run(pt, Start, ticks).trace)[Clear] == if Synced(ticks) == [] then 0 else 1
    decreases |ticks|
  {
    if ticks != [] {
      var prefix := ticks[..|ticks| - 1];
      var last := ticks[|ticks| - 1];
      RunCounts(pt, prefix);
      RunState(pt, prefix);
      RunLastTick(pt, ticks);
      TickCounts(pt, Run(pt, Start, prefix).next, last);
    }
  }

  /** Unfolds the last tick of a run, for the trace's multiset and for the
      times read. */
  lemma RunLastTick(pt: Endpoint, ticks: seq<TickInput>)
    requires ticks != []
    ensures var before := Run(pt, Start, ticks[..|ticks| - 1]);
            multiset(Run(pt, Start, ticks).trace) ==
            multiset(before.trace) + multiset(Tick(pt, before.next, ticks[|ticks| - 1]).trace)
    ensures |Synced(ticks)| == |Synced(ticks[..|ticks| - 1])| + (if ticks[|ticks| - 1].gotTime then 1 else 0)
    ensures Synced(ticks) == [] <==> Synced(ticks[..|ticks| - 1]) == [] && !ticks[|ticks| - 1].gotTime
  {
  }

  /** One tick draws the face (its clear and its dial) only when it is set
      and the face is pending, and runs the animation only when the signal
      is unset. */
  lemma TickCounts(pt: Endpoint, lp: Loop, input: TickInput)
    ensures multiset(Tick(pt, lp, input).trace)[Dial] == if input.gotTime && lp.drawClock then 1 else 0
    ensures multiset(Tick(pt, lp, input).trace)[Shapes] == if input.gotTime then 0 else 1
    ensures multiset(Tick(pt, lp, input).trace)[Clear] == if input.gotTime && lp.drawClock then 1 else 0
  {
    if input.gotTime {
      var face := if lp.drawClock then FaceTrace(pt) else [];
      var u := UpdateClock(pt, lp.clock, input.now);
      assert Tick(pt, lp, input).trace == face + u.trace;
      UpdateHasNoFaceOrAnimation(pt, lp.clock, input.now);
      FaceCounts(pt);
    } else {
      assert Tick(pt, lp, input).trace == [Shapes];
    }
  }

  lemma UpdateHasNoFaceOrAnimation(pt: Endpoint, st: ClockState, t: Time)
    ensures multiset(UpdateClock(pt, st, t).trace)[Clear] == 0
    ensures multiset(UpdateClock(pt, st, t).trace)[Shapes] == 0
    ensures multiset(UpdateClock(pt, st, t).trace)[Dial] == 0
  {
    var p, h, m, s := PreviousStrokes(pt, st), HourStrokes(pt, t.hour), MinuteStrokes(pt, t.minute), SecondStroke(pt, t.second);
    assert UpdateClock(pt, st, t).trace == TickTrace(p, h, m, s);
    TickTraceCommands(p, h, m, s);
  }

  /** A hand update issues nothing but lines and one Show. */
  lemma TickTraceCommands(erase: seq<Segment>, hour: seq<Segment>, minute: seq<Segment>, second: seq<Segment>)
    ensures multiset(TickTrace(erase, hour, minute, second))[Clear] == 0
    ensures multiset(TickTrace(erase, hour, minute, second))[Shapes] == 0
    ensures multiset(TickTrace(erase, hour, minute, second))[Dial] == 0
  {
    var e, h, m, s := Lines(erase, WatchBackground), Lines(hour, Black), Lines(minute, Black), Lines(second, Red);
    assert Clear !in e && Clear !in h && Clear !in m && Clear !in s;
    assert Shapes !in e && Shapes !in h && Shapes !in m && Shapes !in s;
    assert Dial !in e && Dial !in h && Dial !in m && Dial !in s;
    assert multiset(e + h + m + s + [Show]) == multiset(e) + multiset(h) + multiset(m) + multiset(s) + multiset{Show};
  }

  /** The face clears the screen once and draws the dial once. */
  lemma FaceCounts(pt: Endpoint)
    ensures multiset(FaceTrace(pt))[Clear] == 1
    ensures multiset(FaceTrace(pt))[Shapes] == 0
    ensures multiset(FaceTrace(pt))[Dial] == 1
  {
    var numerals := Numerals(pt);
    assert FaceTrace(pt) == Backdrop + numerals + [Show];
    assert forall i :: 0 <= i < |numerals| ==> numerals[i].Text?;
    assert Clear !in numerals && Shapes !in numerals && Dial !in numerals;
    assert multiset(FaceTrace(pt)) == multiset(Backdrop) + multiset(numerals) + multiset{Show};
  }

  /** What a run issues from its first set tick on: the face, then the hand
      tracker's own trace over the times read. */
  function AfterSync(pt: Endpoint, times: seq<Time>): seq<Command> {
    if times == [] then [] else FaceTrace(pt) + Track(pt, Initial, times).trace
  }

  /** Under a monotone signal nothing interleaves: the run is some ticks of
      animation, then (once the signal is set) the face, then the hand
      tracker's own trace over the times read on the set ticks. */
  lemma {:induction false} RunPhases(pt: Endpoint, ticks: seq<TickInput>)
    requires Monotone(ticks)
    ensures Run(pt, Start, ticks).trace == Waiting(|ticks| - |Synced(ticks)|) + AfterSync(pt, Synced(ticks))
    decreases |ticks|
  {
    if ticks != [] {
      var prefix := ticks[..|ticks| - 1];
      var last := ticks[|ticks| - 1];
      assert Monotone(prefix);
      RunPhases(pt, prefix);
      if last.gotTime {
        SetTickPhase(pt, ticks);
      } else {
        UnsetTickPhase(pt, ticks);
      }
    }
  }

  /** An unset tick under a monotone signal comes before any set tick, and
      appends one more animation run. */
  lemma UnsetTickPhase(pt: Endpoint, ticks: seq<TickInput>)
    requires Monotone(ticks) && ticks != [] && !ticks[|ticks| - 1].gotTime
    ensures Run(pt, Start, ticks[..|ticks| - 1]).trace ==
            Waiting(|ticks| - 1 - |Synced(ticks[..|ticks| - 1])|) + AfterSync(pt, Synced(ticks[..|ticks| - 1])) ==>
            Run(pt, Start, ticks).trace == Waiting(|ticks| - |Synced(ticks)|) + AfterSync(pt, Synced(ticks))
  {
    var prefix, last := ticks[..|ticks| - 1], ticks[|ticks| - 1];
    NoSyncBeforeUnset(ticks);
    if Run(pt, Start, prefix).trace == Waiting(|ticks| - 1 - |Synced(prefix)|) + AfterSync(pt, Synced(prefix)) {
      var before := Run(pt, Start, prefix);
      calc {
        Run(pt, Start, ticks).trace;
        before.trace + Tick(pt, before.next, last).trace;
        before.trace + [Shapes];
      == { assert AfterSync(pt, []) == []; }
        Waiting(|prefix|) + [] + [Shapes];
      == { assert Waiting(|prefix|) + [Shapes] == Waiting(|ticks|); }
        Waiting(|ticks|) + [];
      == { assert AfterSync(pt, Synced(ticks)) == []; }
        Waiting(|ticks| - |Synced(ticks)|) + AfterSync(pt, Synced(ticks));
      }
    }
  }

  /** A set tick appends the face (if not yet drawn) and one hand update. */
  lemma SetTickPhase(pt: Endpoint, ticks: seq<TickInput>)
    requires ticks != [] && ticks[|ticks| - 1].gotTime
    ensures Run(pt, Start, ticks[..|ticks| - 1]).trace ==
            Waiting(|ticks| - 1 - |Synced(ticks[..|ticks| - 1])|) + AfterSync(pt, Synced(ticks[..|ticks| - 1])) ==>
            Run(pt, Start, ticks).trace == Waiting(|ticks| - |Synced(ticks)|) + AfterSync(pt, Synced(ticks))
  {
    var prefix, last := ticks[..|ticks| - 1], ticks[|ticks| - 1];
    var earlier := Synced(prefix);
    var u := (if earlier == [] then FaceTrace(pt) else []) + UpdateClock(pt, Track(pt, Initial, earlier).next, last.now).trace;
    RunSetTick(pt, ticks);
    AfterSyncAppend(pt, earlier, last.now);
    var waiting := Waiting(|ticks| - 1 - |earlier|);
    if Run(pt, Start, prefix).trace == waiting + AfterSync(pt, earlier) {
      Extend(Run(pt, Start, ticks).trace, Run(pt, Start, prefix).trace, waiting,
             AfterSync(pt, earlier), u, AfterSync(pt, Synced(ticks)));
    }
  }

  /** A run that grows by `u` keeps its waiting part when the part after the
      sync grows by the same `u`. */
  lemma Extend(run: seq<Command>, before: seq<Command>, waiting: seq<Command>, after: seq<Command>,
               u: seq<Command>, extended: seq<Command>)
    requires run == before + u && before == waiting + after && extended == after + u
    ensures run == waiting + extended
  {
  }

  /** Unfolds one set tick at the end of a run: the times read grow by the
      tick's time, and the trace grows by the face (on the first set tick)
      and the hand update from the tracker's state.  Automatic induction on
      `ticks` is switched off: the one-step unfolding is all the proof needs. */
  lemma {:induction false} RunSetTick(pt: Endpoint, ticks: seq<TickInput>)
    requires ticks != [] && ticks[|ticks| - 1].gotTime
    ensures Synced(ticks) == Synced(ticks[..|ticks| - 1]) + [ticks[|ticks| - 1].now]
    ensures |ticks| - |Synced(ticks)| == |ticks| - 1 - |Synced(ticks[..|ticks| - 1])|
    ensures Run(pt, Start, ticks).trace ==
            Run(pt, Start, ticks[..|ticks| - 1]).trace +
            ((if Synced(ticks[..|ticks| - 1]) == [] then FaceTrace(pt) else []) +
             UpdateClock(pt, Track(pt, Initial, Synced(ticks[..|ticks| - 1])).next, ticks[|ticks| - 1].now).trace)
  {
    var prefix := ticks[..|ticks| - 1];
    RunState(pt, prefix);
  }

  /** One more time read appends the face (if it is the first) and that
      time's hand update. */
  lemma AfterSyncAppend(pt: Endpoint, times: seq<Time>, t: Time)
    ensures AfterSync(pt, times + [t]) ==
            AfterSync(pt, times) + ((if times == [] then FaceTrace(pt) else []) +
                                    UpdateClock(pt, Track(pt, Initial, times).next, t).trace)
  {
    var all := times + [t];
    assert all[..|all| - 1] == times;
  }

  /** With a monotone signal, an unset last tick means it was never set. */
  lemma {:induction false} NoSyncBeforeUnset(ticks: seq<TickInput>)
    requires Monotone(ticks) && ticks != [] && !ticks[|ticks| - 1].gotTime
    ensures Synced(ticks) == []
    ensures Synced(ticks[..|ticks| - 1]) == []
    decreases |ticks|
  {
    var prefix := ticks[..|ticks| - 1];
    if prefix != [] {
      assert !prefix[|prefix| - 1].gotTime;
      assert Monotone(prefix);
      NoSyncBeforeUnset(prefix);
    }
  }

  /** The end-to-end no-ghosting guarantee: whatever strokes were on the
      display before, once the signal has been set the only hand strokes
      left after any run are those of the last time read.  Before that, the
      first animation run wipes them. */
  lemma {:induction false} RunShowsOnlyCurrentHands(pt: Endpoint, ticks: seq<TickInput>, live: multiset<Segment>)
    requires Monotone(ticks)
    ensures Synced(ticks) != [] ==>
              Replay(live, Run(pt, Start, ticks).trace) == multiset(HandStrokes(pt, Synced(ticks)[|Synced(ticks)| - 1]))
    ensures Synced(ticks) == [] ==>
              Replay(live, Run(pt, Start, ticks).trace) == if ticks == [] then live else multiset{}
  {
    RunPhases(pt, ticks);
    var synced := Synced(ticks);
    var waiting := Waiting(|ticks| - |synced|);
    ReplayWaiting(live, |ticks| - |synced|);
    if synced != [] {
      var face := FaceTrace(pt);
      var track := Track(pt, Initial, synced).trace;
      var wiped := Replay(live, waiting);
      calc {
        Replay(live, Run(pt, Start, ticks).trace);
        Replay(live, waiting + AfterSync(pt, synced));
        Replay(live, waiting + (face + track));
      == { ReplayConcat(live, waiting, face + track); }
        Replay(wiped, face + track);
      == { ReplayConcat(wiped, face, track); FaceLayout(pt, wiped); }
        Replay(multiset{}, track);
      == { TrackLeavesOnlyLastHands(pt, synced); }
        multiset(HandStrokes(pt, synced[|synced| - 1]));
      }
    } else {
      assert waiting + [] == waiting;
    }
  }
}
