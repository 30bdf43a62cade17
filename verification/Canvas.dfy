/** The drawing surface of the clock, seen as an append-only trace of the
    commands the application issues to its graphics library.  Nothing here
    rasterises: the properties of the clock are stated over this trace. */
module Canvas {

  /** Width and height the application works with (the panel itself is
      240 by 240; the application uses 239 for both extents). */
  const DisplayWidth: int := 239
  const DisplayHeight: int := 239

  datatype Point = Point(x: int, y: int)

  /** The pivot of every hand and the centre of the face: integer halves of
      the display extents. */
  const Centre: Point := Point(DisplayWidth / 2, DisplayHeight / 2)

  /** The colours the clock uses.  The random colours of the fallback
      animation never reach this model: that animation is one opaque command. */
  datatype Color = White | Black | Red

  /** The colour the face is painted in, and so the colour that erases a hand. */
  const WatchBackground: Color := White

  /** Every colour a hand is drawn in. */
  const Foreground: set<Color> := {Black, Red}

  datatype Segment = Segment(from: Point, to: Point)

  /** One call into the graphics library. `Shapes` stands for a whole run of
      the random fallback animation: it clears the screen, then draws random
      shapes in random colours, none of which is a hand stroke. */
  datatype Command =
    | Clear
    | Rect(x: int, y: int, width: int, height: int, color: Color, filled: bool)
    | Circle(cx: int, cy: int, radius: int, color: Color, filled: bool)
    | Text(at: Point, text: string, color: Color)
    | Line(seg: Segment, color: Color)
    | Show
    | Shapes

  /** One line command per segment, in order, all in colour `c`. */
  function Lines(segs: seq<Segment>, c: Color): (r: seq<Command>)
    ensures |r| == |segs|
  {
    seq(|segs|, i requires 0 <= i < |segs| => Line(segs[i], c))
  }

  predicate IsLineIn(cmd: Command, colors: set<Color>) {
    cmd.Line? && cmd.color in colors
  }

  /** The segments of the line commands of `trace` whose colour is in
      `colors`, in the order they were issued. */
  function LinesIn(trace: seq<Command>, colors: set<Color>): (r: seq<Segment>)
    ensures |r| <= |trace|
  {
    if trace == [] then [] else LineIn(trace[0], colors) + LinesIn(trace[1..], colors)
  }

  /** The segment of one command, when it is a line in one of `colors`. */
  function LineIn(cmd: Command, colors: set<Color>): (r: seq<Segment>)
    ensures |r| <= 1
  {
    if IsLineIn(cmd, colors) then [cmd.seg] else []
  }

  /** The segments a trace erases, and the segments it draws. */
  function Erased(trace: seq<Command>): seq<Segment> {
    LinesIn(trace, {WatchBackground})
  }

  function Drawn(trace: seq<Command>): seq<Segment> {
    LinesIn(trace, Foreground)
  }

  /** No line in the background colour is issued after a line in a hand
      colour. */
  predicate ErasesBeforeDraws(trace: seq<Command>) {
    forall i, j :: 0 <= i < j < |trace| ==>
      !(IsLineIn(trace[i], Foreground) && IsLineIn(trace[j], {WatchBackground}))
  }

  /** The frame is sent to the display exactly once, as the last command. */
  predicate ShownOnceAtEnd(trace: seq<Command>) {
    |trace| > 0 && trace[|trace| - 1] == Show &&
    forall i :: 0 <= i < |trace| - 1 ==> trace[i] != Show
  }

  lemma {:induction false} LinesInConcat(a: seq<Command>, b: seq<Command>, colors: set<Color>)
    ensures LinesIn(a + b, colors) == LinesIn(a, colors) + LinesIn(b, colors)
    decreases |a|
  {
    if a == [] {
      assert a + b == b;
    } else {
      assert (a + b)[0] == a[0];
      assert (a + b)[1..] == a[1..] + b;
      LinesInConcat(a[1..], b, colors);
      assert LinesIn(a + b, colors) == LineIn(a[0], colors) + LinesIn(a[1..] + b, colors);
    }
  }

  /** Every line in one of `colors` shows up in the filter. */
  lemma {:induction false} LinesInContains(trace: seq<Command>, colors: set<Color>, i: int)
    requires 0 <= i < |trace| && IsLineIn(trace[i], colors)
    ensures trace[i].seg in LinesIn(trace, colors)
    decreases i
  {
    if i > 0 {
      LinesInContains(trace[1..], colors, i - 1);
    }
  }

  /** Filtering a block of same-coloured lines keeps all of it or none of it. */
  lemma {:induction false} LinesInLines(segs: seq<Segment>, c: Color, colors: set<Color>)
    ensures LinesIn(Lines(segs, c), colors) == if c in colors then segs else []
    decreases |segs|
  {
    if segs != [] {
      assert Lines(segs, c)[1..] == Lines(segs[1..], c);
      LinesInLines(segs[1..], c, colors);
    }
  }

  /* ---------------------------------------------------------------------
     Stroke-level replay.  The clock keeps only the last values it drew and
     never reads pixels back, so it erases a hand by drawing it again in the
     background colour.  Replay
     keeps the multiset of hand strokes currently on the glass: a line in a
     hand colour adds its segment, a line in the background colour removes
     one stroke with exactly the same endpoints (and removes nothing when no
     such stroke is there), Clear and the animation (which starts with its own
     clear) remove everything, and every other command leaves the strokes
     alone.
     --------------------------------------------------------------------- */

  function Step(live: multiset<Segment>, cmd: Command): multiset<Segment> {
    match cmd
    case Clear => multiset{}
    case Shapes => multiset{}
    case Line(s, c) => if c == WatchBackground then live - multiset{s} else live + multiset{s}
    case _ => live
  }

  function Replay(live: multiset<Segment>, trace: seq<Command>): multiset<Segment>
    decreases |trace|
  {
    if trace == [] then live else Replay(Step(live, trace[0]), trace[1..])
  }

  lemma {:induction false} ReplayConcat(live: multiset<Segment>, a: seq<Command>, b: seq<Command>)
    ensures Replay(live, a + b) == Replay(Replay(live, a), b)
    decreases |a|
  {
    if a == [] {
      assert a + b == b;
    } else {
      assert (a + b)[1..] == a[1..] + b;
      ReplayConcat(Step(live, a[0]), a[1..], b);
    }
  }

  /** Drawing a block of lines adds exactly its segments; erasing a block
      removes exactly its segments. */
  lemma {:induction false} ReplayLines(live: multiset<Segment>, segs: seq<Segment>, c: Color)
    ensures Replay(live, Lines(segs, c)) ==
            if c == WatchBackground then live - multiset(segs) else live + multiset(segs)
    decreases |segs|
  {
    if segs == [] {
    } else {
      var rest := segs[1..];
      var trace := Lines(segs, c);
      assert segs == [segs[0]] + rest;
      assert trace[0] == Line(segs[0], c);
      assert trace[1..] == Lines(rest, c);
      assert Replay(live, trace) == Replay(Step(live, trace[0]), trace[1..]);
      ReplayLines(Step(live, Line(segs[0], c)), rest, c);
      assert multiset(segs) == multiset{segs[0]} + multiset(rest);
      if c == WatchBackground {
        SubtractTwice(live, multiset{segs[0]}, multiset(rest));
      }
    }
  }

  lemma SubtractTwice<T>(m: multiset<T>, a: multiset<T>, b: multiset<T>)
    ensures m - a - b == m - (a + b)
  {
    forall x
      ensures (m - a - b)[x] == (m - (a + b))[x]
    {
    }
  }

  /** A trace without clears, animation runs or line commands leaves the
      strokes alone. */
  lemma {:induction false} ReplayNoStrokes(live: multiset<Segment>, trace: seq<Command>)
    requires forall i :: 0 <= i < |trace| ==> !trace[i].Line? && trace[i] != Clear && trace[i] != Shapes
    ensures Replay(live, trace) == live
    decreases |trace|
  {
    if trace != [] {
      ReplayNoStrokes(live, trace[1..]);
    }
  }
}
