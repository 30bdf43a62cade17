/** The static face, drawn once: a cleared screen, a double frame, the white
    dial, and the twelve hour numerals on a circle of radius 80. */
module WatchFace {
  import opened Canvas
  import opened Geometry

  /** The label of the k-th numeral drawn, going clockwise from the top:
      twelve first, then one to eleven. */
  function Label(k: nat): nat {
    if k == 0 then 12 else k
  }

  function DigitChar(d: int): char
    requires 0 <= d < 10
  {
    ('0' as int + d) as char
  }

  /** Decimal rendering of a natural number, most significant digit first. */
  function Decimal(n: nat): (r: string)
    ensures |r| >= 1
    decreases n
  {
    if n < 10 then [DigitChar(n)] else Decimal(n / 10) + [DigitChar(n % 10)]
  }

  /** Reads a string of decimal digits back as a number. */
  function DecimalValue(s: string): int
    decreases |s|
  {
    if s == [] then 0 else DecimalValue(s[..|s| - 1]) * 10 + (s[|s| - 1] as int - '0' as int)
  }

  lemma {:induction false} DecimalRoundTrip(n: nat)
    ensures DecimalValue(Decimal(n)) == n
    ensures forall i :: 0 <= i < |Decimal(n)| ==> '0' <= Decimal(n)[i] <= '9'
    decreases n
  {
    if n >= 10 {
      DecimalRoundTrip(n / 10);
      var s := Decimal(n);
      assert s[..|s| - 1] == Decimal(n / 10);
    }
  }

  /** Labels below ten have one digit, labels from ten to ninety-nine two. */
  lemma DecimalWidth(n: nat)
    requires n < 100
    ensures |Decimal(n)| == if n > 9 then 2 else 1
  {
  }

  /** The k-th numeral as the layout intends it: its text is the label, and
      it is shifted left by five pixels per digit and up by five pixels from
      its anchor on radius 80, so that it sits roughly centred there. */
  function Numeral(pt: Endpoint, k: nat): Command {
    var anchor := pt(Centre, NumeralAnchor(5 * k));
    var text := Decimal(Label(k));
    Text(Point(anchor.x - 5 * |text|, anchor.y - 5), text, Black)
  }

  function Numerals(pt: Endpoint): seq<Command> {
    seq(12, k requires 0 <= k < 12 => Numeral(pt, k))
  }

  /** The filled dial of radius 100 in the face colour. */
  const Dial: Command := Circle(Centre.x, Centre.y, 100, WatchBackground, true)

  /** The clear, the outer frame edge to edge, the inner frame inset by five
      pixels, and the dial. */
  const Backdrop: seq<Command> := [
    Clear,
    Rect(0, 0, DisplayWidth, DisplayHeight, White, false),
    Rect(5, 5, DisplayWidth - 10, DisplayHeight - 10, White, false),
    Dial
  ]

  /** Everything the face drawing issues, in order. */
  function FaceTrace(pt: Endpoint): seq<Command> {
    Backdrop + Numerals(pt) + [Show]
  }

  /** The face drawing as the application runs it: a pass over the sixty
      minute positions, drawing a numeral at every fifth one with a label
      counter that starts at twelve and then wraps to one. */
  method DrawWatchFace(pt: Endpoint) returns (trace: seq<Command>)
    ensures trace == FaceTrace(pt)
  {
    trace := [Clear];
    var hour := 12;
    var xCenter, yCenter := DisplayWidth / 2, DisplayHeight / 2;
    trace := trace + [Rect(0, 0, DisplayWidth, DisplayHeight, White, false)];
    trace := trace + [Rect(5, 5, DisplayWidth - 10, DisplayHeight - 10, White, false)];
    trace := trace + [Circle(xCenter, yCenter, 100, WatchBackground, true)];
    var i := 0;
    while i < 60
      invariant 0 <= i <= 60
      invariant hour == Label(NumeralsBefore(i))
      invariant trace == Backdrop + Numerals(pt)[..NumeralsBefore(i)]
    {
      var p := pt(Point(xCenter, yCenter), NumeralAnchor(i));
      if i % 5 == 0 {
        NumeralStep(pt, i, hour);
        trace := trace + [Text(Point(if hour > 9 then p.x - 10 else p.x - 5, p.y - 5), Decimal(hour), Black)];
        if hour == 12 { hour := 1; } else { hour := hour + 1; }
      } else {
        assert NumeralsBefore(i + 1) == NumeralsBefore(i);
      }
      i := i + 1;
    }
    assert Numerals(pt)[..12] == Numerals(pt);
    trace := trace + [Show];
  }

  /** How many numerals a pass over positions 0 to i - 1 has drawn. */
  function NumeralsBefore(i: nat): nat {
    (i + 4) / 5
  }

  /** At a position that is a multiple of five, the numeral the loop draws
      with counter `hour` is the next numeral of the layout, and the counter
      moves on to the next label. */
  lemma NumeralStep(pt: Endpoint, i: nat, hour: int)
    requires i < 60 && i % 5 == 0 && hour == Label(NumeralsBefore(i))
    ensures NumeralsBefore(i + 1) == NumeralsBefore(i) + 1 && NumeralsBefore(i) < 12
    ensures var p := pt(Centre, NumeralAnchor(i));
            Numerals(pt)[..NumeralsBefore(i + 1)] ==
            Numerals(pt)[..NumeralsBefore(i)] + [Text(Point(if hour > 9 then p.x - 10 else p.x - 5, p.y - 5), Decimal(hour), Black)]
    ensures (if hour == 12 then 1 else hour + 1) == Label(NumeralsBefore(i + 1))
  {
    var k := NumeralsBefore(i);
    assert 5 * k == i;
    DecimalWidth(hour);
    assert Numerals(pt)[..k + 1] == Numerals(pt)[..k] + [Numeral(pt, k)];
  }

  lemma DecimalLabels()
    ensures Decimal(1) == "1" && Decimal(2) == "2" && Decimal(3) == "3" && Decimal(4) == "4"
    ensures Decimal(5) == "5" && Decimal(6) == "6" && Decimal(7) == "7" && Decimal(8) == "8"
    ensures Decimal(9) == "9" && Decimal(10) == "10" && Decimal(11) == "11" && Decimal(12) == "12"
  {
    assert Decimal(1) == [DigitChar(1)];
    assert Decimal(10) == Decimal(1) + [DigitChar(0)];
    assert Decimal(11) == Decimal(1) + [DigitChar(1)];
    assert Decimal(12) == Decimal(1) + [DigitChar(2)];
  }

  /** The twelve labels read 12, 1, 2, ..., 11 in drawing order. */
  lemma FaceLabels(pt: Endpoint)
    ensures |Numerals(pt)| == 12
    ensures seq(12, k requires 0 <= k < 12 => Numerals(pt)[k].text) ==
            ["12", "1", "2", "3", "4", "5", "6", "7", "8", "9", "10", "11"]
  {
    var texts := seq(12, k requires 0 <= k < 12 => Numerals(pt)[k].text);
    forall k | 0 <= k < 12 ensures texts[k] == Decimal(Label(k)) {
      assert Numerals(pt)[k] == Numeral(pt, k);
    }
    DecimalLabels();
    assert texts[0] == "12";
    assert texts[1] == "1";
    assert texts[2] == "2";
    assert texts[3] == "3";
    assert texts[4] == "4";
    assert texts[5] == "5";
    assert texts[6] == "6";
    assert texts[7] == "7";
    assert texts[8] == "8";
    assert texts[9] == "9";
    assert texts[10] == "10";
    assert texts[11] == "11";
  }

  /** Each numeral is black, and is drawn at its anchor on radius 80 at
      position 5 * k of sixty, moved up five pixels and left ten pixels for
      the two-digit labels 12, 10 and 11 and five pixels for the others. */
  lemma FaceOffsets(pt: Endpoint)
    ensures forall k :: 0 <= k < 12 ==>
              Numerals(pt)[k].Text? && Numerals(pt)[k].color == Black &&
              Numerals(pt)[k].at.y == pt(Centre, Polar(80, 5 * k, 30)).y - 5 &&
              Numerals(pt)[k].at.x == pt(Centre, Polar(80, 5 * k, 30)).x - (if k == 0 || k > 9 then 10 else 5)
  {
    forall k | 0 <= k < 12
      ensures Numerals(pt)[k].at.x == pt(Centre, Polar(80, 5 * k, 30)).x - (if k == 0 || k > 9 then 10 else 5)
    {
      DecimalWidth(Label(k));
    }
  }

  /** The face in pixels: the clear, the 239 by 239 outer frame at the
      origin, the 229 by 229 inner frame at (5, 5), the white dial of radius
      100 at (119, 119), the twelve numerals, and one Show. */
  lemma FaceCommands(pt: Endpoint)
    ensures |FaceTrace(pt)| == 17
    ensures FaceTrace(pt)[..4] ==
            [Clear, Rect(0, 0, 239, 239, White, false), Rect(5, 5, 229, 229, White, false), Circle(119, 119, 100, White, true)]
    ensures FaceTrace(pt)[4..16] == Numerals(pt)
    ensures FaceTrace(pt)[16] == Show
  {
  }

  /** The face is cleared first and shown once at the end; the two frames
      and the dial are all centred on the hands' pivot; and it issues no
      line, so it neither draws nor erases a hand stroke: afterwards no hand
      stroke is left, whatever was there. */
  lemma FaceLayout(pt: Endpoint, live: multiset<Segment>)
    ensures FaceTrace(pt)[0] == Clear
    ensures ShownOnceAtEnd(FaceTrace(pt))
    ensures forall c :: c in FaceTrace(pt) ==> !c.Line?
    ensures forall c :: c in FaceTrace(pt) && c.Rect? ==>
              c.x + c.width / 2 == Centre.x && c.y + c.height / 2 == Centre.y
    ensures forall c :: c in FaceTrace(pt) && c.Circle? ==> Point(c.cx, c.cy) == Centre
    ensures Replay(live, FaceTrace(pt)) == multiset{}
  {
    var face := FaceTrace(pt);
    assert face == [Clear] + face[1..];
    assert Replay(live, face) == Replay(multiset{}, face[1..]);
    ReplayNoStrokes(multiset{}, face[1..]);
  }
}
