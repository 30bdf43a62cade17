/** Hand and numeral geometry.  The application computes every endpoint as
    the centre plus a length times (sin a, -cos a), with a = value * pi / divisor,
    truncating each coordinate to an integer.  The model keeps the arguments
    exactly and leaves the floating-point evaluation to an endpoint function
    passed in by the caller: whatever that function is, it is a function, so
    the same arguments always yield the same pixel. */
module Geometry {
  import opened Canvas

  /** The arguments of one endpoint computation. */
  datatype Polar = Polar(length: int, value: int, divisor: int)

  /** The trigonometry and truncation of the application, left abstract. */
  type Endpoint = (Point, Polar) -> Point

  /** Hour hand: a 43-pixel tip, and two 3-pixel tails at hour -/+ 3 (with
      divisor 6, a quarter turn either side). */
  function HourTip(hour: int): Polar {
    Polar(43, hour, 6)
  }

  function HourTails(hour: int): (r: seq<Polar>)
    ensures |r| == 2
    ensures r[0].length == 3 && r[1].length == 3 && r[0].divisor == 6 && r[1].divisor == 6
    ensures (Direction(r[1]) - Direction(r[0])) % 60 == 30
  {
    ModDifference(5 * (hour + 3), 5 * (hour - 3), 30, 0);
    [Polar(3, hour - 3, 6), Polar(3, hour + 3, 6)]
  }

  /** Minute hand: a 55-pixel tip measured in sixtieths (divisor 30), but two
      3-pixel tails at minute -/+ 15 measured with divisor 6, as the
      application writes them. */
  function MinuteTip(minute: int): Polar {
    Polar(55, minute, 30)
  }

  function MinuteTails(minute: int): (r: seq<Polar>)
    ensures |r| == 2
    ensures r[0].length == 3 && r[1].length == 3 && r[0].divisor == 6 && r[1].divisor == 6
    ensures (Direction(r[1]) - Direction(r[0])) % 60 == 30
  {
    ModDifference(5 * (minute + 15), 5 * (minute - 15), 30, 2);
    [Polar(3, minute - 15, 6), Polar(3, minute + 15, 6)]
  }

  /** Second hand: a single 70-pixel stroke from the centre. */
  function SecondTip(second: int): Polar {
    Polar(70, second, 30)
  }

  /** Where the i-th of the sixty face positions lies, on radius 80. */
  function NumeralAnchor(i: int): Polar {
    Polar(80, i, 30)
  }

  /** A two-stroke hand: one segment from each tail to the shared tip. */
  function TwoStrokes(pt: Endpoint, tails: seq<Polar>, tip: Polar): (r: seq<Segment>)
    requires |tails| == 2
    ensures |r| == 2
    ensures forall i :: 0 <= i < 2 ==> r[i].from == pt(Centre, tails[i])
    ensures forall i :: 0 <= i < 2 ==> r[i].to == pt(Centre, tip)
  {
    var t := pt(Centre, tip);
    [Segment(pt(Centre, tails[0]), t), Segment(pt(Centre, tails[1]), t)]
  }

  /* ---------------------------------------------------------------------
     Exact directions.  sin and cos of value * pi / divisor repeat every
     2 * divisor units of value, so with divisor 6 or 30 the direction is
     value * 30 / divisor sixtieths of a turn, clockwise from twelve
     o'clock.  These facts are about the arguments, not about the rounding
     of their floating-point evaluation.
     --------------------------------------------------------------------- */

  predicate ClockDivisor(p: Polar) {
    p.divisor == 6 || p.divisor == 30
  }

  function Direction(p: Polar): (d: int)
    requires ClockDivisor(p)
    ensures 0 <= d < 60
  {
    (p.value * (30 / p.divisor)) % 60
  }

  predicate QuarterTurnApart(a: Polar, b: Polar)
    requires ClockDivisor(a) && ClockDivisor(b)
  {
    (Direction(a) - Direction(b)) % 60 in {15, 45}
  }

  /** Hours are stored unreduced (0 to 23), but h and h + 12 point the same
      way. */
  lemma HourHalfDay(hour: int)
    ensures Direction(HourTip(hour + 12)) == Direction(HourTip(hour))
  {
    assert (hour + 12) * 5 == hour * 5 + 60;
  }

  /** Each hour tail sits a quarter turn from the hour tip, so the hour hand
      is a symmetric arrow. */
  lemma HourTailsSquare(hour: int)
    ensures forall p :: p in HourTails(hour) ==> ClockDivisor(p) && QuarterTurnApart(p, HourTip(hour))
  {
    var before, after := Polar(3, hour - 3, 6), Polar(3, hour + 3, 6);
    assert HourTails(hour) == [before, after];
    assert Direction(before) - Direction(HourTip(hour)) == (5 * hour - 15) % 60 - (5 * hour) % 60;
    ModDifference(5 * hour - 15, 5 * hour, 45, -1);
    assert Direction(after) - Direction(HourTip(hour)) == (5 * hour + 15) % 60 - (5 * hour) % 60;
    ModDifference(5 * hour + 15, 5 * hour, 15, 0);
  }

  /** The minute tails are measured in twelfths while the tip is measured in
      sixtieths, so they sit a quarter turn from the tip only on the
      quarter hours. */
  lemma MinuteTailsSquareOnlyOnQuarters(minute: int)
    ensures forall p :: p in MinuteTails(minute) ==> ClockDivisor(p)
    ensures (forall p :: p in MinuteTails(minute) ==> QuarterTurnApart(p, MinuteTip(minute)))
            <==> minute % 15 == 0
  {
    var before, after := Polar(3, minute - 15, 6), Polar(3, minute + 15, 6);
    assert MinuteTails(minute) == [before, after];
    MinuteTailOffsets(minute);
    QuarterResidues(minute % 15);
  }

  /** 4 * minute is 60 * (minute / 15) + 4 * (minute % 15), so how far each
      minute tail sits from the tip depends on minute % 15 alone. */
  lemma MinuteTailOffsets(minute: int)
    ensures QuarterTurnApart(Polar(3, minute - 15, 6), MinuteTip(minute)) <==> (4 * (minute % 15) + 45) % 60 in {15, 45}
    ensures QuarterTurnApart(Polar(3, minute + 15, 6), MinuteTip(minute)) <==> (4 * (minute % 15) + 15) % 60 in {15, 45}
  {
    var q, s := minute / 15, minute % 15;
    var tip := Direction(MinuteTip(minute));
    assert (Direction(Polar(3, minute - 15, 6)) - tip) % 60 == (4 * s + 45) % 60 by {
      assert Direction(Polar(3, minute - 15, 6)) == (5 * minute - 75) % 60;
      ModDifference(5 * minute - 75, minute, 4 * s + 45, q - 2);
    }
    assert (Direction(Polar(3, minute + 15, 6)) - tip) % 60 == (4 * s + 15) % 60 by {
      assert Direction(Polar(3, minute + 15, 6)) == (5 * minute + 75) % 60;
      ModDifference(5 * minute + 75, minute, 4 * s + 15, q + 1);
    }
  }

  lemma QuarterResidues(s: int)
    requires 0 <= s < 15
    ensures ((4 * s + 45) % 60 in {15, 45} && (4 * s + 15) % 60 in {15, 45}) <==> s == 0
  {
    if s < 12 {
      assert (4 * s + 15) % 60 == 4 * s + 15;
    } else {
      assert (4 * s + 15) % 60 == 4 * s - 45;
    }
  }

  /** (a % 60 - b % 60) % 60 is (a - b) % 60, written for a - b = c + 60 * k. */
  lemma ModDifference(a: int, b: int, c: int, k: int)
    requires a - b == c + 60 * k
    ensures (a % 60 - b % 60) % 60 == c % 60
  {
    assert a % 60 - b % 60 == c + 60 * (k - a / 60 + b / 60);
  }
}
