/** The immutable circle record of Fractal.java: a centre, a radius, its diameter and a colour. */
module Shapes {
  import opened Wrappers
  import opened JavaInts

  /** One channel of a `java.awt.Color`; the Color constructor only accepts 0..255. */
  type Channel = x: int | 0 <= x <= 255

  /** An opaque RGB colour. */
  datatype Color = RGB(red: Channel, green: Channel, blue: Channel)

  /** A `java.awt.Point`: two `int` coordinates. */
  datatype Point = Point(x: Int32, y: Int32)

  /** A constructed circle. Fields are set once by NewFractal and never change. */
  datatype Fractal = Fractal(centerPoint: Point, diameter: Int32, radius: Int32, color: Color) {

    /** What the constructor establishes: a positive radius and the diameter computed from it. */
    ghost predicate Valid() {
      radius > 0 && diameter == Wrap(2 * radius)
    }

    function GetCenterPoint(): Point { centerPoint }

    function GetRadius(): Int32 { radius }

    function GetColor(): Color { color }

    /**
     * The diameter is twice the radius, except that Java's `int` multiplication
     * wraps to a negative number once the radius reaches 2^30.
     */
    function GetDiameter(): (d: Int32)
      requires Valid()
      ensures radius < 0x4000_0000 ==> d == 2 * GetRadius()
      ensures radius >= 0x4000_0000 ==> d < 0 && d == 2 * GetRadius() - 0x1_0000_0000
    {
      diameter
    }
  }

  /**
   * The constructor `Fractal(int radius, Point centerPoint, Color color)`:
   * it throws IllegalArgumentException for a non-positive radius, a null centre or a null colour.
   */
  function NewFractal(radius: Int32, centerPoint: Option<Point>, color: Option<Color>): (r: Result<Fractal>)
    ensures r.Ok? <==> radius > 0 && centerPoint.Some? && color.Some?
    ensures r.Err? ==> r.error == IllegalArgument
    ensures r.Ok? ==> r.value.Valid()
    ensures r.Ok? ==> r.value.GetRadius() == radius && r.value.GetCenterPoint() == centerPoint.value
                      && r.value.GetColor() == color.value
  {
    if radius <= 0 then Err(IllegalArgument)
    else if centerPoint.None? then Err(IllegalArgument)
    else if color.None? then Err(IllegalArgument)
    else Ok(Fractal(centerPoint.value, Wrap(radius * 2), radius, color.value))
  }
}
