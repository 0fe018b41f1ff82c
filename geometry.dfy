/** Plane geometry shared by the scenes.
    Manim's points are three-dimensional vectors; every point these scenes
    build has z = 0, so a point is a pair of reals. The reals are exact;
    the program's floating-point vectors round decimal coordinates. */
module Geometry {

  datatype Point = Point(x: real, y: real) {
    /** Vector addition, Manim's `p + v`. */
    function Plus(v: Point): Point
    {
      Point(x + v.x, y + v.y)
    }

    /** Scalar multiplication, Manim's `v * k`. */
    function Scaled(k: real): Point
    {
      Point(k * x, k * y)
    }
  }

  /** Manim's unit direction constants. */
  const Left: Point := Point(-1.0, 0.0)
  const Right: Point := Point(1.0, 0.0)
  const Up: Point := Point(0.0, 1.0)
  const Down: Point := Point(0.0, -1.0)

  /** The named colours these scenes use. */
  datatype Color =
    | White | Gray | Yellow | Orange | Pink | Purple | Blue | Teal | Maroon
    | Red | Green

  /** A straight line between two points (Manim's `Line`). */
  datatype Line = Line(start: Point, end: Point, color: Color)
}
