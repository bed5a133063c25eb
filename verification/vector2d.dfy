/** The `Vector2D` value type: a pair of coordinates copied on assignment.

    Every operator returns a fresh value, so no operation here can alter
    its operands. `Length` and `Normalize` need `Math.Sqrt`, which the model
    receives as a parameter; distances are otherwise compared squared. */
module Vector2D {
  import opened Utils

  datatype Vec = Vec(x: real, y: real) {

    /** Instance form of the dot product. */
    function Dot(v: Vec): real {
      x * v.x + y * v.y
    }

    /** Instance form of `Sign`: 1 when `v` is clockwise of this vector
        (in the program's y-down screen coordinates), -1 otherwise. */
    function Sign(v: Vec): int {
      if y * v.x > x * v.y then 1 else -1
    }
  }

  /** `default(Vector2D)`. */
  const Zero := Vec(0.0, 0.0)

  function Add(a: Vec, b: Vec): Vec {
    Vec(a.x + b.x, a.y + b.y)
  }

  function Sub(a: Vec, b: Vec): Vec {
    Vec(a.x - b.x, a.y - b.y)
  }

  /** `v * s`. */
  function Scale(v: Vec, s: real): Vec {
    Vec(v.x * s, v.y * s)
  }

  /** `s * v`, a separate operator overload in the program. */
  function ScaleLeft(s: real, v: Vec): Vec {
    Vec(v.x * s, v.y * s)
  }

  /** `v / s`. Division by zero yields infinities in IEEE arithmetic; the
      model requires a non-zero divisor. */
  function Div(v: Vec, s: real): Vec
    requires s != 0.0
  {
    Vec(v.x / s, v.y / s)
  }

  /** Static form of the dot product. */
  function Dot(v1: Vec, v2: Vec): real {
    v1.x * v2.x + v1.y * v2.y
  }

  /** Static form of `Sign`. */
  function Sign(v1: Vec, v2: Vec): int {
    if v1.y * v2.x > v1.x * v2.y then 1 else -1
  }

  /** The squared length x*x + y*y; `Length` is its square root. */
  function LengthSq(v: Vec): real {
    v.x * v.x + v.y * v.y
  }

  /** `Normalize`: divides both coordinates by `Length`. The program
      divides by zero for the zero vector (giving NaN); the model returns
      the zero vector instead. */
  function Normalize(v: Vec, sqrt: real -> real): Vec {
    var len := sqrt(LengthSq(v));
    if len == 0.0 then Zero else Div(v, len)
  }

  /** `GetRandom(cx, cy)` from two `RandFloat()` draws. */
  function GetRandom(cx: real, cy: real, ux: real, uy: real): Vec {
    Vec(ux * cx, uy * cy)
  }

  // ----------------------------------------------------------------------
  // Properties
  // ----------------------------------------------------------------------

  lemma AddSubComponentwise(a: Vec, b: Vec)
    ensures Add(a, b).x == a.x + b.x && Add(a, b).y == a.y + b.y
    ensures Sub(a, b).x == a.x - b.x && Sub(a, b).y == a.y - b.y
    ensures Add(Sub(a, b), b) == a
    ensures Sub(Add(a, b), b) == a
  {
  }

  lemma ScaleOperandOrder(v: Vec, s: real)
    ensures Scale(v, s) == ScaleLeft(s, v)
    ensures Scale(v, s).x == s * v.x && Scale(v, s).y == s * v.y
    ensures s != 0.0 ==> Div(v, s).x == v.x / s && Div(v, s).y == v.y / s
    ensures s != 0.0 ==> Scale(Div(v, s), s) == v
  {
  }

  lemma DotSymmetric(a: Vec, b: Vec)
    ensures Dot(a, b) == Dot(b, a)
    ensures a.Dot(b) == Dot(a, b)
  {
  }

  /** `Sign` only ever answers 1 or -1: collinear vectors (including the
      zero vector) get -1, and swapping non-collinear arguments flips it. */
  lemma SignProperties(a: Vec, b: Vec)
    ensures a.Sign(b) == Sign(a, b)
    ensures Sign(a, b) == 1 || Sign(a, b) == -1
    ensures a.y * b.x == a.x * b.y ==> Sign(a, b) == -1
    ensures a == Zero || b == Zero ==> Sign(a, b) == -1
    ensures a.y * b.x != a.x * b.y ==> Sign(a, b) == -Sign(b, a)
  {
  }

  /** Given `RandFloat()` draws, `GetRandom` lands in [0, cx) x [0, cy). */
  lemma GetRandomInRange(cx: real, cy: real, ux: real, uy: real)
    requires cx > 0.0 && cy > 0.0
    requires IsRandFloat(ux) && IsRandFloat(uy)
    ensures 0.0 <= GetRandom(cx, cy, ux, uy).x < cx
    ensures 0.0 <= GetRandom(cx, cy, ux, uy).y < cy
  {
    ScaleBelow(ux, cx);
    ScaleBelow(uy, cy);
  }

  lemma ScaleBelow(u: real, c: real)
    requires c > 0.0 && IsRandFloat(u)
    ensures 0.0 <= u * c < c
  {
    assert (1.0 - u) * c > 0.0;
  }
}
