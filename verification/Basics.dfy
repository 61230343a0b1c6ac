/** Entity ids, an optional value and the integer vectors that stand in for
    the engine's `Vec2`/`Vec3` (exact arithmetic in place of `f32`). */
module Basics {

  type EntityId = nat

  datatype Option<T> = None | Some(value: T)

  datatype Vec2 = Vec2(x: int, y: int)
  {
    function Plus(v: Vec2): Vec2
    {
      Vec2(x + v.x, y + v.y)
    }
  }

  datatype Vec3 = Vec3(x: int, y: int, z: int)
  {
    /** `translation.xy()` */
    function Xy(): Vec2
    {
      Vec2(x, y)
    }
  }

  /** The total of a sequence of naturals, such as frame times. */
  function Sum(xs: seq<nat>): nat
    decreases |xs|
  {
    if xs == [] then 0 else xs[0] + Sum(xs[1..])
  }

  const ZERO2: Vec2 := Vec2(0, 0)

  /** `(v, 0.).into()`: a 2-D position placed on the z = 0 plane. */
  function OnPlane(v: Vec2): (r: Vec3)
    ensures r.Xy() == v && r.z == 0
  {
    Vec3(v.x, v.y, 0)
  }
}
