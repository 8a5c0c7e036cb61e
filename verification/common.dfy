/** Small shared vocabulary: an optional value (a C# `null`) and world positions. */
module Common {

  /** `None` stands for a C# `null` reference or an exception path. */
  datatype Option<T> = None | Some(value: T)

  /** A Unity `Vector3` position, with exact real coordinates. */
  datatype Vec3 = Vec3(x: real, y: real, z: real)

  /** Squared Euclidean distance. `Vector3.magnitude` is its square root; since the square
      root is monotone on non-negative reals, comparing squared distances orders positions
      exactly as comparing magnitudes does. */
  function SqDistance(a: Vec3, b: Vec3): (d: real)
    ensures d >= 0.0
    ensures a == b ==> d == 0.0
  {
    var dx := a.x - b.x;
    var dy := a.y - b.y;
    var dz := a.z - b.z;
    dx * dx + dy * dy + dz * dz
  }
}
