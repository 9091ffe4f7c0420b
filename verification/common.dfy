/** Small value types shared by every part of the model: an optional value
    (the program's nullable references), 3-vectors and RGBA colours over the
    reals (floating-point rounding is not modelled). */
module Common {

  /** A value that may be missing; stands for a reference that may be null. */
  datatype Option<+T> = None | Some(value: T)

  /** A 3-component vector, as glm::vec3. */
  datatype Vec3 = Vec3(x: real, y: real, z: real)

  /** An RGBA colour, as ofFloatColor. */
  datatype Color = Color(r: real, g: real, b: real, a: real)

  function Add(p: Vec3, q: Vec3): Vec3 {
    Vec3(p.x + q.x, p.y + q.y, p.z + q.z)
  }

  function Scale(p: Vec3, k: real): Vec3 {
    Vec3(p.x * k, p.y * k, p.z * k)
  }
}
