/** Three-component real vectors (Blender's `mathutils.Vector` and float-vector properties). */
module Vectors {

  /**
   * The scene's unit scale (`scene.unit_settings.scale_length`). Blender keeps it
   * strictly positive, and the add-on divides by it.
   */
  type UnitScale = u: real | 0.0 < u witness 1.0

  datatype Vec3 = Vec3(x: real, y: real, z: real) {

    /** Component `i`, as Python's `v[i]`. */
    function At(i: nat): real
      requires i < 3
    {
      if i == 0 then x else if i == 1 then y else z
    }

    /** Every component multiplied by `k` (`v * k`). */
    function Times(k: real): (r: Vec3)
      ensures forall i | 0 <= i < 3 :: r.At(i) == At(i) * k
    {
      Vec3(x * k, y * k, z * k)
    }

    /** Component-wise product. */
    function Mul(w: Vec3): (r: Vec3)
      ensures forall i | 0 <= i < 3 :: r.At(i) == At(i) * w.At(i)
    {
      Vec3(x * w.x, y * w.y, z * w.z)
    }
  }

  const Ones := Vec3(1.0, 1.0, 1.0)
  const Zero := Vec3(0.0, 0.0, 0.0)

  /** A vector with the same value on all three axes (`[s, s, s]`). */
  function Uniform(s: real): (r: Vec3)
    ensures forall i | 0 <= i < 3 :: r.At(i) == s
  {
    Vec3(s, s, s)
  }

  /** Two vectors are equal exactly when they agree on every axis. */
  lemma AxesDetermine(v: Vec3, w: Vec3)
    requires forall i | 0 <= i < 3 :: v.At(i) == w.At(i)
    ensures v == w
  {
    assert v.At(0) == w.At(0) && v.At(1) == w.At(1) && v.At(2) == w.At(2);
  }

  /** Dividing by the unit scale is undone by multiplying with it. */
  lemma DivideThenScale(v: Vec3, u: UnitScale)
    ensures v.Times(1.0 / u).Times(u) == v
  {
    assert (1.0 / u) * u == 1.0;
  }

  /** Multiplying by the unit scale is undone by dividing by it. */
  lemma ScaleThenDivide(v: Vec3, u: UnitScale)
    ensures v.Times(u).Times(1.0 / u) == v
  {
    assert u * (1.0 / u) == 1.0;
  }
}
