/**
 * How the scale operators and the exporter's scale check fit together: every way
 * the add-on itself sets an object's scale yields a scale the check accepts, and
 * the exported record reproduces that scale.
 */
module ScaleReconciliation {
  import opened Vectors
  import opened Meshes
  import opened Scene
  import opened PogonaProps
  import opened PogonaOps
  import opened PogonaExport

  /** The "update scale" operator and the export check use the same formula, so the check passes afterwards. */
  lemma ScaleUpdatePassesCheck(obj: SceneObject, u: UnitScale)
    ensures CheckObjectScale(ScaleUpdate(obj, u), u).ok
    ensures CheckObjectScale(ScaleUpdate(obj, u), u).warning.None?
  {
    var r := ScaleUpdate(obj, u);
    assert ExpectedScale(r, u) == ExpectedScale(obj, u);
    forall i | 0 <= i < 3
      ensures Within(ExpectedScale(r, u).At(i), r.scale.At(i))
    {
      assert r.scale.At(i) == ExpectedScale(obj, u).At(i);
    }
  }

  /** After the "update scale" operator, the exported scale times the visualization scale is the object's scale. */
  lemma ScaleUpdateMatchesRecord(obj: SceneObject, u: UnitScale)
    ensures Record(ScaleUpdate(obj, u), u).scale.Mul(Record(ScaleUpdate(obj, u), u).visualizationScale)
            == ScaleUpdate(obj, u).scale
  {
    var r := ScaleUpdate(obj, u);
    assert ExpectedScale(r, u) == ExpectedScale(obj, u);
    forall i | 0 <= i < 3
      ensures ExpectedScale(r, u).At(i) == r.scale.At(i)
    {
    }
    AxesDetermine(ExpectedScale(r, u), r.scale);
  }

  /**
   * A freshly created Pogona object passes the check: both of its scale
   * properties are (1, 1, 1), so the expected scale is the uniform unit scale it
   * is given.
   */
  lemma CreatedObjectPassesCheck(store: MeshStore, u: UnitScale, cursor: Vec3, title: string, g: Geometry)
    requires store.Valid()
    ensures CheckObjectScale(CreatePogonaObject(store, u, cursor, title, g).obj, u).ok
  {
    var o := CreatePogonaObject(store, u, cursor, title, g).obj;
    forall i | 0 <= i < 3
      ensures Within(ExpectedScale(o, u).At(i), o.scale.At(i))
    {
      assert o.componentScale == Ones && o.representation.additionalScale == Ones;
      assert ExpectedScale(o, u).At(i) == u;
    }
  }

  /** A component added from the menu passes the check: adding it and setting its shape never touch its scale. */
  lemma AddedComponentPassesCheck(op: AddOperator, store: MeshStore, u: UnitScale, cursor: Vec3, build: Primitive -> seq<Vec3>)
    requires store.Valid()
    ensures CheckObjectScale(AddShape(op, store, u, cursor, build).obj, u).ok
  {
    var o := AddShape(op, store, u, cursor, build).obj;
    forall i | 0 <= i < 3
      ensures Within(ExpectedScale(o, u).At(i), o.scale.At(i))
    {
      assert ExpectedScale(o, u).At(i) == u;
    }
  }

  /**
   * Assigning the component scale: the value is stored and the property's update
   * callback runs the "update scale" operator, after which the check passes.
   */
  function SetComponentScale(obj: SceneObject, v: Vec3, u: UnitScale): (r: SceneObject)
    ensures r == obj.(componentScale := v, scale := r.scale)
    ensures CheckObjectScale(r, u).ok
  {
    ScaleUpdatePassesCheck(obj.(componentScale := v), u);
    ScaleUpdate(obj.(componentScale := v), u)
  }

  /**
   * Assigning the additional visualization scale: likewise stored, followed by the
   * "update scale" operator, after which the check passes.
   */
  function SetAdditionalScale(obj: SceneObject, v: Vec3, u: UnitScale): (r: SceneObject)
    ensures r == obj.(representation := obj.representation.(additionalScale := v), scale := r.scale)
    ensures CheckObjectScale(r, u).ok
  {
    var changed := obj.(representation := obj.representation.(additionalScale := v));
    ScaleUpdatePassesCheck(changed, u);
    ScaleUpdate(changed, u)
  }

  /** Scaling an object in the viewport away from its Pogona scale by at least the tolerance on one axis fails the check. */
  lemma ViewportDriftFailsCheck(obj: SceneObject, u: UnitScale, i: nat, delta: real)
    requires i < 3 && (delta >= Epsilon || delta <= -Epsilon)
    ensures !CheckObjectScale(
              ScaleUpdate(obj, u).(scale := AddOnAxis(ScaleUpdate(obj, u).scale, i, delta)), u).ok
  {
    var r := ScaleUpdate(obj, u);
    var d := r.(scale := AddOnAxis(r.scale, i, delta));
    assert ExpectedScale(d, u) == ExpectedScale(obj, u);
    assert !Within(ExpectedScale(d, u).At(i), d.scale.At(i));
  }

  /** `v` with `delta` added on axis `i`. */
  function AddOnAxis(v: Vec3, i: nat, delta: real): (r: Vec3)
    requires i < 3
    ensures r.At(i) == v.At(i) + delta
    ensures forall j | 0 <= j < 3 && j != i :: r.At(j) == v.At(j)
  {
    if i == 0 then v.(x := v.x + delta) else if i == 1 then v.(y := v.y + delta) else v.(z := v.z + delta)
  }
}
