/**
 * The Pogona operators: building component meshes in unit-independent size,
 * creating Pogona objects, and bringing an object's mesh and scale in line with
 * its Pogona properties.
 */
module PogonaOps {
  import opened Results
  import opened Vectors
  import opened Meshes
  import opened Scene
  import opened PogonaProps
  import MoleculesVisualization

  /** Scales every vertex by `1 / unit`, so that an object scale of `unit` restores its size. */
  function UndoUnitScale(vertices: seq<Vec3>, u: UnitScale): (r: seq<Vec3>)
    ensures |r| == |vertices|
    ensures forall i | 0 <= i < |r| :: r[i].Times(u) == vertices[i]
  {
    seq(|vertices|, i requires 0 <= i < |vertices| => DivideThenScaleOf(vertices[i], u))
  }

  /** `v / unit`, which multiplied back by `unit` is `v` again. */
  function DivideThenScaleOf(v: Vec3, u: UnitScale): (r: Vec3)
    ensures r.Times(u) == v
  {
    DivideThenScale(v, u);
    v.Times(1.0 / u)
  }

  /** Half the nominal size of the cross: its arms reach 0.5 along each axis. */
  const CrossHalf: real := 0.5

  /** The vertex at `value` on `axis` and 0 on the other two axes. */
  function OnAxis(axis: nat, value: real): (v: Vec3)
    requires axis < 3
    ensures v.At(axis) == value
    ensures forall j | 0 <= j < 3 && j != axis :: v.At(j) == 0.0
  {
    if axis == 0 then Vec3(value, 0.0, 0.0)
    else if axis == 1 then Vec3(0.0, value, 0.0)
    else Vec3(0.0, 0.0, value)
  }

  /**
   * The cross used for points and shapeless components: six vertices, a pair on
   * each axis at -size and +size with size = 0.5 / unit, three edges each joining
   * a pair, and no faces.
   */
  function CrossMesh(u: UnitScale): (g: Geometry)
    ensures g.Explicit? && |g.vertices| == 6 && |g.edges| == 3 && g.faces == []
    ensures forall k | 0 <= k < 3 ::
              && g.edges[k] == Edge(2 * k, 2 * k + 1)
              && g.vertices[2 * k].At(k) == -(CrossHalf / u)
              && g.vertices[2 * k + 1].At(k) == CrossHalf / u
              && (forall j | 0 <= j < 3 && j != k :: g.vertices[2 * k].At(j) == 0.0 && g.vertices[2 * k + 1].At(j) == 0.0)
  {
    var size := CrossHalf / u;
    Explicit(
      [OnAxis(0, -size), OnAxis(0, size), OnAxis(1, -size), OnAxis(1, size), OnAxis(2, -size), OnAxis(2, size)],
      [Edge(0, 1), Edge(2, 3), Edge(4, 5)],
      [])
  }

  /** The six cross vertices at nominal size, before the unit scale is undone. */
  function NominalCross(): seq<Vec3> {
    [OnAxis(0, -CrossHalf), OnAxis(0, CrossHalf), OnAxis(1, -CrossHalf), OnAxis(1, CrossHalf),
     OnAxis(2, -CrossHalf), OnAxis(2, CrossHalf)]
  }

  /**
   * The mesh a shape is drawn with: the editor's cube, cylinder or sphere divided by
   * the unit scale, and the cross for POINT and NONE. `build` stands for the editor's
   * primitive constructors.
   */
  function ShapeGeometry(s: Shape, u: UnitScale, build: Primitive -> seq<Vec3>): (g: Geometry)
    ensures g.Built? <==> s == Cube || s == Cylinder || s == Sphere
    ensures g.Built? ==> ShapeOf(g.primitive) == s && g.vertices == UndoUnitScale(build(g.primitive), u)
    ensures !g.Built? ==> g == CrossMesh(u)
  {
    match s
    case Cube => Built(CubePrimitive, UndoUnitScale(build(CubePrimitive), u))
    case Cylinder => Built(CylinderPrimitive, UndoUnitScale(build(CylinderPrimitive), u))
    case Sphere => Built(SpherePrimitive, UndoUnitScale(build(SpherePrimitive), u))
    case _ => CrossMesh(u)
  }

  /** The shape item each editor primitive is drawn for. */
  function ShapeOf(p: Primitive): Shape {
    match p
    case CubePrimitive => Cube
    case CylinderPrimitive => Cylinder
    case SpherePrimitive => Sphere
  }

  /** The vertices a shape has at nominal size (what a unit object scale would show). */
  function NominalVertices(s: Shape, build: Primitive -> seq<Vec3>): seq<Vec3> {
    match s
    case Cube => build(CubePrimitive)
    case Cylinder => build(CylinderPrimitive)
    case Sphere => build(SpherePrimitive)
    case _ => NominalCross()
  }

  /**
   * Whatever the unit scale, a shape's mesh scaled by the unit scale has the
   * shape's nominal size: the mesh carries `1 / unit` and the object carries `unit`.
   */
  lemma ShapeMeshHasNominalSize(s: Shape, u: UnitScale, build: Primitive -> seq<Vec3>)
    ensures |ShapeGeometry(s, u, build).vertices| == |NominalVertices(s, build)|
    ensures forall i | 0 <= i < |NominalVertices(s, build)| ::
              ShapeGeometry(s, u, build).vertices[i].Times(u) == NominalVertices(s, build)[i]
  {
    if s == Point || s == NoShape {
      var g := CrossMesh(u);
      var n := NominalCross();
      forall i | 0 <= i < 6
        ensures g.vertices[i].Times(u) == n[i]
      {
        assert (CrossHalf / u) * u == CrossHalf;
        forall j | 0 <= j < 3
          ensures g.vertices[i].Times(u).At(j) == n[i].At(j)
        {
        }
        AxesDetermine(g.vertices[i].Times(u), n[i]);
      }
    }
  }

  /** The operators that add a component with a preset shape. */
  datatype AddOperator = AddCube | AddCylinder | AddSphere | AddPoint {

    function PresetShape(): Shape {
      match this
      case AddCube => Cube
      case AddCylinder => Cylinder
      case AddSphere => Sphere
      case AddPoint => Point
    }

    /** The operator's label, which names the mesh it creates. */
    function Label(): string {
      match this
      case AddCube => "Cube"
      case AddCylinder => "Cylinder"
      case AddSphere => "Sphere"
      case AddPoint => "Point"
    }
  }

  /** The outcome of an operator that creates or changes one object. */
  datatype Change = Change(obj: SceneObject, store: MeshStore)

  /**
   * Creates a Pogona component around a new mesh named after the operator: the
   * object uses the mesh, is flagged as part of the Pogona scene, and gets the
   * uniform scale (unit, unit, unit), so the unit-independent mesh shows at its
   * size in metres.
   */
  function CreatePogonaObject(store: MeshStore, u: UnitScale, cursor: Vec3, title: string, g: Geometry): (r: Change)
    requires store.Valid()
    ensures r.store.Valid()
    ensures r.obj.data !in store.meshes
    ensures r.store.meshes == store.meshes[r.obj.data := Mesh("Pogona " + title, g, [], [])]
    ensures r.store.users == store.users[r.obj.data := 1]
    ensures r.obj.pogonaFlag == Some(true) && r.obj.visualizationFlag.None?
    ensures r.obj.scale == Uniform(u)
    ensures r.obj == PlainObject(r.obj.name, r.obj.data, cursor).(pogonaFlag := Some(true), scale := Uniform(u))
  {
    var (id, s1) := NewMesh(store, Mesh("Pogona " + title, g, [], []));
    var obj := PlainObject("Pogona " + title, id, cursor);
    Change(obj.(pogonaFlag := Some(true), scale := Uniform(u)), AddUser(s1, id))
  }

  /** The mesh an object currently uses is in the database and counts the object among its users. */
  ghost predicate UsesStoredMesh(obj: SceneObject, store: MeshStore) {
    && store.Valid()
    && obj.data in store.meshes
    && store.users[obj.data] >= 1
    && (obj.representation.linkedObject.Some? ==> obj.representation.linkedObject.value.data in store.meshes)
  }

  /**
   * Re-derives an object's mesh from its representation. When the representation
   * follows the shape, or no object is linked, a new mesh named after the object is
   * generated from the shape; otherwise the object shares the linked object's mesh.
   * Only the object's mesh changes; the old mesh stays in the database.
   */
  function ShapeUpdate(obj: SceneObject, store: MeshStore, u: UnitScale, build: Primitive -> seq<Vec3>): (r: Change)
    requires UsesStoredMesh(obj, store)
    ensures r.obj == obj.(data := r.obj.data)
    ensures UsesStoredMesh(r.obj, r.store)
    ensures store.meshes.Keys <= r.store.meshes.Keys
    ensures forall id | id in store.meshes :: r.store.meshes[id] == store.meshes[id]
    ensures obj.representation.sameAsShape || obj.representation.linkedObject.None? ==>
              && r.obj.data !in store.meshes
              && r.store.meshes == store.meshes[r.obj.data := Mesh(obj.name, ShapeGeometry(obj.shape, u, build), [], [])]
              && r.store.users == store.users[obj.data := store.users[obj.data] - 1][r.obj.data := 1]
    ensures !obj.representation.sameAsShape && obj.representation.linkedObject.Some? ==>
              && r.obj.data == obj.representation.linkedObject.value.data
              && r.store == Reassign(store, obj.data, r.obj.data)
  {
    var rep := obj.representation;
    if rep.sameAsShape || rep.linkedObject.None? then
      var (id, s1) := NewMesh(store, Mesh(obj.name, ShapeGeometry(obj.shape, u, build), [], []));
      Change(obj.(data := id), Reassign(s1, obj.data, id))
    else
      var target := rep.linkedObject.value.data;
      Change(obj.(data := target), Reassign(store, obj.data, target))
  }

  /**
   * Sets the object scale to component scale x unit scale x additional scale on
   * every axis; nothing else changes.
   */
  function ScaleUpdate(obj: SceneObject, u: UnitScale): (r: SceneObject)
    ensures r == obj.(scale := r.scale)
    ensures forall i | 0 <= i < 3 ::
              r.scale.At(i) == obj.componentScale.At(i) * u * obj.representation.additionalScale.At(i)
  {
    obj.(scale := obj.componentScale.Times(u).Mul(obj.representation.additionalScale))
  }

  /**
   * Assigning the shape property: the value is stored on the object, and the
   * property's update callback runs the shape update, so the mesh follows the new
   * shape unless a linked object's mesh is used.
   */
  function SetShape(obj: SceneObject, s: Shape, store: MeshStore, u: UnitScale, build: Primitive -> seq<Vec3>): (r: Change)
    requires UsesStoredMesh(obj, store)
    ensures r.obj == obj.(shape := s, shapeStored := true, data := r.obj.data)
    ensures UsesStoredMesh(r.obj, r.store)
    ensures obj.representation.sameAsShape || obj.representation.linkedObject.None? ==>
              r.obj.data !in store.meshes && r.store.meshes[r.obj.data].geometry == ShapeGeometry(s, u, build)
    ensures !obj.representation.sameAsShape && obj.representation.linkedObject.Some? ==>
              r.obj.data == obj.representation.linkedObject.value.data && r.store == Reassign(store, obj.data, r.obj.data)
  {
    ShapeUpdate(obj.(shape := s, shapeStored := true), store, u, build)
  }

  /**
   * Adds a component with a preset shape: a Pogona object around the shape's mesh,
   * whose shape is then set. Setting the shape stores it on the object and fires
   * the shape property's update callback, which runs the shape update.
   */
  function AddShape(op: AddOperator, store: MeshStore, u: UnitScale, cursor: Vec3, build: Primitive -> seq<Vec3>): (r: Change)
    requires store.Valid()
    ensures UsesStoredMesh(r.obj, r.store)
    ensures r.obj.shape == op.PresetShape() && r.obj.shapeStored
    ensures r.obj.pogonaFlag == Some(true) && r.obj.scale == Uniform(u)
    ensures r.obj.componentScale == Ones && r.obj.representation == DefaultRepresentation()
    ensures r.obj.data !in store.meshes && r.obj.data in r.store.meshes
    ensures r.store.meshes[r.obj.data].geometry == ShapeGeometry(op.PresetShape(), u, build)
  {
    var created := CreatePogonaObject(store, u, cursor, op.Label(), ShapeGeometry(op.PresetShape(), u, build));
    SetShape(created.obj, op.PresetShape(), created.store, u, build)
  }

  /**
   * Adds a molecule visualization: an object around a placeholder cross, flagged
   * as a visualization and not as part of the Pogona scene, with the editor's
   * default scale.
   */
  function AddMoleculesVisualization(store: MeshStore, u: UnitScale, cursor: Vec3): (r: Change)
    requires store.Valid()
    ensures UsesStoredMesh(r.obj, r.store)
    ensures r.obj.visualizationFlag == Some(true) && r.obj.pogonaFlag.None?
    ensures r.obj.scale == Ones && r.obj.location == cursor
    ensures !MoleculesVisualization.Skips(r.obj)
    ensures r.obj.data !in store.meshes
    ensures r.store.meshes == store.meshes[r.obj.data := Mesh("Pogona Molecules Visualization", CrossMesh(u), [], [])]
  {
    var name := "Pogona Molecules Visualization";
    var (id, s1) := NewMesh(store, Mesh(name, CrossMesh(u), [], []));
    Change(PlainObject(name, id, cursor).(visualizationFlag := Some(true)), AddUser(s1, id))
  }
}
