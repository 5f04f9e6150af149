/**
 * Meshes and the editor's mesh database (`bpy.data.meshes`), reduced to what the
 * add-on reads and writes: geometry, materials, point attributes and user counts.
 */
module Meshes {
  import opened Vectors

  /** The primitives the editor builds for the add-on (cube, cylinder, UV sphere). */
  datatype Primitive = CubePrimitive | CylinderPrimitive | SpherePrimitive

  datatype Edge = Edge(a: nat, b: nat)

  datatype Geometry =
      /**
       * A primitive built by the editor, then divided by the unit scale. Only its
       * vertices are kept; its edges, faces and UV maps are the editor's business.
       */
    | Built(primitive: Primitive, vertices: seq<Vec3>)
      /** Geometry given vertex by vertex (`mesh.from_pydata(verts, edges, faces)`). */
    | Explicit(vertices: seq<Vec3>, edges: seq<Edge>, faces: seq<seq<nat>>)

  /** Per-point attribute data types, as named in the attribute descriptors. */
  datatype AttrType = IntType | FloatType | StringType | StringHashType | FloatVectorType

  datatype AttrValue = IntValue(i: int) | FloatValue(f: real) | StringValue(s: string) | VectorValue(v: Vec3)

  /** A point-domain attribute of a mesh, written through the field `field` (`value` or `vector`). */
  datatype MeshAttribute = MeshAttribute(name: string, dataType: AttrType, field: string, values: seq<AttrValue>)

  datatype Mesh = Mesh(name: string, geometry: Geometry, materials: seq<string>, attributes: seq<MeshAttribute>)

  /** An empty mesh, as `bpy.data.meshes.new(name)` creates it. */
  function EmptyMesh(name: string): Mesh {
    Mesh(name, Explicit([], [], []), [], [])
  }

  type MeshId = nat

  /**
   * The mesh database. `users` counts the objects (and other data) using each mesh;
   * `next` is an id no mesh has yet; `undeletable` holds the meshes whose removal the
   * editor refuses with an exception.
   */
  datatype MeshStore = MeshStore(meshes: map<MeshId, Mesh>, users: map<MeshId, nat>, next: MeshId, undeletable: set<MeshId>) {

    ghost predicate Valid() {
      && meshes.Keys == users.Keys
      && forall id | id in meshes :: id < next
    }
  }

  /** `bpy.data.meshes.new`: a new mesh with no users under an id not used before. */
  function NewMesh(s: MeshStore, m: Mesh): (r: (MeshId, MeshStore))
    requires s.Valid()
    ensures r.1.Valid()
    ensures r.0 !in s.meshes
    ensures r.1.meshes == s.meshes[r.0 := m]
    ensures r.1.users == s.users[r.0 := 0]
    ensures r.1.undeletable == s.undeletable
  {
    (s.next, s.(meshes := s.meshes[s.next := m], users := s.users[s.next := 0], next := s.next + 1))
  }

  /** Replaces the contents of a mesh in place; users and ids stay as they are. */
  function UpdateMesh(s: MeshStore, id: MeshId, m: Mesh): (r: MeshStore)
    requires s.Valid() && id in s.meshes
    ensures r.Valid()
    ensures r.meshes == s.meshes[id := m]
    ensures r.users == s.users && r.undeletable == s.undeletable
  {
    s.(meshes := s.meshes[id := m])
  }

  /** A new object starts using mesh `id`. */
  function AddUser(s: MeshStore, id: MeshId): (r: MeshStore)
    requires s.Valid() && id in s.meshes
    ensures r.Valid()
    ensures r.meshes == s.meshes && r.undeletable == s.undeletable
    ensures r.users == s.users[id := s.users[id] + 1]
  {
    s.(users := s.users[id := s.users[id] + 1])
  }

  /**
   * An object that used mesh `from` now uses mesh `to` (`obj.data = ...`): `from`
   * loses that user and `to` gains one; no mesh is added or removed.
   */
  function Reassign(s: MeshStore, from: MeshId, to: MeshId): (r: MeshStore)
    requires s.Valid() && from in s.meshes && to in s.meshes
    requires s.users[from] >= 1
    ensures r.Valid()
    ensures r.meshes == s.meshes && r.undeletable == s.undeletable
    ensures from == to ==> r.users == s.users
    ensures from != to ==> r.users[from] == s.users[from] - 1 && r.users[to] == s.users[to] + 1
    ensures forall id | id in s.users && id != from && id != to :: r.users[id] == s.users[id]
  {
    var released := s.users[from := s.users[from] - 1];
    s.(users := released[to := released[to] + 1])
  }
}
