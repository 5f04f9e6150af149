/**
 * Scene objects as the add-on sees them: the editor's transform plus the custom
 * properties and flags the add-on registers on every object.
 */
module Scene {
  import opened Results
  import opened Vectors
  import opened Meshes

  /** The shape items, in declaration order. */
  datatype Shape = NoShape | Point | Sphere | Cylinder | Cube

  /** The identifier of a shape item, as written to the exported document. */
  function ShapeName(s: Shape): (n: string)
    ensures ShapeFromName(n) == Some(s)
  {
    match s
    case NoShape => "NONE"
    case Point => "POINT"
    case Sphere => "SPHERE"
    case Cylinder => "CYLINDER"
    case Cube => "CUBE"
  }

  function ShapeFromName(n: string): Option<Shape> {
    if n == "NONE" then Some(NoShape)
    else if n == "POINT" then Some(Point)
    else if n == "SPHERE" then Some(Sphere)
    else if n == "CYLINDER" then Some(Cylinder)
    else if n == "CUBE" then Some(Cube)
    else None
  }

  /**
   * The number an enum property stores for a shape in the object's raw ID
   * properties: the position of its item in the item list.
   */
  function ShapeIndex(s: Shape): (k: nat)
    ensures k < 5
    ensures ShapeFromIndex(k) == Some(s)
  {
    match s
    case NoShape => 0
    case Point => 1
    case Sphere => 2
    case Cylinder => 3
    case Cube => 4
  }

  function ShapeFromIndex(k: int): Option<Shape> {
    if k == 0 then Some(NoShape)
    else if k == 1 then Some(Point)
    else if k == 2 then Some(Sphere)
    else if k == 3 then Some(Cylinder)
    else if k == 4 then Some(Cube)
    else None
  }

  /** The type items: two built-in simulator classes, or a class named by the user. */
  datatype TypeChoice = Injector | Sensor | Custom

  function TypeChoiceName(t: TypeChoice): string {
    match t
    case Injector => "INJECTOR"
    case Sensor => "SENSOR"
    case Custom => "CUSTOM"
  }

  /** A type property group: the chosen item and the free-text custom type. */
  datatype TypeProperty = TypeProperty(choice: TypeChoice, custom: string)

  /** A reference to another object, through which its mesh can be shared. */
  datatype ObjectLink = ObjectLink(name: string, data: MeshId)

  /**
   * How a component is drawn: from its own shape, or with the mesh of a linked
   * object, and with an extra, visualization-only scale.
   */
  datatype Representation = Representation(sameAsShape: bool, linkedObject: Option<ObjectLink>, additionalScale: Vec3)

  /**
   * The simulator class an object stands for (`pogona_value`, and `mamoko_value`
   * in the older add-on): the chosen built-in class, or the custom class name when
   * the choice is CUSTOM.
   */
  function ResolvedType(t: TypeProperty): (v: string)
    ensures v == "INJECTOR" || v == "SENSOR" || v == t.custom
    ensures t.choice == Custom ==> v == t.custom
    ensures t.choice != Custom ==> v != "CUSTOM" && v == TypeChoiceName(t.choice)
  {
    if t.choice != Custom then TypeChoiceName(t.choice) else t.custom
  }

  /**
   * Resolution cannot tell a built-in class from a custom class of the same name:
   * for every built-in item, a custom type spelled like it resolves exactly like
   * that item, whatever custom text the item carries, although the two properties
   * differ.
   */
  lemma ResolutionForgetsChoice(c: TypeChoice, s: string)
    requires c != Custom
    ensures ResolvedType(TypeProperty(Custom, TypeChoiceName(c))) == ResolvedType(TypeProperty(c, s))
    ensures TypeProperty(Custom, TypeChoiceName(c)) != TypeProperty(c, s)
  {
  }

  /** The declared default of the type property in both add-ons: CUSTOM with an empty custom name. */
  function DefaultType(): (t: TypeProperty)
    ensures t.choice == Custom
    ensures ResolvedType(t) == ""
  {
    TypeProperty(Custom, "")
  }

  /**
   * The declared default of the representation in both add-ons: drawn from the
   * object's own shape, nothing linked, and no extra visualization scale.
   */
  function DefaultRepresentation(): (r: Representation)
    ensures r.sameAsShape && r.linkedObject.None?
    ensures forall i | 0 <= i < 3 :: r.additionalScale.At(i) == 1.0
  {
    Representation(true, None, Ones)
  }

  /** One configured per-point attribute of a molecule visualization. */
  datatype AttrItem = AttrItem(name: string, attrType: AttrType)

  /** The bounds recorded in the UI metadata of the time-step property. */
  datatype StepRange = StepRange(min: int, max: int, softMin: int, softMax: int)

  /**
   * A scene object. `pogonaFlag` and `visualizationFlag` are raw ID properties that
   * may be absent; `typeStored` and `shapeStored` say whether the type and shape
   * properties are present among the object's stored ID properties (an unset
   * property reads as its default but is not stored). `previousStep` and
   * `forceUpdate` are the visualization's bookkeeping ID properties.
   */
  datatype SceneObject = SceneObject(
    name: string,
    data: MeshId,
    location: Vec3,
    rotation: Vec3,
    scale: Vec3,
    pogonaFlag: Option<bool>,
    visualizationFlag: Option<bool>,
    typeStored: bool,
    shapeStored: bool,
    pogonaType: TypeProperty,
    shape: Shape,
    componentScale: Vec3,
    representation: Representation,
    positionsPath: string,
    step: int,
    attributes: seq<AttrItem>,
    stepRange: Option<StepRange>,
    previousStep: Option<int>,
    forceUpdate: Option<bool>
  )
}
