/**
 * The object properties of the older MaMoKo add-on: the same type, shape,
 * component-scale and representation properties as Pogona's, under their own
 * names and without the visualization properties.
 */
module MamokoProps {
  import opened Vectors
  import opened Scene

  /**
   * A scene object as the MaMoKo exporter sees it. `typeStored` and `shapeStored`
   * say whether the type and shape properties have been written on the object
   * (`'mamoko_type' in obj`, `'mamoko_shape' in obj`); until then they read as
   * their defaults.
   */
  datatype MamokoObject = MamokoObject(
    name: string,
    location: Vec3,
    rotation: Vec3,
    scale: Vec3,
    typeStored: bool,
    shapeStored: bool,
    mamokoType: TypeProperty,
    shape: Shape,
    componentScale: Vec3,
    representation: Representation)

  /**
   * An object as the editor creates it at `location`, with every MaMoKo property at
   * its declared default: type CUSTOM with an empty name, shape NONE, component
   * scale (1, 1, 1), drawn from its own shape with no extra scale, nothing stored.
   */
  function PlainMamokoObject(name: string, location: Vec3): (o: MamokoObject)
    ensures o.name == name && o.location == location
    ensures o.scale == Ones && o.rotation == Zero
    ensures !o.typeStored && !o.shapeStored
    ensures o.mamokoType.choice == Custom && ResolvedType(o.mamokoType) == ""
    ensures o.shape == NoShape && ShapeIndex(o.shape) == 0
    ensures forall i | 0 <= i < 3 :: o.componentScale.At(i) == 1.0
    ensures o.representation.sameAsShape && o.representation.linkedObject.None?
    ensures forall i | 0 <= i < 3 :: o.representation.additionalScale.At(i) == 1.0
  {
    MamokoObject(
      name := name, location := location, rotation := Zero, scale := Ones,
      typeStored := false, shapeStored := false, mamokoType := DefaultType(), shape := NoShape,
      componentScale := Ones, representation := DefaultRepresentation())
  }
}
