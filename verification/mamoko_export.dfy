/**
 * The older MaMoKo scene exporter: one raw record per object carrying both a
 * stored type and a stored shape, with no unit conversion and no scale check.
 */
module MamokoExport {
  import opened Results
  import opened Vectors
  import opened Scene
  import opened Keyed
  import opened MamokoProps
  import PogonaExport

  /** Only objects on which both the type and the shape property have been written are exported. */
  predicate MamokoExported(o: MamokoObject) {
    o.typeStored && o.shapeStored
  }

  function MamokoName(o: MamokoObject): string {
    o.name
  }

  /**
   * One exported object. The shape is the raw stored enum value, that is the
   * index of the shape item, not its name.
   */
  datatype MamokoRecord = MamokoRecord(objectType: string, shape: int, rotation: Vec3, translation: Vec3, scale: Vec3)

  /**
   * The record of one object: its resolved type, its shape as an item index from
   * which the shape is recovered, and its rotation, location and scale exactly as
   * the editor holds them, in scene units.
   */
  function MamokoRecordOf(o: MamokoObject): (r: MamokoRecord)
    ensures r.objectType == ResolvedType(o.mamokoType)
    ensures 0 <= r.shape < 5 && ShapeFromIndex(r.shape) == Some(o.shape)
    ensures r.rotation == o.rotation && r.translation == o.location && r.scale == o.scale
  {
    MamokoRecord(ResolvedType(o.mamokoType), ShapeIndex(o.shape), o.rotation, o.location, o.scale)
  }

  /**
   * Exports a scene: the document is the name-to-record mapping itself, with an
   * entry for every exported object, built from the last such object when names
   * repeat, and no other entry.
   */
  function ExportMamoko(objects: seq<MamokoObject>): (doc: map<string, MamokoRecord>)
    ensures doc.Keys == set o | o in objects && MamokoExported(o) :: o.name
    ensures forall i | 0 <= i < |objects| && MamokoExported(objects[i]) && LastWithKey(objects, MamokoExported, MamokoName, i) ::
              doc[objects[i].name] == MamokoRecordOf(objects[i])
  {
    Collect(objects, MamokoExported, MamokoName, MamokoRecordOf)
  }

  /** Object names are unique in a scene, so every exported object has its own record. */
  lemma MamokoExportUniqueNames(objects: seq<MamokoObject>)
    requires DistinctKeys(objects, MamokoExported, MamokoName)
    ensures forall o | o in objects && MamokoExported(o) :: ExportMamoko(objects)[o.name] == MamokoRecordOf(o)
  {
    CollectDistinct(objects, MamokoExported, MamokoName, MamokoRecordOf);
  }

  /**
   * The two exporters place an object at the same spot in different units: the
   * Pogona translation is the MaMoKo one times the unit scale, so they agree only
   * when a scene unit is a metre. They also write the shape differently, by item
   * name and by item index.
   */
  lemma ExportersDifferInUnits(m: MamokoObject, obj: SceneObject, u: UnitScale)
    requires m.location == obj.location && m.shape == obj.shape
    ensures PogonaExport.Record(obj, u).translation == MamokoRecordOf(m).translation.Times(u)
    ensures PogonaExport.Record(obj, u).translation == MamokoRecordOf(m).translation <==> u == 1.0 || obj.location == Zero
    ensures ShapeFromName(PogonaExport.Record(obj, u).shape) == ShapeFromIndex(MamokoRecordOf(m).shape)
  {
    var t := PogonaExport.Record(obj, u).translation;
    var l := obj.location;
    if t == l && u != 1.0 {
      assert l.x * u == l.x && l.y * u == l.y && l.z * u == l.z;
      assert l.x == 0.0 && l.y == 0.0 && l.z == 0.0;
    }
  }
}
