/**
 * The Pogona scene exporter: one record per component, with lengths converted
 * by the unit scale, and a non-blocking check that each object's scale still
 * matches its Pogona scale.
 */
module PogonaExport {
  import opened Results
  import opened Vectors
  import opened Scene
  import opened Keyed

  /** The tolerance of the scale check. */
  const Epsilon: real := 0.00001

  /**
   * The scale an object should have: its component scale, which is a length and so
   * is multiplied by the unit scale, times the additional visualization scale,
   * which is not a length.
   */
  function ExpectedScale(obj: SceneObject, u: UnitScale): (e: Vec3)
    ensures forall i | 0 <= i < 3 ::
              e.At(i) == obj.componentScale.At(i) * u * obj.representation.additionalScale.At(i)
  {
    obj.componentScale.Times(u).Mul(obj.representation.additionalScale)
  }

  /** `actual` lies strictly inside the open interval of half-width `Epsilon` around `expected`. */
  predicate Within(expected: real, actual: real) {
    expected - Epsilon < actual < expected + Epsilon
  }

  /**
   * The check's loop over the axes from `from` on: the first axis whose value is
   * not within tolerance, at which the loop breaks, or none.
   */
  function FirstDeviation(expected: Vec3, actual: Vec3, from: nat): (axis: Option<nat>)
    requires from <= 3
    ensures axis.Some? ==> from <= axis.value < 3 && !Within(expected.At(axis.value), actual.At(axis.value))
    ensures forall j | from <= j < 3 && (axis.None? || j < axis.value) :: Within(expected.At(j), actual.At(j))
    decreases 3 - from
  {
    if from == 3 then None
    else if !Within(expected.At(from), actual.At(from)) then Some(from)
    else FirstDeviation(expected, actual, from + 1)
  }

  /** The warning reported for a deviating object: its name, its scale and the expected scale. */
  datatype ScaleWarning = ScaleWarning(objectName: string, actual: Vec3, expected: Vec3)

  /** The result of the scale check, and the warning it reported, if any. */
  datatype ScaleCheck = ScaleCheck(ok: bool, warning: Option<ScaleWarning>)

  /**
   * Checks every axis of the object's scale against the expected scale. The check
   * passes exactly when every axis is within tolerance; otherwise exactly one
   * warning is reported, however many axes deviate.
   */
  function CheckObjectScale(obj: SceneObject, u: UnitScale): (r: ScaleCheck)
    ensures r.ok <==> forall i | 0 <= i < 3 :: Within(ExpectedScale(obj, u).At(i), obj.scale.At(i))
    ensures r.ok <==> r.warning.None?
    ensures r.warning.Some? ==> r.warning.value == ScaleWarning(obj.name, obj.scale, ExpectedScale(obj, u))
  {
    var expected := ExpectedScale(obj, u);
    match FirstDeviation(expected, obj.scale, 0)
    case None => ScaleCheck(true, None)
    case Some(_) => ScaleCheck(false, Some(ScaleWarning(obj.name, obj.scale, expected)))
  }

  /** Only objects that carry both a stored type and a stored shape are exported. */
  predicate Exported(obj: SceneObject) {
    obj.typeStored && obj.shapeStored
  }

  function NameOf(obj: SceneObject): string {
    obj.name
  }

  /** One exported component. There is no type field: the type belongs to another file. */
  datatype ComponentRecord = ComponentRecord(shape: string, rotation: Vec3, translation: Vec3, scale: Vec3, visualizationScale: Vec3)

  /**
   * The record of one object. Translation and scale are lengths in the simulator's
   * metres: divided by the unit scale they give back the object's location and its
   * component scale. The visualization scale is written as it is, so that scale x
   * visualization scale is the scale the object is expected to have.
   */
  function Record(obj: SceneObject, u: UnitScale): (r: ComponentRecord)
    ensures ShapeFromName(r.shape) == Some(obj.shape)
    ensures r.rotation == obj.rotation
    ensures r.translation.Times(1.0 / u) == obj.location
    ensures r.scale.Times(1.0 / u) == obj.componentScale
    ensures r.visualizationScale == obj.representation.additionalScale
    ensures r.scale.Mul(r.visualizationScale) == ExpectedScale(obj, u)
  {
    ScaleThenDivide(obj.location, u);
    ScaleThenDivide(obj.componentScale, u);
    ComponentRecord(
      ShapeName(obj.shape),
      obj.rotation,
      obj.location.Times(u),
      obj.componentScale.Times(u),
      obj.representation.additionalScale)
  }

  /** The written document: a single `components` mapping from object name to record. */
  datatype Document = Document(components: map<string, ComponentRecord>)

  /** What an export produces: the document, and the warnings reported along the way. */
  datatype Export = Export(document: Document, warnings: seq<ScaleWarning>)

  /** An exported object whose scale check fails. */
  predicate FailsCheck(obj: SceneObject, u: UnitScale) {
    Exported(obj) && !CheckObjectScale(obj, u).ok
  }

  /** The positions, in increasing order, of the objects whose scale check fails. */
  function FailingPositions(objects: seq<SceneObject>, u: UnitScale): (idx: seq<nat>)
    ensures forall k | 0 <= k < |idx| :: idx[k] < |objects| && FailsCheck(objects[idx[k]], u)
    ensures forall k, l | 0 <= k < l < |idx| :: idx[k] < idx[l]
    ensures forall i | 0 <= i < |objects| && FailsCheck(objects[i], u) :: i in idx
    decreases |objects|
  {
    if |objects| == 0 then []
    else
      var init := objects[..|objects| - 1];
      var p := FailingPositions(init, u);
      assert forall i | 0 <= i < |init| :: init[i] == objects[i];
      if FailsCheck(objects[|objects| - 1], u) then p + [|objects| - 1] else p
  }

  /**
   * The warnings of the scale checks, in scene order: exactly one per exported
   * object that fails its check, the k-th warning being that of the k-th such object.
   */
  function ScaleWarnings(objects: seq<SceneObject>, u: UnitScale): (ws: seq<ScaleWarning>)
    ensures |ws| == |FailingPositions(objects, u)|
    ensures forall k | 0 <= k < |ws| ::
              ws[k] == CheckObjectScale(objects[FailingPositions(objects, u)[k]], u).warning.value
    ensures |ws| <= |objects|
    ensures forall w | w in ws :: exists o | o in objects :: Exported(o) && CheckObjectScale(o, u).warning == Some(w)
    ensures forall o | o in objects && FailsCheck(o, u) :: CheckObjectScale(o, u).warning.value in ws
    decreases |objects|
  {
    if |objects| == 0 then []
    else
      var rest := ScaleWarnings(objects[..|objects| - 1], u);
      var last := objects[|objects| - 1];
      var ws := if FailsCheck(last, u) then rest + [CheckObjectScale(last, u).warning.value] else rest;
      WarningsStep(objects, u, rest, ws);
      WarningsOfPositions(objects, u, ws);
      ws
  }

  /** Exact warnings for all objects but the last, extended by the last one's warning if it fails, are exact for all. */
  lemma WarningsStep(objects: seq<SceneObject>, u: UnitScale, rest: seq<ScaleWarning>, ws: seq<ScaleWarning>)
    requires |objects| > 0
    requires |rest| == |FailingPositions(objects[..|objects| - 1], u)|
    requires forall k | 0 <= k < |rest| ::
               rest[k] == CheckObjectScale(objects[..|objects| - 1][FailingPositions(objects[..|objects| - 1], u)[k]], u).warning.value
    requires ws == if FailsCheck(objects[|objects| - 1], u)
                   then rest + [CheckObjectScale(objects[|objects| - 1], u).warning.value] else rest
    ensures |ws| == |FailingPositions(objects, u)|
    ensures forall k | 0 <= k < |ws| ::
              ws[k] == CheckObjectScale(objects[FailingPositions(objects, u)[k]], u).warning.value
  {
    var init := objects[..|objects| - 1];
    var idx, idx' := FailingPositions(objects, u), FailingPositions(init, u);
    var last := objects[|objects| - 1];
    if FailsCheck(last, u) {
      assert idx == idx' + [|objects| - 1] && ws == rest + [CheckObjectScale(last, u).warning.value];
    } else {
      assert idx == idx' && ws == rest;
    }
    forall k | 0 <= k < |idx'|
      ensures ws[k] == CheckObjectScale(objects[idx[k]], u).warning.value
    {
      assert objects[idx'[k]] == init[idx'[k]];
    }
  }

  /** Warnings that are exactly those of the failing positions are those of the failing objects. */
  lemma WarningsOfPositions(objects: seq<SceneObject>, u: UnitScale, ws: seq<ScaleWarning>)
    requires |ws| == |FailingPositions(objects, u)|
    requires forall k | 0 <= k < |ws| ::
               ws[k] == CheckObjectScale(objects[FailingPositions(objects, u)[k]], u).warning.value
    ensures forall w | w in ws :: exists o | o in objects :: Exported(o) && CheckObjectScale(o, u).warning == Some(w)
    ensures forall o | o in objects && FailsCheck(o, u) :: CheckObjectScale(o, u).warning.value in ws
  {
    var idx := FailingPositions(objects, u);
    forall w | w in ws
      ensures exists o | o in objects :: Exported(o) && CheckObjectScale(o, u).warning == Some(w)
    {
      var k :| 0 <= k < |ws| && ws[k] == w;
      assert objects[idx[k]] in objects;
    }
    forall o | o in objects && FailsCheck(o, u)
      ensures CheckObjectScale(o, u).warning.value in ws
    {
      var i :| 0 <= i < |objects| && objects[i] == o;
      var k :| 0 <= k < |idx| && idx[k] == i;
      assert ws[k] == CheckObjectScale(o, u).warning.value;
    }
  }

  /**
   * Exports a scene: an entry for every exported object under its name, built from
   * the last such object when names repeat, and no other entry. The scale check is
   * run on each exported object, but its outcome has no bearing on the document.
   */
  function ExportScene(objects: seq<SceneObject>, u: UnitScale): (r: Export)
    ensures r.document.components.Keys == set o | o in objects && Exported(o) :: o.name
    ensures forall i | 0 <= i < |objects| && Exported(objects[i]) && LastWithKey(objects, Exported, NameOf, i) ::
              r.document.components[objects[i].name] == Record(objects[i], u)
    ensures r.warnings == ScaleWarnings(objects, u)
  {
    Export(Document(Collect(objects, Exported, NameOf, o => Record(o, u))), ScaleWarnings(objects, u))
  }

  /** Object names are unique in a scene, so every exported object has its own record. */
  lemma ExportUniqueNames(objects: seq<SceneObject>, u: UnitScale)
    requires DistinctKeys(objects, Exported, NameOf)
    ensures forall o | o in objects && Exported(o) :: ExportScene(objects, u).document.components[o.name] == Record(o, u)
  {
    CollectDistinct(objects, Exported, NameOf, o => Record(o, u));
  }
}
