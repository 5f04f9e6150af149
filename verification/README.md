# Pogona and MaMoKo scene add-ons, modelled in Dafny

This project models the pure logic inside the Pogona Blender add-on and the older
MaMoKo add-on. Both let a user author scenes for a macroscopic molecular-communication
simulator and export them as YAML. The Pogona add-on also plays back simulated
molecule positions frame by frame. The model abstracts the host objects into plain
immutable records. Blender's mesh database (`bpy.data.meshes`) becomes a map from mesh
ids to meshes, with user counts. Floats are reals.

The model covers:

- **Scale and units** (`PogonaOps`, `PogonaExport`, `ScaleReconciliation`).
  - Component meshes are divided by the scene's unit scale, and the object scale
    carries the unit scale back.
  - The "update scale" operator sets scale = component scale × unit scale ×
    additional scale on each axis.
  - The exporter writes translation and component scale in metres.
  - The exporter's non-blocking check compares each axis against that same product,
    within an open interval of half-width 0.00001.
  - Every way the add-on sets a scale passes the check, and so does a fresh object.
    Moving an axis by at least the tolerance fails it.
- **Representation dispatch** (`PogonaOps`).
  - A component's mesh comes either from its shape or from the mesh of a linked object.
    The shape gives the cube, cylinder or sphere primitive, or the six-vertex cross for
    POINT and NONE.
  - The add operators tag the shape, which fires the shape update.
- **Step discovery** (`PogonaUtil`, `PogonaProps`, `Decimal`).
  - `re.match` of `positions.csv.(?P<step>\d+)` is modelled on file names: anchored at
    the start, with any trailing text.
  - The range of the time-step property comes from the smallest and largest step.
  - For a non-negative step, the file the playback reads is recognised with that very
    step. The step property has no minimum, and the file read for a negative step
    is never recognised.
- **Molecule playback** (`MoleculesVisualization`).
  - The per-object skip rule works on the recorded previous step and the force flag.
  - A decoder turns CSV rows into a point cloud and typed per-point attribute columns.
  - The handler's exceptions are modelled: an unopenable snapshot, a malformed
    cell, and a mesh that cannot be deleted. Reading an attribute dictionary that
    was never registered is not (see "## Left out").
  - On success, a new mesh replaces the old one. The old mesh is deleted only when
    nothing else uses it.
  - A completed frame keeps the scene's objects and mesh users consistent. Running the
    next frame at the same step changes nothing.
- **Type resolution and defaults** (`Scene`, `PogonaProps`, `MamokoProps`). A type
  resolves to its enum tag, or to the custom text when the tag is CUSTOM. The declared
  defaults of both add-ons are modelled.
- **The MaMoKo exporter** (`MamokoExport`). It writes raw transforms with the shape's
  stored item index, and this model proves how it differs from the Pogona exporter.

The effects of the host editor enter as parameters:

- **Primitive constructors** are a function from primitive to vertices.
- **Folder listings** are a `Listing` value.
- **CSV files** are a map from path to rows, each row a map from column to text.
- **Python's `float()`, `int()` and salted `hash()`** are uninterpreted functions in
  `MoleculesVisualization.Host`.

Two behaviours of the program deserve a note:

- **Unreadable snapshot.** The handler turns an `OSError` on opening a snapshot into
  a `Warning` whose text reads "Skipping molecule positions update."
  (`addons/pogona/molecules_visualization.py:123-128`). Nothing catches it, so it
  leaves the frame-change handler. The remaining objects of that frame are not
  handled either, and the empty mesh created before the read stays in the database
  without users. `MoleculesVisualization.UpdateAll` and `PlaybackStopsAtError` state
  this.
- **Document wrapper.** The Pogona exporter nests its records under a `components`
  key. The MaMoKo exporter dumps the name-to-record map itself
  (`addons/mamoko/export.py:23-38`, `ExportMamoko`).

## Model

| member | source | states |
|---|---|---|
| Scene.ShapeName | addons/pogona/props.py:52-59 | the shape identifier written for a shape item reads back as that same item |
| Scene.ShapeIndex | addons/mamoko/props.py:50-57 | the raw value an enum property stores for a shape is its item position, below 5, from which the shape is recovered |
| Scene.ResolvedType | addons/pogona/props.py:43-49 | the resolved type is INJECTOR, SENSOR or the custom text; CUSTOM yields the custom text, a built-in tag yields its own name and never "CUSTOM" |
| Scene.ResolutionForgetsChoice | addons/mamoko/props.py:41-47 | for every built-in item, a custom type spelled like it resolves exactly as that item, whatever its custom text, although the two properties differ |
| Scene.DefaultType | addons/pogona/props.py:31-41 | the default type is CUSTOM and resolves to the empty string |
| Scene.DefaultRepresentation | addons/pogona/props.py:122-145 | by default the representation follows the shape, links nothing and adds a scale of 1 on every axis |
| Meshes.NewMesh | addons/pogona/molecules_visualization.py:63 | a new mesh gets an id not in the database, with no users, and no other mesh changes |
| Meshes.Reassign | addons/pogona/ops.py:139-141 | assigning an object's data moves one user from the old mesh to the new one; no mesh is added or removed |
| Decimal.IntToStringRoundTrip | addons/pogona/molecules_visualization.py:79 | the digits of the step written into a file name read back as that step, for either sign |
| Decimal.LeadingDigits | addons/pogona/util.py:24 | the greedy digit run is a prefix made only of digits and is followed by no further digit |
| Keyed.Collect | addons/pogona/export.py:75-83 | the dictionary filled in the export loop has a key exactly for every kept item, holding the record of the last kept item with that key |
| Keyed.CollectDistinct | addons/mamoko/export.py:25-29 | with unique names every kept item has its own entry |
| PogonaUtil.MatchPositions | addons/pogona/util.py:24 | a name matches exactly when some prefix of it is a whole match of the pattern; the step is the value of the maximal digit run after `positions.csv.` |
| PogonaUtil.MatchSnapshotName | addons/pogona/util.py:24 | the snapshot name of step n, followed by text not starting with a digit, matches with step n |
| PogonaUtil.NotPositions | addons/pogona/util.py:24 | a name not starting with `positions` never matches |
| PogonaUtil.DeleteMesh | addons/pogona/util.py:27-42 | a mesh with users is kept and False returned; an unused mesh is removed and True returned; a refused removal raises a warning |
| PogonaProps.PlainObject | addons/pogona/props.py:156-201 | an object before any assignment reads every Pogona property at its declared default, with none stored |
| PogonaProps.Steps | addons/pogona/props.py:80-84 | the steps collected from a listing are exactly the steps of its matching names; other names are ignored |
| PogonaProps.MinOf | addons/pogona/props.py:89 | `min` yields an element no greater than any element |
| PogonaProps.MaxOf | addons/pogona/props.py:90 | `max` yields an element no smaller than any element |
| PogonaProps.StepBounds | addons/pogona/props.py:78-101 | a missing folder gives the warning; a folder without snapshots fails; otherwise min and soft min are a matched step bounding all from below, and max and soft max one bounding all from above |
| PogonaProps.PositionsPathUpdate | addons/pogona/props.py:70-101 | succeeds exactly when the folder lists a snapshot name; then only the step bounds change, to a listed step no greater than any listed step and one no smaller, soft bounds equal to hard; a missing or unreadable folder and a folder without snapshots give their errors |
| PogonaOps.UndoUnitScale | addons/pogona/ops.py:26-33 | every vertex, multiplied back by the unit scale, is the vertex the primitive was built with |
| PogonaOps.CrossMesh | addons/pogona/ops.py:78-93 | the cross has six vertices, a pair at ±0.5/unit on each axis and 0 elsewhere, three edges joining each pair, and no faces |
| PogonaOps.ShapeGeometry | addons/pogona/ops.py:126-138 | CUBE, CYLINDER and SPHERE select their primitive with the unit scale undone; POINT and NONE select the cross |
| PogonaOps.ShapeMeshHasNominalSize | addons/pogona/ops.py:108-113 | for any unit scale, a shape's mesh times the unit scale has the shape's nominal size |
| PogonaOps.CreatePogonaObject | addons/pogona/ops.py:96-115 | a new object uses a new mesh named after the operator, is flagged Pogona, has uniform scale (u, u, u) and is otherwise at its defaults |
| PogonaOps.ShapeUpdate | addons/pogona/ops.py:123-143 | following the shape (or with nothing linked) gives the object a new mesh built from its shape; otherwise it shares the linked object's mesh; only the object's mesh changes and no mesh is lost |
| PogonaOps.ScaleUpdate | addons/pogona/ops.py:155-165 | each axis of the scale becomes component × unit × additional, and nothing else changes |
| PogonaOps.SetShape | addons/pogona/props.py:174-179 | assigning the shape stores it and its update callback rebuilds the mesh from the new shape, unless a linked object is used, in which case the object takes over the linked object's mesh |
| PogonaOps.AddShape | addons/pogona/ops.py:168-217 | each add operator yields a flagged object tagged with its preset shape, scale (u, u, u), default scales, and a mesh of that shape |
| PogonaOps.AddMoleculesVisualization | addons/pogona/ops.py:220-243 | the new visualization object is flagged as a visualization, not as a Pogona object, uses a new cross mesh placed at the 3D cursor, keeps scale (1, 1, 1), and has no recorded step, so the next frame loads its snapshot |
| PogonaExport.ExpectedScale | addons/pogona/export.py:34-39 | the expected scale per axis is component scale × unit scale × additional scale |
| PogonaExport.FirstDeviation | addons/pogona/export.py:40-55 | the loop stops at the first axis outside the tolerance, and every axis before it is within |
| PogonaExport.CheckObjectScale | addons/pogona/export.py:26-56 | the check passes exactly when every axis lies strictly within 0.00001 of the expected value; otherwise one warning names the object, its scale and the expected scale |
| PogonaExport.Record | addons/pogona/export.py:83-98 | the record's translation and scale divided by the unit scale give back location and component scale; rotation and visualization scale are copied; the shape names the object's shape |
| PogonaExport.FailingPositions | addons/pogona/export.py:76-100 | the increasing positions of exactly the exported objects whose scale check fails |
| PogonaExport.ScaleWarnings | addons/pogona/export.py:76-100 | one warning per exported object that fails its check, in scene order: as many warnings as failing positions, the k-th being the k-th failing object's; so every warning belongs to an exported object, and every failing one contributes its warning |
| PogonaExport.ExportScene | addons/pogona/export.py:74-109 | the components map has an entry exactly for each object with a stored type and shape, holding the record of the last such object of that name; the warnings do not affect it |
| PogonaExport.ExportUniqueNames | addons/pogona/export.py:76-83 | with unique names every exported object has its own record |
| ScaleReconciliation.ScaleUpdatePassesCheck | addons/pogona/ops.py:155-165 | after the "update scale" operator the export check passes without a warning |
| ScaleReconciliation.ScaleUpdateMatchesRecord | addons/pogona/export.py:92-97 | after the "update scale" operator, exported scale × visualization scale equals the object's scale |
| ScaleReconciliation.CreatedObjectPassesCheck | addons/pogona/ops.py:112-113 | a freshly created Pogona object passes the export check |
| ScaleReconciliation.AddedComponentPassesCheck | addons/pogona/ops.py:174-178 | a component added from the menu passes the export check |
| ScaleReconciliation.SetComponentScale | addons/pogona/props.py:160-173 | assigning the component scale stores it and its callback leaves an object that passes the check |
| ScaleReconciliation.SetAdditionalScale | addons/pogona/props.py:132-145 | assigning the additional scale stores it and its callback leaves an object that passes the check |
| ScaleReconciliation.ViewportDriftFailsCheck | addons/pogona/export.py:40-55 | moving one axis by at least the tolerance away from the Pogona scale makes the check fail |
| MoleculesVisualization.JoinPath | addons/pogona/molecules_visualization.py:77-80 | the joined path is the name for an empty folder; otherwise the folder, a `/` unless the folder already ends in one, then the name, and nothing else |
| MoleculesVisualization.SnapshotNameRoundTrip | addons/pogona/molecules_visualization.py:77-80 | the file read for a non-negative step is recognised by step discovery with that step; a negative step's file is ignored by it |
| MoleculesVisualization.AttrTypeByName | addons/pogona/molecules_visualization.py:67-74 | the attribute dictionary has one entry per distinct name, in order of first occurrence, with the type of the last descriptor of that name |
| MoleculesVisualization.Cell | addons/pogona/molecules_visualization.py:89-93 | reading a column gives its text, or a KeyError when the row lacks it |
| MoleculesVisualization.ReadFloat | addons/pogona/molecules_visualization.py:89-93 | `float(row[c])` succeeds exactly when the column exists and parses, giving the parsed value |
| MoleculesVisualization.ReadInt | addons/pogona/molecules_visualization.py:101-104 | `int(row[c])` succeeds exactly when the column exists and parses, giving the parsed value; a missing column is reported as such |
| MoleculesVisualization.DecodeAttribute | addons/pogona/molecules_visualization.py:95-121 | a missing attribute column fails; otherwise STRING and STRING_HASH always succeed, INT and FLOAT succeed exactly when the cell parses, FLOAT_VECTOR exactly when `_x`, `_y`, `_z` are present and parse; the values are the parsed cell, the text, its hash, or the parsed vector |
| MoleculesVisualization.DecodeAttributes | addons/pogona/molecules_visualization.py:95-121 | a row's attributes decode exactly when each does, giving one value per attribute in dictionary order |
| MoleculesVisualization.DecodeAttributesFirstError | addons/pogona/molecules_visualization.py:95-121 | a failing row fails with the error of its first failing attribute |
| MoleculesVisualization.DecodeVertex | addons/pogona/molecules_visualization.py:76-93 | a molecule's point times the unit scale is its parsed (x, y, z) |
| MoleculesVisualization.DecodeRows | addons/pogona/molecules_visualization.py:85-121 | a snapshot decodes exactly when every row does, with one vertex per row and one value per row for every attribute |
| MoleculesVisualization.DecodedVertexAt | addons/pogona/molecules_visualization.py:88-93 | vertex i of the snapshot is the point of row i |
| MoleculesVisualization.DecodedValueAt | addons/pogona/molecules_visualization.py:95-121 | value i of attribute j is that attribute's value in row i |
| MoleculesVisualization.DecodeRowsFirstError | addons/pogona/molecules_visualization.py:85-121 | a snapshot fails exactly when some row fails, with the error of the first failing row |
| MoleculesVisualization.DecodedValuesFit | addons/pogona/molecules_visualization.py:101-121 | every decoded value has the kind its attribute type calls for |
| MoleculesVisualization.MissingAttributeColumnFails | addons/pogona/molecules_visualization.py:96-100 | one row lacking a configured attribute's column makes the whole snapshot fail |
| MoleculesVisualization.HostType | addons/pogona/molecules_visualization.py:140-145 | STRING_HASH is created as INT and every other type as itself |
| MoleculesVisualization.FieldName | addons/pogona/molecules_visualization.py:142-149 | the field written is `vector` exactly for FLOAT_VECTOR attributes and `value` otherwise |
| MoleculesVisualization.MeshAttributes | addons/pogona/molecules_visualization.py:140-149 | the j-th attribute has the j-th entry's name and column; STRING_HASH is created as INT and every other type as itself; written through `vector` exactly for FLOAT_VECTOR |
| MoleculesVisualization.WrittenAttributesFit | addons/pogona/molecules_visualization.py:85-149 | the attributes written from a decoded snapshot hold values of the type each is created with, vectors exactly in those written through `vector` |
| MoleculesVisualization.FirstMaterial | addons/pogona/molecules_visualization.py:131-134 | the new mesh inherits exactly the old mesh's first material, if it has one |
| MoleculesVisualization.LoadSnapshot | addons/pogona/molecules_visualization.py:77-128 | loads exactly when the step's file opens and every row decodes, giving one point per row and one full column per dictionary entry; an unopenable file raises the warning, otherwise the first bad row's error; an opened file gives exactly the decoding of its rows |
| MoleculesVisualization.LoadedSnapshotRows | addons/pogona/molecules_visualization.py:85-128 | a loaded snapshot holds at position i the position of the molecule in row i of the file, and in column j that row's value of dictionary entry j |
| MoleculesVisualization.SnapshotPathNamesStep | addons/pogona/molecules_visualization.py:77-80 | the file the handler opens is the folder, `/`, and the snapshot name of the step, which step discovery recognises with that step when it is non-negative |
| MoleculesVisualization.ReplaceMesh | addons/pogona/molecules_visualization.py:129-153 | the object moves to the new mesh holding the points, first material and attributes; the old mesh loses the user and is removed if it had no other; a refused removal stops before attributes and step; the swap completes exactly when the old mesh had another user or may be removed |
| MoleculesVisualization.UpdateObject | addons/pogona/molecules_visualization.py:39-153 | non-visualizations and unchanged, unforced steps are left alone, whatever their data; an update keeps the database valid, changes only the mesh and, on success, records the step and clears the force flag; a due update succeeds exactly when its snapshot loads and the old mesh keeps another user or may be removed |
| MoleculesVisualization.UpdateLoadsSnapshot | addons/pogona/molecules_visualization.py:129-149 | a successful update leaves the object on a fresh mesh holding exactly the loaded snapshot's points, the old mesh's first material and the decoded attributes |
| MoleculesVisualization.UpdatePlacesRows | addons/pogona/molecules_visualization.py:85-137 | after a successful update the object's mesh has one point per row of the step's file, point i being the molecule position read from row i |
| MoleculesVisualization.UpdateFailures | addons/pogona/molecules_visualization.py:123-138 | a failed read leaves the object as it was; a later failure leaves it on its new mesh with the old one still present |
| MoleculesVisualization.UpdateKeepsOtherMeshes | addons/pogona/molecules_visualization.py:129-138 | an update touches no mesh other than the object's old and new one, and its new mesh has exactly the object as user |
| MoleculesVisualization.SecondPassIsNoOp | addons/pogona/molecules_visualization.py:41-57 | after a successful update, handling the object again at the same step changes nothing |
| MoleculesVisualization.StepKeepsAccounts | addons/pogona/molecules_visualization.py:129-138 | handling one object keeps every other object's mesh present and every mesh's user count at least its number of objects |
| MoleculesVisualization.UpdateAll | addons/pogona/molecules_visualization.py:30 | the handler goes through the objects in order and completes only when the first object's update did |
| MoleculesVisualization.Placeholders | addons/pogona/molecules_visualization.py:30 | every scene, including cameras, lights and empties, has a database accounting for its objects' data, each entry used exactly by the objects holding it |
| MoleculesVisualization.UpdateAllStep | addons/pogona/molecules_visualization.py:30 | an exception ends the frame with later objects unhandled; otherwise the rest of the frame continues from the updated database |
| MoleculesVisualization.PlaybackKeepsObjects | addons/pogona/molecules_visualization.py:30-153 | a frame changes nothing on any object except its mesh, recorded step and force flag |
| MoleculesVisualization.PlaybackLeavesIdleObjects | addons/pogona/molecules_visualization.py:39-57 | a frame leaves every non-visualization and every unchanged, unforced visualization exactly as it was |
| MoleculesVisualization.IdleFrameIsNoOp | addons/pogona/molecules_visualization.py:39-57 | a frame with no object due changes neither objects nor meshes |
| MoleculesVisualization.PlaybackRecordsSteps | addons/pogona/molecules_visualization.py:151-153 | a completed frame records the loaded step and clears the force flag on every object it updated |
| MoleculesVisualization.PlaybackStopsAtError | addons/pogona/molecules_visualization.py:123-128 | a failed frame was stopped by a due visualization whose step stays unrecorded, and every later object is untouched |
| MoleculesVisualization.PlaybackReportsFailedUpdate | addons/pogona/molecules_visualization.py:30-153 | a failed frame reports the error of one object's update: its error, its database and that object are what the object's update produced |
| MoleculesVisualization.PlaybackKeepsAccounts | addons/pogona/molecules_visualization.py:129-138 | a completed frame keeps objects and mesh users consistent and removes no mesh that had users beyond the scene's objects |
| MoleculesVisualization.SecondPlaybackIsNoOp | addons/pogona/molecules_visualization.py:41-57 | after a completed frame, the next frame at the same steps changes nothing |
| MamokoProps.PlainMamokoObject | addons/mamoko/props.py:102-137 | an object before any assignment reads type CUSTOM resolving to "", shape NONE (index 0), component scale and additional scale 1 on each axis, and a representation following its shape |
| MamokoExport.MamokoRecordOf | addons/mamoko/export.py:29-35 | the record holds the resolved type, the shape's item index (from which the shape is recovered), and rotation, location and scale unchanged |
| MamokoExport.ExportMamoko | addons/mamoko/export.py:22-40 | the document has an entry exactly for each object with a stored type and shape, holding the record of the last such object of that name |
| MamokoExport.MamokoExportUniqueNames | addons/mamoko/export.py:25-35 | with unique names every exported object has its own record |
| MamokoExport.ExportersDifferInUnits | addons/mamoko/export.py:33-34 | the Pogona translation is the MaMoKo one times the unit scale, equal only at unit scale 1 or the origin; both shapes denote the same item |

## Left out

- Blender API calls (`bpy`, `bmesh`, `mathutils`) and primitive mesh construction
  (`addons/pogona/ops.py:36-75`). They are foreign code. Only the vertices the
  primitive constructors return are kept, as a parameter. Their edges, faces and UV
  maps, `mesh.update()`, and `object_data_add`'s linking into collections and
  selection are not modelled.
- Host naming. Blender renames a new mesh to a unique name (".001" suffixes). Meshes
  are named as requested and identified by an id.
- File and format I/O. `open`, `csv.DictReader`, `yaml.dump` and `os.listdir` become
  inputs: rows as column-to-text maps and listings as name sequences. YAML formatting
  and key order are not modelled. `bpy.path.abspath` and `os.path.abspath` are
  omitted: paths are used as written. `os.path.join` is modelled for relative names
  only.
- `DictReader` pads a short row with `None` values. The model treats a row as a map
  holding text only.
- Python's `float()`, `int()` and salted `hash()` are uninterpreted parameters.
  `int()`'s acceptance of whitespace and underscores is the parameter's business.
- Floating point is modelled as reals. IEEE-754 rounding in the scale products and in
  the `<` comparisons of the check is not modelled.
- The regular expression's `\d` is modelled as ASCII digits. Python also accepts other
  Unicode decimal digits.
- The depsgraph's evaluated object (`obj.evaluated_get`). The handler reads the step,
  the recorded previous step and the force flag from the evaluated object
  (`addons/pogona/molecules_visualization.py:41-47`, `:79`), and writes the last two
  to the object itself (`:151-153`). The model takes all three reads from the object
  itself.
- `print` and `operator.report` output. A scale warning is returned as a value instead
  of being reported.
- The frame re-trigger `frame_current = frame_current`
  (`addons/pogona/props.py:105`, `:111`). The model runs the handler as a function of
  the scene.
- The render-time interface lock and the handler registration
  (`addons/pogona/molecules_visualization.py:156-184`). They are a threading
  workaround and host wiring.
- Panels, menus, preferences and registration. `__init__.py` and `panel.py` of both
  add-ons are not part of this model.
- `addons/mamoko/ops.py` is not part of this model. It is never registered, and its
  operator names differ from those the MaMoKo property callbacks call.
  `addons/mamoko/add_object.py` (mesh construction and a flag) and
  `addons/mamoko/molecules_visualization.py` (a stub) are not part of this model
  either.
- PogonaProps.PositionsPathUpdate: the empty `_RNA_UI` dictionaries created before
  `min()` fails are not modelled. They hold no bounds, so the object's bounds are as
  before.
- PogonaUtil.DeleteMesh: the `clear_users` argument is not modelled. The guard only
  lets through meshes without users, for which clearing users changes nothing. The
  unreachable `return False` after the raise is not modelled either.
- PogonaOps.ShapeUpdate: requires that the object's mesh and any linked object's mesh
  exist and count their users. The linked object is a pointer to any object, with no
  poll (`addons/pogona/props.py:127-131`). A linked camera, light or empty would give
  the object non-mesh data, or none (`addons/pogona/ops.py:141`); that case is not
  modelled. The replaced mesh is not deleted, as in the source.
- MoleculesVisualization.UpdateObject: assumes that the object's
  `pogona_molecule_attributes` collection is registered. Its registration is not part
  of this model: `addons/pogona/props.py:148-201` registers the object properties
  but not `pogona_molecule_attributes`. Without it, the dictionary reads at
  `addons/pogona/molecules_visualization.py:67-74` would raise `AttributeError`. The
  model reads the collection as the object's `attributes`.
- MoleculesVisualization.UpdateObject: requires a valid database, and, for a flagged
  object whose step is to be updated, that its data is a mesh of the database used by
  the object. For a flagged camera, light or empty, the host would fail first at the
  old data's material list (`addons/pogona/molecules_visualization.py:131`); that
  failure is not modelled. Objects without the flag, and skipped ones,
  need nothing of their data.
- MoleculesVisualization.UpdateAll: requires `Accounted`: the data of every object has
  an entry in the database, with at least as many users as objects holding it.
  Cameras, lights and empties are encoded by a placeholder entry for their datablock.
  The handler never reads that entry, because such objects are not visualizations.
  `Placeholders` shows that every scene can be encoded this way. The contract of
  `UpdateAll` speaks only of the first object; what a whole frame does is stated by
  the `Playback*` lemmas.
- PogonaOps.SetShape, ScaleReconciliation.SetComponentScale,
  ScaleReconciliation.SetAdditionalScale and PogonaProps.PositionsPathUpdate: the
  property callbacks act on `context.active_object`, not on the object whose property
  changed. The shape and scale callbacks (`addons/pogona/props.py:62-67`) run
  operators that read it (`addons/pogona/ops.py:124`, `:156`), and the path callback
  reads it itself (`addons/pogona/props.py:71`). The model assumes the two are the
  same object, as when the user edits the active object's panel. A change made by a
  script to another object is not modelled.
- MoleculesVisualization.DecodeRow: its contract only gives the number of values. The
  point and the values of each row are stated by `DecodedVertexAt` and
  `DecodedValueAt`.
- PogonaProps.PlainObject: a new object starts with `attributes := []`. This assumes
  an unregistered `pogona_molecule_attributes` collection reads as empty, as
  described under `UpdateObject` above.
- MamokoProps.PlainMamokoObject: the model assumes the MaMoKo properties are
  registered on objects. `typeStored` is an input flag, as for Pogona objects.
- MamokoExport.ExportMamoko and MamokoExport.MamokoRecordOf: assume the MaMoKo
  properties are registered, which the add-on as written never does.
  - Its `__init__.py` imports only `add_object` and `export`
    (`addons/mamoko/__init__.py:17-23`).
  - Nothing calls `add_custom_properties_to_object_class`
    (`addons/mamoko/props.py:102`).
  - Adding an object stores only `mamoko_flag` (`addons/mamoko/add_object.py:18`).
  - As written, the export writes an empty document, unless some object carries both
    keys. For such an object, reading `obj.mamoko_type.mamoko_value`
    (`addons/mamoko/export.py:30`) raises `AttributeError`. The model instead exports
    the records the registered properties would give.
