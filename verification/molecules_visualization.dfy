/**
 * The frame-change handler that plays back molecule positions: for each
 * visualization object whose time step changed (or that is forced), the snapshot
 * of that step is read and the object's mesh is replaced by a point cloud with
 * one point per molecule and the configured per-point attributes.
 */
module MoleculesVisualization {
  import opened Results
  import opened Vectors
  import opened Decimal
  import opened Meshes
  import opened Scene
  import opened PogonaUtil

  /** A CSV row: column name to cell text. */
  type Row = map<string, string>

  /**
   * What the handler takes from outside the add-on: the snapshot files that can be
   * opened, as rows by path; Python's `float()` and `int()` on cell text (None when
   * they raise); and Python's per-process salted string `hash`.
   */
  datatype Host = Host(
    files: map<string, seq<Row>>,
    parseFloat: string -> Option<real>,
    parseInt: string -> Option<int>,
    hash: string -> int)

  /** The object is flagged as a molecule visualization; an absent flag counts as false. */
  predicate IsVisualization(obj: SceneObject) {
    obj.visualizationFlag.GetOr(false)
  }

  /**
   * The object is left alone this frame: its step is the one last loaded and no
   * update is forced. An absent force flag counts as forcing, so a new object is
   * always loaded once.
   */
  predicate Skips(obj: SceneObject) {
    obj.previousStep == Some(obj.step) && !obj.forceUpdate.GetOr(true)
  }

  /** The file name of the snapshot of `step`. */
  function SnapshotName(step: int): string {
    SnapshotPrefix + IntToString(step)
  }

  /** `os.path.join(folder, name)` for a relative `name`: a separator is added unless one is there. */
  function JoinPath(folder: string, name: string): (p: string)
    ensures |p| >= |name| && p[|p| - |name|..] == name
    ensures folder == "" ==> p == name
    ensures folder != "" ==> |p| >= |folder| && p[..|folder|] == folder
    ensures folder != "" ==> |p| > |name| && p[|p| - |name| - 1] == '/'
    ensures folder != "" ==> |p| == |folder| + |name| + (if folder[|folder| - 1] == '/' then 0 else 1)
  {
    if folder == "" then name
    else if folder[|folder| - 1] == '/' then folder + name
    else folder + "/" + name
  }

  function SnapshotPath(folder: string, step: int): string {
    JoinPath(folder, SnapshotName(step))
  }

  /**
   * The file the handler reads for a non-negative step is one the step discovery
   * recognises, with that very step; for a negative step it is a name the
   * discovery ignores.
   */
  lemma SnapshotNameRoundTrip(step: int)
    ensures step >= 0 ==> MatchPositions(SnapshotName(step)) == Some(step)
    ensures step < 0 ==> MatchPositions(SnapshotName(step)) == None
  {
    if step >= 0 {
      assert SnapshotName(step) == SnapshotPrefix + NatToString(step) + "";
      MatchSnapshotName(step, "");
    } else {
      var name := SnapshotName(step);
      assert name[14] == '-';
      assert !StartsLikeSnapshot(name);
    }
  }

  /** `items[i]` is the last item named like it. */
  ghost predicate LastNamed(items: seq<AttrItem>, i: nat)
    requires i < |items|
  {
    forall j | i < j < |items| :: items[j].name != items[i].name
  }

  ghost predicate DistinctNames(attrs: seq<AttrItem>) {
    forall k, l | 0 <= k < l < |attrs| :: attrs[k].name != attrs[l].name
  }

  /** Some item is named `name`. */
  ghost predicate Named(items: seq<AttrItem>, name: string) {
    exists i | 0 <= i < |items| :: items[i].name == name
  }

  /** The position at which `name` first occurs among the items. */
  ghost function FirstIndex(items: seq<AttrItem>, name: string): (i: nat)
    requires Named(items, name)
    ensures i < |items| && items[i].name == name
    ensures forall j | 0 <= j < i :: items[j].name != name
    decreases |items|
  {
    if items[0].name == name then 0
    else
      assert forall j | 0 <= j < |items| - 1 :: items[1..][j] == items[j + 1];
      1 + FirstIndex(items[1..], name)
  }

  /** Appending an item does not move the first occurrence of a name already present. */
  lemma FirstIndexAppend(items: seq<AttrItem>, item: AttrItem, name: string)
    requires Named(items, name)
    ensures Named(items + [item], name)
    ensures FirstIndex(items + [item], name) == FirstIndex(items, name)
  {
    var i := FirstIndex(items, name);
    assert (items + [item])[i].name == name;
    var k := FirstIndex(items + [item], name);
    assert items[k].name != name ==> k >= i;
  }

  lemma NamedAppend(items: seq<AttrItem>, item: AttrItem, name: string)
    ensures Named(items + [item], name) <==> Named(items, name) || item.name == name
  {
    var all := items + [item];
    if Named(all, name) && item.name != name {
      var i :| 0 <= i < |all| && all[i].name == name;
      assert items[i].name == name;
    }
    if Named(items, name) {
      var i :| 0 <= i < |items| && items[i].name == name;
      assert all[i].name == name;
    }
    assert all[|items|] == item;
  }

  /** The distinct names of the items, in the order they first occur. */
  function FirstNames(items: seq<AttrItem>): (names: seq<string>)
    ensures forall k, l | 0 <= k < l < |names| :: names[k] != names[l]
    ensures forall n :: n in names <==> Named(items, n)
    ensures forall k, l | 0 <= k < l < |names| :: FirstIndex(items, names[k]) < FirstIndex(items, names[l])
    decreases |items|
  {
    if |items| == 0 then []
    else
      var init := items[..|items| - 1];
      var last := items[|items| - 1];
      assert items == init + [last];
      var names := FirstNames(init);
      forall n
        ensures Named(items, n) <==> Named(init, n) || n == last.name
      {
        NamedAppend(init, last, n);
      }
      forall n | n in names
        ensures FirstIndex(items, n) == FirstIndex(init, n) < |init|
      {
        FirstIndexAppend(init, last, n);
      }
      if last.name in names then names
      else
        assert FirstIndex(items, last.name) == |init|;
        names + [last.name]
  }

  /** The type of the last item named `name`. */
  function LastType(items: seq<AttrItem>, name: string): (t: AttrType)
    requires Named(items, name)
    ensures exists i | 0 <= i < |items| :: items[i] == AttrItem(name, t) && LastNamed(items, i)
    decreases |items|
  {
    var init := items[..|items| - 1];
    var last := items[|items| - 1];
    if last.name == name then
      assert items[|items| - 1] == AttrItem(name, last.attrType);
      last.attrType
    else
      assert forall j | 0 <= j < |init| :: init[j] == items[j];
      var t := LastType(init, name);
      assert exists i | 0 <= i < |items| :: items[i] == AttrItem(name, t) && LastNamed(items, i) by {
        var i :| 0 <= i < |init| && init[i] == AttrItem(name, t) && LastNamed(init, i);
        assert items[i] == AttrItem(name, t) && LastNamed(items, i);
      }
      t
  }

  /**
   * The attribute descriptors as the name-to-type dictionary the handler builds:
   * one entry per name, in the order names first occur, each with the type of the
   * last descriptor of that name.
   */
  function AttrTypeByName(items: seq<AttrItem>): (attrs: seq<AttrItem>)
    ensures DistinctNames(attrs)
    ensures forall n :: Named(attrs, n) <==> Named(items, n)
    ensures forall k | 0 <= k < |attrs| :: exists i | 0 <= i < |items| :: items[i] == attrs[k] && LastNamed(items, i)
    ensures forall k, l | 0 <= k < l < |attrs| :: FirstIndex(items, attrs[k].name) < FirstIndex(items, attrs[l].name)
  {
    var names := FirstNames(items);
    var attrs := seq(|names|, k requires 0 <= k < |names| => AttrItem(names[k], LastType(items, names[k])));
    assert forall k | 0 <= k < |attrs| :: attrs[k] == AttrItem(names[k], LastType(items, names[k]));
    assert forall n :: Named(attrs, n) <==> n in names;
    attrs
  }

  /** The text of a column, or `KeyError` when the row has no such column. */
  function Cell(row: Row, column: string): (r: Result<string>)
    ensures r.Ok? <==> column in row
    ensures r.Ok? ==> r.value == row[column]
    ensures r.Err? ==> r.error == MissingColumn(column)
  {
    if column in row then Ok(row[column]) else Err(MissingColumn(column))
  }

  /** `float(row[column])`. */
  function ReadFloat(row: Row, column: string, host: Host): (r: Result<real>)
    ensures r.Ok? <==> column in row && host.parseFloat(row[column]).Some?
    ensures r.Ok? ==> r.value == host.parseFloat(row[column]).value
    ensures column !in row ==> r == Err(MissingColumn(column))
  {
    var text :- Cell(row, column);
    match host.parseFloat(text)
    case Some(f) => Ok(f)
    case None => Err(NotANumber(column))
  }

  /** `int(row[column])`. */
  function ReadInt(row: Row, column: string, host: Host): (r: Result<int>)
    ensures r.Ok? <==> column in row && host.parseInt(row[column]).Some?
    ensures r.Ok? ==> r.value == host.parseInt(row[column]).value
    ensures column !in row ==> r == Err(MissingColumn(column))
  {
    var text :- Cell(row, column);
    match host.parseInt(text)
    case Some(n) => Ok(n)
    case None => Err(NotANumber(column))
  }

  /** The kind of value an attribute of type `t` holds. */
  predicate Fits(t: AttrType, v: AttrValue) {
    match t
    case IntType => v.IntValue?
    case FloatType => v.FloatValue?
    case StringType => v.StringValue?
    case StringHashType => v.IntValue?
    case FloatVectorType => v.VectorValue?
  }

  /**
   * The value of one attribute in one row. The row must have a column named after
   * the attribute, even for a float vector, whose components are then read from
   * the columns `<name>_x`, `<name>_y` and `<name>_z`.
   */
  function DecodeAttribute(row: Row, a: AttrItem, host: Host): (r: Result<AttrValue>)
    ensures a.name !in row ==> r == Err(MissingAttributeColumn(a.name))
    ensures a.name in row && (a.attrType == StringType || a.attrType == StringHashType) ==> r.Ok?
    ensures a.name in row && a.attrType == IntType ==> (r.Ok? <==> host.parseInt(row[a.name]).Some?)
    ensures a.name in row && a.attrType == FloatType ==> (r.Ok? <==> host.parseFloat(row[a.name]).Some?)
    ensures a.name in row && a.attrType == FloatVectorType ==>
              (r.Ok? <==> forall c | c in [a.name + "_x", a.name + "_y", a.name + "_z"] :: c in row && host.parseFloat(row[c]).Some?)
    ensures r.Ok? ==> a.name in row && Fits(a.attrType, r.value)
    ensures r.Ok? && a.attrType == StringType ==> r.value == StringValue(row[a.name])
    ensures r.Ok? && a.attrType == StringHashType ==> r.value == IntValue(host.hash(row[a.name]))
    ensures r.Ok? && a.attrType == IntType ==>
              host.parseInt(row[a.name]).Some? && r.value == IntValue(host.parseInt(row[a.name]).value)
    ensures r.Ok? && a.attrType == FloatType ==>
              host.parseFloat(row[a.name]).Some? && r.value == FloatValue(host.parseFloat(row[a.name]).value)
    ensures r.Ok? && a.attrType == FloatVectorType ==>
              && a.name + "_x" in row && a.name + "_y" in row && a.name + "_z" in row
              && host.parseFloat(row[a.name + "_x"]).Some?
              && host.parseFloat(row[a.name + "_y"]).Some?
              && host.parseFloat(row[a.name + "_z"]).Some?
              && r.value == VectorValue(Vec3(host.parseFloat(row[a.name + "_x"]).value,
                                             host.parseFloat(row[a.name + "_y"]).value,
                                             host.parseFloat(row[a.name + "_z"]).value))
  {
    if a.name !in row then Err(MissingAttributeColumn(a.name))
    else
      match a.attrType
      case IntType =>
        var n :- ReadInt(row, a.name, host);
        Ok(IntValue(n))
      case FloatType =>
        var f :- ReadFloat(row, a.name, host);
        Ok(FloatValue(f))
      case StringType => Ok(StringValue(row[a.name]))
      case StringHashType => Ok(IntValue(host.hash(row[a.name])))
      case FloatVectorType =>
        var x :- ReadFloat(row, a.name + "_x", host);
        var y :- ReadFloat(row, a.name + "_y", host);
        var z :- ReadFloat(row, a.name + "_z", host);
        Ok(VectorValue(Vec3(x, y, z)))
  }

  /** The values of all attributes in one row, in dictionary order; the first failing attribute's error otherwise. */
  function DecodeAttributes(row: Row, attrs: seq<AttrItem>, host: Host): (r: Result<seq<AttrValue>>)
    ensures r.Ok? <==> forall j | 0 <= j < |attrs| :: DecodeAttribute(row, attrs[j], host).Ok?
    ensures r.Ok? ==> |r.value| == |attrs|
    ensures r.Ok? ==> forall j | 0 <= j < |attrs| :: r.value[j] == DecodeAttribute(row, attrs[j], host).value
    decreases |attrs|
  {
    if |attrs| == 0 then Ok([])
    else
      var v :- DecodeAttribute(row, attrs[0], host);
      var rest := DecodeAttributes(row, attrs[1..], host);
      assert forall j | 0 <= j < |attrs| - 1 :: attrs[1..][j] == attrs[j + 1];
      match rest
      case Err(e) => Err(e)
      case Ok(vs) => Ok([v] + vs)
  }

  /** A row whose attributes fail to decode fails with the error of its first failing attribute. */
  lemma {:induction false} DecodeAttributesFirstError(row: Row, attrs: seq<AttrItem>, host: Host)
    requires DecodeAttributes(row, attrs, host).Err?
    ensures exists j | 0 <= j < |attrs| ::
              && DecodeAttribute(row, attrs[j], host) == Err(DecodeAttributes(row, attrs, host).error)
              && forall l | 0 <= l < j :: DecodeAttribute(row, attrs[l], host).Ok?
    decreases |attrs|
  {
    if DecodeAttribute(row, attrs[0], host).Ok? {
      var rest := attrs[1..];
      DecodeAttributesFirstError(row, rest, host);
      var j :| 0 <= j < |rest| && DecodeAttribute(row, rest[j], host) == Err(DecodeAttributes(row, rest, host).error)
               && forall l | 0 <= l < j :: DecodeAttribute(row, rest[l], host).Ok?;
      assert attrs[j + 1] == rest[j];
      forall l | 0 <= l < j + 1
        ensures DecodeAttribute(row, attrs[l], host).Ok?
      {
        if l > 0 {
          assert attrs[l] == rest[l - 1];
        }
      }
    }
  }

  /** A molecule's position: its `x`, `y`, `z` columns divided by the unit scale. */
  function DecodeVertex(row: Row, u: UnitScale, host: Host): (r: Result<Vec3>)
    ensures r.Ok? <==> forall c | c in ["x", "y", "z"] :: c in row && host.parseFloat(row[c]).Some?
    ensures r.Ok? ==> r.value.Times(u) == Vec3(host.parseFloat(row["x"]).value,
                                               host.parseFloat(row["y"]).value,
                                               host.parseFloat(row["z"]).value)
  {
    var x :- ReadFloat(row, "x", host);
    var y :- ReadFloat(row, "y", host);
    var z :- ReadFloat(row, "z", host);
    var scale := 1.0 / u;
    DivideThenScale(Vec3(x, y, z), u);
    Ok(Vec3(x * scale, y * scale, z * scale))
  }

  /** One decoded row: the molecule's point and its attribute values. */
  datatype Molecule = Molecule(vertex: Vec3, values: seq<AttrValue>)

  /** A row decodes to its molecule's position followed by its attribute values; the position is read first. */
  function DecodeRow(row: Row, attrs: seq<AttrItem>, u: UnitScale, host: Host): (r: Result<Molecule>)
    ensures r.Ok? ==> |r.value.values| == |attrs|
  {
    var v :- DecodeVertex(row, u, host);
    var vals :- DecodeAttributes(row, attrs, host);
    Ok(Molecule(v, vals))
  }

  /** A whole snapshot: the point cloud and, per attribute, its values in row order. */
  datatype Decoded = Decoded(vertices: seq<Vec3>, columns: seq<seq<AttrValue>>)

  /**
   * Decodes every row in order. The snapshot decodes exactly when every row does,
   * giving one vertex per row and, for every attribute, one value per row.
   */
  function DecodeRows(rows: seq<Row>, attrs: seq<AttrItem>, u: UnitScale, host: Host): (r: Result<Decoded>)
    ensures r.Ok? <==> forall i | 0 <= i < |rows| :: DecodeRow(rows[i], attrs, u, host).Ok?
    ensures r.Ok? ==> |r.value.vertices| == |rows| && |r.value.columns| == |attrs|
    ensures r.Ok? ==> forall j | 0 <= j < |attrs| :: |r.value.columns[j]| == |rows|
    decreases |rows|
  {
    if |rows| == 0 then Ok(Decoded([], seq(|attrs|, j => [])))
    else
      var p :- DecodeRow(rows[0], attrs, u, host);
      var rest := DecodeRows(rows[1..], attrs, u, host);
      assert forall i | 0 <= i < |rows| - 1 :: rows[1..][i] == rows[i + 1];
      match rest
      case Err(e) => Err(e)
      case Ok(d) => Ok(Decoded([p.vertex] + d.vertices, PrependRow(p.values, d.columns)))
  }

  /** Puts one row's attribute values in front of the columns of the rows after it. */
  function PrependRow(values: seq<AttrValue>, columns: seq<seq<AttrValue>>): (r: seq<seq<AttrValue>>)
    ensures |r| == |columns|
    ensures forall j | 0 <= j < |columns| && j < |values| :: r[j] == [values[j]] + columns[j]
    ensures forall j | 0 <= j < |columns| && j < |values| :: |r[j]| == |columns[j]| + 1
  {
    seq(|columns|, j requires 0 <= j < |columns| => if j < |values| then [values[j]] + columns[j] else columns[j])
  }

  /** The vertex at position `i` of a decoded snapshot is the position of the molecule in row `i`. */
  lemma {:induction false} DecodedVertexAt(rows: seq<Row>, attrs: seq<AttrItem>, u: UnitScale, host: Host, i: nat)
    requires DecodeRows(rows, attrs, u, host).Ok? && i < |rows|
    ensures DecodeRow(rows[i], attrs, u, host).Ok?
    ensures DecodeRows(rows, attrs, u, host).value.vertices[i] == DecodeRow(rows[i], attrs, u, host).value.vertex
    decreases i
  {
    var rest := rows[1..];
    assert DecodeRow(rows[0], attrs, u, host).Ok?;
    var d := DecodeRows(rows, attrs, u, host).value;
    var d' := DecodeRows(rest, attrs, u, host).value;
    assert d.vertices == [DecodeRow(rows[0], attrs, u, host).value.vertex] + d'.vertices;
    if i > 0 {
      assert rows[i] == rest[i - 1];
      DecodedVertexAt(rest, attrs, u, host, i - 1);
    }
  }

  /** The value of attribute `j` at position `i` of a decoded snapshot is that attribute's value in row `i`. */
  lemma {:induction false} DecodedValueAt(rows: seq<Row>, attrs: seq<AttrItem>, u: UnitScale, host: Host, i: nat, j: nat)
    requires DecodeRows(rows, attrs, u, host).Ok? && i < |rows| && j < |attrs|
    ensures DecodeRow(rows[i], attrs, u, host).Ok?
    ensures DecodeRows(rows, attrs, u, host).value.columns[j][i] == DecodeRow(rows[i], attrs, u, host).value.values[j]
    decreases i
  {
    var rest := rows[1..];
    assert DecodeRow(rows[0], attrs, u, host).Ok?;
    var p := DecodeRow(rows[0], attrs, u, host).value;
    var d := DecodeRows(rows, attrs, u, host).value;
    var d' := DecodeRows(rest, attrs, u, host).value;
    assert d.columns[j] == [p.values[j]] + d'.columns[j];
    if i > 0 {
      assert rows[i] == rest[i - 1];
      DecodedValueAt(rest, attrs, u, host, i - 1, j);
    }
  }

  /** The position of the first row from `from` on that fails to decode, or the number of rows when none does. */
  function FirstBadRowFrom(rows: seq<Row>, attrs: seq<AttrItem>, u: UnitScale, host: Host, from: nat): (i: nat)
    requires from <= |rows|
    ensures from <= i <= |rows|
    ensures forall k | from <= k < i :: DecodeRow(rows[k], attrs, u, host).Ok?
    ensures i < |rows| ==> DecodeRow(rows[i], attrs, u, host).Err?
    decreases |rows| - from
  {
    if from == |rows| || DecodeRow(rows[from], attrs, u, host).Err? then from
    else FirstBadRowFrom(rows, attrs, u, host, from + 1)
  }

  /** Dropping the first row shifts every later row's position down by one. */
  lemma {:induction false} FirstBadRowShift(rows: seq<Row>, attrs: seq<AttrItem>, u: UnitScale, host: Host, from: nat)
    requires 1 <= from <= |rows|
    ensures FirstBadRowFrom(rows, attrs, u, host, from) == FirstBadRowFrom(rows[1..], attrs, u, host, from - 1) + 1
    decreases |rows| - from
  {
    if from < |rows| {
      assert rows[1..][from - 1] == rows[from];
      if DecodeRow(rows[from], attrs, u, host).Ok? {
        FirstBadRowShift(rows, attrs, u, host, from + 1);
      }
    }
  }

  /** The position of the first row that fails to decode, or the number of rows when every row decodes. */
  function FirstBadRow(rows: seq<Row>, attrs: seq<AttrItem>, u: UnitScale, host: Host): (i: nat)
    ensures i <= |rows|
    ensures forall k | 0 <= k < i :: DecodeRow(rows[k], attrs, u, host).Ok?
    ensures i < |rows| ==> DecodeRow(rows[i], attrs, u, host).Err?
  {
    FirstBadRowFrom(rows, attrs, u, host, 0)
  }

  /** A snapshot fails to decode exactly when some row does, and then with the error of the first such row. */
  lemma {:induction false} DecodeRowsFirstError(rows: seq<Row>, attrs: seq<AttrItem>, u: UnitScale, host: Host)
    ensures DecodeRows(rows, attrs, u, host).Err? <==> FirstBadRow(rows, attrs, u, host) < |rows|
    ensures DecodeRows(rows, attrs, u, host).Err? ==>
              DecodeRow(rows[FirstBadRow(rows, attrs, u, host)], attrs, u, host) == Err(DecodeRows(rows, attrs, u, host).error)
    decreases |rows|
  {
    if |rows| > 0 && DecodeRow(rows[0], attrs, u, host).Ok? {
      var rest := rows[1..];
      DecodeRowsFirstError(rest, attrs, u, host);
      var k := FirstBadRow(rest, attrs, u, host);
      FirstBadRowShift(rows, attrs, u, host, 1);
      assert FirstBadRow(rows, attrs, u, host) == k + 1;
      assert DecodeRows(rows, attrs, u, host).Err? <==> DecodeRows(rest, attrs, u, host).Err?;
      if k < |rest| {
        assert rows[k + 1] == rest[k];
        assert DecodeRows(rows, attrs, u, host).error == DecodeRows(rest, attrs, u, host).error;
      }
    }
  }

  /** Every attribute value decoded from a snapshot has the kind its attribute's type calls for. */
  lemma {:induction false} DecodedValuesFit(rows: seq<Row>, attrs: seq<AttrItem>, u: UnitScale, host: Host)
    requires DecodeRows(rows, attrs, u, host).Ok?
    ensures forall j, i | 0 <= j < |attrs| && 0 <= i < |rows| ::
              Fits(attrs[j].attrType, DecodeRows(rows, attrs, u, host).value.columns[j][i])
  {
    var d := DecodeRows(rows, attrs, u, host).value;
    forall j, i | 0 <= j < |attrs| && 0 <= i < |rows|
      ensures Fits(attrs[j].attrType, d.columns[j][i])
    {
      DecodedValueAt(rows, attrs, u, host, i, j);
      var p := DecodeRow(rows[i], attrs, u, host).value;
      assert DecodeAttribute(rows[i], attrs[j], host).Ok?;
      assert d.columns[j][i] == p.values[j] == DecodeAttribute(rows[i], attrs[j], host).value;
    }
  }

  /** A row that lacks the column of a configured attribute makes the whole snapshot fail. */
  lemma MissingAttributeColumnFails(rows: seq<Row>, attrs: seq<AttrItem>, u: UnitScale, host: Host, i: nat, j: nat)
    requires i < |rows| && j < |attrs| && attrs[j].name !in rows[i]
    ensures DecodeRows(rows, attrs, u, host).Err?
  {
    assert DecodeAttribute(rows[i], attrs[j], host).Err?;
  }

  /** The data type an attribute is created with: string hashes are stored as integers. */
  function HostType(t: AttrType): (h: AttrType)
    ensures h != StringHashType
    ensures t != StringHashType ==> h == t
  {
    if t == StringHashType then IntType else t
  }

  /** The field the values are written through: `vector` for float vectors, `value` otherwise. */
  function FieldName(t: AttrType): (f: string)
    ensures f == "vector" || f == "value"
    ensures f == "vector" <==> t == FloatVectorType
  {
    if t == FloatVectorType then "vector" else "value"
  }

  /** The point attributes created on the new mesh, one per dictionary entry, with that attribute's values. */
  function MeshAttributes(attrs: seq<AttrItem>, columns: seq<seq<AttrValue>>): (r: seq<MeshAttribute>)
    requires |columns| == |attrs|
    ensures |r| == |attrs|
    ensures forall j | 0 <= j < |attrs| :: r[j].name == attrs[j].name && r[j].values == columns[j]
    ensures forall j | 0 <= j < |attrs| :: r[j].dataType != StringHashType
    ensures forall j | 0 <= j < |attrs| :: attrs[j].attrType != StringHashType ==> r[j].dataType == attrs[j].attrType
    ensures forall j | 0 <= j < |attrs| :: attrs[j].attrType == StringHashType ==> r[j].dataType == IntType
    ensures forall j | 0 <= j < |attrs| :: r[j].field == "vector" || r[j].field == "value"
    ensures forall j | 0 <= j < |attrs| :: r[j].field == "vector" <==> attrs[j].attrType == FloatVectorType
  {
    seq(|attrs|, j requires 0 <= j < |attrs| =>
      MeshAttribute(attrs[j].name, HostType(attrs[j].attrType), FieldName(attrs[j].attrType), columns[j]))
  }

  /** The kind of value an attribute created with data type `h` stores. */
  predicate StoredAs(h: AttrType, v: AttrValue) {
    match h
    case IntType => v.IntValue?
    case FloatType => v.FloatValue?
    case StringType => v.StringValue?
    case StringHashType => v.IntValue?
    case FloatVectorType => v.VectorValue?
  }

  /**
   * The attributes written from a decoded snapshot hold values of the data type
   * each attribute is created with, and are written through `vector` exactly when
   * their values are vectors.
   */
  lemma WrittenAttributesFit(rows: seq<Row>, attrs: seq<AttrItem>, u: UnitScale, host: Host)
    requires DecodeRows(rows, attrs, u, host).Ok?
    ensures var m := MeshAttributes(attrs, DecodeRows(rows, attrs, u, host).value.columns);
            forall j, i | 0 <= j < |m| && 0 <= i < |rows| ::
              && i < |m[j].values|
              && StoredAs(m[j].dataType, m[j].values[i])
              && (m[j].field == "vector" <==> m[j].values[i].VectorValue?)
  {
    DecodedValuesFit(rows, attrs, u, host);
  }

  /** The first material of a mesh, carried over to its replacement. */
  function FirstMaterial(m: Mesh): (r: seq<string>)
    ensures |r| <= 1
    ensures |m.materials| > 0 <==> |r| == 1
    ensures |r| == 1 ==> r[0] == m.materials[0]
  {
    if |m.materials| > 0 then [m.materials[0]] else []
  }


  /** The outcome of handling one object: the object and the mesh database afterwards, and the exception raised, if any. */
  datatype Frame = Frame(obj: SceneObject, store: MeshStore, error: Option<Error>)

  /** The object's mesh is in the database and the object is one of its users. */
  ghost predicate HasMesh(obj: SceneObject, store: MeshStore) {
    store.Valid() && obj.data in store.meshes && store.users[obj.data] >= 1
  }

  /**
   * The snapshot of the object's current step, decoded. It loads exactly when the
   * file can be opened and every row decodes, giving one point per row and one
   * column of values per dictionary entry. An unopenable file raises `OSError`,
   * turned into a warning; otherwise the error is that of the first bad row.
   */
  function LoadSnapshot(obj: SceneObject, u: UnitScale, host: Host): (r: Result<Decoded>)
    ensures var path := SnapshotPath(obj.positionsPath, obj.step);
            path !in host.files ==> r == Err(SnapshotUnreadable(path))
    ensures var path := SnapshotPath(obj.positionsPath, obj.step);
            r.Ok? <==> path in host.files &&
                       forall i | 0 <= i < |host.files[path]| ::
                         DecodeRow(host.files[path][i], AttrTypeByName(obj.attributes), u, host).Ok?
    ensures var path := SnapshotPath(obj.positionsPath, obj.step);
            r.Ok? ==> && |r.value.vertices| == |host.files[path]|
                      && |r.value.columns| == |AttrTypeByName(obj.attributes)|
                      && forall j | 0 <= j < |r.value.columns| :: |r.value.columns[j]| == |host.files[path]|
    ensures var path := SnapshotPath(obj.positionsPath, obj.step);
            path in host.files && r.Err? ==>
              var rows := host.files[path];
              && FirstBadRow(rows, AttrTypeByName(obj.attributes), u, host) < |rows|
              && DecodeRow(rows[FirstBadRow(rows, AttrTypeByName(obj.attributes), u, host)], AttrTypeByName(obj.attributes), u, host)
                 == Err(r.error)
    ensures var path := SnapshotPath(obj.positionsPath, obj.step);
            path in host.files ==> r == DecodeRows(host.files[path], AttrTypeByName(obj.attributes), u, host)
  {
    var path := SnapshotPath(obj.positionsPath, obj.step);
    if path !in host.files then Err(SnapshotUnreadable(path))
    else
      DecodeRowsFirstError(host.files[path], AttrTypeByName(obj.attributes), u, host);
      DecodeRows(host.files[path], AttrTypeByName(obj.attributes), u, host)
  }

  /**
   * A loaded snapshot holds, at position `i`, the position of the molecule in row
   * `i` of the file and, in column `j`, that row's value of attribute `j`.
   */
  lemma LoadedSnapshotRows(obj: SceneObject, u: UnitScale, host: Host)
    requires LoadSnapshot(obj, u, host).Ok?
    ensures var path := SnapshotPath(obj.positionsPath, obj.step);
            var attrs := AttrTypeByName(obj.attributes);
            var d := LoadSnapshot(obj, u, host).value;
            && path in host.files
            && forall i | 0 <= i < |host.files[path]| ::
                 && DecodeRow(host.files[path][i], attrs, u, host).Ok?
                 && d.vertices[i] == DecodeRow(host.files[path][i], attrs, u, host).value.vertex
                 && forall j | 0 <= j < |attrs| ::
                      d.columns[j][i] == DecodeRow(host.files[path][i], attrs, u, host).value.values[j]
  {
    var path := SnapshotPath(obj.positionsPath, obj.step);
    var attrs := AttrTypeByName(obj.attributes);
    var rows := host.files[path];
    forall i | 0 <= i < |rows|
      ensures DecodeRow(rows[i], attrs, u, host).Ok?
      ensures DecodeRows(rows, attrs, u, host).value.vertices[i] == DecodeRow(rows[i], attrs, u, host).value.vertex
      ensures forall j | 0 <= j < |attrs| ::
                DecodeRows(rows, attrs, u, host).value.columns[j][i] == DecodeRow(rows[i], attrs, u, host).value.values[j]
    {
      DecodedVertexAt(rows, attrs, u, host, i);
      forall j | 0 <= j < |attrs|
        ensures DecodeRows(rows, attrs, u, host).value.columns[j][i] == DecodeRow(rows[i], attrs, u, host).value.values[j]
      {
        DecodedValueAt(rows, attrs, u, host, i, j);
      }
    }
  }

  /**
   * The file the handler opens ends in the snapshot name of the object's step,
   * which the step discovery recognises with that same step when it is
   * non-negative, and ignores otherwise.
   */
  lemma SnapshotPathNamesStep(folder: string, step: int)
    ensures var p := SnapshotPath(folder, step);
            var n := |SnapshotName(step)|;
            && |p| >= n && p[|p| - n..] == SnapshotName(step)
            && (folder != "" ==> |p| > n && p[|p| - n - 1] == '/')
            && (step >= 0 ==> MatchPositions(p[|p| - n..]) == Some(step))
            && (step < 0 ==> MatchPositions(p[|p| - n..]) == None)
  {
    SnapshotNameRoundTrip(step);
    JoinedNameKeepsMatch(folder, SnapshotName(step));
  }

  /** A joined path ends in the name, whose match is unchanged. */
  lemma JoinedNameKeepsMatch(folder: string, name: string)
    ensures var p := JoinPath(folder, name);
            && |p| >= |name| && p[|p| - |name|..] == name
            && (folder != "" ==> |p| > |name| && p[|p| - |name| - 1] == '/')
            && MatchPositions(p[|p| - |name|..]) == MatchPositions(name)
  {
  }

  /**
   * The object gets mesh `id`, new and unused, filled with a decoded snapshot and
   * the old mesh's first material; the old mesh is deleted if this was its last
   * user; the attributes are written and the step recorded. When the deletion
   * raises, the object has its new mesh but neither attributes nor step.
   */
  function ReplaceMesh(obj: SceneObject, s: MeshStore, id: MeshId, d: Decoded, attrs: seq<AttrItem>): (r: Frame)
    requires HasMesh(obj, s) && id in s.meshes && id != obj.data && s.users[id] == 0
    requires |d.columns| == |attrs|
    ensures r.store.Valid()
    ensures r.obj.data == id && id in r.store.meshes && r.store.users[id] == 1
    ensures r.error.None? ==> r.obj == obj.(data := id, previousStep := Some(obj.step), forceUpdate := Some(false))
    ensures r.error.None? ==>
              r.store.meshes[id] == Mesh(obj.name, Explicit(d.vertices, [], []), FirstMaterial(s.meshes[obj.data]),
                                         MeshAttributes(attrs, d.columns))
    ensures r.error.Some? ==> r.obj == obj.(data := id) && r.error == Some(MeshNotDeleted(obj.data))
    ensures r.store.meshes.Keys <= s.meshes.Keys
    ensures forall other | other in s.meshes && other != obj.data && other != id ::
              other in r.store.meshes && r.store.meshes[other] == s.meshes[other] && r.store.users[other] == s.users[other]
    ensures obj.data in r.store.meshes ==> r.store.users[obj.data] == s.users[obj.data] - 1
    ensures obj.data !in r.store.meshes ==> s.users[obj.data] == 1
    ensures r.error.None? <==> s.users[obj.data] > 1 || obj.data !in s.undeletable
  {
    var s2 := UpdateMesh(s, id, Mesh(obj.name, Explicit(d.vertices, [], []), FirstMaterial(s.meshes[obj.data]), []));
    var s3 := Reassign(s2, obj.data, id);
    var swapped := obj.(data := id);
    match DeleteMesh(s3, obj.data)
    case Err(e) => Frame(swapped, s3, Some(e))
    case Ok(deletion) =>
      var s4 := deletion.store;
      var s5 := UpdateMesh(s4, id, s4.meshes[id].(attributes := MeshAttributes(attrs, d.columns)));
      Frame(swapped.(previousStep := Some(obj.step), forceUpdate := Some(false)), s5, None)
  }

  /**
   * Handles one object for the current frame. Objects that are not visualizations,
   * and visualizations whose step is unchanged and not forced, are left alone.
   * Otherwise a new mesh is created, the snapshot of the object's step is read and
   * decoded, and the new mesh replaces the old one. An exception ends the handling
   * where it is raised, with the effects so far: a failed read leaves the new mesh
   * behind unused.
   */
  function UpdateObject(obj: SceneObject, store: MeshStore, u: UnitScale, host: Host): (r: Frame)
    requires store.Valid() && (IsVisualization(obj) && !Skips(obj) ==> HasMesh(obj, store))
    ensures !IsVisualization(obj) || Skips(obj) ==> r == Frame(obj, store, None)
    ensures r.store.Valid()
    ensures HasMesh(obj, store) ==> HasMesh(r.obj, r.store)
    ensures r.obj == obj.(data := r.obj.data, previousStep := r.obj.previousStep, forceUpdate := r.obj.forceUpdate)
    ensures r.error.None? && IsVisualization(obj) && !Skips(obj) ==>
              r.obj.previousStep == Some(obj.step) && r.obj.forceUpdate == Some(false)
    ensures r.error.Some? ==> r.obj.previousStep == obj.previousStep && r.obj.forceUpdate == obj.forceUpdate
    ensures IsVisualization(obj) && !Skips(obj) ==>
              (r.error.None? <==> LoadSnapshot(obj, u, host).Ok? && (store.users[obj.data] > 1 || obj.data !in store.undeletable))
  {
    if !IsVisualization(obj) || Skips(obj) then Frame(obj, store, None)
    else
      var (id, s1) := NewMesh(store, EmptyMesh(obj.name));
      match LoadSnapshot(obj, u, host)
      case Err(e) => Frame(obj, s1, Some(e))
      case Ok(d) => ReplaceMesh(obj, s1, id, d, AttrTypeByName(obj.attributes))
  }

  /**
   * A successful update gives the object a new mesh holding the decoded snapshot:
   * one point per molecule, the old mesh's first material, and the attributes.
   */
  lemma UpdateLoadsSnapshot(obj: SceneObject, store: MeshStore, u: UnitScale, host: Host)
    requires HasMesh(obj, store) && IsVisualization(obj) && !Skips(obj)
    ensures var r := UpdateObject(obj, store, u, host);
            r.error.None? ==>
            && LoadSnapshot(obj, u, host).Ok?
            && r.obj.data != obj.data && r.obj.data !in store.meshes
            && r.store.meshes[r.obj.data] ==
                 Mesh(obj.name, Explicit(LoadSnapshot(obj, u, host).value.vertices, [], []),
                      FirstMaterial(store.meshes[obj.data]),
                      MeshAttributes(AttrTypeByName(obj.attributes), LoadSnapshot(obj, u, host).value.columns))
  {
  }

  /**
   * A successful update gives the new mesh one point per row of the step's file,
   * the point at position i being the molecule position read from row i.
   */
  lemma UpdatePlacesRows(obj: SceneObject, store: MeshStore, u: UnitScale, host: Host)
    requires HasMesh(obj, store) && IsVisualization(obj) && !Skips(obj)
    ensures var r := UpdateObject(obj, store, u, host);
            var path := SnapshotPath(obj.positionsPath, obj.step);
            r.error.None? ==>
            && path in host.files
            && var rows := host.files[path];
            && |r.store.meshes[r.obj.data].geometry.vertices| == |rows|
            && forall i | 0 <= i < |rows| ::
                 && DecodeRow(rows[i], AttrTypeByName(obj.attributes), u, host).Ok?
                 && r.store.meshes[r.obj.data].geometry.vertices[i]
                    == DecodeRow(rows[i], AttrTypeByName(obj.attributes), u, host).value.vertex
  {
    if UpdateObject(obj, store, u, host).error.None? {
      UpdateLoadsSnapshot(obj, store, u, host);
      LoadedSnapshotRows(obj, u, host);
    }
  }

  /**
   * An update fails either before the swap, when the snapshot cannot be read or
   * decoded, with the object unchanged; or after it, when the old mesh cannot be
   * removed, with the object already on its new mesh.
   */
  lemma UpdateFailures(obj: SceneObject, store: MeshStore, u: UnitScale, host: Host)
    requires HasMesh(obj, store) && IsVisualization(obj) && !Skips(obj)
    ensures var r := UpdateObject(obj, store, u, host);
            && (LoadSnapshot(obj, u, host).Err? ==> r.obj == obj && r.error == Some(LoadSnapshot(obj, u, host).error))
            && (r.error.Some? && r.obj.data != obj.data ==>
                  r.error == Some(MeshNotDeleted(obj.data)) && obj.data in r.store.meshes)
  {
  }

  /**
   * From `o` in `s` to `o2` in `s2`, as an update moves meshes: the object keeps its
   * mesh or moves to a new one it alone uses, the old mesh loses that user and is
   * removed only when it has no other, any other new mesh is unused, and no other
   * mesh is touched.
   */
  ghost predicate MovesMesh(s: MeshStore, o: SceneObject, s2: MeshStore, o2: SceneObject)
    requires HasMesh(o, s) && HasMesh(o2, s2)
  {
    && (o2.data != o.data ==> o2.data !in s.meshes && s2.users[o2.data] == 1)
    && (forall id | id in s.meshes && id != o.data ::
          id in s2.meshes && s2.meshes[id] == s.meshes[id] && s2.users[id] == s.users[id])
    && (o2.data == o.data ==> s2.meshes[o.data] == s.meshes[o.data] && s2.users[o.data] == s.users[o.data])
    && (o2.data != o.data && o.data in s2.meshes ==> s2.users[o.data] == s.users[o.data] - 1)
    && (o2.data != o.data && o.data !in s2.meshes ==> s.users[o.data] == 1)
    && (forall id | id in s2.meshes && id !in s.meshes && id != o2.data :: s2.users[id] == 0)
  }

  /** What an update does to the mesh database. */
  lemma UpdateKeepsOtherMeshes(obj: SceneObject, store: MeshStore, u: UnitScale, host: Host)
    requires HasMesh(obj, store)
    ensures var r := UpdateObject(obj, store, u, host);
            MovesMesh(store, obj, r.store, r.obj)
  {
  }

  /** After a successful update, handling the object again in a frame with the same step changes nothing. */
  lemma SecondPassIsNoOp(obj: SceneObject, store: MeshStore, u: UnitScale, host: Host)
    requires HasMesh(obj, store)
    ensures var r := UpdateObject(obj, store, u, host);
            r.error.None? ==> UpdateObject(r.obj, r.store, u, host) == r
  {
  }

  /** How many of the objects use mesh `id`. */
  function Uses(objects: seq<SceneObject>, id: MeshId): (n: nat)
    ensures n <= |objects|
    decreases |objects|
  {
    if |objects| == 0 then 0
    else (if objects[0].data == id then 1 else 0) + Uses(objects[1..], id)
  }

  /** A mesh has no users among the objects exactly when none of them uses it. */
  lemma {:induction false} UsesNone(objects: seq<SceneObject>, id: MeshId)
    ensures Uses(objects, id) == 0 <==> forall i | 0 <= i < |objects| :: objects[i].data != id
    decreases |objects|
  {
    if |objects| > 0 {
      var rest := objects[1..];
      UsesNone(rest, id);
      assert forall i | 0 <= i < |rest| :: rest[i] == objects[i + 1];
      if objects[0].data != id && Uses(rest, id) != 0 {
        var i :| 0 <= i < |rest| && rest[i].data == id;
        assert objects[i + 1].data == id;
      }
    }
  }

  /**
   * The scene's objects and the mesh database agree: every object's mesh exists,
   * and every mesh has at least as many users as there are objects using it.
   */
  ghost predicate Accounted(objects: seq<SceneObject>, store: MeshStore) {
    && store.Valid()
    && (forall i | 0 <= i < |objects| :: objects[i].data in store.meshes)
    && forall id | id in store.users :: store.users[id] >= Uses(objects, id)
  }

  /** Every mesh id some object's data has, and an id above all of them. */
  function DataIds(objects: seq<SceneObject>): set<MeshId> {
    set i | 0 <= i < |objects| :: objects[i].data
  }

  function DataBound(objects: seq<SceneObject>): (b: MeshId)
    ensures forall i | 0 <= i < |objects| :: objects[i].data < b
    decreases |objects|
  {
    if |objects| == 0 then 0
    else
      var b := DataBound(objects[1..]);
      assert forall i | 1 <= i < |objects| :: objects[i] == objects[1..][i - 1];
      if objects[0].data < b then b else objects[0].data + 1
  }

  /**
   * A database in which the data of every object has an entry: an object that is
   * not a mesh object (a camera, a light, an empty) gets a placeholder entry for its
   * datablock, which the handler never reads since such an object is never a
   * visualization. Every scene, whatever its objects, can be accounted this way,
   * each entry used exactly by the objects that hold it.
   */
  function Placeholders(objects: seq<SceneObject>): (s: MeshStore)
    ensures Accounted(objects, s)
    ensures s.meshes.Keys == DataIds(objects)
    ensures forall id | id in s.users :: s.users[id] == Uses(objects, id)
  {
    var ids := DataIds(objects);
    MeshStore(map id | id in ids :: EmptyMesh(""), map id | id in ids :: Uses(objects, id), DataBound(objects), {})
  }

  /** The outcome of one frame: the scene's objects and the mesh database afterwards, and the exception that ended the frame, if any. */
  datatype Playback = Playback(objects: seq<SceneObject>, store: MeshStore, error: Option<Error>)

  /** Every object after the first still finds its mesh once the first object's mesh has moved. */
  lemma MoveKeepsMeshes(objects: seq<SceneObject>, store: MeshStore, fo: SceneObject, fs: MeshStore)
    requires |objects| > 0 && Accounted(objects, store)
    requires HasMesh(objects[0], store) && HasMesh(fo, fs) && MovesMesh(store, objects[0], fs, fo)
    ensures forall i | 0 <= i < |objects| - 1 :: objects[1..][i].data in fs.meshes
  {
    var o := objects[0];
    var rest := objects[1..];
    forall i | 0 <= i < |rest|
      ensures rest[i].data in fs.meshes
    {
      assert rest[i] == objects[i + 1];
      if rest[i].data == o.data {
        UsesNone(rest, o.data);
        assert Uses(rest, o.data) >= 1;
      }
    }
  }

  /** Moving the first object's mesh as an update does keeps the rest of the scene accounted for. */
  lemma MoveKeepsAccounts(objects: seq<SceneObject>, store: MeshStore, fo: SceneObject, fs: MeshStore)
    requires |objects| > 0 && Accounted(objects, store)
    requires HasMesh(objects[0], store) && HasMesh(fo, fs) && MovesMesh(store, objects[0], fs, fo)
    ensures Accounted(objects[1..], fs)
    ensures fo.data in fs.users && fs.users[fo.data] - Uses(objects[1..], fo.data) >= 1
    ensures forall id | id in store.users && id in fs.users ::
              fs.users[id] - Uses(objects[1..], id) - (if fo.data == id then 1 else 0) >= store.users[id] - Uses(objects, id)
    ensures forall id | id in store.users && id !in fs.users :: store.users[id] <= Uses(objects, id)
  {
    var o := objects[0];
    var rest := objects[1..];
    assert objects == [o] + rest;
    MoveKeepsMeshes(objects, store, fo, fs);
    forall id | id in fs.users
      ensures fs.users[id] >= Uses(rest, id)
    {
      UsesCons(o, rest, id);
      if id !in store.users {
        assert forall i | 0 <= i < |rest| :: rest[i] == objects[i + 1] && rest[i].data in store.meshes;
        UsesNone(rest, id);
      }
    }
    if fo.data != o.data {
      assert forall i | 0 <= i < |rest| :: rest[i] == objects[i + 1] && rest[i].data in store.meshes;
      UsesNone(rest, fo.data);
    } else {
      UsesCons(o, rest, o.data);
    }
    forall id | id in store.users
      ensures id in fs.users ==>
                fs.users[id] - Uses(rest, id) - (if fo.data == id then 1 else 0) >= store.users[id] - Uses(objects, id)
      ensures id !in fs.users ==> store.users[id] <= Uses(objects, id)
    {
      UsesCons(o, rest, id);
    }
  }

  /** Handling the first object keeps the rest of the scene accounted for. */
  lemma StepKeepsAccounts(objects: seq<SceneObject>, store: MeshStore, u: UnitScale, host: Host)
    requires |objects| > 0 && Accounted(objects, store)
    ensures HasMesh(objects[0], store)
    ensures var f := UpdateObject(objects[0], store, u, host);
            var rest := objects[1..];
            && Accounted(rest, f.store)
            && f.obj.data in f.store.users && f.store.users[f.obj.data] - Uses(rest, f.obj.data) >= 1
            && (forall id | id in store.users && id in f.store.users ::
                  f.store.users[id] - Uses(rest, id) - (if f.obj.data == id then 1 else 0)
                  >= store.users[id] - Uses(objects, id))
            && (forall id | id in store.users && id !in f.store.users :: store.users[id] <= Uses(objects, id))
  {
    assert Uses(objects, objects[0].data) >= 1;
    var f := UpdateObject(objects[0], store, u, host);
    UpdateKeepsOtherMeshes(objects[0], store, u, host);
    MoveKeepsAccounts(objects, store, f.obj, f.store);
  }

  /**
   * The frame-change handler: handles the scene's objects in order and stops at
   * the first exception, leaving the objects after it as they were.
   */
  function UpdateAll(objects: seq<SceneObject>, store: MeshStore, u: UnitScale, host: Host): (r: Playback)
    requires Accounted(objects, store)
    ensures |r.objects| == |objects|
    ensures r.error.None? ==> |objects| == 0 || UpdateObject(objects[0], store, u, host).error.None?
    decreases |objects|
  {
    if |objects| == 0 then Playback([], store, None)
    else
      StepKeepsAccounts(objects, store, u, host);
      var f := UpdateObject(objects[0], store, u, host);
      if f.error.Some? then Playback([f.obj] + objects[1..], f.store, f.error)
      else
        var r := UpdateAll(objects[1..], f.store, u, host);
        Playback([f.obj] + r.objects, r.store, r.error)
  }

  /** The first object of a frame is handled by `UpdateObject`, the rest by the remaining frame or not at all. */
  lemma UpdateAllStep(objects: seq<SceneObject>, store: MeshStore, u: UnitScale, host: Host)
    requires |objects| > 0 && Accounted(objects, store)
    ensures HasMesh(objects[0], store)
    ensures var r := UpdateAll(objects, store, u, host);
            var f := UpdateObject(objects[0], store, u, host);
            && r.objects[0] == f.obj
            && (f.error.Some? ==> r == Playback([f.obj] + objects[1..], f.store, f.error))
            && (f.error.None? ==> Accounted(objects[1..], f.store)
                                  && r.objects[1..] == UpdateAll(objects[1..], f.store, u, host).objects
                                  && r.store == UpdateAll(objects[1..], f.store, u, host).store
                                  && r.error == UpdateAll(objects[1..], f.store, u, host).error)
  {
    StepKeepsAccounts(objects, store, u, host);
  }

  /** A frame changes no object beyond its mesh, its recorded step and its force flag. */
  lemma {:induction false} PlaybackKeepsObjects(objects: seq<SceneObject>, store: MeshStore, u: UnitScale, host: Host)
    requires Accounted(objects, store)
    ensures var r := UpdateAll(objects, store, u, host);
            forall i | 0 <= i < |objects| ::
              r.objects[i] == objects[i].(data := r.objects[i].data, previousStep := r.objects[i].previousStep,
                                          forceUpdate := r.objects[i].forceUpdate)
    decreases |objects|
  {
    if |objects| > 0 {
      UpdateAllStep(objects, store, u, host);
      var f := UpdateObject(objects[0], store, u, host);
      var r := UpdateAll(objects, store, u, host);
      var rest, tail := objects[1..], r.objects[1..];
      if f.error.None? {
        PlaybackKeepsObjects(rest, f.store, u, host);
        assert tail == UpdateAll(rest, f.store, u, host).objects;
      } else {
        assert tail == rest;
      }
      forall i | 0 <= i < |objects|
        ensures r.objects[i] == objects[i].(data := r.objects[i].data, previousStep := r.objects[i].previousStep,
                                            forceUpdate := r.objects[i].forceUpdate)
      {
        if i > 0 {
          assert objects[i] == rest[i - 1] && r.objects[i] == tail[i - 1];
        }
      }
    }
  }

  /** A frame leaves alone every object that is not a visualization or whose step is unchanged and not forced. */
  lemma {:induction false} PlaybackLeavesIdleObjects(objects: seq<SceneObject>, store: MeshStore, u: UnitScale, host: Host)
    requires Accounted(objects, store)
    ensures var r := UpdateAll(objects, store, u, host);
            forall i | 0 <= i < |objects| && (!IsVisualization(objects[i]) || Skips(objects[i])) :: r.objects[i] == objects[i]
    decreases |objects|
  {
    if |objects| > 0 {
      UpdateAllStep(objects, store, u, host);
      var f := UpdateObject(objects[0], store, u, host);
      var r := UpdateAll(objects, store, u, host);
      var rest, tail := objects[1..], r.objects[1..];
      if f.error.None? {
        PlaybackLeavesIdleObjects(rest, f.store, u, host);
        assert tail == UpdateAll(rest, f.store, u, host).objects;
      } else {
        assert tail == rest;
      }
      forall i | 0 <= i < |objects| && (!IsVisualization(objects[i]) || Skips(objects[i]))
        ensures r.objects[i] == objects[i]
      {
        if i > 0 {
          assert objects[i] == rest[i - 1] && r.objects[i] == tail[i - 1];
        }
      }
    }
  }

  /** When no object is due for an update, a frame changes nothing at all. */
  lemma {:induction false} IdleFrameIsNoOp(objects: seq<SceneObject>, store: MeshStore, u: UnitScale, host: Host)
    requires Accounted(objects, store)
    requires forall i | 0 <= i < |objects| :: !IsVisualization(objects[i]) || Skips(objects[i])
    ensures UpdateAll(objects, store, u, host) == Playback(objects, store, None)
    decreases |objects|
  {
    if |objects| > 0 {
      UpdateAllStep(objects, store, u, host);
      var rest := objects[1..];
      assert forall i | 0 <= i < |rest| :: rest[i] == objects[i + 1];
      assert UpdateObject(objects[0], store, u, host) == Frame(objects[0], store, None);
      IdleFrameIsNoOp(rest, store, u, host);
    }
  }

  /** A frame that completes records, on every object it updated, the step it loaded and clears the force flag. */
  lemma {:induction false} PlaybackRecordsSteps(objects: seq<SceneObject>, store: MeshStore, u: UnitScale, host: Host)
    requires Accounted(objects, store)
    requires UpdateAll(objects, store, u, host).error.None?
    ensures var r := UpdateAll(objects, store, u, host);
            forall i | 0 <= i < |objects| && IsVisualization(objects[i]) && !Skips(objects[i]) ::
              r.objects[i].previousStep == Some(objects[i].step) && r.objects[i].forceUpdate == Some(false)
    decreases |objects|
  {
    if |objects| > 0 {
      UpdateAllStep(objects, store, u, host);
      var f := UpdateObject(objects[0], store, u, host);
      var r := UpdateAll(objects, store, u, host);
      var rest := objects[1..];
      PlaybackRecordsSteps(rest, f.store, u, host);
      var r' := UpdateAll(rest, f.store, u, host);
      forall i | 0 <= i < |objects| && IsVisualization(objects[i]) && !Skips(objects[i])
        ensures r.objects[i].previousStep == Some(objects[i].step) && r.objects[i].forceUpdate == Some(false)
      {
        if i > 0 {
          assert objects[i] == rest[i - 1] && r.objects[i] == r'.objects[i - 1];
        }
      }
    }
  }

  /**
   * A frame that fails was stopped by a visualization object due for an update,
   * whose step was not recorded; the objects after it were not handled.
   */
  lemma {:induction false} PlaybackStopsAtError(objects: seq<SceneObject>, store: MeshStore, u: UnitScale, host: Host)
    requires Accounted(objects, store)
    requires UpdateAll(objects, store, u, host).error.Some?
    ensures var r := UpdateAll(objects, store, u, host);
            exists i | 0 <= i < |objects| ::
              && IsVisualization(objects[i]) && !Skips(objects[i])
              && r.objects[i].previousStep == objects[i].previousStep
              && r.objects[i + 1..] == objects[i + 1..]
    decreases |objects|
  {
    UpdateAllStep(objects, store, u, host);
    var f := UpdateObject(objects[0], store, u, host);
    var r := UpdateAll(objects, store, u, host);
    var rest := objects[1..];
    if f.error.Some? {
      assert IsVisualization(objects[0]) && !Skips(objects[0]);
      assert r.objects[1..] == objects[1..];
    } else {
      PlaybackStopsAtError(rest, f.store, u, host);
      var r' := UpdateAll(rest, f.store, u, host);
      var k :| 0 <= k < |rest| && IsVisualization(rest[k]) && !Skips(rest[k])
               && r'.objects[k].previousStep == rest[k].previousStep && r'.objects[k + 1..] == rest[k + 1..];
      assert r.objects[k + 1] == r'.objects[k] && objects[k + 1] == rest[k];
      assert r.objects[k + 1 + 1..] == r'.objects[k + 1..];
      assert objects[k + 1 + 1..] == rest[k + 1..];
    }
  }

  /** The outcome `f` of a frame is what updating `obj` against some mesh store `s` produced. */
  ghost predicate UpdateGave(obj: SceneObject, s: MeshStore, u: UnitScale, host: Host, f: Frame) {
    HasMesh(obj, s) && UpdateObject(obj, s, u, host) == f
  }

  /**
   * A frame that stops reports the error of the update that failed: its error, its
   * mesh store and the stopping object are what that object's update produced.
   */
  lemma {:induction false} PlaybackReportsFailedUpdate(objects: seq<SceneObject>, store: MeshStore, u: UnitScale, host: Host)
    requires Accounted(objects, store)
    requires UpdateAll(objects, store, u, host).error.Some?
    ensures var r := UpdateAll(objects, store, u, host);
            exists i, s | 0 <= i < |objects| ::
              UpdateGave(objects[i], s, u, host, Frame(r.objects[i], r.store, r.error))
    decreases |objects|
  {
    UpdateAllStep(objects, store, u, host);
    var f := UpdateObject(objects[0], store, u, host);
    var r := UpdateAll(objects, store, u, host);
    if f.error.Some? {
      assert UpdateGave(objects[0], store, u, host, Frame(r.objects[0], r.store, r.error));
    } else {
      var rest := objects[1..];
      PlaybackReportsFailedUpdate(rest, f.store, u, host);
      var r' := UpdateAll(rest, f.store, u, host);
      var m, s :| 0 <= m < |rest| && UpdateGave(rest[m], s, u, host, Frame(r'.objects[m], r'.store, r'.error));
      assert objects[m + 1] == rest[m] && r.objects[m + 1] == r'.objects[m];
      assert UpdateGave(objects[m + 1], s, u, host, Frame(r.objects[m + 1], r.store, r.error));
    }
  }

  /** From `before` in `s` to `after` in `s2`, no surviving mesh has fewer spare users, that is users beyond the objects using it. */
  ghost predicate KeepsSpares(before: seq<SceneObject>, s: MeshStore, after: seq<SceneObject>, s2: MeshStore) {
    forall id | id in s.users && id in s2.users :: s2.users[id] - Uses(after, id) >= s.users[id] - Uses(before, id)
  }

  /** Every mesh of `s` with spare users is still in `s2`. */
  ghost predicate SparedSurvive(before: seq<SceneObject>, s: MeshStore, s2: MeshStore) {
    forall id | id in s.users && s.users[id] > Uses(before, id) :: id in s2.users
  }

  lemma UsesCons(o: SceneObject, rest: seq<SceneObject>, id: MeshId)
    ensures Uses([o] + rest, id) == (if o.data == id then 1 else 0) + Uses(rest, id)
  {
    assert ([o] + rest)[1..] == rest;
  }

  /** The first object's new mesh has a spare user for it, so the whole handled scene is accounted for. */
  lemma ComposeAccounted(rest: seq<SceneObject>, fs: MeshStore, fo: SceneObject, ro: seq<SceneObject>, rs: MeshStore)
    requires fo.data in fs.users && fs.users[fo.data] - Uses(rest, fo.data) >= 1
    requires Accounted(ro, rs) && KeepsSpares(rest, fs, ro, rs) && SparedSurvive(rest, fs, rs)
    ensures Accounted([fo] + ro, rs)
  {
    var all := [fo] + ro;
    forall i | 0 <= i < |all|
      ensures all[i].data in rs.meshes
    {
      if i > 0 {
        assert all[i] == ro[i - 1];
      }
    }
    forall id | id in rs.users
      ensures rs.users[id] >= Uses(all, id)
    {
      UsesCons(fo, ro, id);
    }
  }

  /** Spare users survive the first object's update followed by the rest's. */
  lemma ComposeSpares(objects: seq<SceneObject>, store: MeshStore, fo: SceneObject, fs: MeshStore,
                      ro: seq<SceneObject>, rs: MeshStore)
    requires |objects| > 0 && fo.data in fs.users
    requires forall id | id in store.users && id in fs.users ::
               fs.users[id] - Uses(objects[1..], id) - (if fo.data == id then 1 else 0) >= store.users[id] - Uses(objects, id)
    requires forall id | id in store.users && id !in fs.users :: store.users[id] <= Uses(objects, id)
    requires Accounted(ro, rs) && KeepsSpares(objects[1..], fs, ro, rs)
    ensures KeepsSpares(objects, store, [fo] + ro, rs)
  {
    forall id | id in store.users && id in rs.users
      ensures rs.users[id] - Uses([fo] + ro, id) >= store.users[id] - Uses(objects, id)
    {
      UsesCons(fo, ro, id);
      if id !in fs.users {
        assert fo.data != id;
      }
    }
  }

  /** A mesh with spare users before the frame still exists after the first object's update and the rest's. */
  lemma ComposeSurvive(objects: seq<SceneObject>, store: MeshStore, fo: SceneObject, fs: MeshStore, rs: MeshStore)
    requires |objects| > 0
    requires forall id | id in store.users && id in fs.users ::
               fs.users[id] - Uses(objects[1..], id) - (if fo.data == id then 1 else 0) >= store.users[id] - Uses(objects, id)
    requires forall id | id in store.users && id !in fs.users :: store.users[id] <= Uses(objects, id)
    requires SparedSurvive(objects[1..], fs, rs)
    ensures SparedSurvive(objects, store, rs)
  {
    forall id | id in store.users && store.users[id] > Uses(objects, id)
      ensures id in rs.users
    {
      assert id in fs.users;
      assert fs.users[id] > Uses(objects[1..], id);
    }
  }

  /**
   * A frame that completes keeps the scene accounted for, and no mesh loses users
   * beyond the objects that stopped using it: a mesh with spare users survives.
   */
  lemma {:induction false} PlaybackKeepsAccounts(objects: seq<SceneObject>, store: MeshStore, u: UnitScale, host: Host)
    requires Accounted(objects, store)
    requires UpdateAll(objects, store, u, host).error.None?
    ensures var r := UpdateAll(objects, store, u, host);
            && Accounted(r.objects, r.store)
            && KeepsSpares(objects, store, r.objects, r.store)
            && SparedSurvive(objects, store, r.store)
    decreases |objects|
  {
    if |objects| > 0 {
      StepKeepsAccounts(objects, store, u, host);
      UpdateAllStep(objects, store, u, host);
      var f := UpdateObject(objects[0], store, u, host);
      var rest := objects[1..];
      var r' := UpdateAll(rest, f.store, u, host);
      PlaybackKeepsAccounts(rest, f.store, u, host);
      var r := UpdateAll(objects, store, u, host);
      assert r.objects == [f.obj] + r'.objects;
      ComposeAccounted(rest, f.store, f.obj, r'.objects, r'.store);
      ComposeSpares(objects, store, f.obj, f.store, r'.objects, r'.store);
      ComposeSurvive(objects, store, f.obj, f.store, r'.store);
    }
  }

  /**
   * Two frames in a row at the same time step: once a frame completes, the next
   * one changes nothing, whatever the scene held before.
   */
  lemma SecondPlaybackIsNoOp(objects: seq<SceneObject>, store: MeshStore, u: UnitScale, host: Host)
    requires Accounted(objects, store)
    requires UpdateAll(objects, store, u, host).error.None?
    ensures var r := UpdateAll(objects, store, u, host);
            Accounted(r.objects, r.store) && UpdateAll(r.objects, r.store, u, host) == r
  {
    var r := UpdateAll(objects, store, u, host);
    PlaybackKeepsAccounts(objects, store, u, host);
    PlaybackRecordsSteps(objects, store, u, host);
    PlaybackKeepsObjects(objects, store, u, host);
    PlaybackLeavesIdleObjects(objects, store, u, host);
    forall i | 0 <= i < |r.objects|
      ensures !IsVisualization(r.objects[i]) || Skips(r.objects[i])
    {
      if IsVisualization(objects[i]) && !Skips(objects[i]) {
        assert r.objects[i].step == objects[i].step;
      }
    }
    IdleFrameIsNoOp(r.objects, r.store, u, host);
  }
}
