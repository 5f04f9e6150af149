/**
 * The Pogona object properties: type resolution, declared defaults, and the
 * step-range discovery run when the molecule positions folder changes.
 */
module PogonaProps {
  import opened Results
  import opened Vectors
  import opened Meshes
  import opened Scene
  import opened PogonaUtil

  /**
   * An object as the editor creates it around mesh `data` at `location`: identity
   * rotation and scale, no add-on flags, nothing stored, and every Pogona property
   * at its declared default (shape NONE, component scale (1, 1, 1), time step 0,
   * empty positions path, no attributes).
   */
  function PlainObject(name: string, data: MeshId, location: Vec3): (o: SceneObject)
    ensures o.name == name && o.data == data && o.location == location
    ensures o.scale == Ones && o.rotation == Zero
    ensures o.pogonaFlag.None? && o.visualizationFlag.None?
    ensures !o.typeStored && !o.shapeStored
    ensures ResolvedType(o.pogonaType) == "" && o.shape == NoShape
    ensures o.componentScale == Ones && o.representation == DefaultRepresentation()
    ensures o.step == 0 && o.positionsPath == "" && o.attributes == []
    ensures o.stepRange.None? && o.previousStep.None? && o.forceUpdate.None?
  {
    SceneObject(
      name := name, data := data, location := location, rotation := Zero, scale := Ones,
      pogonaFlag := None, visualizationFlag := None, typeStored := false, shapeStored := false,
      pogonaType := DefaultType(), shape := NoShape, componentScale := Ones,
      representation := DefaultRepresentation(), positionsPath := "", step := 0, attributes := [],
      stepRange := None, previousStep := None, forceUpdate := None)
  }

  /** What listing a folder gives: its file names, or the error `os.listdir` raises. */
  datatype Listing = Names(names: seq<string>) | NoSuchFolder | ListingFailed

  /** The steps of the snapshot files among `names`, in listing order; other names are ignored. */
  function Steps(names: seq<string>): (steps: seq<nat>)
    ensures |steps| <= |names|
    ensures forall n :: n in steps <==> exists f | f in names :: MatchPositions(f) == Some(n)
    decreases |names|
  {
    if |names| == 0 then []
    else
      var rest := Steps(names[1..]);
      assert forall f :: f in names <==> f == names[0] || f in names[1..];
      match MatchPositions(names[0])
      case Some(n) => [n] + rest
      case None => rest
  }

  function MinOf(s: seq<int>): (m: int)
    requires |s| > 0
    ensures m in s && forall x | x in s :: m <= x
    decreases |s|
  {
    if |s| == 1 then s[0]
    else
      var m0 := MinOf(s[1..]);
      assert forall x :: x in s <==> x == s[0] || x in s[1..];
      if s[0] <= m0 then s[0] else m0
  }

  function MaxOf(s: seq<int>): (m: int)
    requires |s| > 0
    ensures m in s && forall x | x in s :: x <= m
    decreases |s|
  {
    if |s| == 1 then s[0]
    else
      var m0 := MaxOf(s[1..]);
      assert forall x :: x in s <==> x == s[0] || x in s[1..];
      if s[0] >= m0 then s[0] else m0
  }

  /**
   * The bounds of the time-step property derived from a folder listing: the hard
   * and soft minimum are the smallest snapshot step, the hard and soft maximum the
   * largest. A missing folder raises a warning; a folder without snapshots fails
   * because the minimum of nothing is taken.
   */
  function StepBounds(listing: Listing, path: string): (r: Result<StepRange>)
    ensures listing.NoSuchFolder? ==> r == Err(FolderNotFound(path))
    ensures listing.ListingFailed? ==> r == Err(FolderUnreadable(path))
    ensures listing.Names? ==>
              (r.Err? <==> forall f | f in listing.names :: MatchPositions(f).None?)
    ensures listing.Names? && r.Err? ==> r.error == NoSnapshots
    ensures r.Ok? ==> listing.Names?
                      && r.value.softMin == r.value.min && r.value.softMax == r.value.max
                      && (exists f | f in listing.names :: MatchPositions(f) == Some(r.value.min))
                      && (exists f | f in listing.names :: MatchPositions(f) == Some(r.value.max))
                      && forall f | f in listing.names && MatchPositions(f).Some? ::
                           r.value.min <= MatchPositions(f).value <= r.value.max
  {
    match listing
    case NoSuchFolder => Err(FolderNotFound(path))
    case ListingFailed => Err(FolderUnreadable(path))
    case Names(names) =>
      var steps := Steps(names);
      if |steps| == 0 then
        Err(NoSnapshots)
      else
        var lo := MinOf(steps);
        var hi := MaxOf(steps);
        assert forall f | f in names && MatchPositions(f).Some? :: MatchPositions(f).value in steps;
        Ok(StepRange(lo, hi, lo, hi))
  }

  /**
   * The update callback of the positions path. It succeeds exactly when the folder
   * lists at least one snapshot; then only the object's step bounds change, to the
   * smallest and the largest listed step. Otherwise the error escapes and the
   * object keeps the bounds it had.
   */
  function PositionsPathUpdate(obj: SceneObject, listing: Listing): (r: Result<SceneObject>)
    ensures r.Ok? <==> listing.Names? && exists f | f in listing.names :: MatchPositions(f).Some?
    ensures listing.NoSuchFolder? ==> r == Err(FolderNotFound(obj.positionsPath))
    ensures listing.ListingFailed? ==> r == Err(FolderUnreadable(obj.positionsPath))
    ensures listing.Names? && r.Err? ==> r.error == NoSnapshots
    ensures r.Ok? ==> r.value == obj.(stepRange := r.value.stepRange) && r.value.stepRange.Some?
    ensures r.Ok? ==> var b := r.value.stepRange.value;
                      && b.softMin == b.min && b.softMax == b.max
                      && (exists f | f in listing.names :: MatchPositions(f) == Some(b.min))
                      && (exists f | f in listing.names :: MatchPositions(f) == Some(b.max))
                      && forall f | f in listing.names && MatchPositions(f).Some? :: b.min <= MatchPositions(f).value <= b.max
  {
    var range :- StepBounds(listing, obj.positionsPath);
    Ok(obj.(stepRange := Some(range)))
  }
}
