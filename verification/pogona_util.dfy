/** Snapshot file names and guarded mesh deletion. */
module PogonaUtil {
  import opened Results
  import opened Decimal
  import opened Meshes

  /**
   * `p` as a whole matches `positions.csv.\d+`: the two unescaped dots match any
   * character except a line break, and at least one digit follows.
   */
  ghost predicate WholeMatch(p: string) {
    && |p| > 14
    && p[..9] == "positions" && p[9] != '\n'
    && p[10..13] == "csv" && p[13] != '\n'
    && AllDigits(p[14..])
  }

  /** `positions`, any character, `csv`, any character, then a digit. */
  predicate StartsLikeSnapshot(f: string) {
    && |f| > 14
    && f[..9] == "positions" && f[9] != '\n'
    && f[10..13] == "csv" && f[13] != '\n'
    && IsDigit(f[14])
  }

  /**
   * The snapshot pattern applied with `re.match` to a file name: it is anchored at
   * the start, any text may follow, and the greedy `\d+` group is the step.
   */
  function MatchPositions(filename: string): (step: Option<nat>)
    ensures step.Some? <==> exists k | 0 <= k <= |filename| :: WholeMatch(filename[..k])
    ensures step.Some? ==> exists k | 14 < k <= |filename| ::
              && WholeMatch(filename[..k])
              && (k == |filename| || !IsDigit(filename[k]))
              && step.value == DigitsValue(filename[14..k])
  {
    if StartsLikeSnapshot(filename) then
      var digits := LeadingDigits(filename[14..]);
      var k := 14 + |digits|;
      assert filename[..k][14..] == digits;
      assert WholeMatch(filename[..k]);
      Some(DigitsValue(digits))
    else
      None
  }

  /** The fixed part of every snapshot file name. */
  const SnapshotPrefix: string := "positions.csv."

  lemma SnapshotPrefixShape(rest: string)
    requires |rest| > 0 && IsDigit(rest[0])
    ensures StartsLikeSnapshot(SnapshotPrefix + rest)
    ensures (SnapshotPrefix + rest)[14..] == rest
  {
    var name := SnapshotPrefix + rest;
    assert name[..14] == SnapshotPrefix;
    assert name[..9] == SnapshotPrefix[..9] == "positions";
    assert name[10..13] == SnapshotPrefix[10..13] == "csv";
  }

  /** The name of the snapshot file of step `n`, with anything not starting with a digit after it, matches with step `n`. */
  lemma MatchSnapshotName(n: nat, suffix: string)
    requires |suffix| == 0 || !IsDigit(suffix[0])
    ensures MatchPositions(SnapshotPrefix + NatToString(n) + suffix) == Some(n)
  {
    var digits := NatToString(n);
    var name := SnapshotPrefix + digits + suffix;
    assert name == SnapshotPrefix + (digits + suffix);
    SnapshotPrefixShape(digits + suffix);
    LeadingDigitsOf(digits, suffix);
    NatToStringRoundTrip(n);
  }

  /** Names that do not begin with `positions` are never snapshots. */
  lemma NotPositions(filename: string)
    requires |filename| < 9 || filename[..9] != "positions"
    ensures MatchPositions(filename) == None
  {
  }

  /** The outcome of `delete_mesh`: whether the mesh was removed, and the database after it. */
  datatype Deletion = Deletion(deleted: bool, store: MeshStore)

  /**
   * Removes a mesh only when nothing uses it any more. A mesh that still has users
   * is kept and `False` is returned; an unused mesh is removed and `True` returned;
   * when the editor refuses the removal, a warning is raised instead.
   */
  function DeleteMesh(store: MeshStore, id: MeshId): (r: Result<Deletion>)
    requires store.Valid() && id in store.meshes
    ensures store.users[id] > 0 ==> r == Ok(Deletion(false, store))
    ensures r.Err? <==> store.users[id] == 0 && id in store.undeletable
    ensures r.Err? ==> r.error == MeshNotDeleted(id)
    ensures r.Ok? ==> (r.value.deleted <==> store.users[id] == 0)
    ensures r.Ok? && r.value.deleted ==>
              && r.value.store.Valid()
              && r.value.store.meshes == store.meshes - {id}
              && r.value.store.users == store.users - {id}
  {
    if store.users[id] > 0 then Ok(Deletion(false, store))
    else if id in store.undeletable then Err(MeshNotDeleted(id))
    else Ok(Deletion(true, store.(meshes := store.meshes - {id}, users := store.users - {id})))
  }
}
