/**
  The conformer database as the screening code reads it: the `settings`
  bin step and the rows of the `conformers` and `feature_coords` relations,
  each in the order the database returns them. The three queries the
  screening loop issues are pure functions of this value.
 */
module Store {
  import opened Sequences
  import opened Fingerprint

  /** A point in space. Coordinates are carried, never computed with. */
  datatype Point = Point(x: real, y: real, z: real)

  /** A row of `conformers(mol_name, conf_id, fp)`, with the fingerprint already decoded. */
  datatype ConformerRow = ConformerRow(molName: string, confId: nat, fp: Fp)

  /** A row of `feature_coords(conf_id, feature_label, x, y, z)`. */
  datatype CoordRow = CoordRow(confId: nat, featureLabel: string, point: Point)

  /** A labelled feature point, the unit the fit engine works on. */
  datatype Feature = Feature(featureLabel: string, point: Point)

  /** The database: `settings.bin_step` and both relations. */
  datatype Db = Db(binStep: real, conformers: seq<ConformerRow>, coords: seq<CoordRow>)

  /** `conf_id` is a key of `conformers`, as the database schema intends. */
  predicate UniqueConfIds(db: Db) {
    forall i, j :: 0 <= i < j < |db.conformers| ==> db.conformers[i].confId != db.conformers[j].confId
  }

  /** The feature a coordinate row describes. */
  function FeatureOf(row: CoordRow): Feature {
    Feature(row.featureLabel, row.point)
  }

  /** The `mol_name` column of a list of conformer rows. */
  function MolNameColumn(rows: seq<ConformerRow>): (names: seq<string>)
    ensures |names| == |rows|
    ensures forall k :: 0 <= k < |rows| ==> names[k] == rows[k].molName
  {
    seq(|rows|, k requires 0 <= k < |rows| => rows[k].molName)
  }

  /** The `conf_id` column of a list of coordinate rows. */
  function ConfIdColumn(rows: seq<CoordRow>): (ids: seq<nat>)
    ensures |ids| == |rows|
    ensures forall k :: 0 <= k < |rows| ==> ids[k] == rows[k].confId
  {
    seq(|rows|, k requires 0 <= k < |rows| => rows[k].confId)
  }

  /**
    The molecule names of the conformer table: every molecule that owns a
    conformer, once each, in order of first appearance.
   */
  function MoleculeNames(db: Db): (names: seq<string>)
    ensures NoDups(names)
    ensures forall k :: 0 <= k < |names| ==> exists r :: r in db.conformers && r.molName == names[k]
    ensures forall r :: r in db.conformers ==> r.molName in names
  {
    var column := MolNameColumn(db.conformers);
    assert forall r :: r in db.conformers ==> r.molName in column by {
      forall r | r in db.conformers ensures r.molName in column {
        var k :| 0 <= k < |db.conformers| && db.conformers[k] == r;
        assert column[k] == r.molName;
      }
    }
    Distinct(column)
  }

  /**
    The rows of the conformer table `table` that belong to one molecule, in
    table order.
   */
  function ConformersOf(table: seq<ConformerRow>, molName: string): (rows: seq<ConformerRow>)
    ensures forall r :: r in rows <==> r in table && r.molName == molName
    ensures IsSubsequence(rows, table)
    ensures forall r :: multiset(rows)[r] == if r.molName == molName then multiset(table)[r] else 0
  {
    if |table| == 0 then []
    else
      var rest := ConformersOf(table[1..], molName);
      assert table == [table[0]] + table[1..];
      if table[0].molName == molName then
        assert ([table[0]] + rest)[1..] == rest;
        [table[0]] + rest
      else
        rest
  }

  /** The feature rows of one conformer, in table order, as features. */
  function FeaturesOf(rows: seq<CoordRow>, confId: nat): seq<Feature>
  {
    if |rows| == 0 then []
    else
      FeaturesOf(rows[..|rows| - 1], confId)
      + (if rows[|rows| - 1].confId == confId then [FeatureOf(rows[|rows| - 1])] else [])
  }

  /** A conformer that has no row among `rows` has no features there. */
  lemma {:induction false} FeaturesOfAbsent(rows: seq<CoordRow>, confId: nat)
    requires confId !in ConfIdColumn(rows)
    ensures FeaturesOf(rows, confId) == []
  {
    if |rows| > 0 {
      var init := rows[..|rows| - 1];
      assert ConfIdColumn(init) == ConfIdColumn(rows)[..|rows| - 1];
      FeaturesOfAbsent(init, confId);
    }
  }

  /** A conformer with a row among `rows` has features there. */
  lemma {:induction false} FeaturesOfPresent(rows: seq<CoordRow>, k: nat)
    requires k < |rows|
    ensures FeaturesOf(rows, rows[k].confId) != []
  {
    if k < |rows| - 1 {
      FeaturesOfPresent(rows[..|rows| - 1], k);
    }
  }

  /**
    The rows of the feature-coordinate table `table` whose conformer id is one
    of `confIds`, in table order.
   */
  function CoordsOf(table: seq<CoordRow>, confIds: seq<nat>): (rows: seq<CoordRow>)
    ensures forall r :: r in rows <==> r in table && r.confId in confIds
  {
    if |table| == 0 then []
    else
      var rest := CoordsOf(table[..|table| - 1], confIds);
      var last := table[|table| - 1];
      assert forall r :: r in table <==> r in table[..|table| - 1] || r == last;
      if last.confId in confIds then rest + [last] else rest
  }

  /**
    The fetched rows give a listed conformer all of its features, in table
    order, and an unlisted one none.
   */
  lemma {:induction false} CoordsOfFeatures(table: seq<CoordRow>, confIds: seq<nat>, c: nat)
    ensures FeaturesOf(CoordsOf(table, confIds), c) == if c in confIds then FeaturesOf(table, c) else []
  {
    if |table| > 0 {
      var init := table[..|table| - 1];
      var last := table[|table| - 1];
      var rest := CoordsOf(init, confIds);
      CoordsOfFeatures(init, confIds, c);
      if last.confId in confIds {
        assert CoordsOf(table, confIds) == rest + [last];
        FeaturesOfAppend(rest, last, c);
      } else {
        assert CoordsOf(table, confIds) == rest;
      }
    }
  }

  /** The features of a conformer after one more row: its own row adds its feature, any other adds nothing. */
  lemma FeaturesOfAppend(rows: seq<CoordRow>, row: CoordRow, c: nat)
    ensures FeaturesOf(rows + [row], c) == FeaturesOf(rows, c) + if row.confId == c then [FeatureOf(row)] else []
  {
    assert (rows + [row])[..|rows|] == rows;
  }
}
