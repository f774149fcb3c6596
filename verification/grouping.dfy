/**
  Grouping the fetched feature rows by conformer, as the screening loop does
  with a `defaultdict(list)`: one group per `conf_id`, groups in order of the
  first row of each conformer, rows inside a group in the order fetched.
 */
module Grouping {
  import opened Sequences
  import opened Store

  /** One conformer's features, as collected under its `conf_id`. */
  datatype Group = Group(confId: nat, features: seq<Feature>)

  /** The conformer ids of the groups, in iteration order (`confs.keys()`). */
  function Keys(groups: seq<Group>): (ids: seq<nat>)
    ensures |ids| == |groups|
    ensures forall k :: 0 <= k < |groups| ==> ids[k] == groups[k].confId
  {
    seq(|groups|, k requires 0 <= k < |groups| => groups[k].confId)
  }

  /** The number of rows held by all groups together. */
  function RowCount(groups: seq<Group>): nat
  {
    if |groups| == 0 then 0 else |groups[0].features| + RowCount(groups[1..])
  }

  /**
    Add the row's feature at the end of its conformer's group, opening a new
    group after all existing ones when the conformer has none yet.
   */
  function AddRow(groups: seq<Group>, row: CoordRow): (r: seq<Group>)
    ensures |r| == |groups| || |r| == |groups| + 1
    ensures forall i :: 0 <= i < |groups| ==> r[i].confId == groups[i].confId
    ensures |r| == |groups| + 1 ==> r[|groups|] == Group(row.confId, [FeatureOf(row)])
  {
    if |groups| == 0 then
      [Group(row.confId, [FeatureOf(row)])]
    else if groups[0].confId == row.confId then
      [groups[0].(features := groups[0].features + [FeatureOf(row)])] + groups[1..]
    else
      [groups[0]] + AddRow(groups[1..], row)
  }

  /** Adding a row keeps the existing conformers in place and appends a new one only when unseen. */
  lemma {:induction false} AddRowKeys(groups: seq<Group>, row: CoordRow)
    ensures Keys(AddRow(groups, row))
            == if row.confId in Keys(groups) then Keys(groups) else Keys(groups) + [row.confId]
  {
    if |groups| > 0 && groups[0].confId != row.confId {
      AddRowKeys(groups[1..], row);
      assert Keys(groups) == [groups[0].confId] + Keys(groups[1..]);
      assert Keys(AddRow(groups, row)) == [groups[0].confId] + Keys(AddRow(groups[1..], row));
    } else if |groups| > 0 {
      assert Keys(AddRow(groups, row)) == Keys(groups);
    }
  }

  /**
    Adding a row extends its own conformer's group by exactly that row's
    feature and leaves every other group as it was.
   */
  lemma {:induction false} AddRowFeatures(groups: seq<Group>, row: CoordRow)
    requires NoDups(Keys(groups))
    ensures var r := AddRow(groups, row);
            forall i :: 0 <= i < |r| ==>
              r[i].features == (if i < |groups| then groups[i].features else [])
                               + (if r[i].confId == row.confId then [FeatureOf(row)] else [])
  {
    var r := AddRow(groups, row);
    if |groups| == 0 {
    } else if groups[0].confId == row.confId {
      forall i | 1 <= i < |r| ensures r[i].confId != row.confId {
        assert Keys(groups)[0] == row.confId && Keys(groups)[i] == r[i].confId;
      }
    } else {
      assert NoDups(Keys(groups[1..])) by {
        assert Keys(groups[1..]) == Keys(groups)[1..];
      }
      AddRowFeatures(groups[1..], row);
      assert r == [groups[0]] + AddRow(groups[1..], row);
      forall i | 1 <= i < |r|
        ensures r[i].features == (if i < |groups| then groups[i].features else [])
                                 + (if r[i].confId == row.confId then [FeatureOf(row)] else [])
      {
        assert r[i] == AddRow(groups[1..], row)[i - 1];
        if i < |groups| {
          assert groups[i] == groups[1..][i - 1];
        }
      }
    }
  }

  /** Adding a row adds exactly one row to the groups. */
  lemma {:induction false} AddRowCount(groups: seq<Group>, row: CoordRow)
    ensures RowCount(AddRow(groups, row)) == RowCount(groups) + 1
  {
    if |groups| > 0 {
      var r := AddRow(groups, row);
      if groups[0].confId == row.confId {
        assert r[1..] == groups[1..];
      } else {
        AddRowCount(groups[1..], row);
        assert r[1..] == AddRow(groups[1..], row);
      }
    }
  }

  /**
    Group the fetched rows one by one: one group per distinct conformer id,
    in order of first appearance.
   */
  function GroupByConfId(rows: seq<CoordRow>): (groups: seq<Group>)
    ensures Keys(groups) == Distinct(ConfIdColumn(rows))
  {
    if |rows| == 0 then []
    else
      var init := rows[..|rows| - 1];
      var g := GroupByConfId(init);
      assert ConfIdColumn(rows)[..|rows| - 1] == ConfIdColumn(init);
      AddRowKeys(g, rows[|rows| - 1]);
      AddRow(g, rows[|rows| - 1])
  }

  /** Each group holds exactly its conformer's features from `rows`, in row order. */
  predicate HoldOwnFeatures(groups: seq<Group>, rows: seq<CoordRow>) {
    forall i :: 0 <= i < |groups| ==> groups[i].features == FeaturesOf(rows, groups[i].confId)
  }

  /** Each group holds exactly its conformer's rows, in fetch order. */
  lemma {:induction false} GroupByConfIdFeatures(rows: seq<CoordRow>)
    ensures HoldOwnFeatures(GroupByConfId(rows), rows)
  {
    if |rows| > 0 {
      var init := rows[..|rows| - 1];
      GroupByConfIdFeatures(init);
      assert ConfIdColumn(rows)[..|rows| - 1] == ConfIdColumn(init);
      AddRowHoldsFeatures(GroupByConfId(init), rows);
    }
  }

  /** Adding the last row to groups that hold the earlier rows gives groups that hold all rows. */
  lemma AddRowHoldsFeatures(g: seq<Group>, rows: seq<CoordRow>)
    requires |rows| > 0
    requires Keys(g) == Distinct(ConfIdColumn(rows[..|rows| - 1]))
    requires HoldOwnFeatures(g, rows[..|rows| - 1])
    ensures HoldOwnFeatures(AddRow(g, rows[|rows| - 1]), rows)
  {
    var init := rows[..|rows| - 1];
    var last := rows[|rows| - 1];
    var r := AddRow(g, last);
    AddRowKeys(g, last);
    AddRowFeatures(g, last);
    forall i | 0 <= i < |r| ensures r[i].features == FeaturesOf(rows, r[i].confId) {
      var c := r[i].confId;
      var extra := if c == last.confId then [FeatureOf(last)] else [];
      assert FeaturesOf(rows, c) == FeaturesOf(init, c) + extra;
      if i < |g| {
        assert Keys(r)[i] == Keys(g)[i];
        assert c == g[i].confId;
        assert g[i].features == FeaturesOf(init, c);
        assert r[i].features == g[i].features + extra;
      } else {
        assert Keys(r) == Keys(g) + [last.confId];
        assert c == last.confId && c !in Keys(g);
        assert c !in ConfIdColumn(init);
        FeaturesOfAbsent(init, c);
        assert r[i].features == [] + extra;
      }
    }
  }

  /** The groups hold as many rows as were fetched: none lost, none repeated. */
  lemma {:induction false} GroupByConfIdRowCount(rows: seq<CoordRow>)
    ensures RowCount(GroupByConfId(rows)) == |rows|
  {
    if |rows| > 0 {
      var init := rows[..|rows| - 1];
      GroupByConfIdRowCount(init);
      AddRowCount(GroupByConfId(init), rows[|rows| - 1]);
    }
  }
}
