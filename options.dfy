/**
 * The option lists of the drop-downs. The detailed view's neighbourhood list
 * cascades from the selected neighbourhood group: it holds the distinct
 * neighbourhoods seen in that group, or in the whole table for 'All'. The
 * recommendation page lists the non-missing neighbourhoods of its group.
 */
module Options {
  import opened Wrappers
  import opened Tables
  import opened Listings
  import Filters

  /** The cells of one text column, row by row. */
  function ColumnCells(df: seq<Listing>, col: TextColumn): (r: seq<Cell>)
    ensures |r| == |df|
    ensures forall i :: 0 <= i < |df| ==> r[i] == TextOf(df[i], col)
  {
    seq(|df|, i requires 0 <= i < |df| => TextOf(df[i], col))
  }

  /**
   * `unique()` of a text column over the whole table, as the detailed view
   * lists countries, groups and room types: distinct cells (a missing one
   * included) in order of first appearance.
   */
  function DistinctCells(df: seq<Listing>, col: TextColumn): (r: seq<Cell>)
    ensures NoDuplicates(r)
    ensures forall c :: c in r <==> exists i :: 0 <= i < |df| && TextOf(df[i], col) == c
  {
    var cells := ColumnCells(df, col);
    DedupMembers(cells);
    assert forall c :: c in cells <==> exists i :: 0 <= i < |df| && TextOf(df[i], col) == c by {
      forall c | c in cells ensures exists i :: 0 <= i < |df| && TextOf(df[i], col) == c {
        var i :| 0 <= i < |cells| && cells[i] == c;
      }
    }
    Dedup(cells)
  }

  /** `df[df[group] == g]` for the neighbourhood lists; a missing `g` matches nothing. */
  function InGroup(group: Cell): Listing -> bool
  {
    (l: Listing) => CellIs(l.group, group)
  }

  /** The rows whose neighbourhoods the detailed view offers: the selected group's, or all for 'All'. */
  function ScopeRows(df: seq<Listing>, group: Cell): (r: seq<Listing>)
    ensures forall l :: l in r <==> l in df && (group == Some(Filters.All) || CellIs(l.group, group))
  {
    if group != Some(Filters.All) then
      assert forall l :: l in Filter(df, InGroup(group)) <==> l in df && CellIs(l.group, group) by {
        forall l ensures l in Filter(df, InGroup(group)) <==> l in df && CellIs(l.group, group) {
          FilterMember(df, InGroup(group), l);
        }
      }
      Filter(df, InGroup(group))
    else df
  }

  /** A neighbourhood cell occurs in the scope exactly when some row of the group carries it. */
  lemma ScopeCellsExact(df: seq<Listing>, group: Cell, c: Cell)
    ensures c in ColumnCells(ScopeRows(df, group), Neighbourhood) <==>
      exists i :: 0 <= i < |df| && df[i].neighbourhood == c && (group == Some(Filters.All) || CellIs(df[i].group, group))
  {
    var rows := ScopeRows(df, group);
    var cells := ColumnCells(rows, Neighbourhood);
    if c in cells {
      var j :| 0 <= j < |cells| && cells[j] == c;
      assert rows[j] in df && rows[j].neighbourhood == c;
    }
    if exists i :: 0 <= i < |df| && df[i].neighbourhood == c && (group == Some(Filters.All) || CellIs(df[i].group, group)) {
      var i :| 0 <= i < |df| && df[i].neighbourhood == c && (group == Some(Filters.All) || CellIs(df[i].group, group));
      assert df[i] in rows;
      var j :| 0 <= j < |rows| && rows[j] == df[i];
      assert cells[j] == c;
    }
  }

  /**
   * `unique()` of the neighbourhood column, over the rows of the selected
   * group or, for 'All', over the whole table: distinct cells (a missing
   * one included) in order of first appearance.
   */
  function CascadedNeighbourhoods(df: seq<Listing>, group: Cell): (r: seq<Cell>)
    ensures NoDuplicates(r)
    ensures forall c :: c in r <==>
      exists i :: 0 <= i < |df| && df[i].neighbourhood == c && (group == Some(Filters.All) || CellIs(df[i].group, group))
  {
    var cells := ColumnCells(ScopeRows(df, group), Neighbourhood);
    DedupMembers(cells);
    forall c ensures c in cells <==>
      exists i :: 0 <= i < |df| && df[i].neighbourhood == c && (group == Some(Filters.All) || CellIs(df[i].group, group))
    {
      ScopeCellsExact(df, group, c);
    }
    Dedup(cells)
  }

  /** `dropna()` of a text column: its present values, row by row; a missing cell gives none. */
  function PresentCells(df: seq<Listing>, col: TextColumn): (r: seq<string>)
    ensures |r| <= |df|
  {
    if df == [] then []
    else
      var init, last := df[..|df| - 1], df[|df| - 1];
      PresentCells(init, col) + (if TextOf(last, col).Some? then [TextOf(last, col).value] else [])
  }

  lemma {:induction false} PresentCellsExact(df: seq<Listing>, col: TextColumn, v: string)
    ensures v in PresentCells(df, col) <==> exists i :: 0 <= i < |df| && TextOf(df[i], col) == Some(v)
  {
    if df != [] {
      var init, last := df[..|df| - 1], df[|df| - 1];
      PresentCellsExact(init, col, v);
      if v in PresentCells(init, col) {
        var i :| 0 <= i < |init| && TextOf(init[i], col) == Some(v);
        assert df[i] == init[i];
      }
      if exists i :: 0 <= i < |df| && TextOf(df[i], col) == Some(v) {
        var i :| 0 <= i < |df| && TextOf(df[i], col) == Some(v);
        if i < |init| {
          assert init[i] == df[i];
        }
      }
    }
  }

  /**
   * `dropna().unique()`: the distinct non-missing values of a column, in
   * order of first appearance, as the overview and the recommendation page
   * offer them before sorting, and the keys `groupby` forms its groups from.
   * `groupby` itself sorts its keys; no property here depends on the order.
   */
  function PresentValues(df: seq<Listing>, col: TextColumn): (r: seq<string>)
    ensures NoDuplicates(r)
    ensures forall v :: v in r <==> exists i :: 0 <= i < |df| && TextOf(df[i], col) == Some(v)
  {
    var cells := PresentCells(df, col);
    DedupMembers(cells);
    forall v ensures v in cells <==> exists i :: 0 <= i < |df| && TextOf(df[i], col) == Some(v) {
      PresentCellsExact(df, col, v);
    }
    Dedup(cells)
  }

  /** `dropna().unique()` is `unique()` without its missing entry. */
  lemma PresentValuesDropMissing(df: seq<Listing>, col: TextColumn)
    ensures forall v :: v in PresentValues(df, col) <==> Some(v) in DistinctCells(df, col)
  {
  }

  /**
   * The recommendation page's neighbourhoods: the distinct non-missing
   * neighbourhoods of the selected group's rows. A group named "All" is an
   * ordinary group here.
   */
  function GroupNeighbourhoods(df: seq<Listing>, group: string): (r: seq<string>)
    ensures NoDuplicates(r)
    ensures forall n :: n in r <==>
      exists i :: 0 <= i < |df| && df[i].group == Some(group) && df[i].neighbourhood == Some(n)
  {
    var rows := Filter(df, InGroup(Some(group)));
    forall n ensures (exists j :: 0 <= j < |rows| && TextOf(rows[j], Neighbourhood) == Some(n)) <==>
      exists i :: 0 <= i < |df| && df[i].group == Some(group) && df[i].neighbourhood == Some(n)
    {
      if exists j :: 0 <= j < |rows| && TextOf(rows[j], Neighbourhood) == Some(n) {
        var j :| 0 <= j < |rows| && TextOf(rows[j], Neighbourhood) == Some(n);
        FilterMember(df, InGroup(Some(group)), rows[j]);
      }
      if exists i :: 0 <= i < |df| && df[i].group == Some(group) && df[i].neighbourhood == Some(n) {
        var i :| 0 <= i < |df| && df[i].group == Some(group) && df[i].neighbourhood == Some(n);
        FilterMember(df, InGroup(Some(group)), df[i]);
        var j :| 0 <= j < |rows| && rows[j] == df[i];
        assert TextOf(rows[j], Neighbourhood) == Some(n);
      }
    }
    PresentValues(rows, Neighbourhood)
  }

  /**
   * For a group G other than "All" the recommendation list holds exactly the
   * non-missing entries of the detailed view's cascaded list for G. A group
   * named "All" is the detailed view's "every group" choice instead.
   */
  lemma GroupNeighbourhoodsExact(df: seq<Listing>, group: string)
    ensures group != Filters.All ==>
      forall n :: n in GroupNeighbourhoods(df, group) <==> Some(n) in CascadedNeighbourhoods(df, Some(group))
  {
  }
}
