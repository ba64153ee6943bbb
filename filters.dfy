/**
 * The filter chains of two views. Each chain starts from a copy of the
 * canonical table and rebinds it through a sequence of `if` steps; a step
 * whose selection is the sentinel 'All' (or an unticked box) is skipped.
 *  - "Listings Overview": country, neighbourhood group, neighbourhood, room type.
 *  - "Detailed Insights": the same four, then instant-bookable, cancellation
 *    policy, and two bounds that always apply: minimum nights at least the
 *    slider value, price at most the slider value.
 */
module Filters {
  import opened Wrappers
  import opened Tables
  import opened Listings

  /** The selection that switches a filter off. */
  const All: string := "All"

  /** The value the instant-bookable filter asks for. */
  const BookableFlag: string := "TRUE"

  /**
   * `df[df[col] == selection]` behind `if selection != 'All'`: the step
   * accepts every row when the selection is 'All', otherwise the rows whose
   * cell equals it. A missing selection (a NaN offered by the drop-down)
   * equals nothing.
   */
  function ColumnStep(col: TextColumn, selection: Cell): Listing -> bool
  {
    (l: Listing) => selection == Some(All) || CellIs(TextOf(l, col), selection)
  }

  /** The instant-bookable checkbox: when ticked, the flag must be 'TRUE'. */
  function BookableStep(ticked: bool): Listing -> bool
  {
    (l: Listing) => !ticked || l.instantBookable == BookableFlag
  }

  /** The cancellation-policy drop-down. */
  function PolicyStep(selection: string): Listing -> bool
  {
    (l: Listing) => selection == All || l.cancellationPolicy == selection
  }

  /** Minimum nights at least the slider value; a missing value never passes. */
  function MinNightsStep(minNights: int): Listing -> bool
  {
    (l: Listing) => l.minimumNights.Some? && l.minimumNights.value >= minNights
  }

  /** Price at most the slider value; a missing price never passes. */
  function MaxPriceStep(maxPrice: int): Listing -> bool
  {
    (l: Listing) => l.price.Some? && l.price.value <= maxPrice as real
  }

  /**
   * One step of a chain: select by `p` when the step is active; otherwise
   * leave the rows alone, which is what `p` would do, since it then accepts
   * every row.
   */
  method ApplyStep(ghost df: seq<Listing>, ghost done: seq<Listing -> bool>, rows: seq<Listing>,
                   active: bool, p: Listing -> bool) returns (r: seq<Listing>)
    requires rows == ApplySteps(df, done)
    requires !active ==> forall l :: p(l)
    ensures r == ApplySteps(df, done + [p])
  {
    ApplyStepsSnoc(df, done, p);
    if active {
      r := Select(rows, p);
    } else {
      r := rows;
      FilterKeepsAll(rows, p);
    }
  }

  /** The four text-column steps both views start with, in their order. */
  function TextSteps(country: Cell, group: Cell, neighbourhood: Cell, roomType: Cell): seq<Listing -> bool>
  {
    [ColumnStep(Country, country),
     ColumnStep(NeighbourhoodGroup, group),
     ColumnStep(Neighbourhood, neighbourhood),
     ColumnStep(RoomType, roomType)]
  }

  /** The four `if` steps on country, group, neighbourhood and room type. */
  method TextFilters(df: seq<Listing>, country: Cell, group: Cell, neighbourhood: Cell, roomType: Cell)
    returns (filtered: seq<Listing>)
    ensures filtered == ApplySteps(df, TextSteps(country, group, neighbourhood, roomType))
  {
    var countryStep := ColumnStep(Country, country);
    var groupStep := ColumnStep(NeighbourhoodGroup, group);
    var neighbourhoodStep := ColumnStep(Neighbourhood, neighbourhood);
    var roomTypeStep := ColumnStep(RoomType, roomType);
    filtered := df;
    ghost var done: seq<Listing -> bool> := [];
    filtered := ApplyStep(df, done, filtered, country != Some(All), countryStep);
    done := done + [countryStep];
    filtered := ApplyStep(df, done, filtered, group != Some(All), groupStep);
    done := done + [groupStep];
    filtered := ApplyStep(df, done, filtered, neighbourhood != Some(All), neighbourhoodStep);
    done := done + [neighbourhoodStep];
    filtered := ApplyStep(df, done, filtered, roomType != Some(All), roomTypeStep);
    done := done + [roomTypeStep];
    assert done == TextSteps(country, group, neighbourhood, roomType);
  }

  // ---------------------------------------------------------------------------
  // Listings Overview

  /** The four drop-downs of the overview; each is 'All' or a value of its column. */
  datatype OverviewSelection = OverviewSelection(country: string, group: string, neighbourhood: string, roomType: string)

  /** The overview's steps in the order the view applies them. */
  function OverviewSteps(sel: OverviewSelection): seq<Listing -> bool>
  {
    TextSteps(Some(sel.country), Some(sel.group), Some(sel.neighbourhood), Some(sel.roomType))
  }

  /** A row satisfies every overview criterion whose selection is not 'All'. */
  predicate OverviewAccepts(sel: OverviewSelection, l: Listing)
  {
    && (sel.country != All ==> l.country == Some(sel.country))
    && (sel.group != All ==> l.group == Some(sel.group))
    && (sel.neighbourhood != All ==> l.neighbourhood == Some(sel.neighbourhood))
    && (sel.roomType != All ==> l.roomType == Some(sel.roomType))
  }

  /** The overview's filter chain. */
  method OverviewFilter(df: seq<Listing>, sel: OverviewSelection) returns (filtered: seq<Listing>)
    ensures filtered == ApplySteps(df, OverviewSteps(sel))
    ensures filtered == Filter(df, l => OverviewAccepts(sel, l))
  {
    filtered := TextFilters(df, Some(sel.country), Some(sel.group), Some(sel.neighbourhood), Some(sel.roomType));
    OverviewIsConjunction(df, sel);
  }

  /** The overview's chain selects exactly the rows meeting all its active criteria. */
  lemma OverviewIsConjunction(df: seq<Listing>, sel: OverviewSelection)
    ensures ApplySteps(df, OverviewSteps(sel)) == Filter(df, l => OverviewAccepts(sel, l))
  {
    var steps := OverviewSteps(sel);
    ApplyStepsIsConjunction(df, steps);
    forall l ensures AllOf(steps)(l) == OverviewAccepts(sel, l) {
      assert PassesAll(steps, l) <==> steps[0](l) && steps[1](l) && steps[2](l) && steps[3](l);
    }
    FilterAgree(df, AllOf(steps), l => OverviewAccepts(sel, l));
  }

  /** With every selection 'All', the overview shows the whole table. */
  lemma OverviewAllKeepsEverything(df: seq<Listing>)
    ensures ApplySteps(df, OverviewSteps(OverviewSelection(All, All, All, All))) == df
  {
    var sel := OverviewSelection(All, All, All, All);
    OverviewIsConjunction(df, sel);
    FilterKeepsAll(df, l => OverviewAccepts(sel, l));
  }

  /** The overview's steps give the same rows in any order. */
  lemma OverviewOrderIrrelevant(df: seq<Listing>, sel: OverviewSelection, order: seq<Listing -> bool>)
    requires multiset(order) == multiset(OverviewSteps(sel))
    ensures ApplySteps(df, order) == Filter(df, l => OverviewAccepts(sel, l))
  {
    StepOrderIrrelevant(df, OverviewSteps(sel), order);
    OverviewIsConjunction(df, sel);
  }

  // ---------------------------------------------------------------------------
  // Detailed Insights

  /**
   * The sidebar of the detailed view. The first four drop-downs list the
   * column's distinct values including a missing one, so a selection is a
   * cell; the policy list is fixed; the two sliders give whole numbers.
   */
  datatype InsightSelection = InsightSelection(
    country: Cell, group: Cell, neighbourhood: Cell, roomType: Cell,
    instantBook: bool, cancellationPolicy: string, minNights: int, maxPrice: int)

  /** The detailed view's steps in the order the view applies them. */
  function InsightSteps(sel: InsightSelection): seq<Listing -> bool>
  {
    TextSteps(sel.country, sel.group, sel.neighbourhood, sel.roomType) +
    [BookableStep(sel.instantBook),
     PolicyStep(sel.cancellationPolicy),
     MinNightsStep(sel.minNights),
     MaxPriceStep(sel.maxPrice)]
  }

  /** A text criterion of the detailed view: off for 'All', else the cell must equal the selection. */
  predicate Matches(selection: Cell, cell: Cell)
  {
    selection != Some(All) ==> selection.Some? && cell == selection
  }

  /** A row satisfies every active criterion of the detailed view and both bounds. */
  predicate InsightAccepts(sel: InsightSelection, l: Listing)
  {
    && Matches(sel.country, l.country)
    && Matches(sel.group, l.group)
    && Matches(sel.neighbourhood, l.neighbourhood)
    && Matches(sel.roomType, l.roomType)
    && (sel.instantBook ==> l.instantBookable == BookableFlag)
    && (sel.cancellationPolicy != All ==> l.cancellationPolicy == sel.cancellationPolicy)
    && l.minimumNights.Some? && l.minimumNights.value >= sel.minNights
    && l.price.Some? && l.price.value <= sel.maxPrice as real
  }

  /** The detailed view's filter chain. */
  method InsightsFilter(df: seq<Listing>, sel: InsightSelection) returns (filtered: seq<Listing>)
    ensures filtered == ApplySteps(df, InsightSteps(sel))
    ensures filtered == Filter(df, l => InsightAccepts(sel, l))
    ensures sel.instantBook ==> forall i :: 0 <= i < |filtered| ==> filtered[i].instantBookable == BookableFlag
    ensures forall i :: 0 <= i < |filtered| ==>
      filtered[i].minimumNights.Some? && filtered[i].minimumNights.value >= sel.minNights &&
      filtered[i].price.Some? && filtered[i].price.value <= sel.maxPrice as real
  {
    var bookable := BookableStep(sel.instantBook);
    var policy := PolicyStep(sel.cancellationPolicy);
    var nights := MinNightsStep(sel.minNights);
    var price := MaxPriceStep(sel.maxPrice);
    filtered := TextFilters(df, sel.country, sel.group, sel.neighbourhood, sel.roomType);
    ghost var done := TextSteps(sel.country, sel.group, sel.neighbourhood, sel.roomType);
    filtered := ApplyStep(df, done, filtered, sel.instantBook, bookable);
    done := done + [bookable];
    filtered := ApplyStep(df, done, filtered, sel.cancellationPolicy != All, policy);
    done := done + [policy];
    filtered := ApplyStep(df, done, filtered, true, nights);
    done := done + [nights];
    filtered := ApplyStep(df, done, filtered, true, price);
    done := done + [price];
    assert done == InsightSteps(sel);
    InsightsIsConjunction(df, sel);
    FilterSatisfies(df, l => InsightAccepts(sel, l));
  }

  /** The detailed view's chain selects exactly the rows meeting all its active criteria. */
  lemma InsightsIsConjunction(df: seq<Listing>, sel: InsightSelection)
    ensures ApplySteps(df, InsightSteps(sel)) == Filter(df, l => InsightAccepts(sel, l))
  {
    var steps := InsightSteps(sel);
    ApplyStepsIsConjunction(df, steps);
    forall l ensures AllOf(steps)(l) == InsightAccepts(sel, l) {
      assert PassesAll(steps, l) <==>
        steps[0](l) && steps[1](l) && steps[2](l) && steps[3](l) &&
        steps[4](l) && steps[5](l) && steps[6](l) && steps[7](l);
    }
    FilterAgree(df, AllOf(steps), l => InsightAccepts(sel, l));
  }

  /**
   * With every drop-down at 'All' and the box unticked, only the two
   * bounds remove rows.
   */
  lemma InsightsNoSelection(df: seq<Listing>, minNights: int, maxPrice: int)
    ensures ApplySteps(df, InsightSteps(InsightSelection(Some(All), Some(All), Some(All), Some(All), false, All, minNights, maxPrice)))
      == Filter(df, l => MinNightsStep(minNights)(l) && MaxPriceStep(maxPrice)(l))
  {
    var sel := InsightSelection(Some(All), Some(All), Some(All), Some(All), false, All, minNights, maxPrice);
    InsightsIsConjunction(df, sel);
    FilterAgree(df, l => InsightAccepts(sel, l), l => MinNightsStep(minNights)(l) && MaxPriceStep(maxPrice)(l));
  }

  /** The detailed view's steps give the same rows in any order. */
  lemma InsightsOrderIrrelevant(df: seq<Listing>, sel: InsightSelection, order: seq<Listing -> bool>)
    requires multiset(order) == multiset(InsightSteps(sel))
    ensures ApplySteps(df, order) == Filter(df, l => InsightAccepts(sel, l))
  {
    StepOrderIrrelevant(df, InsightSteps(sel), order);
    InsightsIsConjunction(df, sel);
  }
}
