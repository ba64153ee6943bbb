/**
 * The recommendation page: listings in the chosen neighbourhood group and
 * neighbourhood (and room type, unless 'Any'), whose total cost for the
 * stay lies within 15% of the budget and whose minimum nights lie within
 * two nights of the stay. Finding nothing is a normal outcome.
 */
module Recommendation {
  import opened Wrappers
  import opened Tables
  import opened Listings
  import Filters

  /** The room-type selection that switches the room filter off. */
  const AnyRoomType: string := "Any"

  /** The budget band: from 85% to 115% of the budget. */
  const BudgetLowerFactor: real := 0.85
  const BudgetUpperFactor: real := 1.15

  /** How many nights the minimum stay may differ from the stay asked for. */
  const NightsSlack: int := 2

  /** The page's inputs; budget and nights are whole numbers from the number inputs. */
  datatype Query = Query(group: string, neighbourhood: string, budget: int, nights: int, roomType: string)

  /** Price plus the service fee for every night; missing when either amount is. */
  function TotalCost(l: Listing, nights: int): Option<real>
  {
    if l.price.Some? && l.serviceFee.Some? then Some(l.price.value + l.serviceFee.value * nights as real)
    else None
  }

  function Max(a: int, b: int): int
  {
    if a >= b then a else b
  }

  function AreaStep(q: Query): Listing -> bool
  {
    (l: Listing) => CellIs(l.group, Some(q.group)) && CellIs(l.neighbourhood, Some(q.neighbourhood))
  }

  function RoomStep(q: Query): Listing -> bool
  {
    (l: Listing) => q.roomType == AnyRoomType || CellIs(l.roomType, Some(q.roomType))
  }

  function BudgetStep(q: Query): Listing -> bool
  {
    (l: Listing) =>
      var lower, upper := q.budget as real * BudgetLowerFactor, q.budget as real * BudgetUpperFactor;
      TotalCost(l, q.nights).Some? && lower <= TotalCost(l, q.nights).value <= upper
  }

  function NightsStep(q: Query): Listing -> bool
  {
    (l: Listing) =>
      l.minimumNights.Some? && Max(1, q.nights - NightsSlack) <= l.minimumNights.value <= q.nights + NightsSlack
  }

  /** Everything the page asks of a listing, stated on its fields. */
  predicate Recommendable(q: Query, l: Listing)
  {
    && l.group == Some(q.group)
    && l.neighbourhood == Some(q.neighbourhood)
    && (q.roomType != AnyRoomType ==> l.roomType == Some(q.roomType))
    && l.price.Some? && l.serviceFee.Some?
    && 0.85 * q.budget as real <= l.price.value + l.serviceFee.value * q.nights as real <= 1.15 * q.budget as real
    && l.minimumNights.Some?
    && (if q.nights - 2 > 1 then q.nights - 2 else 1) <= l.minimumNights.value <= q.nights + 2
  }

  /** The page's steps in the order it applies them. */
  function RecommendSteps(q: Query): seq<Listing -> bool>
  {
    [AreaStep(q), RoomStep(q), BudgetStep(q), NightsStep(q)]
  }

  lemma RecommendIsConjunction(df: seq<Listing>, q: Query)
    ensures ApplySteps(df, RecommendSteps(q)) == Filter(df, l => Recommendable(q, l))
  {
    var steps := RecommendSteps(q);
    ApplyStepsIsConjunction(df, steps);
    forall l ensures AllOf(steps)(l) == Recommendable(q, l) {
      assert PassesAll(steps, l) <==> steps[0](l) && steps[1](l) && steps[2](l) && steps[3](l);
    }
    FilterAgree(df, AllOf(steps), l => Recommendable(q, l));
  }

  /** The matcher: every listing it returns meets the query, and every listing that does is returned. */
  method Recommend(df: seq<Listing>, q: Query) returns (matches: seq<Listing>)
    ensures matches == Filter(df, l => Recommendable(q, l))
    ensures forall i :: 0 <= i < |matches| ==> Recommendable(q, matches[i])
    ensures forall i :: 0 <= i < |df| && Recommendable(q, df[i]) ==> df[i] in matches
  {
    var area, room, budget, nights := AreaStep(q), RoomStep(q), BudgetStep(q), NightsStep(q);
    matches := Filters.ApplyStep(df, [], df, true, area);
    matches := Filters.ApplyStep(df, [area], matches, q.roomType != AnyRoomType, room);
    matches := Filters.ApplyStep(df, [area, room], matches, true, budget);
    matches := Filters.ApplyStep(df, [area, room, budget], matches, true, nights);
    assert [area, room, budget] + [nights] == RecommendSteps(q);
    RecommendIsConjunction(df, q);
    FilterSatisfies(df, l => Recommendable(q, l));
    forall i | 0 <= i < |df| && Recommendable(q, df[i]) ensures df[i] in matches {
      FilterMember(df, l => Recommendable(q, l), df[i]);
    }
  }

  /** No listing meets the query: the page shows its "no match" message, an empty result. */
  lemma NoMatchIsEmpty(df: seq<Listing>, q: Query)
    requires forall i :: 0 <= i < |df| ==> !Recommendable(q, df[i])
    ensures Filter(df, l => Recommendable(q, l)) == []
  {
    var r := Filter(df, l => Recommendable(q, l));
    if r != [] {
      FilterMember(df, l => Recommendable(q, l), r[0]);
    }
  }

  /**
   * The worked example: Brooklyn, Williamsburg, budget 100, three nights.
   * Price 80 with fee 5 and minimum stay 2 costs 95 and matches; price 200
   * costs 215 and does not.
   */
  lemma RecommendExample(l: Listing)
    requires l.group == Some("Brooklyn") && l.neighbourhood == Some("Williamsburg")
    ensures Recommendable(Query("Brooklyn", "Williamsburg", 100, 3, AnyRoomType),
                          l.(price := Some(80.0), serviceFee := Some(5.0), minimumNights := Some(2)))
    ensures !Recommendable(Query("Brooklyn", "Williamsburg", 100, 3, AnyRoomType),
                           l.(price := Some(200.0), serviceFee := Some(5.0), minimumNights := Some(2)))
  {
  }
}
