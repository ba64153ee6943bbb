/**
 * The "top five" charts: group the listings by a text column, aggregate a
 * value column per group (mean or sum), sort the groups by that value from
 * the largest down, and keep the first five.
 */
module Aggregates {
  import opened Wrappers
  import opened Tables
  import opened Listings
  import Options

  /** How many groups a chart shows. */
  const TopCount: nat := 5

  datatype Aggregation = Mean | Sum

  datatype ValueColumn = PriceValue | ReviewsValue

  /** One bar of a chart: a group key and its aggregate (missing when the mean has no values). */
  datatype Entry = Entry(key: string, value: Option<real>)

  /** The value a row contributes; a missing price contributes nothing. */
  function ValueOf(l: Listing, col: ValueColumn): Option<real>
  {
    match col
    case PriceValue => l.price
    case ReviewsValue => Some(l.numberOfReviews as real)
  }

  /** The distinct groups: `groupby` leaves out rows without a key. */
  function GroupKeys(df: seq<Listing>, key: TextColumn): seq<string>
  {
    Options.PresentValues(df, key)
  }

  /** The present values of one group's rows, in row order. */
  function GroupValues(df: seq<Listing>, key: TextColumn, k: string, col: ValueColumn): (r: seq<real>)
    ensures |r| <= |df|
  {
    if df == [] then []
    else
      var init, last := df[..|df| - 1], df[|df| - 1];
      GroupValues(init, key, k, col) + Contribution(last, key, k, col)
  }

  /** What one row adds to group k: its value, when it belongs to k and has one. */
  function Contribution(l: Listing, key: TextColumn, k: string, col: ValueColumn): seq<real>
  {
    if TextOf(l, key) == Some(k) && ValueOf(l, col).Some? then [ValueOf(l, col).value] else []
  }

  function Total(xs: seq<real>): real
  {
    if xs == [] then 0.0 else Total(xs[..|xs| - 1]) + xs[|xs| - 1]
  }

  /** A sum of no values is zero; a mean of no values is missing. */
  function Aggregate(xs: seq<real>, agg: Aggregation): (r: Option<real>)
    ensures r.None? <==> agg == Mean && xs == []
    ensures agg == Sum ==> r == Some(Total(xs))
    ensures agg == Mean && r.Some? ==> r.value * |xs| as real == Total(xs)
  {
    match agg
    case Sum => Some(Total(xs))
    case Mean => if xs == [] then None else Some(Total(xs) / |xs| as real)
  }

  /**
   * One entry per group. The entries follow the groups' first appearance,
   * where `groupby` would sort them by key; only the sort of the values
   * below decides a chart, and no tie order is claimed.
   */
  function GroupTable(df: seq<Listing>, key: TextColumn, col: ValueColumn, agg: Aggregation): (r: seq<Entry>)
    ensures |r| == |GroupKeys(df, key)|
  {
    var keys := GroupKeys(df, key);
    seq(|keys|, i requires 0 <= i < |keys| => Entry(keys[i], Aggregate(GroupValues(df, key, keys[i], col), agg)))
  }

  /** a ranks at or above b in a descending sort; missing values sort last. */
  predicate AtLeast(a: Option<real>, b: Option<real>)
  {
    b.None? || (a.Some? && a.value >= b.value)
  }

  predicate Descending(s: seq<Entry>)
  {
    forall i, j :: 0 <= i < j < |s| ==> AtLeast(s[i].value, s[j].value)
  }

  /** The position of a largest entry. */
  function MaxIndex(s: seq<Entry>): (m: nat)
    requires |s| > 0
    ensures m < |s|
    ensures forall j :: 0 <= j < |s| ==> AtLeast(s[m].value, s[j].value)
  {
    if |s| == 1 then 0
    else
      var m := MaxIndex(s[..|s| - 1]);
      assert forall j :: 0 <= j < |s| - 1 ==> s[j] == s[..|s| - 1][j];
      if AtLeast(s[m].value, s[|s| - 1].value) then m else |s| - 1
  }

  function Remove(s: seq<Entry>, m: nat): (r: seq<Entry>)
    requires m < |s|
    ensures |r| == |s| - 1
  {
    s[..m] + s[m + 1..]
  }

  /** Sorting from the largest down, by taking a largest entry first. */
  function SortDescending(s: seq<Entry>): (r: seq<Entry>)
    ensures |r| == |s|
    decreases |s|
  {
    if s == [] then []
    else
      var m := MaxIndex(s);
      [s[m]] + SortDescending(Remove(s, m))
  }

  /** Removing one entry takes exactly that entry out of the multiset. */
  lemma RemoveMultiset(s: seq<Entry>, m: nat)
    requires m < |s|
    ensures multiset(Remove(s, m)) + multiset{s[m]} == multiset(s)
  {
    assert s == s[..m] + [s[m]] + s[m + 1..];
  }

  lemma {:induction false} SortPermutes(s: seq<Entry>)
    ensures multiset(SortDescending(s)) == multiset(s)
    decreases |s|
  {
    if s != [] {
      var m := MaxIndex(s);
      var rest := Remove(s, m);
      SortPermutes(rest);
      RemoveMultiset(s, m);
      assert SortDescending(s) == [s[m]] + SortDescending(rest);
      assert multiset(SortDescending(s)) == multiset{s[m]} + multiset(SortDescending(rest));
    }
  }

  lemma {:induction false} SortOrders(s: seq<Entry>)
    ensures Descending(SortDescending(s))
    decreases |s|
  {
    if s != [] {
      var m := MaxIndex(s);
      var rest := Remove(s, m);
      SortOrders(rest);
      SortPermutes(rest);
      var r := SortDescending(s);
      assert r == [s[m]] + SortDescending(rest);
      forall j | 0 < j < |r| ensures AtLeast(r[0].value, r[j].value) {
        assert r[j] == SortDescending(rest)[j - 1];
        assert r[j] in multiset(rest);
        RemoveMultiset(s, m);
        assert r[j] in multiset(s);
      }
    }
  }

  /** The first n entries of the descending sort (all of them when there are fewer). */
  function TopN(s: seq<Entry>, n: nat): (r: seq<Entry>)
    ensures |r| == if n < |s| then n else |s|
  {
    var sorted := SortDescending(s);
    if n < |s| then sorted[..n] else sorted
  }

  lemma PrefixMultiset(s: seq<Entry>, n: nat)
    requires n <= |s|
    ensures multiset(s[..n]) + multiset(s[n..]) == multiset(s)
  {
    assert s == s[..n] + s[n..];
  }

  /** The head is drawn from the entries. */
  lemma TopNDrawn(s: seq<Entry>, n: nat)
    ensures multiset(TopN(s, n)) <= multiset(s)
  {
    var sorted := SortDescending(s);
    SortPermutes(s);
    if n < |s| {
      PrefixMultiset(sorted, n);
    }
  }

  /** The head is ordered from the largest down. */
  lemma TopNOrdered(s: seq<Entry>, n: nat)
    ensures Descending(TopN(s, n))
  {
    SortOrders(s);
  }

  /** No entry left out of the head ranks above one kept. */
  lemma TopNRanked(s: seq<Entry>, n: nat, e: Entry)
    requires multiset(TopN(s, n))[e] < multiset(s)[e]
    ensures forall i :: 0 <= i < |TopN(s, n)| ==> AtLeast(TopN(s, n)[i].value, e.value)
  {
    var sorted := SortDescending(s);
    SortPermutes(s);
    SortOrders(s);
    if n < |s| {
      PrefixMultiset(sorted, n);
      var tail := sorted[n..];
      assert e in multiset(tail);
      var j :| 0 <= j < |tail| && tail[j] == e;
      assert sorted[n + j] == e;
    }
  }

  /** A chart: the first five groups by their aggregate, largest first. */
  function TopGroups(df: seq<Listing>, key: TextColumn, col: ValueColumn, agg: Aggregation): (r: seq<Entry>)
    ensures |r| == if TopCount < |GroupKeys(df, key)| then TopCount else |GroupKeys(df, key)|
  {
    TopN(GroupTable(df, key, col, agg), TopCount)
  }

  /** The group table lists each group once. */
  lemma GroupTableDistinct(df: seq<Listing>, key: TextColumn, col: ValueColumn, agg: Aggregation)
    ensures NoDuplicates(GroupTable(df, key, col, agg))
  {
    var keys := GroupKeys(df, key);
    var table := GroupTable(df, key, col, agg);
    forall i, j | 0 <= i < j < |table| ensures table[i] != table[j] {
      assert table[i].key == keys[i] && table[j].key == keys[j];
    }
  }

  /** An entry of the group table is a present group carrying its own aggregate. */
  lemma GroupEntry(df: seq<Listing>, key: TextColumn, col: ValueColumn, agg: Aggregation, e: Entry)
    requires e in GroupTable(df, key, col, agg)
    ensures exists i :: 0 <= i < |df| && TextOf(df[i], key) == Some(e.key)
    ensures e.value == Aggregate(GroupValues(df, key, e.key, col), agg)
  {
    var keys := GroupKeys(df, key);
    var table := GroupTable(df, key, col, agg);
    var n :| 0 <= n < |table| && table[n] == e;
    assert e.key == keys[n];
  }

  /** Every present group has its entry in the group table. */
  lemma EntryOfGroup(df: seq<Listing>, key: TextColumn, col: ValueColumn, agg: Aggregation, k: string)
    requires exists i :: 0 <= i < |df| && TextOf(df[i], key) == Some(k)
    ensures Entry(k, Aggregate(GroupValues(df, key, k, col), agg)) in GroupTable(df, key, col, agg)
  {
    var keys := GroupKeys(df, key);
    var n :| 0 <= n < |keys| && keys[n] == k;
    assert GroupTable(df, key, col, agg)[n] == Entry(k, Aggregate(GroupValues(df, key, k, col), agg));
  }

  /** In a list without repeats every entry occurs at most once. */
  lemma {:induction false} DistinctOnce(b: seq<Entry>, x: Entry)
    requires NoDuplicates(b)
    ensures multiset(b)[x] <= 1
  {
    if b != [] {
      var init := b[..|b| - 1];
      assert b == init + [b[|b| - 1]];
      DistinctOnce(init, x);
      if x == b[|b| - 1] {
        assert x !in init;
      }
    }
  }

  /** Taking entries out of a list without repeats leaves a list without repeats. */
  lemma SubMultisetDistinct(a: seq<Entry>, b: seq<Entry>)
    requires multiset(a) <= multiset(b)
    requires NoDuplicates(b)
    ensures NoDuplicates(a)
  {
    forall i, j | 0 <= i < j < |a| ensures a[i] != a[j] {
      DistinctOnce(b, a[i]);
      assert a == a[..j] + [a[j]] + a[j + 1..];
      assert a[i] in a[..j];
    }
  }

  /** The chart shows each group at most once. */
  lemma TopGroupsDistinct(df: seq<Listing>, key: TextColumn, col: ValueColumn, agg: Aggregation)
    ensures NoDuplicates(TopGroups(df, key, col, agg))
  {
    var table := GroupTable(df, key, col, agg);
    TopNDrawn(table, TopCount);
    GroupTableDistinct(df, key, col, agg);
    SubMultisetDistinct(TopGroups(df, key, col, agg), table);
  }

  /** Each bar of a chart is a present group showing its own mean or sum. */
  lemma TopGroupsEntries(df: seq<Listing>, key: TextColumn, col: ValueColumn, agg: Aggregation)
    ensures forall i :: 0 <= i < |TopGroups(df, key, col, agg)| ==>
              (exists j :: 0 <= j < |df| && TextOf(df[j], key) == Some(TopGroups(df, key, col, agg)[i].key))
              && TopGroups(df, key, col, agg)[i].value == Aggregate(GroupValues(df, key, TopGroups(df, key, col, agg)[i].key, col), agg)
  {
    var table := GroupTable(df, key, col, agg);
    var top := TopGroups(df, key, col, agg);
    TopNDrawn(table, TopCount);
    forall i | 0 <= i < |top|
      ensures (exists j :: 0 <= j < |df| && TextOf(df[j], key) == Some(top[i].key))
              && top[i].value == Aggregate(GroupValues(df, key, top[i].key, col), agg)
    {
      assert top[i] in multiset(table);
      GroupEntry(df, key, col, agg, top[i]);
    }
  }

  /** The chart is ordered from the largest down. */
  lemma TopGroupsOrdered(df: seq<Listing>, key: TextColumn, col: ValueColumn, agg: Aggregation)
    ensures Descending(TopGroups(df, key, col, agg))
  {
    TopNOrdered(GroupTable(df, key, col, agg), TopCount);
  }

  /** A present group the chart leaves out ranks no higher than any shown one. */
  lemma TopGroupsRanked(df: seq<Listing>, key: TextColumn, col: ValueColumn, agg: Aggregation, k: string)
    requires exists j :: 0 <= j < |df| && TextOf(df[j], key) == Some(k)
    requires forall i :: 0 <= i < |TopGroups(df, key, col, agg)| ==> TopGroups(df, key, col, agg)[i].key != k
    ensures forall i :: 0 <= i < |TopGroups(df, key, col, agg)| ==>
              AtLeast(TopGroups(df, key, col, agg)[i].value, Aggregate(GroupValues(df, key, k, col), agg))
  {
    var table := GroupTable(df, key, col, agg);
    var e := Entry(k, Aggregate(GroupValues(df, key, k, col), agg));
    EntryOfGroup(df, key, col, agg, k);
    assert e !in TopGroups(df, key, col, agg);
    TopNRanked(table, TopCount, e);
  }

  /**
   * The Dashboard page's chart of neighbourhood groups by average price, and
   * the four charts of the Comparative Analysis page (the first of which is
   * the same chart).
   */
  function AveragePriceByGroup(df: seq<Listing>): (r: seq<Entry>)
    ensures |r| <= TopCount
  {
    TopGroups(df, NeighbourhoodGroup, PriceValue, Mean)
  }

  function TotalReviewsByGroup(df: seq<Listing>): (r: seq<Entry>)
    ensures |r| <= TopCount
  {
    TopGroups(df, NeighbourhoodGroup, ReviewsValue, Sum)
  }

  function AveragePriceByNeighbourhood(df: seq<Listing>): (r: seq<Entry>)
    ensures |r| <= TopCount
  {
    TopGroups(df, Neighbourhood, PriceValue, Mean)
  }

  function TotalReviewsByNeighbourhood(df: seq<Listing>): (r: seq<Entry>)
    ensures |r| <= TopCount
  {
    TopGroups(df, Neighbourhood, ReviewsValue, Sum)
  }

  /** A group's values are exactly the present values of the rows carrying its key. */
  lemma {:induction false} GroupValuesExact(df: seq<Listing>, key: TextColumn, k: string, col: ValueColumn, x: real)
    ensures x in GroupValues(df, key, k, col) <==>
              exists i :: 0 <= i < |df| && TextOf(df[i], key) == Some(k) && ValueOf(df[i], col) == Some(x)
  {
    if df != [] {
      var init, last := df[..|df| - 1], df[|df| - 1];
      GroupValuesExact(init, key, k, col, x);
      if x in GroupValues(init, key, k, col) {
        var i :| 0 <= i < |init| && TextOf(init[i], key) == Some(k) && ValueOf(init[i], col) == Some(x);
        assert df[i] == init[i];
      }
      if exists i :: 0 <= i < |df| && TextOf(df[i], key) == Some(k) && ValueOf(df[i], col) == Some(x) {
        var i :| 0 <= i < |df| && TextOf(df[i], key) == Some(k) && ValueOf(df[i], col) == Some(x);
        if i < |init| {
          assert init[i] == df[i];
        }
      }
    }
  }

  /** A row of group k whose value is x. */
  function CarriesValue(key: TextColumn, k: string, col: ValueColumn, x: real): Listing -> bool
  {
    l => TextOf(l, key) == Some(k) && ValueOf(l, col) == Some(x)
  }

  /** A row of group k with a value (a missing price counts for nothing). */
  function CarriesSomeValue(key: TextColumn, k: string, col: ValueColumn): Listing -> bool
  {
    l => TextOf(l, key) == Some(k) && ValueOf(l, col).Some?
  }

  /** Each row of the group carrying x adds one copy of x: equal values are not merged. */
  lemma {:induction false} GroupValuesCount(df: seq<Listing>, key: TextColumn, k: string, col: ValueColumn, x: real)
    ensures multiset(GroupValues(df, key, k, col))[x] == |Filter(df, CarriesValue(key, k, col, x))|
  {
    if df != [] {
      var init, last := df[..|df| - 1], df[|df| - 1];
      GroupValuesCount(init, key, k, col, x);
      assert GroupValues(df, key, k, col) == GroupValues(init, key, k, col) + Contribution(last, key, k, col);
    }
  }

  /** A group holds one value per row of the group that has a value: the count a mean divides by. */
  lemma {:induction false} GroupValuesLength(df: seq<Listing>, key: TextColumn, k: string, col: ValueColumn)
    ensures |GroupValues(df, key, k, col)| == |Filter(df, CarriesSomeValue(key, k, col))|
  {
    if df != [] {
      var init := df[..|df| - 1];
      GroupValuesLength(init, key, k, col);
    }
  }

  lemma {:induction false} TotalBounds(xs: seq<real>, lo: real, hi: real)
    requires forall i :: 0 <= i < |xs| ==> lo <= xs[i] <= hi
    ensures lo * |xs| as real <= Total(xs) <= hi * |xs| as real
  {
    if xs != [] {
      var init := xs[..|xs| - 1];
      TotalBounds(init, lo, hi);
    }
  }

  /**
   * The mean of a group with values lies between its smallest and largest
   * value, and the mean times the number of values is the group's total.
   */
  lemma MeanWithin(xs: seq<real>, lo: real, hi: real)
    requires forall i :: 0 <= i < |xs| ==> lo <= xs[i] <= hi
    ensures xs != [] ==> (Aggregate(xs, Mean).Some?
      && lo <= Aggregate(xs, Mean).value <= hi
      && Aggregate(xs, Mean).value * |xs| as real == Aggregate(xs, Sum).value)
    ensures xs == [] <==> Aggregate(xs, Mean) == None
  {
    if xs != [] {
      TotalBounds(xs, lo, hi);
      var n := |xs| as real;
      var m := Total(xs) / n;
      assert m * n == Total(xs);
      assert lo * n <= m * n <= hi * n;
    }
  }
}
