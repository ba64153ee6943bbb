/**
 * Generic operations on tables, a table being a sequence of rows:
 * selecting the rows a boolean mask keeps (`df[mask]`), dropping exact
 * duplicate rows (`drop_duplicates`), and chains of selection steps.
 */
module Tables {

  /** The rows of `s` on which `p` holds, in their original order. */
  function Filter<T>(s: seq<T>, p: T -> bool): (r: seq<T>)
    ensures |r| <= |s|
  {
    if s == [] then []
    else
      var init, last := s[..|s| - 1], s[|s| - 1];
      assert s == init + [last];
      Filter(init, p) + (if p(last) then [last] else [])
  }

  /** A row is selected exactly when it is in the table and satisfies the predicate. */
  lemma {:induction false} FilterMember<T>(s: seq<T>, p: T -> bool, x: T)
    ensures x in Filter(s, p) <==> x in s && p(x)
  {
    if s != [] {
      var init, last := s[..|s| - 1], s[|s| - 1];
      FilterMember(init, p, x);
      assert s == init + [last];
    }
  }

  /** Every selected row satisfies the predicate. */
  lemma {:induction false} FilterSatisfies<T>(s: seq<T>, p: T -> bool)
    ensures forall i :: 0 <= i < |Filter(s, p)| ==> p(Filter(s, p)[i])
  {
    if s != [] {
      FilterSatisfies(s[..|s| - 1], p);
    }
  }

  /** Filter keeps every occurrence of a row `p` accepts and no occurrence of any other. */
  lemma {:induction false} FilterCount<T>(s: seq<T>, p: T -> bool)
    ensures forall x :: multiset(Filter(s, p))[x] == if p(x) then multiset(s)[x] else 0
  {
    if s != [] {
      var init, last := s[..|s| - 1], s[|s| - 1];
      FilterCount(init, p);
      assert s == init + [last];
      assert multiset(s) == multiset(init) + multiset{last};
    }
  }

  /** Selecting rows by a mask, one row at a time. */
  method Select<T>(s: seq<T>, p: T -> bool) returns (r: seq<T>)
    ensures r == Filter(s, p)
  {
    r := [];
    var i := 0;
    while i < |s|
      invariant 0 <= i <= |s|
      invariant r == Filter(s[..i], p)
    {
      assert s[..i + 1][..i] == s[..i];
      if p(s[i]) {
        r := r + [s[i]];
      }
      i := i + 1;
    }
    assert s[..|s|] == s;
  }

  /** `idx` places every element of `a` at a strictly increasing position of `b`. */
  ghost predicate IsEmbedding<T>(idx: seq<nat>, a: seq<T>, b: seq<T>) {
    && |idx| == |a|
    && (forall k :: 0 <= k < |idx| ==> idx[k] < |b| && a[k] == b[idx[k]])
    && (forall k, l :: 0 <= k < l < |idx| ==> idx[k] < idx[l])
  }

  /** `a` is `b` with some elements left out and the rest kept in order. */
  ghost predicate Subsequence<T>(a: seq<T>, b: seq<T>) {
    exists idx :: IsEmbedding(idx, a, b)
  }

  lemma {:induction false} FilterIsSubsequence<T>(s: seq<T>, p: T -> bool)
    ensures Subsequence(Filter(s, p), s)
  {
    var idx := FilterPositions(s, p);
  }

  /** The positions of the rows Filter keeps. */
  lemma {:induction false} FilterPositions<T>(s: seq<T>, p: T -> bool) returns (idx: seq<nat>)
    ensures IsEmbedding(idx, Filter(s, p), s)
  {
    if s == [] {
      idx := [];
    } else {
      var init, last := s[..|s| - 1], s[|s| - 1];
      var prev := FilterPositions(init, p);
      var f := Filter(init, p);
      assert forall k :: 0 <= k < |prev| ==> prev[k] < |init| && s[prev[k]] == init[prev[k]];
      if p(last) {
        idx := prev + [|s| - 1];
        assert Filter(s, p) == f + [last];
        forall k | 0 <= k < |idx| ensures idx[k] < |s| && Filter(s, p)[k] == s[idx[k]] {
          if k < |prev| {
            assert idx[k] == prev[k] && Filter(s, p)[k] == f[k];
          }
        }
      } else {
        idx := prev;
        assert Filter(s, p) == f;
      }
    }
  }

  lemma {:induction false} FilterAppend<T>(a: seq<T>, b: seq<T>, p: T -> bool)
    ensures Filter(a + b, p) == Filter(a, p) + Filter(b, p)
  {
    if b == [] {
      assert a + b == a;
    } else {
      var init := b[..|b| - 1];
      assert (a + b)[..|a + b| - 1] == a + init;
      FilterAppend(a, init, p);
    }
  }

  /** Two predicates that agree on every row select the same rows. */
  lemma {:induction false} FilterAgree<T>(s: seq<T>, p: T -> bool, q: T -> bool)
    requires forall x :: p(x) == q(x)
    ensures Filter(s, p) == Filter(s, q)
  {
    if s != [] {
      FilterAgree(s[..|s| - 1], p, q);
    }
  }

  /** The conjunction of two row predicates. */
  function Both<T>(p: T -> bool, q: T -> bool): T -> bool
  {
    x => p(x) && q(x)
  }

  /** Selecting by `p` and then by `q` is selecting by their conjunction. */
  lemma {:induction false} FilterFuse<T>(s: seq<T>, p: T -> bool, q: T -> bool)
    ensures Filter(Filter(s, p), q) == Filter(s, Both(p, q))
  {
    if s != [] {
      var init, last := s[..|s| - 1], s[|s| - 1];
      FilterFuse(init, p, q);
      FilterAppend(Filter(init, p), if p(last) then [last] else [], q);
    }
  }

  /** Two selection steps give the same rows in either order. */
  lemma FilterCommutes<T>(s: seq<T>, p: T -> bool, q: T -> bool)
    ensures Filter(Filter(s, p), q) == Filter(Filter(s, q), p)
  {
    FilterFuse(s, p, q);
    FilterFuse(s, q, p);
    FilterAgree(s, Both(p, q), Both(q, p));
  }

  /** A predicate every row satisfies removes nothing. */
  lemma {:induction false} FilterKeepsAll<T>(s: seq<T>, p: T -> bool)
    requires forall x :: x in s ==> p(x)
    ensures Filter(s, p) == s
  {
    if s != [] {
      var init := s[..|s| - 1];
      FilterKeepsAll(init, p);
      assert s == init + [s[|s| - 1]];
    }
  }

  /** Applying a selection twice keeps the rows the first application kept. */
  lemma FilterIdempotent<T>(s: seq<T>, p: T -> bool)
    ensures Filter(Filter(s, p), p) == Filter(s, p)
  {
    forall x | x in Filter(s, p) ensures p(x) {
      FilterMember(s, p, x);
    }
    FilterKeepsAll(Filter(s, p), p);
  }

  /** The steps of a chain, applied in the order given. */
  function ApplySteps<T>(s: seq<T>, steps: seq<T -> bool>): seq<T>
    decreases |steps|
  {
    if steps == [] then s else ApplySteps(Filter(s, steps[0]), steps[1..])
  }

  /** One more step at the end of a chain filters what the chain selected. */
  lemma {:induction false} ApplyStepsSnoc<T>(s: seq<T>, steps: seq<T -> bool>, p: T -> bool)
    ensures ApplySteps(s, steps + [p]) == Filter(ApplySteps(s, steps), p)
    decreases |steps|
  {
    if steps == [] {
      assert steps + [p] == [p];
      assert ApplySteps(Filter(s, p), []) == Filter(s, p);
    } else {
      assert (steps + [p])[1..] == steps[1..] + [p];
      ApplyStepsSnoc(Filter(s, steps[0]), steps[1..], p);
    }
  }

  /** A row passes every step of `steps`. */
  predicate PassesAll<T>(steps: seq<T -> bool>, x: T)
  {
    forall i :: 0 <= i < |steps| ==> steps[i](x)
  }

  /** `PassesAll` as a row predicate. */
  function AllOf<T>(steps: seq<T -> bool>): T -> bool
  {
    x => PassesAll(steps, x)
  }

  /** A chain of steps selects the rows that pass every one of them. */
  lemma {:induction false} ApplyStepsIsConjunction<T>(s: seq<T>, steps: seq<T -> bool>)
    ensures ApplySteps(s, steps) == Filter(s, AllOf(steps))
    decreases |steps|
  {
    if steps == [] {
      FilterKeepsAll(s, AllOf(steps));
    } else {
      var rest := steps[1..];
      ApplyStepsIsConjunction(Filter(s, steps[0]), rest);
      FilterFuse(s, steps[0], AllOf(rest));
      forall x
        ensures Both(steps[0], AllOf(rest))(x) == AllOf(steps)(x)
      {
        if steps[0](x) && PassesAll(rest, x) {
          forall i | 0 <= i < |steps| ensures steps[i](x) {
            if i > 0 { assert steps[i] == rest[i - 1]; }
          }
        }
        if PassesAll(steps, x) {
          forall i | 0 <= i < |rest| ensures rest[i](x) {
            assert rest[i] == steps[i + 1];
          }
        }
      }
      FilterAgree(s, Both(steps[0], AllOf(rest)), AllOf(steps));
    }
  }

  /** Any two orderings of the same steps select the same rows. */
  lemma StepOrderIrrelevant<T>(s: seq<T>, steps: seq<T -> bool>, reordered: seq<T -> bool>)
    requires multiset(steps) == multiset(reordered)
    ensures ApplySteps(s, steps) == ApplySteps(s, reordered)
  {
    ApplyStepsIsConjunction(s, steps);
    ApplyStepsIsConjunction(s, reordered);
    forall x
      ensures AllOf(steps)(x) == AllOf(reordered)(x)
    {
      forall i | 0 <= i < |steps| ensures steps[i] in reordered {
        assert steps[i] in multiset(steps);
      }
      forall i | 0 <= i < |reordered| ensures reordered[i] in steps {
        assert reordered[i] in multiset(reordered);
      }
    }
    FilterAgree(s, AllOf(steps), AllOf(reordered));
  }

  /** No two rows are equal. */
  predicate NoDuplicates<T(==)>(s: seq<T>)
  {
    forall i, j :: 0 <= i < j < |s| ==> s[i] != s[j]
  }

  /** The first occurrence of every row, in their original order. */
  function Dedup<T(==)>(s: seq<T>): (r: seq<T>)
    ensures forall i :: 0 <= i < |r| ==> r[i] in s
    ensures NoDuplicates(r)
  {
    if s == [] then []
    else
      var init, last := s[..|s| - 1], s[|s| - 1];
      assert s == init + [last];
      Dedup(init) + (if last in init then [] else [last])
  }

  /** Every row value of the table appears in the deduplicated table, and no other. */
  lemma {:induction false} DedupMembers<T>(s: seq<T>)
    ensures forall x :: x in Dedup(s) <==> x in s
  {
    if s != [] {
      var init, last := s[..|s| - 1], s[|s| - 1];
      DedupMembers(init);
      assert s == init + [last];
    }
  }

  /** Dropping duplicates with a set of the rows seen so far. */
  method DropDuplicates<T(==)>(s: seq<T>) returns (r: seq<T>)
    ensures r == Dedup(s)
  {
    r := [];
    var seen: set<T> := {};
    var i := 0;
    while i < |s|
      invariant 0 <= i <= |s|
      invariant r == Dedup(s[..i])
      invariant forall x :: x in seen <==> x in s[..i]
    {
      assert s[..i + 1][..i] == s[..i];
      assert s[..i + 1] == s[..i] + [s[i]];
      if s[i] !in seen {
        r := r + [s[i]];
        seen := seen + {s[i]};
      }
      i := i + 1;
    }
    assert s[..|s|] == s;
  }

  /** Selecting from a table without duplicates gives a table without duplicates. */
  lemma {:induction false} FilterDistinct<T>(s: seq<T>, p: T -> bool)
    requires NoDuplicates(s)
    ensures NoDuplicates(Filter(s, p))
  {
    if s != [] {
      var init, last := s[..|s| - 1], s[|s| - 1];
      assert NoDuplicates(init);
      FilterDistinct(init, p);
      FilterMember(init, p, last);
      assert last !in init;
    }
  }

  /** A table without duplicates is left as it is. */
  lemma {:induction false} DedupOfDistinct<T>(s: seq<T>)
    requires NoDuplicates(s)
    ensures Dedup(s) == s
  {
    if s != [] {
      var init, last := s[..|s| - 1], s[|s| - 1];
      DedupOfDistinct(init);
      assert s == init + [last];
    }
  }

  /** Dropping duplicates a second time changes nothing. */
  lemma DedupIdempotent<T>(s: seq<T>)
    ensures Dedup(Dedup(s)) == Dedup(s)
  {
    DedupOfDistinct(Dedup(s));
  }

  /** Dropping duplicates keeps exactly the first occurrence of every row, in order. */
  lemma {:induction false} DedupPositions<T>(s: seq<T>) returns (idx: seq<nat>)
    ensures IsEmbedding(idx, Dedup(s), s)
    ensures forall k :: 0 <= k < |idx| ==> s[idx[k]] !in s[..idx[k]]
  {
    if s == [] {
      idx := [];
    } else {
      var init, last := s[..|s| - 1], s[|s| - 1];
      var prev := DedupPositions(init);
      var d := Dedup(init);
      forall k | 0 <= k < |prev|
        ensures prev[k] < |init| && s[prev[k]] == init[prev[k]] && s[..prev[k]] == init[..prev[k]]
      {
      }
      if last in init {
        idx := prev;
        assert Dedup(s) == d;
      } else {
        idx := prev + [|s| - 1];
        assert Dedup(s) == d + [last];
        assert s[..|s| - 1] == init;
        forall k | 0 <= k < |idx| ensures idx[k] < |s| && Dedup(s)[k] == s[idx[k]] {
          if k < |prev| {
            assert idx[k] == prev[k] && Dedup(s)[k] == d[k];
          }
        }
      }
    }
  }

  lemma DedupIsSubsequence<T>(s: seq<T>)
    ensures Subsequence(Dedup(s), s)
  {
    var idx := DedupPositions(s);
  }
}
