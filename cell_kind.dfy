/**
 * Cell kinds of the garbage-collected heap and the range checks over them.
 * A cell kind is represented by its raw enumerator value; the concrete list of
 * kinds is not part of this model, so the layout of the callable ranges is a
 * record of bounds constrained by the header's static assertions.
 */
module CellKind {
  /** The raw (underlying integer) value of a cell kind. */
  type Kind = nat

  /** `value` lies in the inclusive range `[from, to]`. */
  predicate KindInRange(value: Kind, from: Kind, to: Kind)
  {
    value >= from && value <= to
  }

  /** A one-element range contains exactly its own bound. */
  lemma KindInRangeSingleton(value: Kind, a: Kind)
    ensures KindInRange(value, a, a) <==> value == a
  {
  }

  /** Inclusive range membership: both ends belong, nothing outside does. */
  lemma KindInRangeInclusive(from: Kind, to: Kind)
    requires from <= to
    ensures KindInRange(from, from, to) && KindInRange(to, from, to)
    ensures forall v: Kind :: v < from || v > to ==> !KindInRange(v, from, to)
  {
  }

  /** Two kinds are adjacent in ascending order. */
  predicate ContiguousPair(v1: Kind, v2: Kind)
  {
    v1 + 1 == v2
  }

  /** The variadic form: every kind is followed by its successor. */
  predicate ContiguousAscending(vs: seq<Kind>)
    requires |vs| >= 2
    decreases |vs|
  {
    ContiguousPair(vs[0], vs[1]) && (|vs| == 2 || ContiguousAscending(vs[1..]))
  }

  /** The variadic form holds iff each adjacent pair is contiguous, i.e. the kinds count up from the first. */
  lemma {:induction false} ContiguousAscendingMeaning(vs: seq<Kind>)
    requires |vs| >= 2
    ensures ContiguousAscending(vs) <==> (forall i :: 0 <= i < |vs| - 1 ==> vs[i] + 1 == vs[i + 1])
    ensures ContiguousAscending(vs) <==> (forall i :: 0 <= i < |vs| ==> vs[i] == vs[0] + i)
    decreases |vs|
  {
    if |vs| > 2 {
      ContiguousAscendingMeaning(vs[1..]);
      var tail := vs[1..];
      assert forall i :: 0 <= i < |tail| ==> tail[i] == vs[i + 1];
      if forall i :: 0 <= i < |vs| ==> vs[i] == vs[0] + i {
        assert forall i :: 0 <= i < |vs| - 1 ==> vs[1..][i] == vs[1..][0] + i;
      }
      if ContiguousAscending(vs) {
        assert forall i :: 0 <= i < |vs| - 1 ==> vs[1..][i] == vs[1..][0] + i;
        forall i | 0 <= i < |vs| ensures vs[i] == vs[0] + i {
          if i > 0 { assert vs[i] == vs[1..][i - 1]; }
        }
      }
    }
  }

  /** The bounds of the callable ranges, as the cell-kind list defines them. */
  datatype Layout = Layout(
    unknownMakesThisFirst: Kind, unknownMakesThisLast: Kind,
    makesThisFirst: Kind, makesThisLast: Kind,
    expectsThisFirst: Kind, expectsThisLast: Kind,
    callableFirst: Kind, callableLast: Kind,
    allCellsLast: Kind)

  /** The header's static assertions on the layout. */
  predicate Asserted(l: Layout)
  {
    && l.unknownMakesThisLast + 1 == l.makesThisFirst
    && l.makesThisLast + 1 == l.expectsThisFirst
    && l.callableFirst == l.unknownMakesThisFirst
    && l.callableLast == l.expectsThisLast
    && l.expectsThisLast == l.allCellsLast
  }

  /** Each range of the cell-kind list names its first and last member, in that order. */
  predicate RangesOrdered(l: Layout)
  {
    && l.unknownMakesThisFirst <= l.unknownMakesThisLast
    && l.makesThisFirst <= l.makesThisLast
    && l.expectsThisFirst <= l.expectsThisLast
  }

  predicate IsCallable(l: Layout, v: Kind) { KindInRange(v, l.callableFirst, l.callableLast) }
  predicate IsUnknownMakesThis(l: Layout, v: Kind) { KindInRange(v, l.unknownMakesThisFirst, l.unknownMakesThisLast) }
  predicate IsMakesThis(l: Layout, v: Kind) { KindInRange(v, l.makesThisFirst, l.makesThisLast) }
  predicate IsExpectsThis(l: Layout, v: Kind) { KindInRange(v, l.expectsThisFirst, l.expectsThisLast) }

  /**
   * Under the static assertions the three callable sub-ranges are pairwise
   * disjoint and together make up exactly the callable range.
   */
  lemma CallableRangesPartition(l: Layout, v: Kind)
    requires Asserted(l) && RangesOrdered(l)
    ensures IsCallable(l, v) <==> IsUnknownMakesThis(l, v) || IsMakesThis(l, v) || IsExpectsThis(l, v)
    ensures !(IsUnknownMakesThis(l, v) && IsMakesThis(l, v))
    ensures !(IsMakesThis(l, v) && IsExpectsThis(l, v))
    ensures !(IsUnknownMakesThis(l, v) && IsExpectsThis(l, v))
  {
  }

  /**
   * Because CallableExpectsThis ends at the last cell kind, membership of any
   * valid kind in it is decided by the single comparison `v >= first`.
   */
  lemma ExpectsThisSingleComparison(l: Layout, v: Kind)
    requires Asserted(l) && v <= l.allCellsLast
    ensures IsExpectsThis(l, v) <==> v >= l.expectsThisFirst
  {
  }
}
