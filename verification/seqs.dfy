/** The array idioms the editors use, on immutable sequences:
    `xs.filter((_, i) => i !== index)` for remove-at-index and
    `xs.filter(pred)` for the save-time clean-up, together with the
    duplicate-freedom the option lists keep. */
module Seqs {

  /** `xs.filter((_, i) => i !== index)` where `xs` sits at offset `from` of
      the original array: every element is kept except the one whose
      position is `index`. */
  function KeepOtherPositions<T>(xs: seq<T>, index: int, from: int): (r: seq<T>)
    ensures if from <= index < from + |xs|
            then r == xs[..index - from] + xs[index - from + 1..]
            else r == xs
    decreases |xs|
  {
    if xs == [] then []
    else
      var rest := KeepOtherPositions(xs[1..], index, from + 1);
      if from != index then
        assert from <= index < from + |xs| ==>
          [xs[0]] + rest == xs[..index - from] + xs[index - from + 1..];
        [xs[0]] + rest
      else
        rest
  }

  /** `r` is `xs` with exactly position `index` taken out, the rest in
      their order. */
  ghost predicate Without<T>(r: seq<T>, xs: seq<T>, index: nat) {
    && index < |xs| && |r| == |xs| - 1
    && (forall j :: 0 <= j < index ==> r[j] == xs[j])
    && (forall j :: index <= j < |r| ==> r[j] == xs[j + 1])
  }

  /** Remove-at-index as the editors write it. An index outside the array
      removes nothing. */
  function RemoveAt<T>(xs: seq<T>, index: int): (r: seq<T>)
    ensures 0 <= index < |xs| ==> Without(r, xs, index)
    ensures !(0 <= index < |xs|) ==> r == xs
    ensures forall j :: 0 <= j < |r| ==> r[j] in xs
  {
    KeepOtherPositions(xs, index, 0)
  }

  /** Removing one position takes exactly that element out of the multiset
      of elements. */
  lemma RemoveAtMultiset<T>(xs: seq<T>, index: int)
    requires 0 <= index < |xs|
    ensures multiset(RemoveAt(xs, index)) + multiset{xs[index]} == multiset(xs)
  {
    assert xs == xs[..index] + [xs[index]] + xs[index + 1..];
  }

  /** `xs.filter(keep)`. */
  function Filter<T>(keep: T -> bool, xs: seq<T>): (r: seq<T>)
    ensures |r| <= |xs|
    ensures forall i :: 0 <= i < |r| ==> keep(r[i]) && r[i] in xs
    ensures forall i :: 0 <= i < |xs| && keep(xs[i]) ==> xs[i] in r
  {
    if xs == [] then []
    else (if keep(xs[0]) then [xs[0]] else []) + Filter(keep, xs[1..])
  }

  /** Filtering commutes with concatenation: together with the one-element
      case this pins down that `Filter` keeps the survivors in their original
      order. */
  lemma {:induction false} FilterConcat<T>(keep: T -> bool, a: seq<T>, b: seq<T>)
    ensures Filter(keep, a + b) == Filter(keep, a) + Filter(keep, b)
    decreases |a|
  {
    if a == [] {
      assert a + b == b;
    } else {
      assert (a + b)[1..] == a[1..] + b;
      FilterConcat(keep, a[1..], b);
    }
  }

  /** Each element the filter keeps occurs as often as in the input, and the
      others not at all. */
  lemma {:induction false} FilterMultiset<T>(keep: T -> bool, xs: seq<T>, x: T)
    ensures multiset(Filter(keep, xs))[x] == if keep(x) then multiset(xs)[x] else 0
    decreases |xs|
  {
    if xs != [] {
      FilterMultiset(keep, xs[1..], x);
      assert xs == [xs[0]] + xs[1..];
    }
  }

  /** A filter that keeps everything is the identity, and one that keeps
      nothing is empty. */
  lemma {:induction false} FilterExtremes<T>(keep: T -> bool, xs: seq<T>)
    ensures (forall i :: 0 <= i < |xs| ==> keep(xs[i])) ==> Filter(keep, xs) == xs
    ensures (forall i :: 0 <= i < |xs| ==> !keep(xs[i])) ==> Filter(keep, xs) == []
    decreases |xs|
  {
    if xs != [] {
      FilterExtremes(keep, xs[1..]);
      assert (forall i :: 0 <= i < |xs| ==> keep(xs[i])) ==>
        (forall i :: 0 <= i < |xs[1..]| ==> keep(xs[1..][i]));
      assert (forall i :: 0 <= i < |xs| ==> !keep(xs[i])) ==>
        (forall i :: 0 <= i < |xs[1..]| ==> !keep(xs[1..][i]));
    }
  }

  /** The filter keeps nothing exactly when no element passes. */
  lemma {:induction false} FilterEmpty<T>(keep: T -> bool, xs: seq<T>)
    ensures Filter(keep, xs) == [] <==> forall i :: 0 <= i < |xs| ==> !keep(xs[i])
    decreases |xs|
  {
    if xs != [] {
      FilterEmpty(keep, xs[1..]);
      assert forall i :: 1 <= i < |xs| ==> xs[i] == xs[1..][i - 1];
    }
  }

  /** No value occurs at two positions. */
  predicate NoDuplicates<T(==)>(xs: seq<T>) {
    forall i, j :: 0 <= i < j < |xs| ==> xs[i] != xs[j]
  }

  /** Appending a value not yet present keeps a list duplicate-free. */
  lemma AppendFreshNoDuplicates<T>(xs: seq<T>, x: T)
    requires NoDuplicates(xs) && x !in xs
    ensures NoDuplicates(xs + [x])
  {
  }

  /** Appending a value not yet present neither creates nor removes a
      repeat. */
  lemma SnocNoDuplicates<T>(xs: seq<T>, x: T)
    requires x !in xs
    ensures NoDuplicates(xs + [x]) <==> NoDuplicates(xs)
  {
    var ys := xs + [x];
    assert forall i :: 0 <= i < |xs| ==> ys[i] == xs[i];
  }

  /** Removing a position keeps a list duplicate-free. */
  lemma RemoveAtNoDuplicates<T>(xs: seq<T>, index: int)
    ensures NoDuplicates(xs) ==> NoDuplicates(RemoveAt(xs, index))
  {
  }

  /** A set is no larger than one containing it. */
  lemma {:induction false} SubsetSize<T>(a: set<T>, b: set<T>)
    requires a <= b
    ensures |a| <= |b|
    decreases |a|
  {
    if a != {} {
      var x :| x in a;
      SubsetSize(a - {x}, b - {x});
    }
  }

  /** A subset as large as its superset is the whole of it. */
  lemma SubsetEqualSize<T>(a: set<T>, b: set<T>)
    requires a <= b && |a| == |b|
    ensures a == b
  {
    if x :| x in b && x !in a {
      SubsetSize(a, b - {x});
    }
  }

  /** The distinct values of a list are no more than its length. */
  lemma {:induction false} ElementsSize<T>(xs: seq<T>)
    ensures |set i | 0 <= i < |xs| :: xs[i]| <= |xs|
    decreases |xs|
  {
    if xs != [] {
      var init := xs[..|xs| - 1];
      ElementsSize(init);
      assert (set i | 0 <= i < |xs| :: xs[i]) == (set i | 0 <= i < |init| :: init[i]) + {xs[|xs| - 1]} by {
        assert forall i :: 0 <= i < |init| ==> init[i] == xs[i];
      }
    }
  }
}
