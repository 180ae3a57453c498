/** The Option type used for the ORM's "row may be absent" lookups. */
module Wrappers {

  datatype Option<+T> = None | Some(value: T)
}

/** Order-preserving selection over sequences: the model of a queryset `filter(...)`. */
module Seqs {

  /** The elements of `xs` that satisfy `keep`, in their original order. */
  function Filter<T(!new)>(xs: seq<T>, keep: T -> bool): (r: seq<T>)
    ensures |r| <= |xs|
    ensures forall x :: x in r <==> x in xs && keep(x)
  {
    if |xs| == 0 then []
    else if keep(xs[0]) then [xs[0]] + Filter(xs[1..], keep)
    else Filter(xs[1..], keep)
  }

  /** Selecting from a sequence whose every element is kept gives back the sequence. */
  lemma {:induction false} FilterKeepsAll<T(!new)>(xs: seq<T>, keep: T -> bool)
    requires forall x :: x in xs ==> keep(x)
    ensures Filter(xs, keep) == xs
  {
    if |xs| > 0 {
      assert xs[0] in xs;
      forall x | x in xs[1..] ensures keep(x) {
        assert x in xs;
      }
      FilterKeepsAll(xs[1..], keep);
      assert [xs[0]] + xs[1..] == xs;
    }
  }

  /** Selecting from a sequence none of whose elements is kept gives nothing. */
  lemma {:induction false} FilterNone<T(!new)>(xs: seq<T>, keep: T -> bool)
    requires forall x :: x in xs ==> !keep(x)
    ensures Filter(xs, keep) == []
  {
    if |xs| > 0 {
      assert xs[0] in xs;
      forall x | x in xs[1..] ensures !keep(x) {
        assert x in xs;
      }
      FilterNone(xs[1..], keep);
    }
  }

  /** Putting one element in front of the input puts it in front of the selection exactly when it is kept. */
  lemma FilterCons<T(!new)>(x: T, xs: seq<T>, keep: T -> bool)
    ensures Filter([x] + xs, keep) == if keep(x) then [x] + Filter(xs, keep) else Filter(xs, keep)
  {
  }

  /** Selection distributes over concatenation. */
  lemma {:induction false} FilterAppend<T(!new)>(xs: seq<T>, ys: seq<T>, keep: T -> bool)
    ensures Filter(xs + ys, keep) == Filter(xs, keep) + Filter(ys, keep)
  {
    if |xs| == 0 {
      assert xs + ys == ys;
    } else {
      assert (xs + ys)[1..] == xs[1..] + ys;
      FilterAppend(xs[1..], ys, keep);
    }
  }
}
