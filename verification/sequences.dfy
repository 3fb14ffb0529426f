/** Sequence helpers shared by the library and the submission endpoint:
    their `dedupe` helper, a `Set` spread back into an array. */
module Sequences {

  /** No element occurs twice. */
  predicate NoDuplicates<T(==)>(xs: seq<T>) {
    forall i, j | 0 <= i < j < |xs| :: xs[i] != xs[j]
  }

  /** Index of the first occurrence of `x` in `xs`. */
  function FirstIndex<T(==)>(xs: seq<T>, x: T): (k: nat)
    requires x in xs
    ensures k < |xs| && xs[k] == x
    ensures forall j | 0 <= j < k :: xs[j] != x
  {
    if xs[0] == x then 0 else 1 + FirstIndex(xs[1..], x)
  }

  /** Keeps the first occurrence of every element. A JavaScript `Set` iterates in
      insertion order, so spreading it yields exactly this sequence. The
      definition mirrors the insertion loop: the last element is added unless it
      is already present. */
  function Dedupe<T(==)>(xs: seq<T>): (r: seq<T>)
    ensures NoDuplicates(r)
    ensures forall x | x in r :: x in xs
    ensures forall x | x in xs :: x in r
    ensures |r| <= |xs|
  {
    if |xs| == 0 then []
    else
      var d := Dedupe(xs[..|xs| - 1]);
      var x := xs[|xs| - 1];
      assert xs == xs[..|xs| - 1] + [x];
      if x in d then d else d + [x]
  }

  /** Within a prefix that already contains `x`, the first occurrence does not move. */
  lemma FirstIndexInPrefix<T>(xs: seq<T>, n: nat, x: T)
    requires n <= |xs| && x in xs[..n]
    ensures FirstIndex(xs, x) == FirstIndex(xs[..n], x)
  {
    assert forall j | 0 <= j < n :: xs[..n][j] == xs[j];
  }

  /** `Dedupe` lists elements in the order of their first occurrence in the input. */
  lemma {:induction false} DedupeKeepsFirstOccurrenceOrder<T>(xs: seq<T>)
    ensures forall i, j | 0 <= i < j < |Dedupe(xs)| ::
      FirstIndex(xs, Dedupe(xs)[i]) < FirstIndex(xs, Dedupe(xs)[j])
  {
    if |xs| > 0 {
      var p := xs[..|xs| - 1];
      var x := xs[|xs| - 1];
      var d := Dedupe(p);
      DedupeKeepsFirstOccurrenceOrder(p);
      forall y | y in d
        ensures FirstIndex(xs, y) == FirstIndex(p, y) < |p|
      {
        FirstIndexInPrefix(xs, |xs| - 1, y);
      }
      if x !in d {
        assert x !in p;
        assert forall j | 0 <= j < |p| :: xs[j] == p[j] != x;
      }
    }
  }

  /** The first element of the input always heads the result. */
  lemma {:induction false} DedupeKeepsHead<T>(xs: seq<T>)
    requires |xs| > 0
    ensures |Dedupe(xs)| > 0 && Dedupe(xs)[0] == xs[0]
  {
    if |xs| > 1 {
      DedupeKeepsHead(xs[..|xs| - 1]);
    }
  }

  /** Removing duplicates from a sequence that has none changes nothing. */
  lemma {:induction false} DedupeOfDistinct<T>(xs: seq<T>)
    requires NoDuplicates(xs)
    ensures Dedupe(xs) == xs
  {
    if |xs| > 0 {
      var p := xs[..|xs| - 1];
      DedupeOfDistinct(p);
      assert xs[|xs| - 1] !in p;
      assert p + [xs[|xs| - 1]] == xs;
    }
  }

  /** Deduplicating an accumulator before appending to it makes no difference:
      a chain of `dedupe` calls over growing prefixes equals one `dedupe` of the
      whole concatenation. */
  lemma {:induction false} DedupeAbsorbs<T>(a: seq<T>, b: seq<T>)
    ensures Dedupe(Dedupe(a) + b) == Dedupe(a + b)
  {
    if |b| == 0 {
      assert Dedupe(a) + b == Dedupe(a);
      assert a + b == a;
      DedupeOfDistinct(Dedupe(a));
    } else {
      var b' := b[..|b| - 1];
      DedupeAbsorbs(a, b');
      assert (Dedupe(a) + b)[..|Dedupe(a) + b| - 1] == Dedupe(a) + b';
      assert (a + b)[..|a + b| - 1] == a + b';
    }
  }
}
