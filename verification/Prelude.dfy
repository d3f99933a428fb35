/** The two result types every model here uses, flattening, and running totals. */
module Prelude {
  datatype Option<+T> = None | Some(value: T)

  datatype Result<+T, +E> = Success(value: T) | Failure(error: E) {
    predicate IsFailure() {
      Failure?
    }

    function PropagateFailure<U>(): Result<U, E>
      requires Failure?
    {
      Failure(error)
    }

    function Extract(): T
      requires Success?
    {
      value
    }
  }

  /** Buffer.concat, and the text of a list of chunks. */
  function Flatten<T>(parts: seq<seq<T>>): seq<T> {
    if parts == [] then [] else parts[0] + Flatten(parts[1..])
  }

  lemma {:induction false} FlattenConcat<T>(a: seq<seq<T>>, b: seq<seq<T>>)
    ensures Flatten(a + b) == Flatten(a) + Flatten(b)
    decreases |a|
  {
    if a == [] {
      assert a + b == b;
    } else {
      assert (a + b)[1..] == a[1..] + b;
      FlattenConcat(a[1..], b);
    }
  }

  lemma FlattenOne<T>(part: seq<T>)
    ensures Flatten([part]) == part
  {
    assert [part][1..] == [];
    assert part + [] == part;
  }

  lemma Regroup<T>(a: seq<T>, b: seq<T>, c: seq<T>, d: seq<T>)
    ensures a + (b + c) + d == (a + b) + c + d
  {}

  lemma Nest<T>(a: seq<T>, b: seq<T>, c: seq<T>)
    ensures a + b + c == a + (b + c)
  {}

  lemma Middle<T>(a: seq<T>, b: seq<T>, c: seq<T>)
    ensures (a + b + c)[|a|..|a| + |b|] == b
  {}

  lemma SliceOfSlice<T>(s: seq<T>, lo: nat, hi: nat, from: nat, to: nat)
    requires lo <= from <= to <= hi <= |s|
    ensures s[lo..hi][from - lo..to - lo] == s[from..to]
  {
    var a, b := s[lo..hi][from - lo..to - lo], s[from..to];
    assert |a| == |b|;
    forall k | 0 <= k < to - from
      ensures a[k] == b[k]
    {
      assert a[k] == s[lo..hi][from - lo + k] == s[lo + (from - lo + k)];
    }
  }

  function Lengths<T>(parts: seq<seq<T>>): (lengths: seq<nat>)
    ensures |lengths| == |parts| && forall i :: 0 <= i < |parts| ==> lengths[i] == |parts[i]|
  {
    seq(|parts|, i requires 0 <= i < |parts| => |parts[i]|)
  }

  /** The running offsets of things of these lengths laid end to end from `base`. */
  function Running(base: nat, lengths: seq<nat>): (starts: seq<nat>)
    ensures |starts| == |lengths| + 1 && starts[0] == base
    decreases |lengths|
  {
    if lengths == [] then [base] else [base] + Running(base + lengths[0], lengths[1..])
  }

  lemma {:induction false} RunningStep(base: nat, lengths: seq<nat>, i: nat)
    requires i < |lengths|
    ensures Running(base, lengths)[i + 1] == Running(base, lengths)[i] + lengths[i]
    decreases |lengths|
  {
    if i > 0 {
      RunningStep(base + lengths[0], lengths[1..], i - 1);
    }
  }

  /** They are the only offsets that step by the lengths. */
  lemma {:induction false} RunningOnly(base: nat, lengths: seq<nat>, starts: seq<nat>)
    requires |starts| == |lengths| + 1 && starts[0] == base
    requires forall i :: 0 <= i < |lengths| ==> starts[i + 1] == starts[i] + lengths[i]
    ensures starts == Running(base, lengths)
    decreases |lengths|
  {
    if lengths != [] {
      RunningOnly(base + lengths[0], lengths[1..], starts[1..]);
    }
  }

  lemma {:induction false} RunningGrows(base: nat, lengths: seq<nat>, i: nat, j: nat)
    requires i <= j <= |lengths|
    ensures Running(base, lengths)[i] <= Running(base, lengths)[j]
    decreases j - i
  {
    if i < j {
      RunningStep(base, lengths, i);
      RunningGrows(base, lengths, i + 1, j);
    }
  }

  lemma RunningRest<T>(base: nat, parts: seq<seq<T>>)
    requires parts != []
    ensures Running(base, Lengths(parts)) == [base] + Running(base + |parts[0]|, Lengths(parts[1..]))
  {
    assert Lengths(parts)[1..] == Lengths(parts[1..]);
  }

  /** Part `i` fills `whole` from its own start to the next. */
  ghost predicate Lies<T>(whole: seq<T>, starts: seq<nat>, i: nat, part: seq<T>) {
    i + 1 < |starts| && starts[i] <= starts[i + 1] <= |whole| && whole[starts[i]..starts[i + 1]] == part
  }

  lemma FirstLies<T>(before: seq<T>, part: seq<T>, after: seq<T>, starts: seq<nat>)
    requires |starts| >= 2 && starts[0] == |before| && starts[1] == |before + part|
    ensures Lies(before + part + after, starts, 0, part)
  {
    Middle(before, part, after);
  }

  /** Each part of a concatenation lies between its start and the next. */
  lemma {:induction false} PartsLie<T>(before: seq<T>, parts: seq<seq<T>>, after: seq<T>, i: nat)
    requires i < |parts|
    ensures Lies(before + Flatten(parts) + after, Running(|before|, Lengths(parts)), i, parts[i])
    decreases |parts|
  {
    var first, rest := parts[0], parts[1..];
    Regroup(before, first, Flatten(rest), after);
    RunningRest(|before|, parts);
    if i == 0 {
      Nest(before + first, Flatten(rest), after);
      FirstLies(before, first, Flatten(rest) + after, Running(|before|, Lengths(parts)));
    } else {
      PartsLie(before + first, rest, after, i - 1);
    }
  }

  lemma {:induction false} FlattenLength<T>(base: nat, parts: seq<seq<T>>)
    ensures Running(base, Lengths(parts))[|parts|] == base + |Flatten(parts)|
    decreases |parts|
  {
    if parts != [] {
      RunningRest(base, parts);
      FlattenLength(base + |parts[0]|, parts[1..]);
    }
  }

  /** Element `i` has the property, and no later one does. */
  ghost predicate LastAt<T>(xs: seq<T>, p: T -> bool, i: nat) {
    i < |xs| && p(xs[i]) && forall j :: i < j < |xs| ==> !p(xs[j])
  }

  lemma LastInFront<T>(xs: seq<T>, p: T -> bool, i: nat)
    requires xs != [] && !p(xs[|xs| - 1])
    ensures LastAt(xs, p, i) <==> LastAt(xs[..|xs| - 1], p, i)
  {
    var front := xs[..|xs| - 1];
    assert forall j :: 0 <= j < |front| ==> front[j] == xs[j];
  }
}
