/** Order-preserving selection, counting, concatenation and the stable two-way
    partition that the constraint emitter relies on. */
module Sequences {

  /** The elements of `xs` on which `p` gives `want`, in their input order. */
  function Filter<T>(xs: seq<T>, p: T -> bool, want: bool): (r: seq<T>)
    ensures |r| <= |xs|
    ensures forall i | 0 <= i < |r| :: p(r[i]) == want
  {
    if xs == [] then []
    else (if p(xs[0]) == want then [xs[0]] else []) + Filter(xs[1..], p, want)
  }

  /** How many elements of `xs` satisfy `p`. */
  function Count<T>(xs: seq<T>, p: T -> bool): nat
  {
    |Filter(xs, p, true)|
  }

  /** The sum of `g` over the elements of `xs`. */
  function SumOver<T>(xs: seq<T>, g: T -> nat): nat
  {
    if xs == [] then 0 else g(xs[0]) + SumOver(xs[1..], g)
  }

  /** The blocks `f(x)` for the elements of `xs`, concatenated in order. */
  function FlatMap<T, U>(xs: seq<T>, f: T -> seq<U>): seq<U>
  {
    if xs == [] then [] else f(xs[0]) + FlatMap(xs[1..], f)
  }

  /** Flattening a concatenation flattens each part in turn. */
  lemma {:induction false} FlatMapAppend<T, U>(xs: seq<T>, ys: seq<T>, f: T -> seq<U>)
    ensures FlatMap(xs + ys, f) == FlatMap(xs, f) + FlatMap(ys, f)
  {
    if xs == [] {
      assert xs + ys == ys;
    } else {
      assert (xs + ys)[0] == xs[0];
      assert (xs + ys)[1..] == xs[1..] + ys;
      FlatMapAppend(xs[1..], ys, f);
      AppendAssoc(f(xs[0]), FlatMap(xs[1..], f), FlatMap(ys, f));
    }
  }

  /** Flattening one element gives that element's image. */
  lemma FlatMapSingleton<T, U>(x: T, f: T -> seq<U>)
    ensures FlatMap([x], f) == f(x)
  {
    assert [x][1..] == [];
    assert f(x) + [] == f(x);
  }

  /** True when every element satisfying `p` comes after every element that does not. */
  predicate PassingLast<T>(ys: seq<T>, p: T -> bool)
  {
    forall i, j | 0 <= i < j < |ys| :: p(ys[i]) ==> p(ys[j])
  }

  lemma {:induction false} FilterAppend<T>(a: seq<T>, b: seq<T>, p: T -> bool, want: bool)
    ensures Filter(a + b, p, want) == Filter(a, p, want) + Filter(b, p, want)
  {
    if a == [] {
      assert a + b == b;
    } else {
      assert (a + b)[1..] == a[1..] + b;
      FilterAppend(a[1..], b, p, want);
    }
  }

  lemma {:induction false} CountAppend<T>(a: seq<T>, b: seq<T>, p: T -> bool)
    ensures Count(a + b, p) == Count(a, p) + Count(b, p)
  {
    FilterAppend(a, b, p, true);
  }

  /** Selecting from a sequence whose elements all pass keeps all of it. */
  lemma {:induction false} FilterAll<T>(xs: seq<T>, p: T -> bool, want: bool)
    requires forall x :: x in xs ==> p(x) == want
    ensures Filter(xs, p, want) == xs
  {
    if xs != [] {
      assert forall x :: x in xs[1..] ==> x in xs;
      FilterAll(xs[1..], p, want);
      assert [xs[0]] + xs[1..] == xs;
    }
  }

  /** Selecting from a sequence whose elements all fail yields nothing. */
  lemma {:induction false} FilterNone<T>(xs: seq<T>, p: T -> bool, want: bool)
    requires forall x :: x in xs ==> p(x) != want
    ensures Filter(xs, p, want) == []
  {
    if xs != [] {
      assert forall x :: x in xs[1..] ==> x in xs;
      FilterNone(xs[1..], p, want);
    }
  }

  /** The two selections together hold every element exactly as often as `xs`. */
  lemma {:induction false} FilterSplitsMultiset<T>(xs: seq<T>, p: T -> bool)
    ensures multiset(Filter(xs, p, false)) + multiset(Filter(xs, p, true)) == multiset(xs)
  {
    if xs != [] {
      var x, rest := xs[0], xs[1..];
      FilterSplitsMultiset(rest, p);
      FilterCons(x, rest, p, false);
      FilterCons(x, rest, p, true);
      assert xs == [x] + rest;
      assert multiset(xs) == multiset([x]) + multiset(rest);
    }
  }

  /** Once the first element passes, a passing-last sequence passes throughout. */
  lemma HeadPassesAllPass<T>(ys: seq<T>, p: T -> bool)
    requires PassingLast(ys, p) && ys != [] && p(ys[0])
    ensures forall x :: x in ys ==> p(x)
  {
    forall x | x in ys ensures p(x) {
      var j :| 0 <= j < |ys| && ys[j] == x;
      if j > 0 {
        assert p(ys[0]) ==> p(ys[j]);
      }
    }
  }

  /** Dropping the head keeps the passing-last order. */
  lemma PassingLastTail<T>(ys: seq<T>, p: T -> bool)
    requires PassingLast(ys, p) && ys != []
    ensures PassingLast(ys[1..], p)
  {
    var tail := ys[1..];
    forall i, j | 0 <= i < j < |tail| ensures p(tail[i]) ==> p(tail[j]) {
      assert tail[i] == ys[i + 1] && tail[j] == ys[j + 1];
    }
  }

  /** A sequence already in passing-last order is its own stable partition. */
  lemma {:induction false} PassingLastSplits<T>(ys: seq<T>, p: T -> bool)
    requires PassingLast(ys, p)
    ensures ys == Filter(ys, p, false) + Filter(ys, p, true)
  {
    if ys != [] {
      if p(ys[0]) {
        HeadPassesAllPass(ys, p);
        FilterAll(ys, p, true);
        FilterNone(ys, p, false);
      } else {
        PassingLastTail(ys, p);
        PassingLastSplits(ys[1..], p);
        FailingHeadSplits(ys, p);
      }
    }
  }

  lemma AppendAssoc<T>(a: seq<T>, b: seq<T>, c: seq<T>)
    ensures a + (b + c) == (a + b) + c
  {
  }

  /** A failing head leads the failing group and stays out of the passing one. */
  lemma FailingHeadSplits<T>(ys: seq<T>, p: T -> bool)
    requires ys != [] && !p(ys[0])
    requires ys[1..] == Filter(ys[1..], p, false) + Filter(ys[1..], p, true)
    ensures ys == Filter(ys, p, false) + Filter(ys, p, true)
  {
    var head, tail := ys[0], ys[1..];
    var f, t := Filter(tail, p, false), Filter(tail, p, true);
    assert ys == [head] + tail;
    FilterCons(head, tail, p, false);
    FilterCons(head, tail, p, true);
    AppendAssoc([head], f, t);
  }

  /** Joining the failing group before the passing group keeps every element. */
  lemma PartitionKeepsElements<T>(xs: seq<T>, p: T -> bool)
    ensures multiset(Filter(xs, p, false) + Filter(xs, p, true)) == multiset(xs)
    ensures |Filter(xs, p, false) + Filter(xs, p, true)| == |xs|
  {
    var r := Filter(xs, p, false) + Filter(xs, p, true);
    FilterSplitsMultiset(xs, p);
    assert multiset(r) == multiset(Filter(xs, p, false)) + multiset(Filter(xs, p, true));
    assert |r| == |multiset(r)|;
  }

  /** Joining the failing group before the passing group puts the passing ones last. */
  lemma PartitionPassingLast<T>(xs: seq<T>, p: T -> bool)
    ensures PassingLast(Filter(xs, p, false) + Filter(xs, p, true), p)
  {
    var failing, passing := Filter(xs, p, false), Filter(xs, p, true);
    var r := failing + passing;
    forall i, j | 0 <= i < j < |r| ensures p(r[i]) ==> p(r[j]) {
      if j < |failing| {
        assert r[i] == failing[i];
      } else {
        assert r[j] == passing[j - |failing|];
      }
    }
  }

  /** Joining the failing group before the passing group keeps both groups intact. */
  lemma PartitionKeepsGroups<T>(xs: seq<T>, p: T -> bool)
    ensures Filter(Filter(xs, p, false) + Filter(xs, p, true), p, false) == Filter(xs, p, false)
    ensures Filter(Filter(xs, p, false) + Filter(xs, p, true), p, true) == Filter(xs, p, true)
  {
    var failing, passing := Filter(xs, p, false), Filter(xs, p, true);
    FilterAppend(failing, passing, p, false);
    FilterAppend(failing, passing, p, true);
    FilterAll(failing, p, false);
    FilterAll(passing, p, true);
    FilterNone(passing, p, false);
    FilterNone(failing, p, true);
  }

  /** Elements failing `p` first, then elements passing `p`, each group in input order. */
  function Partition<T>(xs: seq<T>, p: T -> bool): (r: seq<T>)
    ensures |r| == |xs|
    ensures multiset(r) == multiset(xs)
    ensures PassingLast(r, p)
    ensures Filter(r, p, false) == Filter(xs, p, false)
    ensures Filter(r, p, true) == Filter(xs, p, true)
  {
    PartitionKeepsElements(xs, p);
    PartitionPassingLast(xs, p);
    PartitionKeepsGroups(xs, p);
    Filter(xs, p, false) + Filter(xs, p, true)
  }

  /** Stable partition is unique: a passing-last reordering that keeps both groups'
      input order is the partition itself. */
  lemma PartitionUnique<T>(xs: seq<T>, ys: seq<T>, p: T -> bool)
    requires PassingLast(ys, p)
    requires Filter(ys, p, false) == Filter(xs, p, false)
    requires Filter(ys, p, true) == Filter(xs, p, true)
    ensures ys == Partition(xs, p)
  {
    PassingLastSplits(ys, p);
    PassingLastSplits(Partition(xs, p), p);
  }

  /** Counting over concatenated blocks adds up the per-block counts. */
  lemma {:induction false} CountFlatMap<T, U>(xs: seq<T>, f: T -> seq<U>, p: U -> bool, g: T -> nat)
    requires forall x :: x in xs ==> Count(f(x), p) == g(x)
    ensures Count(FlatMap(xs, f), p) == SumOver(xs, g)
  {
    if xs != [] {
      assert forall x :: x in xs[1..] ==> x in xs;
      CountFlatMap(xs[1..], f, p, g);
      CountAppend(f(xs[0]), FlatMap(xs[1..], f), p);
    }
  }

  /** A sum of ones is a length. */
  lemma {:induction false} SumOfOnes<T>(xs: seq<T>, g: T -> nat)
    requires forall x :: x in xs ==> g(x) == 1
    ensures SumOver(xs, g) == |xs|
  {
    if xs != [] {
      assert forall x :: x in xs[1..] ==> x in xs;
      SumOfOnes(xs[1..], g);
    }
  }

  lemma CountSingleton<T>(x: T, p: T -> bool)
    ensures Count([x], p) == if p(x) then 1 else 0
  {
    assert [x][1..] == [];
  }

  /** A sum of 0/1 indicators is a count. */
  lemma {:induction false} SumIndicator<T>(xs: seq<T>, g: T -> nat, q: T -> bool)
    requires forall x :: x in xs ==> g(x) == (if q(x) then 1 else 0)
    ensures SumOver(xs, g) == Count(xs, q)
  {
    if xs != [] {
      assert forall x :: x in xs[1..] ==> x in xs;
      SumIndicator(xs[1..], g, q);
    }
  }

  /** Two-statement blocks: block `i` occupies positions `2 * i` and `2 * i + 1`. */
  lemma {:induction false} FlatMapPairs<T, U>(xs: seq<T>, f: T -> seq<U>)
    requires forall x :: x in xs ==> |f(x)| == 2
    ensures |FlatMap(xs, f)| == 2 * |xs|
    ensures forall i | 0 <= i < |xs| ::
      FlatMap(xs, f)[2 * i] == f(xs[i])[0] && FlatMap(xs, f)[2 * i + 1] == f(xs[i])[1]
  {
    if xs != [] {
      assert forall x :: x in xs[1..] ==> x in xs;
      FlatMapPairs(xs[1..], f);
      var rest := FlatMap(xs[1..], f);
      var r := f(xs[0]) + rest;
      forall i | 0 <= i < |xs| ensures r[2 * i] == f(xs[i])[0] && r[2 * i + 1] == f(xs[i])[1] {
        if i > 0 {
          assert xs[i] == xs[1..][i - 1];
          assert r[2 * i] == rest[2 * (i - 1)];
          assert r[2 * i + 1] == rest[2 * (i - 1) + 1];
        }
      }
    }
  }

  /** `f` applied to each element of `xs`, in order. */
  function MapSeq<T, U>(xs: seq<T>, f: T -> U): (r: seq<U>)
    ensures |r| == |xs|
    ensures forall i | 0 <= i < |xs| :: r[i] == f(xs[i])
  {
    if xs == [] then [] else [f(xs[0])] + MapSeq(xs[1..], f)
  }

  lemma MapSeqAppend<T, U>(a: seq<T>, b: seq<T>, f: T -> U)
    ensures MapSeq(a + b, f) == MapSeq(a, f) + MapSeq(b, f)
  {
    assert forall i | 0 <= i < |a + b| :: MapSeq(a + b, f)[i] == (MapSeq(a, f) + MapSeq(b, f))[i];
  }

  lemma FilterCons<T>(x: T, xs: seq<T>, p: T -> bool, want: bool)
    ensures Filter([x] + xs, p, want) == (if p(x) == want then [x] else []) + Filter(xs, p, want)
  {
    assert ([x] + xs)[1..] == xs;
  }

  /** Positions in a block made of a head, a middle part and two trailing elements. */
  lemma IndexAround<T>(a: T, mid: seq<T>, b: T, c: T)
    ensures ([a] + mid + [b, c])[0] == a
    ensures forall k | 0 <= k < |mid| :: ([a] + mid + [b, c])[k + 1] == mid[k]
    ensures ([a] + mid + [b, c])[|mid| + 1] == b
    ensures ([a] + mid + [b, c])[|mid| + 2] == c
  {
  }

  /** Counting over one element, a middle part and two more elements. */
  lemma CountAround<T>(a: T, mid: seq<T>, b: T, c: T, p: T -> bool)
    ensures Count([a] + mid + [b, c], p)
         == (if p(a) then 1 else 0) + Count(mid, p) + (if p(b) then 1 else 0) + (if p(c) then 1 else 0)
  {
    CountAppend([a] + mid, [b, c], p);
    CountAppend([a], mid, p);
    CountAppend([b], [c], p);
    assert [b, c] == [b] + [c];
    CountSingleton(a, p);
    CountSingleton(b, p);
    CountSingleton(c, p);
  }

  /** Every element with the wanted outcome is selected, and only those are. */
  lemma {:induction false} FilterMembers<T>(xs: seq<T>, p: T -> bool, want: bool)
    ensures forall x :: x in Filter(xs, p, want) <==> x in xs && p(x) == want
  {
    if xs != [] {
      FilterMembers(xs[1..], p, want);
      assert xs == [xs[0]] + xs[1..];
    }
  }
}
