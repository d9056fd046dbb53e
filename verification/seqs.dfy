/** `Array.prototype.filter` and the facts about it that the views rely on. */
module Seqs {

  /** `s.filter(f)`: the elements that pass, in their original order. */
  function Filter<T>(s: seq<T>, f: T -> bool): (r: seq<T>)
    ensures |r| <= |s|
    ensures forall i :: 0 <= i < |r| ==> f(r[i]) && r[i] in s
    decreases |s|
  {
    if |s| == 0 then [] else (if f(s[0]) then [s[0]] else []) + Filter(s[1..], f)
  }

  /** Filtering a sequence with one more element at the end filters that element last. */
  lemma {:induction false} FilterSnoc<T>(s: seq<T>, x: T, f: T -> bool)
    ensures Filter(s + [x], f) == Filter(s, f) + (if f(x) then [x] else [])
    decreases |s|
  {
    if |s| > 0 {
      assert (s + [x])[1..] == s[1..] + [x];
      FilterSnoc(s[1..], x, f);
    }
  }

  /** A sequence is its three slices around two cut points put back together. */
  lemma SliceThree<T>(s: seq<T>, i: nat, j: nat)
    requires i <= j <= |s|
    ensures s == s[..i] + s[i..j] + s[j..]
  {
  }

  /** `a` is `b` with some elements left out and the rest in order. */
  ghost predicate IsSubseq<T>(a: seq<T>, b: seq<T>)
    decreases |b|
  {
    |a| == 0 || (|b| > 0 && ((a[0] == b[0] && IsSubseq(a[1..], b[1..])) || IsSubseq(a, b[1..])))
  }

  lemma {:induction false} FilterIsSubseq<T>(s: seq<T>, f: T -> bool)
    ensures IsSubseq(Filter(s, f), s)
    decreases |s|
  {
    if |s| > 0 {
      FilterIsSubseq(s[1..], f);
      var r := Filter(s, f);
      if f(s[0]) {
        assert r[0] == s[0] && r[1..] == Filter(s[1..], f);
      } else {
        assert r == Filter(s[1..], f);
      }
    }
  }

  /** An element survives the filter exactly when it occurs in `s` and passes. */
  lemma {:induction false} FilterMembership<T>(s: seq<T>, f: T -> bool, x: T)
    ensures x in Filter(s, f) <==> x in s && f(x)
    decreases |s|
  {
    if |s| > 0 {
      FilterMembership(s[1..], f, x);
      assert x in s <==> x == s[0] || x in s[1..];
    }
  }

  /** Filters that agree on every element of `s` give the same result. */
  lemma {:induction false} FilterCongruent<T>(s: seq<T>, f: T -> bool, g: T -> bool)
    requires forall i :: 0 <= i < |s| ==> f(s[i]) == g(s[i])
    ensures Filter(s, f) == Filter(s, g)
    decreases |s|
  {
    if |s| > 0 {
      FilterCongruent(s[1..], f, g);
    }
  }

  /** A test nothing passes keeps nothing. */
  lemma {:induction false} FilterNone<T>(s: seq<T>, f: T -> bool)
    requires forall i :: 0 <= i < |s| ==> !f(s[i])
    ensures Filter(s, f) == []
    decreases |s|
  {
    if |s| > 0 {
      FilterNone(s[1..], f);
    }
  }

  /** A weaker test keeps at least as many elements. */
  lemma {:induction false} FilterMonotone<T>(s: seq<T>, f: T -> bool, g: T -> bool)
    requires forall i :: 0 <= i < |s| ==> f(s[i]) ==> g(s[i])
    ensures |Filter(s, f)| <= |Filter(s, g)|
    decreases |s|
  {
    if |s| > 0 {
      FilterMonotone(s[1..], f, g);
    }
  }

  /** Splitting the survivors of `f` by `g` splits their number. */
  lemma {:induction false} FilterPartition<T>(s: seq<T>, f: T -> bool, yes: T -> bool, no: T -> bool)
    requires forall i :: 0 <= i < |s| ==> yes(s[i]) == (f(s[i]) && !no(s[i]))
    requires forall i :: 0 <= i < |s| ==> no(s[i]) ==> f(s[i])
    ensures |Filter(s, yes)| + |Filter(s, no)| == |Filter(s, f)|
    decreases |s|
  {
    if |s| > 0 {
      FilterPartition(s[1..], f, yes, no);
    }
  }

  /** Positions, counted from `base`, of the elements of `s` that pass `f`. */
  function KeptIndices<T>(s: seq<T>, f: T -> bool, base: nat): (idx: seq<nat>)
    ensures |idx| == |Filter(s, f)|
    decreases |s|
  {
    if |s| == 0 then []
    else if f(s[0]) then [base] + KeptIndices(s[1..], f, base + 1)
    else KeptIndices(s[1..], f, base + 1)
  }

  /** `idx` lists, counted from `base`, positions of `s` holding the elements of `r` in turn. */
  ghost predicate PointsInto<T>(idx: seq<nat>, r: seq<T>, s: seq<T>, base: nat)
  {
    |idx| == |r| && forall j :: 0 <= j < |idx| ==> base <= idx[j] < base + |s| && r[j] == s[idx[j] - base]
  }

  /** The `j`th kept position lies in range and points at the `j`th element the filter keeps. */
  lemma {:induction false} KeptIndexAt<T>(s: seq<T>, f: T -> bool, base: nat, j: nat)
    requires j < |KeptIndices(s, f, base)|
    ensures base <= KeptIndices(s, f, base)[j] < base + |s|
    ensures Filter(s, f)[j] == s[KeptIndices(s, f, base)[j] - base]
    decreases |s|
  {
    if f(s[0]) {
      if j > 0 {
        KeptIndexAt(s[1..], f, base + 1, j - 1);
      }
    } else {
      KeptIndexAt(s[1..], f, base + 1, j);
    }
  }

  /** The kept positions lie in range and point at the filter's elements, in order. */
  lemma KeptIndicesCorrect<T>(s: seq<T>, f: T -> bool, base: nat)
    ensures PointsInto(KeptIndices(s, f, base), Filter(s, f), s, base)
  {
    forall j | 0 <= j < |KeptIndices(s, f, base)|
      ensures base <= KeptIndices(s, f, base)[j] < base + |s| && Filter(s, f)[j] == s[KeptIndices(s, f, base)[j] - base]
    {
      KeptIndexAt(s, f, base, j);
    }
  }

  lemma {:induction false} KeptIndicesIncrease<T>(s: seq<T>, f: T -> bool, base: nat)
    ensures forall j, k :: 0 <= j < k < |KeptIndices(s, f, base)| ==>
      KeptIndices(s, f, base)[j] < KeptIndices(s, f, base)[k]
    decreases |s|
  {
    if |s| > 0 {
      KeptIndicesIncrease(s[1..], f, base + 1);
      KeptIndicesCorrect(s[1..], f, base + 1);
    }
  }

  /** The positions of the elements that pass, counted from 0. */
  lemma KeptIndicesInRange<T>(s: seq<T>, f: T -> bool, j: nat)
    requires j < |Filter(s, f)|
    ensures KeptIndices(s, f, 0)[j] < |s|
    ensures f(s[KeptIndices(s, f, 0)[j]])
    ensures Filter(s, f)[j] == s[KeptIndices(s, f, 0)[j]]
  {
    KeptIndicesCorrect(s, f, 0);
  }

  /** `xs.map((x, i) => f(x, t + i))`: each element with its position counted from `t`. */
  function MapFrom<T, U>(f: (T, nat) -> U, xs: seq<T>, t: nat): (ys: seq<U>)
    ensures |ys| == |xs|
    decreases |xs|
  {
    if |xs| == 0 then [] else [f(xs[0], t)] + MapFrom(f, xs[1..], t + 1)
  }

  lemma {:induction false} MapFromAt<T, U>(f: (T, nat) -> U, xs: seq<T>, t: nat, j: nat)
    requires j < |xs|
    ensures MapFrom(f, xs, t)[j] == f(xs[j], t + j)
    decreases |xs|
  {
    if j > 0 {
      MapFromAt(f, xs[1..], t + 1, j - 1);
      assert xs[1..][j - 1] == xs[j];
      assert t + 1 + (j - 1) == t + j;
    }
  }

  /**
   Building rows with `h`, keeping those that pass `p` and renumbering them
   with `r` gives the same as keeping the sources that pass `q` first, when
   `p` on a built row is `q` on its source and the renumbering erases the
   position `h` was given.
   */
  lemma {:induction false} FilterThenRenumber<T, U>(h: (T, nat) -> U, r: (U, nat) -> U, p: U -> bool, q: T -> bool,
                                                   xs: seq<T>, t: nat, u: nat, s: nat)
    requires forall x, i :: p(h(x, i)) == q(x)
    requires forall x, i, j, k :: r(h(x, i), k) == r(h(x, j), k)
    ensures MapFrom(r, Filter(MapFrom(h, xs, t), p), s) == MapFrom(r, MapFrom(h, Filter(xs, q), u), s)
    decreases |xs|
  {
    if |xs| > 0 {
      var built := MapFrom(h, xs, t);
      assert built == [h(xs[0], t)] + MapFrom(h, xs[1..], t + 1);
      assert built[1..] == MapFrom(h, xs[1..], t + 1);
      if q(xs[0]) {
        var kept := Filter(xs, q);
        assert kept[1..] == Filter(xs[1..], q);
        assert r(h(xs[0], t), s) == r(h(xs[0], u), s);
        FilterThenRenumber(h, r, p, q, xs[1..], t + 1, u + 1, s + 1);
      } else {
        assert Filter(built, p) == Filter(built[1..], p);
        assert Filter(xs, q) == Filter(xs[1..], q);
        FilterThenRenumber(h, r, p, q, xs[1..], t + 1, u, s);
      }
    }
  }

  /** Keeping built rows that pass `p` keeps as many as keeping the sources that pass `q`. */
  lemma {:induction false} FilterMapFromCount<T, U>(h: (T, nat) -> U, p: U -> bool, q: T -> bool, xs: seq<T>, t: nat)
    requires forall x, i :: p(h(x, i)) == q(x)
    ensures |Filter(MapFrom(h, xs, t), p)| == |Filter(xs, q)|
    decreases |xs|
  {
    if |xs| > 0 {
      var built := MapFrom(h, xs, t);
      assert built[1..] == MapFrom(h, xs[1..], t + 1);
      FilterMapFromCount(h, p, q, xs[1..], t + 1);
    }
  }
}
