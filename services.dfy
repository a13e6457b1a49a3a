/** The catalog entry shared by every part of the directory, and the sequence
    vocabulary (filtering, sub-sequences) the ranking, search and grouping
    contracts are stated in. */
module Services {

  datatype Option<T> = None | Some(value: T)

  /** The `distance` a service object carries after ranking.
      Three cases are kept apart because the page treats them differently:
      - Absent: no `distance` field at all (ranking ran without a user location);
      - Infinite: the `Infinity` marker for a service without a coordinate;
      - Km: the rounded great-circle distance, in tenths of a kilometre. */
  datatype Distance = Absent | Infinite | Km(tenths: nat)

  /** A service object as the page handles it: the catalog fields, the
      `isFavorite` flag derived at start-up and the `distance` added by the
      ranking. The icon path is presentation only and is not modelled. */
  datatype Service = Service(
    id: int,
    title: string,
    subtitle: string,
    number: string,
    category: string,
    lat: Option<real>,
    lng: Option<real>,
    isFavorite: bool,
    distance: Distance)

  /** `svc.lat && svc.lng`: both present and truthy, so a zero latitude or
      longitude counts as missing. */
  predicate HasCoordinate(svc: Service) {
    svc.lat.Some? && svc.lat.value != 0.0 && svc.lng.Some? && svc.lng.value != 0.0
  }

  /** The elements of `s` satisfying `p`, in their order in `s`
      (`Array.prototype.filter`, and every `push` into one bucket). */
  function Filter<T>(p: T -> bool, s: seq<T>): (r: seq<T>)
    ensures |r| <= |s|
  {
    if s == [] then []
    else Filter(p, s[..|s| - 1]) + (if p(s[|s| - 1]) then [s[|s| - 1]] else [])
  }

  /** `xs` can be obtained from `ys` by deleting elements: same elements,
      same relative order. */
  predicate IsSubsequence<T(==)>(xs: seq<T>, ys: seq<T>)
    decreases |ys|
  {
    if xs == [] then true
    else if ys == [] then false
    else if xs[|xs| - 1] == ys[|ys| - 1] then IsSubsequence(xs[..|xs| - 1], ys[..|ys| - 1])
    else IsSubsequence(xs, ys[..|ys| - 1])
  }

  lemma {:induction false} SubsequenceOfSnoc<T>(xs: seq<T>, ys: seq<T>, y: T)
    requires IsSubsequence(xs, ys)
    ensures IsSubsequence(xs, ys + [y])
    decreases |ys|, 1
  {
    if xs == [] {
    } else if xs[|xs| - 1] == y {
      assert (ys + [y])[..|ys|] == ys;
      SubsequenceIsShorter(xs, ys);
      if |xs| == 1 {
      } else {
        SubsequenceDropLast(xs, ys);
      }
    } else {
      assert (ys + [y])[..|ys|] == ys;
    }
  }

  lemma {:induction false} SubsequenceIsShorter<T>(xs: seq<T>, ys: seq<T>)
    requires IsSubsequence(xs, ys)
    ensures |xs| <= |ys|
    decreases |ys|
  {
    if xs == [] {
    } else if xs[|xs| - 1] == ys[|ys| - 1] {
      SubsequenceIsShorter(xs[..|xs| - 1], ys[..|ys| - 1]);
    } else {
      SubsequenceIsShorter(xs, ys[..|ys| - 1]);
    }
  }

  /** Dropping the last element of a sub-sequence keeps it a sub-sequence. */
  lemma {:induction false} SubsequenceDropLast<T>(xs: seq<T>, ys: seq<T>)
    requires xs != [] && IsSubsequence(xs, ys)
    ensures IsSubsequence(xs[..|xs| - 1], ys)
    decreases |ys|, 0
  {
    var xs' := xs[..|xs| - 1];
    var ys' := ys[..|ys| - 1];
    if xs[|xs| - 1] == ys[|ys| - 1] {
      SubsequenceOfSnoc(xs', ys', ys[|ys| - 1]);
      assert ys' + [ys[|ys| - 1]] == ys;
    } else {
      SubsequenceDropLast(xs, ys');
      SubsequenceOfSnoc(xs', ys', ys[|ys| - 1]);
      assert ys' + [ys[|ys| - 1]] == ys;
    }
  }

  /** Appending the same element to both sides keeps a sub-sequence. */
  lemma SubsequenceSnocBoth<T>(xs: seq<T>, ys: seq<T>, y: T)
    requires IsSubsequence(xs, ys)
    ensures IsSubsequence(xs + [y], ys + [y])
  {
    assert (xs + [y])[..|xs|] == xs;
    assert (ys + [y])[..|ys|] == ys;
  }

  /** A filter keeps the order of its input and only ever deletes. */
  lemma {:induction false} FilterIsSubsequence<T>(p: T -> bool, s: seq<T>)
    ensures IsSubsequence(Filter(p, s), s)
  {
    if s == [] {
    } else {
      var s' := s[..|s| - 1];
      var x := s[|s| - 1];
      FilterIsSubsequence(p, s');
      assert s' + [x] == s;
      if p(x) {
        assert Filter(p, s) == Filter(p, s') + [x];
        SubsequenceSnocBoth(Filter(p, s'), s', x);
      } else {
        assert Filter(p, s) == Filter(p, s');
        SubsequenceOfSnoc(Filter(p, s'), s', x);
      }
    }
  }

  /** An element survives the filter exactly when it is in the input and
      satisfies the predicate. */
  lemma {:induction false} FilterMembership<T>(p: T -> bool, s: seq<T>, x: T)
    ensures x in Filter(p, s) <==> x in s && p(x)
  {
    if s != [] {
      var s' := s[..|s| - 1];
      FilterMembership(p, s', x);
      assert s == s' + [s[|s| - 1]];
    }
  }

  /** A filter keeps every occurrence of a passing element and none of a
      failing one. */
  lemma {:induction false} FilterCount<T>(p: T -> bool, s: seq<T>, x: T)
    ensures multiset(Filter(p, s))[x] == if p(x) then multiset(s)[x] else 0
  {
    if s != [] {
      var s' := s[..|s| - 1];
      FilterCount(p, s', x);
      assert s == s' + [s[|s| - 1]];
    }
  }

  /** A predicate that holds everywhere keeps the whole sequence. */
  lemma {:induction false} FilterAll<T>(p: T -> bool, s: seq<T>)
    requires forall i :: 0 <= i < |s| ==> p(s[i])
    ensures Filter(p, s) == s
  {
    if s != [] {
      FilterAll(p, s[..|s| - 1]);
    }
  }

  /** Filtering distributes over concatenation. */
  lemma {:induction false} FilterAppend<T>(p: T -> bool, a: seq<T>, b: seq<T>)
    ensures Filter(p, a + b) == Filter(p, a) + Filter(p, b)
    decreases |b|
  {
    if b == [] {
      assert a + b == a;
    } else {
      var b' := b[..|b| - 1];
      FilterAppend(p, a, b');
      assert (a + b)[..|a + b| - 1] == a + b';
      assert (a + b)[|a + b| - 1] == b[|b| - 1];
    }
  }

  lemma FilterSingleton<T>(p: T -> bool, x: T)
    ensures Filter(p, [x]) == if p(x) then [x] else []
  {
    assert [x][..0] == [];
  }

  /** Two front elements that do not both pass the filter may change places
      without changing what the filter keeps. */
  lemma FilterSwapFront<T>(p: T -> bool, a: T, x: T, t: seq<T>)
    requires !(p(a) && p(x))
    ensures Filter(p, [a] + ([x] + t)) == Filter(p, [x] + ([a] + t))
  {
    var fa, fx, ft := Filter(p, [a]), Filter(p, [x]), Filter(p, t);
    assert fa == [] || fx == [] by {
      FilterSingleton(p, a);
      FilterSingleton(p, x);
    }
    calc {
      Filter(p, [a] + ([x] + t));
      { FilterAppend(p, [a], [x] + t); }
      fa + Filter(p, [x] + t);
      { FilterAppend(p, [x], t); }
      fa + (fx + ft);
      { SwapEmptyFront(fa, fx, ft); }
      fx + (fa + ft);
      { FilterAppend(p, [a], t); }
      fx + Filter(p, [a] + t);
      { FilterAppend(p, [x], [a] + t); }
      Filter(p, [x] + ([a] + t));
    }
  }

  lemma SwapEmptyFront<T>(u: seq<T>, v: seq<T>, w: seq<T>)
    requires u == [] || v == []
    ensures u + (v + w) == v + (u + w)
  {
    if u == [] {
      assert u + (v + w) == v + w;
      assert u + w == w;
    } else {
      assert v + w == w;
      assert v + (u + w) == u + w;
    }
  }

  /** The kept and the rejected parts together are as long as the input. */
  lemma {:induction false} FilterSplitCount<T>(p: T -> bool, q: T -> bool, s: seq<T>)
    requires forall x :: q(x) == !p(x)
    ensures |Filter(p, s)| + |Filter(q, s)| == |s|
  {
    if s != [] {
      FilterSplitCount(p, q, s[..|s| - 1]);
    }
  }
}
