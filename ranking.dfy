/** Nearest-first ranking (`sortByNearest`, index.js:60-85).
    The great-circle distance and its `toFixed(1)` rounding are not modelled:
    the caller supplies them as `roundedTenths(user, place)`, the rounded
    distance in tenths of a kilometre. */
module Ranking {
  import opened Services

  datatype Coord = Coord(lat: real, lng: real)

  /** The coordinate of a located service. */
  function Position(svc: Service): Coord
    requires HasCoordinate(svc)
  {
    Coord(svc.lat.value, svc.lng.value)
  }

  /** The annotation one service gets when a user location is known. */
  function DistanceFor(svc: Service, user: Coord, roundedTenths: (Coord, Coord) -> nat): (d: Distance)
    ensures d != Absent
    ensures d.Km? <==> HasCoordinate(svc)
    ensures HasCoordinate(svc) ==> d == Km(roundedTenths(user, Position(svc)))
  {
    if HasCoordinate(svc) then Km(roundedTenths(user, Position(svc)))
    else Infinite
  }

  /** `x` carries the annotation the `map` step gives it: its rounded distance
      to `user` when it has a coordinate, the `Infinity` marker otherwise. */
  predicate AnnotatedFor(x: Service, user: Coord, roundedTenths: (Coord, Coord) -> nat) {
    && (x.distance.Infinite? <==> !HasCoordinate(x))
    && (HasCoordinate(x) ==> x.distance == Km(roundedTenths(user, Position(x))))
  }

  /** The `map` step: a copy of every service, in place, that differs from
      the original only in its distance, which is the annotation it is due. */
  function Annotate(services: seq<Service>, user: Coord, roundedTenths: (Coord, Coord) -> nat): (r: seq<Service>)
    ensures |r| == |services|
    ensures forall i :: 0 <= i < |r| ==> r[i].(distance := services[i].distance) == services[i]
    ensures forall i :: 0 <= i < |r| ==> AnnotatedFor(r[i], user, roundedTenths)
  {
    seq(|services|, i requires 0 <= i < |services| =>
      services[i].(distance := DistanceFor(services[i], user, roundedTenths)))
  }

  /** The comparator `(a, b) => a.distance - b.distance` read as "a sorts
      strictly before b". `Infinity - Infinity` is NaN, which the sort treats
      as a tie, and a missing field gives NaN against anything. */
  predicate Precedes(a: Distance, b: Distance) {
    a.Km? && (b.Infinite? || (b.Km? && a.tenths < b.tenths))
  }

  /** Non-decreasing order under the comparator. */
  predicate SortedByDistance(s: seq<Service>) {
    forall i, j :: 0 <= i < j < |s| ==> !Precedes(s[j].distance, s[i].distance)
  }

  predicate NoAbsent(s: seq<Service>) {
    forall i :: 0 <= i < |s| ==> s[i].distance != Absent
  }

  /** The services whose annotation is exactly `d`, in order. Two services
      compare equal under the comparator only when their annotations are equal,
      so a stable sort leaves each of these sub-lists as it found it. */
  function WithDistance(d: Distance, s: seq<Service>): seq<Service> {
    Filter(DistanceIs(d), s)
  }

  function DistanceIs(d: Distance): Service -> bool {
    (x: Service) => x.distance == d
  }

  /** Insert `x` before the first element that does not sort strictly before it. */
  function Insert(x: Service, s: seq<Service>): seq<Service> {
    if s == [] then [x]
    else if Precedes(s[0].distance, x.distance) then [s[0]] + Insert(x, s[1..])
    else [x] + s
  }

  /** The stable ascending `sort` (an insertion sort). */
  function SortByDistance(s: seq<Service>): seq<Service> {
    if s == [] then [] else Insert(s[0], SortByDistance(s[1..]))
  }

  /** `sortByNearest`: with no user location the list comes back as it was;
      otherwise the annotated copies, sorted nearest first. */
  function RankByNearest(services: seq<Service>, user: Option<Coord>,
                         roundedTenths: (Coord, Coord) -> nat): (r: seq<Service>)
    ensures user.None? ==> r == services
    ensures user.Some? ==>
      var annotated := Annotate(services, user.value, roundedTenths);
      && multiset(r) == multiset(annotated)
      && SortedByDistance(r) && NoAbsent(r)
      && (forall d :: WithDistance(d, r) == WithDistance(d, annotated))
      && (forall i :: 0 <= i < |r| ==> (r[i].distance.Infinite? <==> !HasCoordinate(r[i])))
      && (forall i :: 0 <= i < |r| && HasCoordinate(r[i]) ==>
            r[i].distance == Km(roundedTenths(user.value, Position(r[i]))))
      && (forall i, j :: 0 <= i < j < |r| && r[i].distance.Infinite? ==> r[j].distance.Infinite?)
  {
    if user.None? then services
    else
      var annotated := Annotate(services, user.value, roundedTenths);
      SortIsPermutation(annotated);
      SortIsSorted(annotated);
      SortIsStable(annotated);
      var r := SortByDistance(annotated);
      forall i | 0 <= i < |r| ensures AnnotatedFor(r[i], user.value, roundedTenths) {
        assert r[i] in multiset(annotated);
      }
      InfiniteIsSuffix(r);
      r
  }

  lemma {:induction false} InsertIsPermutation(x: Service, s: seq<Service>)
    ensures multiset(Insert(x, s)) == multiset([x] + s)
  {
    if s != [] && Precedes(s[0].distance, x.distance) {
      InsertIsPermutation(x, s[1..]);
      assert s == [s[0]] + s[1..];
    }
  }

  /** The sort neither adds nor loses a service. */
  lemma {:induction false} SortIsPermutation(s: seq<Service>)
    ensures multiset(SortByDistance(s)) == multiset(s)
  {
    if s != [] {
      SortIsPermutation(s[1..]);
      InsertIsPermutation(s[0], SortByDistance(s[1..]));
      assert s == [s[0]] + s[1..];
    }
  }

  lemma {:induction false} InsertKeepsSorted(x: Service, s: seq<Service>)
    requires SortedByDistance(s) && NoAbsent(s) && x.distance != Absent
    ensures SortedByDistance(Insert(x, s)) && NoAbsent(Insert(x, s))
    ensures multiset(Insert(x, s)) == multiset([x] + s)
  {
    InsertIsPermutation(x, s);
    if s == [] {
    } else if Precedes(s[0].distance, x.distance) {
      InsertKeepsSorted(x, s[1..]);
      var t := Insert(x, s[1..]);
      var r := [s[0]] + t;
      forall j | 0 < j < |r| ensures !Precedes(r[j].distance, s[0].distance) {
        assert r[j] in multiset([x] + s[1..]);
        assert r[j] == x || r[j] in s[1..];
      }
    }
  }

  /** The sort yields non-decreasing distances whenever every service carries
      an annotation. */
  lemma {:induction false} SortIsSorted(s: seq<Service>)
    requires NoAbsent(s)
    ensures SortedByDistance(SortByDistance(s)) && NoAbsent(SortByDistance(s))
  {
    if s != [] {
      SortIsSorted(s[1..]);
      InsertKeepsSorted(s[0], SortByDistance(s[1..]));
    }
  }

  lemma {:induction false} InsertIsStable(x: Service, s: seq<Service>, d: Distance)
    ensures WithDistance(d, Insert(x, s)) == WithDistance(d, [x] + s)
  {
    if s != [] && Precedes(s[0].distance, x.distance) {
      var p := DistanceIs(d);
      var a, t := s[0], s[1..];
      assert s == [a] + t;
      assert Insert(x, s) == [a] + Insert(x, t);
      InsertIsStable(x, t, d);
      FilterAppend(p, [a], Insert(x, t));
      FilterAppend(p, [a], [x] + t);
      assert !(p(a) && p(x));
      FilterSwapFront(p, a, x, t);
    }
  }

  /** Services with equal distance keep their relative input order. */
  lemma {:induction false} SortIsStable(s: seq<Service>)
    ensures forall d :: WithDistance(d, SortByDistance(s)) == WithDistance(d, s)
  {
    forall d ensures WithDistance(d, SortByDistance(s)) == WithDistance(d, s) {
      if s != [] {
        var a, t := s[0], s[1..];
        assert s == [a] + t;
        SortIsStable(t);
        InsertIsStable(a, SortByDistance(t), d);
        var p := DistanceIs(d);
        FilterAppend(p, [a], SortByDistance(t));
        FilterAppend(p, [a], t);
        calc {
          WithDistance(d, SortByDistance(s));
          WithDistance(d, Insert(a, SortByDistance(t)));
          WithDistance(d, [a] + SortByDistance(t));
          Filter(p, [a]) + Filter(p, SortByDistance(t));
          Filter(p, [a]) + WithDistance(d, SortByDistance(t));
          Filter(p, [a]) + WithDistance(d, t);
          WithDistance(d, s);
        }
      }
    }
  }

  /** In a sorted list without missing annotations, the `Infinity` markers
      form a suffix: once one appears, every later service has one. */
  lemma InfiniteIsSuffix(r: seq<Service>)
    requires SortedByDistance(r) && NoAbsent(r)
    ensures forall i, j :: 0 <= i < j < |r| && r[i].distance.Infinite? ==> r[j].distance.Infinite?
  {
  }
}
