/** Category grouping (`groupServicesByCategory`, index.js:155-201). */
module Grouping {
  import opened Services
  import Search

  datatype Group = Group(category: string, services: seq<Service>)

  /** The label of the one group produced while a search is active. */
  const SearchResults: string := "SearchResults"

  const Hospital: string := "Rajshahi Hospital"
  const Clinic: string := "Rajshahi Clinic"
  const Health: string := "Rajshahi Health"
  const Private: string := "Rajshahi Private"
  const Govt: string := "Govt."
  const GovtAlias: string := "Rajshahi Govt."

  /** The keys of the `categories` dictionary, in declaration order, which is
      also the order of `Object.keys`. */
  const CategoryKeys: seq<string> := [
    "All", "Rajshahi Police", "Rajshahi Fire", "Rajshahi Ambulance",
    Hospital, Clinic, Health, "Rajshahi Blood", "Rajshahi Bank",
    "Rajshahi Education", Govt, "Electricity", "Help", "Fire", "NGO",
    "Travel", "Utility"]

  function KeySet(): set<string> {
    set key | key in CategoryKeys
  }

  predicate Distinct(keys: seq<string>) {
    forall i, j :: 0 <= i < j < |keys| ==> keys[i] != keys[j]
  }

  lemma CategoryKeysDistinct()
    ensures Distinct(CategoryKeys)
  {
  }

  /** The declarative form of the routing rules: the raw categories that end
      up in bucket `key`. The `Rajshahi Clinic` and `Rajshahi Health` buckets
      are declared but are fed by nothing, because both names are aliases of
      `Rajshahi Hospital`. */
  function Sources(key: string): set<string> {
    if key == Hospital then {Hospital, Clinic, Health, Private}
    else if key == Clinic || key == Health then {}
    else if key == Govt then {Govt, GovtAlias}
    else {key}
  }

  predicate FeedsBucket(category: string, key: string) {
    key in CategoryKeys && category in Sources(key)
  }

  /** The bucket one service is pushed into (the cascade at index.js:184-192),
      or None when it is dropped. */
  function Route(category: string): (r: Option<string>)
    ensures r.Some? ==> r.value in CategoryKeys && r.value != Clinic && r.value != Health
  {
    if category == Clinic || category == Health || category == Private then Some(Hospital)
    else if category in CategoryKeys then Some(category)
    else if category == GovtAlias then Some(Govt)
    // unreachable: "Utility" is already a key of the dictionary
    else if category == "Utility" then Some("Utility")
    else None
  }

  /** The cascade agrees with the declarative table: a service lands in
      bucket `key` exactly when its category is one of that bucket's sources,
      and it is dropped exactly when no bucket lists its category. */
  lemma RouteMatchesTable(category: string)
    ensures forall key :: Route(category) == Some(key) <==> FeedsBucket(category, key)
    ensures Route(category).None? <==> forall key :: !FeedsBucket(category, key)
  {
  }

  /** Three catalog entries: the emergency department files as
      `Rajshahi Health` and lands with the hospitals, the city corporation
      hotline files as `Rajshahi Govt.` and lands in `Govt.`, and the rural
      electricity office files as `Rajshahi Electricity`, which no rule
      places. */
  lemma CatalogRoutes()
    ensures Route("Rajshahi Health") == Some(Hospital)
    ensures Route(GovtAlias) == Some(Govt)
    ensures Route("Rajshahi Electricity").None?
  {
  }

  function RoutesTo(key: string): Service -> bool {
    (svc: Service) => Route(svc.category) == Some(key)
  }

  /** The contents of bucket `key` after every service of `s` was pushed. */
  function Bucket(key: string, s: seq<Service>): seq<Service> {
    Filter(RoutesTo(key), s)
  }

  function IsDropped(): Service -> bool {
    (svc: Service) => Route(svc.category).None?
  }

  function IsKept(): Service -> bool {
    (svc: Service) => Route(svc.category).Some?
  }

  /** The services no rule places, such as the `Rajshahi Electricity` entry. */
  function Dropped(s: seq<Service>): seq<Service> {
    Filter(IsDropped(), s)
  }

  /** The non-empty buckets among `keys`, in the order of `keys`. */
  function GroupsFor(keys: seq<string>, s: seq<Service>): seq<Group> {
    if keys == [] then []
    else
      var key := keys[|keys| - 1];
      GroupsFor(keys[..|keys| - 1], s)
        + (if |Bucket(key, s)| > 0 then [Group(key, Bucket(key, s))] else [])
  }

  /** The `forEach` of `groupServicesByCategory`: starting from the
      dictionary of empty buckets, push every service into its bucket. */
  method FillBuckets(services: seq<Service>) returns (buckets: map<string, seq<Service>>)
    ensures buckets.Keys == KeySet()
    ensures forall key :: key in buckets ==> buckets[key] == Bucket(key, services)
  {
    buckets := map key | key in KeySet() :: [];
    var i := 0;
    assert services[..0] == [];
    while i < |services|
      invariant 0 <= i <= |services|
      invariant buckets.Keys == KeySet()
      invariant forall key :: key in buckets ==> buckets[key] == Bucket(key, services[..i])
    {
      var svc := services[i];
      PushKeepsBuckets(buckets, services[..i], svc);
      assert services[..i] + [svc] == services[..i + 1];
      var target := Route(svc.category);
      if target.Some? {
        buckets := buckets[target.value := buckets[target.value] + [svc]];
      }
      i := i + 1;
    }
    assert services[..i] == services;
  }

  /** `groupServicesByCategory`. `searchBar` is the raw contents of the search
      bar. Outside a search the method fills the buckets, then lists the
      non-empty ones in key order. */
  method GroupServicesByCategory(services: seq<Service>, searchBar: string) returns (groups: seq<Group>)
    ensures Search.Trim(searchBar) != [] ==> groups == [Group(SearchResults, services)]
    ensures Search.Trim(searchBar) == [] ==> groups == GroupsFor(CategoryKeys, services)
  {
    if Search.Trim(searchBar) != [] {
      return [Group(SearchResults, services)];
    }
    var buckets := FillBuckets(services);
    groups := ListGroups(buckets, CategoryKeys, services);
  }

  /** The `Object.keys(...).filter(...).map(...)` step: the non-empty
      buckets of `keys`, in the order of `keys`. */
  method ListGroups(buckets: map<string, seq<Service>>, keys: seq<string>, services: seq<Service>)
    returns (groups: seq<Group>)
    requires forall key :: key in keys ==> key in buckets && buckets[key] == Bucket(key, services)
    ensures groups == GroupsFor(keys, services)
  {
    groups := [];
    var j := 0;
    assert keys[..0] == [];
    while j < |keys|
      invariant 0 <= j <= |keys|
      invariant groups == GroupsFor(keys[..j], services)
    {
      var key := keys[j];
      GroupsForSnoc(keys[..j], key, services);
      assert keys[..j] + [key] == keys[..j + 1];
      if |buckets[key]| > 0 {
        groups := groups + [Group(key, buckets[key])];
      }
      j := j + 1;
    }
    assert keys[..j] == keys;
  }

  lemma GroupsForSnoc(keys: seq<string>, key: string, s: seq<Service>)
    ensures GroupsFor(keys + [key], s) ==
      GroupsFor(keys, s) + (if |Bucket(key, s)| > 0 then [Group(key, Bucket(key, s))] else [])
  {
    assert (keys + [key])[..|keys|] == keys;
  }

  /** One `push`: the service joins the end of its own bucket only. */
  lemma BucketPush(key: string, s: seq<Service>, x: Service)
    ensures Bucket(key, s + [x]) == Bucket(key, s) + (if Route(x.category) == Some(key) then [x] else [])
  {
    assert (s + [x])[..|s|] == s;
  }

  /** One step of the `forEach`: the target bucket exists, and pushing
      the service keeps every bucket equal to its specification. */
  lemma PushKeepsBuckets(buckets: map<string, seq<Service>>, s: seq<Service>, svc: Service)
    requires buckets.Keys == KeySet()
    requires forall key :: key in buckets ==> buckets[key] == Bucket(key, s)
    ensures Route(svc.category).Some? ==> Route(svc.category).value in buckets
    ensures var target := Route(svc.category);
      var after := if target.Some? then buckets[target.value := buckets[target.value] + [svc]] else buckets;
      && after.Keys == KeySet()
      && forall key :: key in after ==> after[key] == Bucket(key, s + [svc])
  {
    forall key | key in buckets {
      BucketPush(key, s, svc);
    }
  }

  function Labels(groups: seq<Group>): (r: seq<string>)
    ensures |r| == |groups|
    ensures forall i :: 0 <= i < |groups| ==> r[i] == groups[i].category
  {
    seq(|groups|, i requires 0 <= i < |groups| => groups[i].category)
  }

  /** All members of all groups, group after group. */
  function Flatten(groups: seq<Group>): seq<Service> {
    if groups == [] then []
    else Flatten(groups[..|groups| - 1]) + groups[|groups| - 1].services
  }

  /** A bucket holds exactly the services routed to it, in input order. */
  lemma BucketContents(key: string, s: seq<Service>)
    ensures IsSubsequence(Bucket(key, s), s)
    ensures forall svc :: svc in Bucket(key, s) <==> svc in s && Route(svc.category) == Some(key)
  {
    FilterIsSubsequence(RoutesTo(key), s);
    forall svc ensures svc in Bucket(key, s) <==> svc in s && Route(svc.category) == Some(key) {
      FilterMembership(RoutesTo(key), s, svc);
    }
  }

  /** Every group listed is a non-empty bucket named by one of `keys`, and
      every non-empty bucket of `keys` is listed; the labels appear in the
      order of `keys`. */
  lemma GroupsForShape(keys: seq<string>, s: seq<Service>)
    ensures forall i :: 0 <= i < |GroupsFor(keys, s)| ==>
      var g := GroupsFor(keys, s)[i];
      g.category in keys && g.services == Bucket(g.category, s) && |g.services| > 0
    ensures forall key :: key in keys && |Bucket(key, s)| > 0 ==> key in Labels(GroupsFor(keys, s))
    ensures IsSubsequence(Labels(GroupsFor(keys, s)), keys)
  {
    GroupsAreBuckets(keys, s);
    NonEmptyBucketsListed(keys, s);
    LabelsFollowKeys(keys, s);
  }

  lemma {:induction false} GroupsAreBuckets(keys: seq<string>, s: seq<Service>)
    ensures forall i :: 0 <= i < |GroupsFor(keys, s)| ==>
      var g := GroupsFor(keys, s)[i];
      g.category in keys && g.services == Bucket(g.category, s) && |g.services| > 0
  {
    if keys != [] {
      var keys' := keys[..|keys| - 1];
      var key := keys[|keys| - 1];
      assert keys == keys' + [key];
      GroupsAreBuckets(keys', s);
      var gs' := GroupsFor(keys', s);
      if |Bucket(key, s)| > 0 {
        var gs := gs' + [Group(key, Bucket(key, s))];
        assert GroupsFor(keys, s) == gs;
        forall i | 0 <= i < |gs|
          ensures gs[i].category in keys && gs[i].services == Bucket(gs[i].category, s) && |gs[i].services| > 0
        {
          if i < |gs'| {
            assert gs[i] == gs'[i];
          }
        }
      } else {
        assert GroupsFor(keys, s) == gs';
      }
    }
  }

  lemma {:induction false} NonEmptyBucketsListed(keys: seq<string>, s: seq<Service>)
    ensures forall key :: key in keys && |Bucket(key, s)| > 0 ==> key in Labels(GroupsFor(keys, s))
  {
    if keys != [] {
      var keys' := keys[..|keys| - 1];
      var key := keys[|keys| - 1];
      assert keys == keys' + [key];
      NonEmptyBucketsListed(keys', s);
      var gs' := GroupsFor(keys', s);
      if |Bucket(key, s)| > 0 {
        assert Labels(GroupsFor(keys, s)) == Labels(gs') + [key];
      } else {
        assert Labels(GroupsFor(keys, s)) == Labels(gs');
      }
    }
  }

  lemma {:induction false} LabelsFollowKeys(keys: seq<string>, s: seq<Service>)
    ensures IsSubsequence(Labels(GroupsFor(keys, s)), keys)
  {
    if keys != [] {
      var keys' := keys[..|keys| - 1];
      var key := keys[|keys| - 1];
      assert keys == keys' + [key];
      LabelsFollowKeys(keys', s);
      var gs' := GroupsFor(keys', s);
      if |Bucket(key, s)| > 0 {
        assert Labels(GroupsFor(keys, s)) == Labels(gs') + [key];
        SubsequenceSnocBoth(Labels(gs'), keys', key);
      } else {
        assert Labels(GroupsFor(keys, s)) == Labels(gs');
        SubsequenceOfSnoc(Labels(gs'), keys', key);
      }
    }
  }

  /** The multiset union of the buckets of `keys`. */
  function BucketUnion(keys: seq<string>, s: seq<Service>): multiset<Service> {
    if keys == [] then multiset{}
    else BucketUnion(keys[..|keys| - 1], s) + multiset(Bucket(keys[|keys| - 1], s))
  }

  lemma {:induction false} FlattenIsBucketUnion(keys: seq<string>, s: seq<Service>)
    ensures multiset(Flatten(GroupsFor(keys, s))) == BucketUnion(keys, s)
  {
    if keys != [] {
      var keys' := keys[..|keys| - 1];
      var key := keys[|keys| - 1];
      FlattenIsBucketUnion(keys', s);
      var gs' := GroupsFor(keys', s);
      if |Bucket(key, s)| > 0 {
        var g := Group(key, Bucket(key, s));
        assert GroupsFor(keys, s) == gs' + [g];
        assert (gs' + [g])[..|gs'|] == gs';
        assert Flatten(gs' + [g]) == Flatten(gs') + g.services;
      } else {
        assert GroupsFor(keys, s) == gs';
      }
    }
  }

  /** Pushing one more service adds it to the union once when its bucket is
      among `keys`, and not at all otherwise. */
  lemma {:induction false} BucketUnionSnoc(keys: seq<string>, s: seq<Service>, x: Service)
    requires Distinct(keys)
    ensures BucketUnion(keys, s + [x]) ==
      BucketUnion(keys, s)
        + (if Route(x.category).Some? && Route(x.category).value in keys then multiset{x} else multiset{})
  {
    if keys != [] {
      var keys' := keys[..|keys| - 1];
      var key := keys[|keys| - 1];
      assert keys == keys' + [key];
      assert Distinct(keys') && key !in keys';
      var here := if Route(x.category) == Some(key) then multiset{x} else multiset{};
      var earlier := if Route(x.category).Some? && Route(x.category).value in keys' then multiset{x} else multiset{};
      calc {
        BucketUnion(keys, s + [x]);
        BucketUnion(keys', s + [x]) + multiset(Bucket(key, s + [x]));
        { BucketUnionSnoc(keys', s, x); }
        BucketUnion(keys', s) + earlier + multiset(Bucket(key, s + [x]));
        { BucketPush(key, s, x); }
        BucketUnion(keys', s) + earlier + (multiset(Bucket(key, s)) + here);
        BucketUnion(keys, s) + (earlier + here);
        { OneBucketAmong(keys', key, Route(x.category), x); }
        BucketUnion(keys, s)
          + (if Route(x.category).Some? && Route(x.category).value in keys then multiset{x} else multiset{});
      }
    }
  }

  /** A routed service is counted by at most one of the distinct keys. */
  lemma OneBucketAmong(keys: seq<string>, key: string, target: Option<string>, x: Service)
    requires key !in keys
    ensures (if target.Some? && target.value in keys then multiset{x} else multiset{})
        + (if target == Some(key) then multiset{x} else multiset{})
      == (if target.Some? && target.value in keys + [key] then multiset{x} else multiset{})
  {
    if target.Some? {
      assert target.value in keys + [key] <==> target.value in keys || target.value == key;
    }
  }

  lemma {:induction false} BucketUnionIsKept(s: seq<Service>)
    ensures BucketUnion(CategoryKeys, s) == multiset(Filter(IsKept(), s))
  {
    if s == [] {
      EmptyBucketUnion(CategoryKeys);
    } else {
      var s' := s[..|s| - 1];
      var x := s[|s| - 1];
      assert s == s' + [x];
      BucketUnionIsKept(s');
      CategoryKeysDistinct();
      BucketUnionSnoc(CategoryKeys, s', x);
    }
  }

  lemma {:induction false} EmptyBucketUnion(keys: seq<string>)
    ensures BucketUnion(keys, []) == multiset{}
  {
    if keys != [] {
      EmptyBucketUnion(keys[..|keys| - 1]);
    }
  }

  /** Non-search grouping loses no service except the dropped ones: the
      members of all groups are a rearrangement of the routed services, and
      there are as many of them as input services minus dropped ones. */
  lemma GroupsKeepRouted(s: seq<Service>)
    ensures multiset(Flatten(GroupsFor(CategoryKeys, s))) == multiset(Filter(IsKept(), s))
    ensures |Flatten(GroupsFor(CategoryKeys, s))| == |s| - |Dropped(s)|
  {
    FlattenIsBucketUnion(CategoryKeys, s);
    BucketUnionIsKept(s);
    FilterSplitCount(IsKept(), IsDropped(), s);
    assert |multiset(Flatten(GroupsFor(CategoryKeys, s)))| == |Flatten(GroupsFor(CategoryKeys, s))|;
    assert |multiset(Filter(IsKept(), s))| == |Filter(IsKept(), s)|;
  }

  /** The merged categories never form a group of their own. */
  lemma NoClinicOrHealthGroup(s: seq<Service>)
    ensures Clinic !in Labels(GroupsFor(CategoryKeys, s))
    ensures Health !in Labels(GroupsFor(CategoryKeys, s))
  {
    GroupsForShape(CategoryKeys, s);
    var gs := GroupsFor(CategoryKeys, s);
    forall i | 0 <= i < |gs| ensures gs[i].category != Clinic && gs[i].category != Health {
      var g := gs[i];
      BucketContents(g.category, s);
      assert g.services[0] in Bucket(g.category, s);
    }
  }
}
