/** Section headings and distance labels of `renderCards`
    (index.js:224-246 and index.js:279-285). */
module Titles {
  import opened Services
  import opened Grouping
  import Ranking

  predicate IsDigit(c: char) {
    '0' <= c <= '9'
  }

  function DigitChar(d: nat): (c: char)
    requires d < 10
    ensures IsDigit(c) && c as int - '0' as int == d
  {
    ('0' as int + d) as char
  }

  /** The decimal text of a number, as a template literal prints it: digits
      only, and no leading zero except in "0" itself. */
  function NatToString(n: nat): (r: string)
    ensures r != []
    ensures forall i :: 0 <= i < |r| ==> IsDigit(r[i])
    ensures r[0] == '0' <==> n == 0
    ensures |r| > 1 ==> r[0] != '0'
    decreases n
  {
    if n < 10 then [DigitChar(n)] else NatToString(n / 10) + [DigitChar(n % 10)]
  }

  /** Reads decimal digits back as a number. */
  function DigitsValue(s: string): nat
    requires forall i :: 0 <= i < |s| ==> IsDigit(s[i])
  {
    if s == [] then 0
    else
      assert IsDigit(s[|s| - 1]);
      DigitsValue(s[..|s| - 1]) * 10 + (s[|s| - 1] as int - '0' as int)
  }

  /** The printed number reads back as the number itself. */
  lemma {:induction false} NatToStringRoundTrip(n: nat)
    ensures DigitsValue(NatToString(n)) == n
    decreases n
  {
    if n >= 10 {
      NatToStringRoundTrip(n / 10);
      var r := NatToString(n);
      assert r[..|r| - 1] == NatToString(n / 10);
    }
  }

  const SearchTitlePrefix: string := "সার্চ রেজাল্ট ("
  const SearchTitleSuffix: string := "টি)"

  /** Appended to the search-results heading when the list is nearest first. */
  const NearestNote: string := " (নিকটতম সার্ভিস সবার আগে)"

  /** The Bengali heading of a dictionary section; a label without a heading
      of its own (`Rajshahi Clinic`, `Rajshahi Health`) is shown as it is. */
  function KeyTitle(category: string): (r: string)
    ensures r != category <==> category in CategoryKeys && category != Clinic && category != Health
  {
    if category == "All" then "জাতীয় জরুরি হটলাইন "
    else if category == "Fire" then "জাতীয় ফায়ার সার্ভিস সেবা"
    else if category == "Govt." then "অন্যান্য সরকারি সেবা"
    else if category == "Help" then "নারী ও শিশু সহায়তা ও আইনি পরামর্শ"
    else if category == "Electricity" then "বিদ্যুৎ সেবা"
    else if category == "Utility" then "পাবলিক ইউটিলিটি (গ্যাস/পানি)"
    else if category == "Rajshahi Police" then "রাজশাহী পুলিশ (থানা, ওসি ও র‍্যাব)"
    else if category == "Rajshahi Fire" then "রাজশাহী ফায়ার সার্ভিস"
    else if category == "Rajshahi Ambulance" then "রাজশাহী অ্যাম্বুলেন্স সার্ভিস"
    else if category == "Rajshahi Hospital" then "রাজশাহী স্বাস্থ্যসেবা, হাসপাতাল ও ক্লিনিক"
    else if category == "Rajshahi Blood" then "রাজশাহী ব্লাড ব্যাংক"
    else if category == "Rajshahi Bank" then "রাজশাহী ব্যাংক (প্রধান শাখা)"
    else if category == "Rajshahi Education" then "রাজশাহী শিক্ষা বোর্ড ও প্রতিষ্ঠান"
    else if category == "Travel" then "ভ্রমণ সহায়তা (রেলওয়ে)"
    else if category == "NGO" then "এনজিও সহায়তা "
    else category
  }

  /** The heading before the nearest-first annotation; the search-results
      heading carries its number of services. */
  function BaseTitle(group: Group): (r: string)
    ensures group.category == SearchResults ==>
      |r| > |SearchTitlePrefix| + |SearchTitleSuffix|
      && r[..|SearchTitlePrefix|] == SearchTitlePrefix
      && r[|r| - |SearchTitleSuffix|..] == SearchTitleSuffix
      && CountText(r[|SearchTitlePrefix|..|r| - |SearchTitleSuffix|], |group.services|)
    ensures r != group.category <==>
      group.category == SearchResults
      || (group.category in CategoryKeys && group.category != Clinic && group.category != Health)
  {
    if group.category == SearchResults then
      var count := NatToString(|group.services|);
      NatToStringRoundTrip(|group.services|);
      var r := SearchTitlePrefix + count + SearchTitleSuffix;
      assert r[|SearchTitlePrefix|..|r| - |SearchTitleSuffix|] == count;
      assert r[0] != SearchResults[0];
      r
    else
      KeyTitle(group.category)
  }

  /** `text` is a count as the page prints it: decimal digits without a
      leading zero, reading back as `n`. */
  predicate CountText(text: string, n: nat) {
    text != []
    && (forall i :: 0 <= i < |text| ==> IsDigit(text[i]))
    && (text[0] == '0' ==> |text| == 1)
    && DigitsValue(text) == n
  }

  /** `text` is a number with one decimal place, as `toFixed(1)` prints it:
      a count of whole kilometres, a point and one digit, reading back as
      `t` tenths. */
  predicate DecimalTenths(text: string, t: nat) {
    |text| >= 3 && text[|text| - 2] == '.' && IsDigit(text[|text| - 1])
    && CountText(text[..|text| - 2], t / 10)
    && text[|text| - 1] as int - '0' as int == t % 10
  }

  /** Every heading of the dictionary view is translated: no group of the
      grouped page is headed by its bare key. */
  lemma GroupHeadingsTranslated(s: seq<Service>)
    ensures var gs := GroupsFor(CategoryKeys, s);
      forall i :: 0 <= i < |gs| ==> BaseTitle(gs[i]) != gs[i].category
  {
    var gs := GroupsFor(CategoryKeys, s);
    GroupsForShape(CategoryKeys, s);
    NoClinicOrHealthGroup(s);
    forall i | 0 <= i < |gs| ensures BaseTitle(gs[i]) != gs[i].category {
      assert Labels(gs)[i] == gs[i].category;
    }
  }

  /** No service of the list carries a `distance` field yet: every list the
      page ranks is built from the start-up copies of the catalog. */
  predicate Unranked(s: seq<Service>) {
    forall i :: 0 <= i < |s| ==> s[i].distance == Absent
  }

  predicate HasLocated(s: seq<Service>) {
    exists i :: 0 <= i < |s| && HasCoordinate(s[i])
  }

  /** The heading as index.js:244-246 computes it: the note is added when the
      first ranked service's distance is not `Infinity`, a test that a
      missing `distance` field also passes. */
  function SectionTitleAsWritten(group: Group, sorted: seq<Service>): string {
    BaseTitle(group)
      + (if group.category == SearchResults && |sorted| > 0 && sorted[0].distance != Infinite
         then NearestNote else "")
  }

  /** The heading the annotation is meant to give: the note only when the
      first ranked service has a computed distance. */
  function SectionTitle(group: Group, sorted: seq<Service>): string {
    BaseTitle(group)
      + (if group.category == SearchResults && |sorted| > 0 && sorted[0].distance.Km?
         then NearestNote else "")
  }

  /** As written, a search without a user location is announced as nearest
      first although ranking returned the list in catalog order. */
  lemma NearestNoteWithoutLocationAsWritten(s: seq<Service>, roundedTenths: (Ranking.Coord, Ranking.Coord) -> nat)
    requires s != [] && Unranked(s)
    ensures var sorted := Ranking.RankByNearest(s, None, roundedTenths);
      SectionTitleAsWritten(Group(SearchResults, sorted), sorted)
        == BaseTitle(Group(SearchResults, sorted)) + NearestNote
  {
  }

  /** The corrected heading carries the note exactly when a user location is
      known and some service shown has a coordinate: only then does a service
      with a computed distance come first. Other headings never carry it. */
  lemma {:induction false} NearestNoteIffLocated(s: seq<Service>, user: Option<Ranking.Coord>,
                                                 roundedTenths: (Ranking.Coord, Ranking.Coord) -> nat, group: Group)
    requires Unranked(s)
    ensures var sorted := Ranking.RankByNearest(s, user, roundedTenths);
      SectionTitle(Group(SearchResults, sorted), sorted)
        == BaseTitle(Group(SearchResults, sorted))
           + (if user.Some? && HasLocated(s) then NearestNote else "")
    ensures group.category != SearchResults ==>
      SectionTitle(group, Ranking.RankByNearest(s, user, roundedTenths)) == BaseTitle(group)
  {
    var sorted := Ranking.RankByNearest(s, user, roundedTenths);
    if user.Some? {
      FirstRankedIsLocated(s, user.value, roundedTenths);
    } else if |sorted| > 0 {
      assert sorted[0].distance == Absent;
    }
  }

  /** With a location, the first ranked service has a computed distance
      exactly when some service has a coordinate. */
  lemma FirstRankedIsLocated(s: seq<Service>, user: Ranking.Coord, roundedTenths: (Ranking.Coord, Ranking.Coord) -> nat)
    ensures var sorted := Ranking.RankByNearest(s, Some(user), roundedTenths);
      (|sorted| > 0 && sorted[0].distance.Km?) <==> HasLocated(s)
  {
    var annotated := Ranking.Annotate(s, user, roundedTenths);
    var sorted := Ranking.RankByNearest(s, Some(user), roundedTenths);
    assert |sorted| == |s| by {
      assert |multiset(sorted)| == |multiset(annotated)|;
    }
    if HasLocated(s) {
      var i :| 0 <= i < |s| && HasCoordinate(s[i]);
      assert annotated[i] in multiset(sorted);
      var j :| 0 <= j < |sorted| && sorted[j] == annotated[i];
      assert sorted[j].distance.Km?;
      assert !sorted[0].distance.Infinite?;
      assert sorted[0].distance != Absent;
    }
    if |sorted| > 0 && sorted[0].distance.Km? {
      assert sorted[0] in multiset(annotated);
      var k :| 0 <= k < |annotated| && annotated[k] == sorted[0];
      assert HasCoordinate(s[k]);
    }
  }

  /** The text of a `distance` value once interpolated into a template. */
  function DistanceText(d: Distance): (r: string)
    ensures d.Km? ==> DecimalTenths(r, d.tenths)
    ensures !d.Km? ==> forall i :: 0 <= i < |r| ==> !IsDigit(r[i])
  {
    match d
    case Absent => "undefined"
    case Infinite => "Infinity"
    case Km(t) =>
      var whole := NatToString(t / 10);
      NatToStringRoundTrip(t / 10);
      var r := whole + "." + [DigitChar(t % 10)];
      assert r[..|r| - 2] == whole;
      r
  }

  /** The distance label of a card as index.js:280-285 decides it: shown
      whenever the distance is not `Infinity`. */
  function DistanceLabelAsWritten(d: Distance): Option<string> {
    if d != Infinite then Some("(" + DistanceText(d) + " km)") else None
  }

  /** As written, every card of a page ranked without a location is labelled
      with an undefined distance. */
  lemma UndefinedDistanceLabelAsWritten(s: seq<Service>, roundedTenths: (Ranking.Coord, Ranking.Coord) -> nat)
    requires Unranked(s)
    ensures var sorted := Ranking.RankByNearest(s, None, roundedTenths);
      |sorted| == |s|
      && forall i :: 0 <= i < |sorted| ==> DistanceLabelAsWritten(sorted[i].distance) == Some("(undefined km)")
  {
    assert DistanceText(Absent) == "undefined";
    assert "(" + "undefined" + " km)" == "(undefined km)";
  }

  /** The label the page means to show: only for a computed distance. */
  function DistanceLabel(d: Distance): (r: Option<string>)
    ensures r.Some? <==> d.Km?
    ensures r.Some? ==>
      |r.value| >= 8 && r.value[0] == '(' && r.value[|r.value| - 4..] == " km)"
      && DecimalTenths(r.value[1..|r.value| - 4], d.tenths)
  {
    if d.Km? then
      var text := DistanceText(d);
      var shown := "(" + text + " km)";
      assert shown[1..|shown| - 4] == text;
      assert shown[|shown| - 4..] == " km)";
      Some(shown)
    else
      None
  }

  /** A card of the ranked page shows a distance exactly when a user
      location is known and the service has a coordinate. */
  lemma DistanceLabelIffLocated(s: seq<Service>, user: Option<Ranking.Coord>,
                                roundedTenths: (Ranking.Coord, Ranking.Coord) -> nat)
    requires Unranked(s)
    ensures var sorted := Ranking.RankByNearest(s, user, roundedTenths);
      forall i :: 0 <= i < |sorted| ==>
        (DistanceLabel(sorted[i].distance).Some? <==> user.Some? && HasCoordinate(sorted[i]))
  {
    var sorted := Ranking.RankByNearest(s, user, roundedTenths);
    if user.Some? {
      forall i | 0 <= i < |sorted|
        ensures DistanceLabel(sorted[i].distance).Some? <==> HasCoordinate(sorted[i])
      {
        assert sorted[i].distance != Absent;
      }
    }
  }

  /** A service at the user's own position is labelled with a zero distance. */
  lemma ZeroDistanceLabel()
    ensures DistanceLabel(Km(0)) == Some("(0.0 km)")
    ensures DistanceLabel(Km(32)) == Some("(3.2 km)")
  {
    assert DigitChar(0) == '0' && DigitChar(2) == '2' && DigitChar(3) == '3';
    assert NatToString(0) == "0" && NatToString(3) == "3";
    assert "(" + ("0" + "." + "0") + " km)" == "(0.0 km)";
    assert "(" + ("3" + "." + "2") + " km)" == "(3.2 km)";
  }
}
