/** The search predicate of `filterAndRender` (index.js:305-318) and the
    string operations it is built from: `String.prototype.trim`,
    `toLowerCase` and `includes`. */
module Search {
  import opened Services

  /** The characters `trim` removes: ECMAScript WhiteSpace and LineTerminator. */
  predicate IsTrimmable(c: char) {
    c == '\t' || c == '\n' || c == '\U{000B}' || c == '\U{000C}' || c == '\r'
    || c == ' ' || c == '\U{00A0}' || c == '\U{1680}'
    || ('\U{2000}' <= c <= '\U{200A}')
    || c == '\U{2028}' || c == '\U{2029}' || c == '\U{202F}' || c == '\U{205F}'
    || c == '\U{3000}' || c == '\U{FEFF}'
  }

  /** Drops leading trimmable characters: the result is a suffix of `s`, all
      that was dropped is trimmable, and the result does not start with one. */
  function TrimStart(s: string): (r: string)
    ensures |r| <= |s| && r == s[|s| - |r|..]
    ensures forall i :: 0 <= i < |s| - |r| ==> IsTrimmable(s[i])
    ensures r != [] ==> !IsTrimmable(r[0])
  {
    if s != [] && IsTrimmable(s[0]) then TrimStart(s[1..]) else s
  }

  /** Drops trailing trimmable characters, symmetrically. */
  function TrimEnd(s: string): (r: string)
    ensures |r| <= |s| && r == s[..|r|]
    ensures forall i :: |r| <= i < |s| ==> IsTrimmable(s[i])
    ensures r != [] ==> !IsTrimmable(r[|r| - 1])
  {
    if s != [] && IsTrimmable(s[|s| - 1]) then TrimEnd(s[..|s| - 1]) else s
  }

  function Trim(s: string): string {
    TrimEnd(TrimStart(s))
  }

  lemma {:induction false} AllTrimmableTrimStart(s: string)
    requires forall i :: 0 <= i < |s| ==> IsTrimmable(s[i])
    ensures TrimStart(s) == []
  {
    if s != [] {
      AllTrimmableTrimStart(s[1..]);
    }
  }

  /** A string trims to nothing exactly when every character is trimmable. */
  lemma TrimEmpty(s: string)
    ensures Trim(s) == [] <==> forall i :: 0 <= i < |s| ==> IsTrimmable(s[i])
  {
    if forall i :: 0 <= i < |s| ==> IsTrimmable(s[i]) {
      AllTrimmableTrimStart(s);
    }
  }

  predicate IsUpper(c: char) {
    'A' <= c <= 'Z'
  }

  /** `a` and `b` are the same character, or the upper- and lower-case forms
      of one Basic Latin letter. */
  predicate CaseVariant(a: char, b: char) {
    a == b
    || (IsUpper(a) && b as int == a as int + 32)
    || (IsUpper(b) && a as int == b as int + 32)
  }

  /** `toLowerCase` on the Basic Latin letters; every other character, the
      Bengali script included, has no lower-case form here. The result is
      never an upper-case letter, is a case variant of its argument, and is
      the argument itself when that is not an upper-case letter. */
  function LowerChar(c: char): (r: char)
    ensures !IsUpper(r)
    ensures CaseVariant(c, r)
    ensures !IsUpper(c) ==> r == c
  {
    if IsUpper(c) then (c as int + 32) as char else c
  }

  /** An upper-case letter and its lower-case form lower to the same letter. */
  lemma LowerCharFolds(k: int)
    requires 0 <= k < 26
    ensures LowerChar(('A' as int + k) as char) == LowerChar(('a' as int + k) as char)
    ensures LowerChar(('a' as int + k) as char) == ('a' as int + k) as char
  {
  }

  /** Case variants lower to the same character. */
  lemma {:induction false} CaseVariantsLowerAlike(a: char, b: char)
    requires CaseVariant(a, b)
    ensures LowerChar(a) == LowerChar(b)
  {
    if IsUpper(a) && b as int == a as int + 32 {
      LowerCharFolds(a as int - 'A' as int);
    } else if IsUpper(b) && a as int == b as int + 32 {
      LowerCharFolds(b as int - 'A' as int);
    }
  }

  function Lower(s: string): (r: string)
    ensures |r| == |s|
    ensures forall i :: 0 <= i < |s| ==> r[i] == LowerChar(s[i])
  {
    seq(|s|, i requires 0 <= i < |s| => LowerChar(s[i]))
  }

  /** `s` and `t` differ at most in the case of Basic Latin letters. */
  predicate SameUpToCase(s: string, t: string) {
    |s| == |t| && forall i :: 0 <= i < |s| ==> CaseVariant(s[i], t[i])
  }

  /** Strings that differ only in letter case lower to the same string. */
  lemma LowerIgnoresCase(s: string, t: string)
    requires SameUpToCase(s, t)
    ensures Lower(s) == Lower(t)
  {
    forall i | 0 <= i < |s| ensures Lower(s)[i] == Lower(t)[i] {
      CaseVariantsLowerAlike(s[i], t[i]);
    }
  }

  /** Lower-casing never changes whether a string is blank, so `filterAndRender`
      (which lower-cases and trims) and `groupServicesByCategory` (which only
      trims) agree on whether a search is active. */
  lemma LowerKeepsBlank(s: string)
    ensures Trim(Lower(s)) == [] <==> Trim(s) == []
  {
    TrimEmpty(s);
    TrimEmpty(Lower(s));
    forall i | 0 <= i < |s| ensures IsTrimmable(Lower(s)[i]) <==> IsTrimmable(s[i]) {
      LowerCharTrimmable(s[i]);
    }
  }

  lemma LowerCharTrimmable(c: char)
    ensures IsTrimmable(LowerChar(c)) <==> IsTrimmable(c)
  {
    if IsUpper(c) {
      assert 'a' <= LowerChar(c) <= 'z';
    }
  }

  predicate IsPrefix(needle: string, hay: string) {
    |needle| <= |hay| && hay[..|needle|] == needle
  }

  /** `hay.includes(needle)`, as a left-to-right scan. */
  predicate Includes(hay: string, needle: string)
    decreases |hay|
  {
    IsPrefix(needle, hay) || (hay != [] && Includes(hay[1..], needle))
  }

  /** `needle` occurs in `hay` at position `i`. */
  predicate WindowAt(hay: string, needle: string, i: int) {
    0 <= i && i + |needle| <= |hay| && hay[i..i + |needle|] == needle
  }

  /** The scan agrees with the definition "some window of `hay` equals `needle`". */
  lemma {:induction false} IncludesIffWindow(hay: string, needle: string)
    ensures Includes(hay, needle) <==> exists i :: WindowAt(hay, needle, i)
    decreases |hay|
  {
    if hay != [] {
      IncludesIffWindow(hay[1..], needle);
      if IsPrefix(needle, hay) {
        assert hay[0..|needle|] == hay[..|needle|];
        assert WindowAt(hay, needle, 0);
      }
      if exists i :: WindowAt(hay[1..], needle, i) {
        var i :| WindowAt(hay[1..], needle, i);
        assert hay[i + 1..i + 1 + |needle|] == hay[1..][i..i + |needle|];
        assert WindowAt(hay, needle, i + 1);
      }
      if exists i :: WindowAt(hay, needle, i) {
        var i :| WindowAt(hay, needle, i);
        if i > 0 {
          assert hay[1..][i - 1..i - 1 + |needle|] == hay[i..i + |needle|];
          assert WindowAt(hay[1..], needle, i - 1);
        } else {
          assert IsPrefix(needle, hay);
        }
      }
    } else {
      if exists i :: WindowAt(hay, needle, i) {
        var i :| WindowAt(hay, needle, i);
        assert i == 0 && needle == [];
        assert hay[..0] == needle;
        assert IsPrefix(needle, hay);
      }
      if Includes(hay, needle) {
        assert WindowAt(hay, needle, 0);
      }
    }
  }

  /** The predicate passed to `filter`, for the lower-cased, trimmed text `text`:
      the text occurs in the lower-cased title, subtitle or category, or in the
      number exactly as written. */
  predicate Matches(text: string, svc: Service) {
    Includes(Lower(svc.title), text)
    || Includes(Lower(svc.subtitle), text)
    || Includes(svc.number, text)
    || Includes(Lower(svc.category), text)
  }

  function MatchesText(text: string): Service -> bool {
    (svc: Service) => Matches(text, svc)
  }

  /** The search text as `filterAndRender` reads it from the search bar. */
  function SearchText(raw: string): string {
    Trim(Lower(raw))
  }

  /** The services shown for the raw search-bar contents `raw`: all of them
      when the text is blank, otherwise the matching ones, in catalog order. */
  function FilterServices(services: seq<Service>, raw: string): (r: seq<Service>)
    ensures IsSubsequence(r, services)
    ensures Trim(raw) == [] ==> r == services
    ensures forall svc :: svc in r <==>
      svc in services && (SearchText(raw) == [] || Matches(SearchText(raw), svc))
    ensures forall svc ::
      multiset(r)[svc] == (if SearchText(raw) == [] || Matches(SearchText(raw), svc) then multiset(services)[svc] else 0)
  {
    var text := SearchText(raw);
    LowerKeepsBlank(raw);
    if text == [] then
      assert IsSubsequence(services, services) by {
        FilterAll((x: Service) => true, services);
        FilterIsSubsequence((x: Service) => true, services);
      }
      services
    else
      FilterIsSubsequence(MatchesText(text), services);
      assert forall svc :: svc in Filter(MatchesText(text), services) <==>
        svc in services && Matches(text, svc) by {
        forall svc ensures svc in Filter(MatchesText(text), services) <==>
          svc in services && Matches(text, svc) {
          FilterMembership(MatchesText(text), services, svc);
        }
      }
      assert forall svc ::
        multiset(Filter(MatchesText(text), services))[svc] == (if Matches(text, svc) then multiset(services)[svc] else 0) by {
        forall svc
          ensures multiset(Filter(MatchesText(text), services))[svc] == (if Matches(text, svc) then multiset(services)[svc] else 0) {
          FilterCount(MatchesText(text), services, svc);
        }
      }
      Filter(MatchesText(text), services)
  }

  /** The search is case-insensitive in its text: two search-bar contents
      that differ only in letter case show the same services. */
  lemma SearchIgnoresTextCase(services: seq<Service>, raw: string, raw': string)
    requires SameUpToCase(raw, raw')
    ensures FilterServices(services, raw) == FilterServices(services, raw')
  {
    LowerIgnoresCase(raw, raw');
    LowerKeepsBlank(raw);
    LowerKeepsBlank(raw');
  }

  /** `svc'` is `svc` with its title, subtitle and category written in
      another letter case; the number is compared as written. */
  predicate CaseVariantService(svc: Service, svc': Service) {
    && SameUpToCase(svc.title, svc'.title)
    && SameUpToCase(svc.subtitle, svc'.subtitle)
    && SameUpToCase(svc.category, svc'.category)
    && svc.number == svc'.number
  }

  lemma MatchesIgnoresFieldCase(text: string, svc: Service, svc': Service)
    requires CaseVariantService(svc, svc')
    ensures Matches(text, svc) == Matches(text, svc')
  {
    LowerIgnoresCase(svc.title, svc'.title);
    LowerIgnoresCase(svc.subtitle, svc'.subtitle);
    LowerIgnoresCase(svc.category, svc'.category);
  }

  /** The search is case-insensitive in the services: a service and its
      case variant, each in its own list, are both kept or both left out. */
  lemma SearchIgnoresFieldCase(services: seq<Service>, services': seq<Service>, raw: string,
                               svc: Service, svc': Service)
    requires svc in services && svc' in services' && CaseVariantService(svc, svc')
    ensures svc in FilterServices(services, raw) <==> svc' in FilterServices(services', raw)
  {
    MatchesIgnoresFieldCase(SearchText(raw), svc, svc');
  }
}
