/**
  The request matcher of `UBlockIntegration`: domain utilities, the
  whitelist test, the per-type filter tests, and the first-match-wins block
  decision over the ordered catalog of filter lists.
 */
module Matching {
  import opened Wrappers
  import opened Text
  import opened Filters

  /** The platform URL parser: the hostname of `url`, or `None` where `new URL(url)` throws. */
  type UrlParser = string -> Option<string>

  /**
    The regular-expression test of `matchesPattern`, which the model leaves
    uninterpreted: `(url, pattern)` to whether the expression built from the
    pattern finds a match in the URL (false where the expression does not compile).
   */
  type PatternMatcher = (string, string) -> bool

  /** One loaded list: its source URL and its parsed filters. */
  datatype FilterList = FilterList(source: string, filters: seq<Filter>)

  /** `extractHostname`: the lower-cased hostname, or the empty string on a URL that does not parse. */
  function ExtractHostname(parseUrl: UrlParser, url: string): (hostname: string)
    ensures IsLower(hostname)
    ensures parseUrl(url).None? ==> hostname == ""
    ensures parseUrl(url).Some? ==> |hostname| == |parseUrl(url).value|
  {
    match parseUrl(url)
    case None => ""
    case Some(host) => ToLower(host)
  }

  /** `extractDomain`: the last two dot-separated labels, or the hostname itself when it has fewer. */
  function ExtractDomain(hostname: string): (d: string)
    ensures '.' !in hostname ==> d == hostname
    ensures |d| <= |hostname|
  {
    var parts := Split(hostname, '.');
    SplitCount(hostname, '.');
    if |parts| < 2 then hostname
    else
      LastTwoLabelsEnd(hostname);
      LastTwo(parts)
  }

  /** The last two labels joined again by a dot. */
  function LastTwo(parts: seq<string>): string
    requires |parts| >= 2
  {
    parts[|parts| - 2] + "." + parts[|parts| - 1]
  }

  /** `isWhitelisted`: the hostname or its domain is an entry, or the hostname is below an entry. */
  predicate IsWhitelisted(whitelist: set<string>, hostname: string, domain: string)
    ensures IsWhitelisted(whitelist, hostname, domain) ==> whitelist != {}
    ensures hostname in whitelist || domain in whitelist ==> IsWhitelisted(whitelist, hostname, domain)
  {
    hostname in whitelist || domain in whitelist
    || exists entry :: entry in whitelist && EndsWith(hostname, "." + entry)
  }

  /** `matchesDomainPattern`: `||inner^` matches the host `inner` and every host below it. */
  predicate MatchesDomainPattern(hostname: string, pattern: string)
    ensures MatchesDomainPattern(hostname, pattern) ==>
      3 <= |pattern| && EndsWith(hostname, pattern[2..|pattern| - 1])
  {
    StartsWith(pattern, "||") && EndsWith(pattern, "^")
    && (assert "^"[0] == '^' && pattern[1] == '|' && pattern[|pattern| - 1] == '^';
        var inner := pattern[2..|pattern| - 1];
        EndsWithDrop(hostname, ".", inner);
        hostname == inner || EndsWith(hostname, "." + inner))
  }

  /** `s.substring(1)`. */
  function DropFirst(s: string): string
  {
    if s == [] then s else s[1..]
  }

  /** `s.substring(0, s.length - 1)`. */
  function DropLast(s: string): string
  {
    if s == [] then s else s[..|s| - 1]
  }

  /** `matchesFilter`: the test chosen by the filter's type; cosmetic and unknown filters never match. */
  predicate MatchesFilter(url: string, hostname: string, filter: Filter, matches: PatternMatcher)
    ensures MatchesFilter(url, hostname, filter, matches) ==>
      !filter.kind.Cosmetic? && !filter.kind.CosmeticException? && !filter.kind.Unknown?
    ensures filter.kind.NetworkPlain? && filter.pattern == [] ==> MatchesFilter(url, hostname, filter, matches)
  {
    match filter.kind
    case NetworkDomain => MatchesDomainPattern(hostname, filter.pattern)
    case NetworkStart => StartsWith(url, DropFirst(filter.pattern))
    case NetworkEnd => EndsWith(url, DropLast(filter.pattern))
    case NetworkPattern => matches(url, filter.pattern)
    case NetworkPlain => Contains(url, filter.pattern)
    case _ => false
  }

  /** The filters of all lists, list by list in insertion order. */
  function Flatten(lists: seq<FilterList>): seq<Filter>
  {
    if lists == [] then [] else Flatten(lists[..|lists| - 1]) + lists[|lists| - 1].filters
  }

  /** The first filter, in order, that matches the request. */
  function FirstMatch(filters: seq<Filter>, url: string, hostname: string, matches: PatternMatcher): (r: Option<Filter>)
    ensures r.Some? ==> r.value in filters && MatchesFilter(url, hostname, r.value, matches)
    ensures r.None? ==> forall k :: 0 <= k < |filters| ==> !MatchesFilter(url, hostname, filters[k], matches)
  {
    if filters == [] then None
    else if MatchesFilter(url, hostname, filters[0], matches) then Some(filters[0])
    else FirstMatch(filters[1..], url, hostname, matches)
  }

  /**
    `shouldBlockRequest` as a value: false before initialisation and for a
    whitelisted host; otherwise the first matching filter decides, an exception
    allowing and any other filter blocking; no match allows.
   */
  predicate Decide(initialized: bool, whitelist: set<string>, lists: seq<FilterList>,
                   url: string, hostname: string, matches: PatternMatcher)
    ensures Decide(initialized, whitelist, lists, url, hostname, matches) ==>
      && initialized && !IsWhitelisted(whitelist, hostname, ExtractDomain(hostname))
      && exists k :: 0 <= k < |Flatten(lists)| && MatchesFilter(url, hostname, Flatten(lists)[k], matches)
                     && !Flatten(lists)[k].exception
  {
    && initialized
    && !IsWhitelisted(whitelist, hostname, ExtractDomain(hostname))
    && match FirstMatch(Flatten(lists), url, hostname, matches)
       case None => false
       case Some(f) => !f.exception
  }

  // ---------------------------------------------------------------------
  // Domain utilities
  // ---------------------------------------------------------------------

  /**
    `extractDomain` returns a hostname with no dot unchanged; otherwise a
    suffix of the hostname that starts at a label boundary and has exactly two
    labels.
   */
  lemma ExtractDomainLastTwoLabels(hostname: string)
    ensures '.' !in hostname ==> ExtractDomain(hostname) == hostname
    ensures EndsWith(hostname, ExtractDomain(hostname))
    ensures '.' in hostname ==>
      var d := ExtractDomain(hostname);
      && |Split(d, '.')| == 2
      && (|d| == |hostname| || hostname[|hostname| - |d| - 1] == '.')
  {
    SplitCount(hostname, '.');
    if '.' in hostname {
      ExtractDomainWithDot(hostname);
    } else {
      assert hostname[|hostname| - |hostname|..] == hostname;
    }
  }

  /** The dotted case of the lemma above. */
  lemma ExtractDomainWithDot(hostname: string)
    requires '.' in hostname
    ensures var d := ExtractDomain(hostname);
      && EndsWith(hostname, d)
      && |Split(d, '.')| == 2
      && (|d| == |hostname| || hostname[|hostname| - |d| - 1] == '.')
  {
    SplitCount(hostname, '.');
    LastTwoLabelsEnd(hostname);
    LastTwoLabelsSplit(hostname);
  }

  lemma LastTwoLabelsEnd(hostname: string)
    requires '.' in hostname
    ensures |Split(hostname, '.')| >= 2
    ensures var d := LastTwo(Split(hostname, '.'));
      EndsWith(hostname, d) && (|d| == |hostname| || hostname[|hostname| - |d| - 1] == '.')
  {
    SplitCount(hostname, '.');
    var parts := Split(hostname, '.');
    var t := parts[|parts| - 2] + ['.'] + parts[|parts| - 1];
    assert LastTwo(parts) == t;
    JoinEndsWithLastTwo(parts, '.');
    JoinSplit(hostname, '.');
  }

  lemma LastTwoLabelsSplit(hostname: string)
    requires '.' in hostname
    ensures |Split(hostname, '.')| >= 2
    ensures |Split(LastTwo(Split(hostname, '.')), '.')| == 2
  {
    SplitCount(hostname, '.');
    var parts := Split(hostname, '.');
    SplitPieces(hostname, '.');
    var a, b := parts[|parts| - 2], parts[|parts| - 1];
    assert '.' !in a && '.' !in b;
    SplitTwo(a, '.', b);
  }

  // ---------------------------------------------------------------------
  // Catalog order
  // ---------------------------------------------------------------------

  lemma {:induction false} FlattenAppend(a: seq<FilterList>, b: seq<FilterList>)
    ensures Flatten(a + b) == Flatten(a) + Flatten(b)
    decreases |b|
  {
    if b == [] {
      assert a + b == a;
    } else {
      var n := |b| - 1;
      DropLastAppend(a, b);
      assert (a + b)[|a + b| - 1] == b[n];
      FlattenAppend(a, b[..n]);
      assert Flatten(a + b) == (Flatten(a) + Flatten(b[..n])) + b[n].filters;
      Associative(Flatten(a), Flatten(b[..n]), b[n].filters);
    }
  }

  /** The first match over a concatenation is the first match of the front part when there is one. */
  lemma {:induction false} FirstMatchAppend(a: seq<Filter>, b: seq<Filter>, url: string, hostname: string, matches: PatternMatcher)
    ensures FirstMatch(a + b, url, hostname, matches)
      == if FirstMatch(a, url, hostname, matches).Some? then FirstMatch(a, url, hostname, matches)
         else FirstMatch(b, url, hostname, matches)
    decreases |a|
  {
    if a == [] {
      assert a + b == b;
    } else {
      assert (a + b)[0] == a[0] && (a + b)[1..] == a[1..] + b;
      FirstMatchAppend(a[1..], b, url, hostname, matches);
    }
  }

  /**
    First match wins across lists: once a filter of the front lists matches,
    the lists loaded after them cannot change the decision, whatever they hold.
   */
  lemma FirstMatchDecides(initialized: bool, whitelist: set<string>, front: seq<FilterList>, later: seq<FilterList>,
                          url: string, hostname: string, matches: PatternMatcher, f: Filter)
    requires FirstMatch(Flatten(front), url, hostname, matches) == Some(f)
    ensures Decide(initialized, whitelist, front + later, url, hostname, matches)
      == (initialized && !IsWhitelisted(whitelist, hostname, ExtractDomain(hostname)) && !f.exception)
  {
    FlattenAppend(front, later);
    FirstMatchAppend(Flatten(front), Flatten(later), url, hostname, matches);
  }

  /** The catalog walk of `shouldBlockRequest` meets its first match at filter `j` of list `i`. */
  lemma FoundFirstMatch(lists: seq<FilterList>, i: nat, j: nat, url: string, hostname: string, matches: PatternMatcher)
    requires i < |lists| && j < |lists[i].filters|
    requires FirstMatch(Flatten(lists[..i]), url, hostname, matches).None?
    requires FirstMatchingAt(lists[i].filters, j, url, hostname, matches)
    ensures FirstMatch(Flatten(lists), url, hostname, matches) == Some(lists[i].filters[j])
  {
    var front, later := lists[..i + 1], lists[i + 1..];
    assert front + later == lists;
    assert front[..i] == lists[..i];
    FirstMatchAtPosition(lists[i].filters, j, url, hostname, matches);
    FirstMatchAppend(Flatten(lists[..i]), lists[i].filters, url, hostname, matches);
    FlattenAppend(front, later);
    FirstMatchAppend(Flatten(front), Flatten(later), url, hostname, matches);
  }

  /** A list with no matching filter extends the part of the catalog already walked without a match. */
  lemma NoMatchInList(lists: seq<FilterList>, i: nat, url: string, hostname: string, matches: PatternMatcher)
    requires i < |lists|
    requires FirstMatch(Flatten(lists[..i]), url, hostname, matches).None?
    requires forall k :: 0 <= k < |lists[i].filters| ==> !MatchesFilter(url, hostname, lists[i].filters[k], matches)
    ensures FirstMatch(Flatten(lists[..i + 1]), url, hostname, matches).None?
  {
    assert lists[..i + 1][..i] == lists[..i];
    FirstMatchAppend(Flatten(lists[..i]), lists[i].filters, url, hostname, matches);
  }

  /** The whitelist outranks every filter. */
  /** Past the initialisation and whitelist checks, the first match alone decides. */
  lemma DecideByFirstMatch(initialized: bool, whitelist: set<string>, lists: seq<FilterList>,
                           url: string, hostname: string, matches: PatternMatcher)
    requires initialized && !IsWhitelisted(whitelist, hostname, ExtractDomain(hostname))
    ensures FirstMatch(Flatten(lists), url, hostname, matches).None? ==> !Decide(initialized, whitelist, lists, url, hostname, matches)
    ensures FirstMatch(Flatten(lists), url, hostname, matches).Some? ==>
      Decide(initialized, whitelist, lists, url, hostname, matches) == !FirstMatch(Flatten(lists), url, hostname, matches).value.exception
  {
  }

  lemma WhitelistOutranksFilters(initialized: bool, whitelist: set<string>, lists: seq<FilterList>,
                                 url: string, hostname: string, matches: PatternMatcher)
    requires IsWhitelisted(whitelist, hostname, ExtractDomain(hostname))
    ensures !Decide(initialized, whitelist, lists, url, hostname, matches)
  {
  }

  /** Matching at position `k` with no match before it. */
  predicate FirstMatchingAt(filters: seq<Filter>, k: int, url: string, hostname: string, matches: PatternMatcher)
  {
    0 <= k < |filters| && MatchesFilter(url, hostname, filters[k], matches)
    && forall j :: 0 <= j < k ==> !MatchesFilter(url, hostname, filters[j], matches)
  }

  /** A request is blocked exactly when it passes the guards and the first matching filter of the catalog is not an exception. */
  lemma DecideBlocksOnlyOnMatch(initialized: bool, whitelist: set<string>, lists: seq<FilterList>,
                                url: string, hostname: string, matches: PatternMatcher)
    ensures Decide(initialized, whitelist, lists, url, hostname, matches)
      <==> (&& initialized && !IsWhitelisted(whitelist, hostname, ExtractDomain(hostname))
            && exists k :: FirstMatchingAt(Flatten(lists), k, url, hostname, matches) && !Flatten(lists)[k].exception)
  {
    var all := Flatten(lists);
    if FirstMatch(all, url, hostname, matches).Some? {
      var k := FirstMatchPosition(all, url, hostname, matches);
      forall k' | FirstMatchingAt(all, k', url, hostname, matches) ensures k' == k {
        FirstMatchAtPosition(all, k', url, hostname, matches);
      }
    } else {
      forall k | FirstMatchingAt(all, k, url, hostname, matches) ensures false {
        FirstMatchAtPosition(all, k, url, hostname, matches);
      }
    }
  }

  /** Where the first match sits. */
  lemma {:induction false} FirstMatchPosition(filters: seq<Filter>, url: string, hostname: string, matches: PatternMatcher)
    returns (k: nat)
    requires FirstMatch(filters, url, hostname, matches).Some?
    ensures FirstMatchingAt(filters, k, url, hostname, matches)
    ensures FirstMatch(filters, url, hostname, matches) == Some(filters[k])
    decreases |filters|
  {
    if MatchesFilter(url, hostname, filters[0], matches) {
      k := 0;
    } else {
      var rest := filters[1..];
      var k' := FirstMatchPosition(rest, url, hostname, matches);
      k := k' + 1;
      forall j | 0 <= j < k ensures !MatchesFilter(url, hostname, filters[j], matches) {
        if j > 0 {
          assert filters[j] == rest[j - 1];
        }
      }
    }
  }

  /** The filter at the first matching position is the first match. */
  lemma {:induction false} FirstMatchAtPosition(filters: seq<Filter>, k: int, url: string, hostname: string, matches: PatternMatcher)
    requires FirstMatchingAt(filters, k, url, hostname, matches)
    ensures FirstMatch(filters, url, hostname, matches) == Some(filters[k])
    decreases |filters|
  {
    if k > 0 {
      var rest := filters[1..];
      assert !MatchesFilter(url, hostname, filters[0], matches);
      forall j | 0 <= j < k - 1 ensures !MatchesFilter(url, hostname, rest[j], matches) {
        assert rest[j] == filters[j + 1];
      }
      FirstMatchAtPosition(rest, k - 1, url, hostname, matches);
    }
  }

  // ---------------------------------------------------------------------
  // Domain patterns
  // ---------------------------------------------------------------------

  /** `||inner^` matches exactly the host `inner` and the hosts whose name ends in `.inner`. */
  lemma DomainPatternMatches(hostname: string, inner: string)
    ensures MatchesDomainPattern(hostname, "||" + inner + "^")
      <==> hostname == inner || EndsWith(hostname, "." + inner)
  {
    var pattern := "||" + inner + "^";
    assert StartsWith(pattern, "||");
    assert pattern[|pattern| - 1..] == "^";
    assert pattern[2..|pattern| - 1] == inner;
  }

  /** A domain rule matches every host below its domain: `||ads.example.com^` matches `cdn.ads.example.com`. */
  lemma DomainPatternMatchesSubdomains(sub: string, inner: string)
    ensures MatchesDomainPattern(inner, "||" + inner + "^")
    ensures MatchesDomainPattern(sub + "." + inner, "||" + inner + "^")
  {
    DomainPatternMatches(inner, inner);
    var host := sub + "." + inner;
    DomainPatternMatches(host, inner);
    assert host[|host| - |"." + inner|..] == "." + inner;
  }

  /**
    A domain rule does not match a host that merely ends in the same letters:
    `||ads.example.com^` leaves `notads.example.com` alone.
   */
  lemma DomainPatternNeedsLabelBoundary(prefix: string, inner: string)
    requires prefix != [] && prefix[|prefix| - 1] != '.'
    ensures !MatchesDomainPattern(prefix + inner, "||" + inner + "^")
  {
    var host := prefix + inner;
    DomainPatternMatches(host, inner);
    EndsWithCharThen(prefix, '.', inner);
  }

  /** A domain-anchored pattern with a path part never matches, since the test looks at the hostname only. */
  lemma DomainPatternWithPathNeverMatches(hostname: string, inner: string)
    requires '/' in inner && '/' !in hostname
    ensures !MatchesDomainPattern(hostname, "||" + inner + "^")
  {
    DomainPatternMatches(hostname, inner);
    if EndsWith(hostname, "." + inner) {
      assert '/' in "." + inner;
      EndsWithKeepsChar(hostname, "." + inner, '/');
    }
  }

  /** A pattern that is not of the form `||...^` never matches as a domain rule. */
  lemma DomainPatternNeedsBothAnchors(hostname: string, pattern: string)
    requires !StartsWith(pattern, "||") || !EndsWith(pattern, "^")
    ensures !MatchesDomainPattern(hostname, pattern)
  {
  }

  // ---------------------------------------------------------------------
  // Filters of some shapes
  // ---------------------------------------------------------------------

  /**
    A line made of options alone, such as `$third-party`, has the empty
    pattern and is a plain filter, so it matches every URL.
   */
  lemma OptionsOnlyLineMatchesEverything(line: string, url: string, hostname: string, matches: PatternMatcher)
    requires line != [] && line[0] == '$'
    requires '#' !in line && '|' !in line && '*' !in line && '^' !in line
    ensures ParseFilter(line).kind == NetworkPlain
    ensures ParseFilter(line).pattern == ""
    ensures !ParseFilter(line).exception
    ensures MatchesFilter(url, hostname, ParseFilter(line), matches)
  {
    ParseFilterSplit(line);
    PlainWithoutCues(line);
    var f := ParseFilter(line);
    assert Remainder(line) == line;
    assert StartsWith(url, "");
  }

  /**
    First match wins inside a list too: an exception placed after a matching
    block filter never applies, while the same exception placed first allows
    the request.
   */
  lemma ExceptionOrderMatters(initialized: bool, whitelist: set<string>, source: string,
                              block: Filter, allow: Filter,
                              url: string, hostname: string, matches: PatternMatcher)
    requires !block.exception && allow.exception
    requires MatchesFilter(url, hostname, block, matches) && MatchesFilter(url, hostname, allow, matches)
    ensures Decide(initialized, whitelist, [FilterList(source, [block, allow])], url, hostname, matches)
      == (initialized && !IsWhitelisted(whitelist, hostname, ExtractDomain(hostname)))
    ensures !Decide(initialized, whitelist, [FilterList(source, [allow, block])], url, hostname, matches)
  {
    assert Flatten([FilterList(source, [block, allow])]) == [block, allow];
    assert Flatten([FilterList(source, [allow, block])]) == [allow, block];
  }

  /** An entry whitelists every host below it, whatever the filters say. */
  lemma SubdomainOfEntryIsWhitelisted(whitelist: set<string>, entry: string, sub: string)
    requires entry in whitelist
    ensures IsWhitelisted(whitelist, sub + "." + entry, ExtractDomain(sub + "." + entry))
  {
    var hostname := sub + "." + entry;
    assert hostname[|hostname| - |"." + entry|..] == "." + entry;
  }
}
