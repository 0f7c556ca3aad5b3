/**
  The state of `UBlockIntegration` and of its two small engines: the catalog
  of loaded lists (a `Map` from list URL to filters, in insertion order), the
  set of blocked URLs, the whitelist, the custom filters, the dynamic rules
  keyed by domain and the cosmetic filters.
 */
module Integration {
  import opened Wrappers
  import opened Text
  import opened Filters
  import opened Matching

  /** The platform `fetch` followed by `response.text()`: the body, or `None` where either throws. */
  type Fetcher = string -> Option<string>

  /**
    How a list body becomes filters. The catalog lemmas hold for any parser;
    `loadFilterLists` uses `ParseListText`, the value of `parseFilterList`.
   */
  type ListParser = string -> seq<Filter>

  /** The three lists `loadFilterLists` requests, in order. */
  const EssentialLists: seq<string> := [
    "https://raw.githubusercontent.com/uBlockOrigin/uAssets/master/filters/filters.txt",
    "https://raw.githubusercontent.com/uBlockOrigin/uAssets/master/filters/privacy.txt",
    "https://raw.githubusercontent.com/uBlockOrigin/uAssets/master/filters/annoyances.txt"
  ]

  /** What `getStats` returns. */
  datatype Stats = Stats(totalFilters: nat, customFilters: nat, whitelistDomains: nat,
                         blockedRequests: nat, initialized: bool)

  // ---------------------------------------------------------------------
  // The catalog as an insertion-ordered map
  // ---------------------------------------------------------------------

  predicate DistinctSources(lists: seq<FilterList>)
  {
    forall i, j :: 0 <= i < j < |lists| ==> lists[i].source != lists[j].source
  }

  /** `Map.get`. */
  function Lookup(lists: seq<FilterList>, source: string): Option<seq<Filter>>
  {
    if lists == [] then None
    else if lists[0].source == source then Some(lists[0].filters)
    else Lookup(lists[1..], source)
  }

  /** `Map.set`: an existing key keeps its place and takes the new value, a new key goes last. */
  function SetList(lists: seq<FilterList>, source: string, filters: seq<Filter>): seq<FilterList>
  {
    if lists == [] then [FilterList(source, filters)]
    else if lists[0].source == source then [FilterList(source, filters)] + lists[1..]
    else [lists[0]] + SetList(lists[1..], source, filters)
  }

  /** The reduce of `getStats`: the sum of the list lengths. */
  function TotalFilters(lists: seq<FilterList>): nat
  {
    if lists == [] then 0 else TotalFilters(lists[..|lists| - 1]) + |lists[|lists| - 1].filters|
  }

  /** One iteration of `loadFilterLists`: a list that loads is set, one that fails leaves the catalog as it was. */
  function Install(lists: seq<FilterList>, source: string, body: Option<string>, parse: ListParser): seq<FilterList>
  {
    match body
    case None => lists
    case Some(text) => SetList(lists, source, parse(text))
  }

  /** What `parseFilterList` returns for a list body. */
  function ParseListText(text: string): seq<Filter>
  {
    FiltersOf(Split(text, '\n'))
  }

  /** `loadFilterLists` as a value: the lists installed in turn. */
  function Loaded(lists: seq<FilterList>, sources: seq<string>, fetch: Fetcher, parse: ListParser): seq<FilterList>
    decreases |sources|
  {
    if sources == [] then lists
    else Loaded(Install(lists, sources[0], fetch(sources[0]), parse), sources[1..], fetch, parse)
  }

  /** The lists that load, in request order: the reference for `Loaded` from an empty catalog. */
  function Successful(sources: seq<string>, fetch: Fetcher, parse: ListParser): seq<FilterList>
  {
    if sources == [] then []
    else match fetch(sources[0])
      case None => Successful(sources[1..], fetch, parse)
      case Some(text) => [FilterList(sources[0], parse(text))] + Successful(sources[1..], fetch, parse)
  }

  lemma {:induction false} TotalFiltersIsFlattenLength(lists: seq<FilterList>)
    ensures TotalFilters(lists) == |Flatten(lists)|
    decreases |lists|
  {
    if lists != [] {
      TotalFiltersIsFlattenLength(lists[..|lists| - 1]);
    }
  }

  /** `Map.set` then `Map.get`: the key just set gives its new value, every other key what it gave before. */
  lemma {:induction false} SetListLookup(lists: seq<FilterList>, source: string, filters: seq<Filter>, key: string)
    ensures Lookup(SetList(lists, source, filters), key) == if key == source then Some(filters) else Lookup(lists, key)
    decreases |lists|
  {
    if lists != [] && lists[0].source != source {
      SetListLookup(lists[1..], source, filters, key);
    }
  }

  /** `Map.set` keeps the order: in place when the key is present, at the end when it is new. */
  lemma SetListPosition(lists: seq<FilterList>, source: string, filters: seq<Filter>)
    requires DistinctSources(lists)
    ensures DistinctSources(SetList(lists, source, filters))
    ensures forall i :: 0 <= i < |lists| && lists[i].source == source ==>
      SetList(lists, source, filters) == lists[i := FilterList(source, filters)]
    ensures DistinctSourcesFree(lists, source) ==>
      SetList(lists, source, filters) == lists + [FilterList(source, filters)]
  {
    SetListKeepsDistinct(lists, source, filters);
    forall i | 0 <= i < |lists| && lists[i].source == source
      ensures SetList(lists, source, filters) == lists[i := FilterList(source, filters)]
    {
      SetListReplaces(lists, source, filters, i);
    }
    if DistinctSourcesFree(lists, source) {
      SetListAppendsNew(lists, source, filters);
    }
  }

  lemma {:induction false} DistinctSourcesTail(lists: seq<FilterList>)
    requires lists != [] && DistinctSources(lists)
    ensures DistinctSources(lists[1..])
    ensures DistinctSourcesFree(lists[1..], lists[0].source)
  {
    var rest := lists[1..];
    forall i, j | 0 <= i < j < |rest| ensures rest[i].source != rest[j].source {
      assert rest[i] == lists[i + 1] && rest[j] == lists[j + 1];
    }
    forall i | 0 <= i < |rest| ensures rest[i].source != lists[0].source {
      assert rest[i] == lists[i + 1];
    }
  }

  /** With distinct keys, setting a present key replaces its entry where it stands. */
  lemma {:induction false} SetListReplaces(lists: seq<FilterList>, source: string, filters: seq<Filter>, i: nat)
    requires DistinctSources(lists) && i < |lists| && lists[i].source == source
    ensures SetList(lists, source, filters) == lists[i := FilterList(source, filters)]
    decreases i
  {
    if i == 0 {
      assert [FilterList(source, filters)] + lists[1..] == lists[0 := FilterList(source, filters)];
    } else {
      assert lists[0].source != lists[i].source;
      DistinctSourcesTail(lists);
      assert lists[1..][i - 1] == lists[i];
      SetListReplaces(lists[1..], source, filters, i - 1);
      assert [lists[0]] + lists[1..][i - 1 := FilterList(source, filters)] == lists[i := FilterList(source, filters)];
    }
  }

  /** Setting a key keeps the keys distinct. */
  lemma {:induction false} SetListKeepsDistinct(lists: seq<FilterList>, source: string, filters: seq<Filter>)
    requires DistinctSources(lists)
    ensures DistinctSources(SetList(lists, source, filters))
    decreases |lists|
  {
    if lists != [] {
      var r := SetList(lists, source, filters);
      DistinctSourcesTail(lists);
      if lists[0].source == source {
        forall i, j | 0 <= i < j < |r| ensures r[i].source != r[j].source {
          assert r[j] == lists[j];
          if i > 0 {
            assert r[i] == lists[i];
          }
        }
      } else {
        var rest := lists[1..];
        SetListKeepsDistinct(rest, source, filters);
        var r' := SetList(rest, source, filters);
        assert r == [lists[0]] + r';
        SetListSources(rest, source, filters);
        forall j | 0 < j < |r| ensures r[0].source != r[j].source {
          assert r[j] == r'[j - 1];
          if r'[j - 1].source != source {
            var k :| 0 <= k < |rest| && rest[k].source == r'[j - 1].source;
          }
        }
        forall i, j | 0 <= i < j < |r| ensures r[i].source != r[j].source {
          if i > 0 {
            assert r[i] == r'[i - 1] && r[j] == r'[j - 1];
          }
        }
      }
    }
  }

  function Sources(lists: seq<FilterList>): set<string>
  {
    set i | 0 <= i < |lists| :: lists[i].source
  }

  lemma {:induction false} SetListSources(lists: seq<FilterList>, source: string, filters: seq<Filter>)
    ensures forall k :: 0 <= k < |SetList(lists, source, filters)| ==>
      SetList(lists, source, filters)[k].source == source || SetList(lists, source, filters)[k].source in Sources(lists)
    decreases |lists|
  {
    if lists != [] && lists[0].source != source {
      SetListSources(lists[1..], source, filters);
      var r' := SetList(lists[1..], source, filters);
      forall k | 0 <= k < |r'| && r'[k].source != source ensures r'[k].source in Sources(lists) {
        var m :| 0 <= m < |lists[1..]| && lists[1..][m].source == r'[k].source;
        assert lists[m + 1].source == r'[k].source;
      }
    }
  }

  /**
    Loading the lists into an empty catalog keeps exactly the lists that load,
    in request order: a list whose fetch fails is never inserted.
   */
  lemma LoadedFromEmpty(sources: seq<string>, fetch: Fetcher, parse: ListParser)
    requires forall i, j :: 0 <= i < j < |sources| ==> sources[i] != sources[j]
    ensures Loaded([], sources, fetch, parse) == Successful(sources, fetch, parse)
  {
    LoadedAppends([], sources, fetch, parse);
    assert [] + Successful(sources, fetch, parse) == Successful(sources, fetch, parse);
  }

  /** The distinct sources not yet requested are absent from the catalog. */
  predicate Fresh(lists: seq<FilterList>, sources: seq<string>)
  {
    && (forall i, j :: 0 <= i < j < |sources| ==> sources[i] != sources[j])
    && (forall k :: 0 <= k < |sources| ==> DistinctSourcesFree(lists, sources[k]))
  }

  lemma FreshStep(lists: seq<FilterList>, sources: seq<string>, entry: Option<FilterList>)
    requires sources != [] && Fresh(lists, sources)
    requires entry.Some? ==> entry.value.source == sources[0]
    ensures Fresh(lists + (if entry.Some? then [entry.value] else []), sources[1..])
  {
    var next := lists + (if entry.Some? then [entry.value] else []);
    var rest := sources[1..];
    forall k | 0 <= k < |rest| ensures DistinctSourcesFree(next, rest[k]) {
      assert rest[k] == sources[k + 1];
      assert DistinctSourcesFree(lists, sources[k + 1]);
      forall i | 0 <= i < |next| ensures next[i].source != rest[k] {
        if i >= |lists| {
          assert sources[0] != sources[k + 1];
        }
      }
    }
    forall i, j | 0 <= i < j < |rest| ensures rest[i] != rest[j] {
      assert rest[i] == sources[i + 1] && rest[j] == sources[j + 1];
    }
  }

  lemma {:induction false} LoadedAppends(lists: seq<FilterList>, sources: seq<string>, fetch: Fetcher, parse: ListParser)
    requires Fresh(lists, sources)
    ensures Loaded(lists, sources, fetch, parse) == lists + Successful(sources, fetch, parse)
    decreases |sources|
  {
    if sources == [] {
      assert lists + [] == lists;
    } else if fetch(sources[0]).Some? {
      var entry := FilterList(sources[0], parse(fetch(sources[0]).value));
      FreshStep(lists, sources, Some(entry));
      LoadedAppends(lists + [entry], sources[1..], fetch, parse);
      assert DistinctSourcesFree(lists, sources[0]);
      SetListAppendsNew(lists, sources[0], entry.filters);
      var tail := Successful(sources[1..], fetch, parse);
      assert lists + [entry] + tail == lists + ([entry] + tail);
    } else {
      FreshStep(lists, sources, None);
      assert lists + [] == lists;
      LoadedAppends(lists, sources[1..], fetch, parse);
    }
  }

  /** No list of the catalog carries `source`. */
  predicate DistinctSourcesFree(lists: seq<FilterList>, source: string)
  {
    forall i :: 0 <= i < |lists| ==> lists[i].source != source
  }

  lemma {:induction false} SetListAppendsNew(lists: seq<FilterList>, source: string, filters: seq<Filter>)
    requires DistinctSourcesFree(lists, source)
    ensures SetList(lists, source, filters) == lists + [FilterList(source, filters)]
    decreases |lists|
  {
    if lists != [] {
      assert DistinctSourcesFree(lists[1..], source) by {
        forall i | 0 <= i < |lists[1..]| ensures lists[1..][i].source != source {
          assert lists[1..][i] == lists[i + 1];
        }
      }
      SetListAppendsNew(lists[1..], source, filters);
      assert [lists[0]] + (lists[1..] + [FilterList(source, filters)]) == lists + [FilterList(source, filters)];
    }
  }

  // ---------------------------------------------------------------------
  // UBlockIntegration
  // ---------------------------------------------------------------------

  class UBlockIntegration {
    var initialized: bool
    var filterLists: seq<FilterList>
    var blockedRequests: set<string>
    var whitelistDomains: set<string>
    var customFilters: seq<Filter>
    /** `new URL(url).hostname`, supplied by the platform. */
    const parseUrl: UrlParser
    /** The regular-expression test of `matchesPattern`, supplied by the platform. */
    const matchesPattern: PatternMatcher

    /** The catalog has one entry per list URL, and every whitelist entry is lower case. */
    ghost predicate Valid()
      reads this
    {
      DistinctSources(filterLists) && forall d :: d in whitelistDomains ==> IsLower(d)
    }

    /** The constructor's synchronous part: everything empty, not yet initialised. */
    constructor (parseUrl: UrlParser, matchesPattern: PatternMatcher)
      ensures Valid()
      ensures !initialized && filterLists == [] && blockedRequests == {}
      ensures whitelistDomains == {} && customFilters == []
      ensures this.parseUrl == parseUrl && this.matchesPattern == matchesPattern
    {
      initialized := false;
      filterLists := [];
      blockedRequests := {};
      whitelistDomains := {};
      customFilters := [];
      this.parseUrl := parseUrl;
      this.matchesPattern := matchesPattern;
    }

    /**
      `init` once its awaits have run: a second call does nothing; otherwise
      the essential lists are loaded in order and the flag is set.
     */
    method Init(fetch: Fetcher)
      requires Valid()
      modifies this`filterLists, this`initialized
      ensures Valid() && initialized
      ensures filterLists == if old(initialized) then old(filterLists) else Loaded(old(filterLists), EssentialLists, fetch, ParseListText)
    {
      if initialized {
        return;
      }
      LoadFilterLists(fetch);
      initialized := true;
    }

    /** `loadFilterLists`: each list that loads is parsed and set under its URL; one that fails is skipped. */
    method LoadFilterLists(fetch: Fetcher)
      requires Valid()
      modifies this`filterLists
      ensures Valid()
      ensures filterLists == Loaded(old(filterLists), EssentialLists, fetch, ParseListText)
    {
      var i := 0;
      while i < |EssentialLists|
        invariant 0 <= i <= |EssentialLists|
        invariant Valid()
        invariant Loaded(filterLists, EssentialLists[i..], fetch, ParseListText)
               == Loaded(old(filterLists), EssentialLists, fetch, ParseListText)
      {
        var listUrl := EssentialLists[i];
        assert EssentialLists[i..][1..] == EssentialLists[i + 1..];
        match fetch(listUrl) {
          case None =>
          case Some(text) =>
            var filters := ParseFilterList(text);
            SetListPosition(filterLists, listUrl, filters);
            filterLists := SetList(filterLists, listUrl, filters);
        }
        i := i + 1;
      }
    }

    /**
      `shouldBlockRequest`: the decision of `Decide` for the URL's hostname;
      the URL joins `blockedRequests` exactly when the answer is true.
     */
    method ShouldBlockRequest(url: string) returns (blocked: bool)
      modifies this`blockedRequests
      ensures blocked == Decide(initialized, whitelistDomains, filterLists, url, ExtractHostname(parseUrl, url), matchesPattern)
      ensures blockedRequests == if blocked then old(blockedRequests) + {url} else old(blockedRequests)
    {
      if !initialized {
        return false;
      }
      var hostname := ExtractHostname(parseUrl, url);
      var domain := ExtractDomain(hostname);
      if IsWhitelisted(whitelistDomains, hostname, domain) {
        return false;
      }
      var i := 0;
      while i < |filterLists|
        invariant 0 <= i <= |filterLists|
        invariant FirstMatch(Flatten(filterLists[..i]), url, hostname, matchesPattern).None?
        invariant blockedRequests == old(blockedRequests)
      {
        var filters := filterLists[i].filters;
        var j := 0;
        while j < |filters|
          invariant 0 <= j <= |filters|
          invariant forall k :: 0 <= k < j ==> !MatchesFilter(url, hostname, filters[k], matchesPattern)
          invariant blockedRequests == old(blockedRequests)
        {
          var filter := filters[j];
          if MatchesFilter(url, hostname, filter, matchesPattern) {
            FoundFirstMatch(filterLists, i, j, url, hostname, matchesPattern);
            DecideByFirstMatch(initialized, whitelistDomains, filterLists, url, hostname, matchesPattern);
            if filter.exception {
              return false;
            }
            blockedRequests := blockedRequests + {url};
            return true;
          }
          j := j + 1;
        }
        NoMatchInList(filterLists, i, url, hostname, matchesPattern);
        i := i + 1;
      }
      assert filterLists[..i] == filterLists;
      DecideByFirstMatch(initialized, whitelistDomains, filterLists, url, hostname, matchesPattern);
      return false;
    }

    /** `addCustomFilter`: the parsed text is appended; the custom filters are never consulted when matching. */
    method AddCustomFilter(filterText: string)
      modifies this`customFilters
      ensures customFilters == old(customFilters) + [ParseFilter(filterText)]
    {
      customFilters := customFilters + [ParseFilter(filterText)];
    }

    /** `addToWhitelist`: the lower-cased domain joins the set. */
    method AddToWhitelist(domain: string)
      requires Valid()
      modifies this`whitelistDomains
      ensures Valid()
      ensures whitelistDomains == old(whitelistDomains) + {ToLower(domain)}
    {
      ToLowerIsLower(domain);
      whitelistDomains := whitelistDomains + {ToLower(domain)};
    }

    /** `removeFromWhitelist`: only the lower-cased domain itself leaves the set. */
    method RemoveFromWhitelist(domain: string)
      requires Valid()
      modifies this`whitelistDomains
      ensures Valid()
      ensures whitelistDomains == old(whitelistDomains) - {ToLower(domain)}
    {
      whitelistDomains := whitelistDomains - {ToLower(domain)};
    }

    /** `getStats`: the number of filters over all lists and the sizes of the other collections. */
    function GetStats(): (s: Stats)
      reads this
      ensures s.totalFilters == |Flatten(filterLists)|
      ensures s.customFilters == |customFilters| && s.whitelistDomains == |whitelistDomains|
      ensures s.blockedRequests == |blockedRequests| && s.initialized == initialized
    {
      TotalFiltersIsFlattenLength(filterLists);
      Stats(TotalFilters(filterLists), |customFilters|, |whitelistDomains|, |blockedRequests|, initialized)
    }
  }

  /** Whitelisting a domain in any letter case allows a request to that host afterwards, whatever the filters say. */
  lemma WhitelistedHostIsNeverBlocked(whitelist: set<string>, domain: string, lists: seq<FilterList>,
                                      url: string, parseUrl: UrlParser, matches: PatternMatcher, initialized: bool)
    requires parseUrl(url) == Some(domain)
    ensures !Decide(initialized, whitelist + {ToLower(domain)}, lists, url, ExtractHostname(parseUrl, url), matches)
  {
  }

  /**
    Removal is by exact entry: after `removeFromWhitelist(domain)` a host below
    another entry (say `a.sub.example.com` after adding `sub.example.com` and
    removing `example.com`) is still whitelisted, and so never blocked.
   */
  lemma RemoveKeepsOtherEntries(whitelist: set<string>, domain: string, entry: string, sub: string,
                                lists: seq<FilterList>, url: string, matches: PatternMatcher, initialized: bool)
    requires entry in whitelist && entry != ToLower(domain)
    ensures var host := sub + "." + entry;
      && IsWhitelisted(whitelist - {ToLower(domain)}, host, ExtractDomain(host))
      && !Decide(initialized, whitelist - {ToLower(domain)}, lists, url, host, matches)
  {
    SubdomainOfEntryIsWhitelisted(whitelist - {ToLower(domain)}, entry, sub);
  }

  // ---------------------------------------------------------------------
  // DynamicFilteringEngine
  // ---------------------------------------------------------------------

  /** A dynamic rule: a substring to look for in the URL and the action to report. */
  datatype DynamicRule = DynamicRule(pattern: string, action: string)

  /** `matchesRule`. */
  predicate MatchesRule(url: string, rule: DynamicRule)
    ensures rule.pattern == [] ==> MatchesRule(url, rule)
    ensures MatchesRule(url, rule) ==> |rule.pattern| <= |url|
  {
    Contains(url, rule.pattern)
  }

  /** The rules stored under `domain`, in the order they were added. */
  function RulesFor(rules: map<string, seq<DynamicRule>>, domain: string): seq<DynamicRule>
  {
    if domain in rules then rules[domain] else []
  }

  /** The action of the first rule that matches the URL. */
  function FirstAction(rules: seq<DynamicRule>, url: string): (a: Option<string>)
    ensures a.None? <==> forall k :: 0 <= k < |rules| ==> !MatchesRule(url, rules[k])
  {
    if rules == [] then None
    else if MatchesRule(url, rules[0]) then Some(rules[0].action)
    else FirstAction(rules[1..], url)
  }

  /** The action reported is that of the first matching rule. */
  lemma {:induction false} FirstActionIsFirst(rules: seq<DynamicRule>, url: string, k: nat)
    requires k < |rules| && MatchesRule(url, rules[k])
    requires forall j :: 0 <= j < k ==> !MatchesRule(url, rules[j])
    ensures FirstAction(rules, url) == Some(rules[k].action)
    decreases k
  {
    if k > 0 {
      assert !MatchesRule(url, rules[0]);
      forall j | 0 <= j < k - 1 ensures !MatchesRule(url, rules[1..][j]) {
        assert rules[1..][j] == rules[j + 1];
      }
      FirstActionIsFirst(rules[1..], url, k - 1);
    }
  }

  /** A rule added later never overrides an earlier rule that already matches. */
  lemma {:induction false} FirstActionAppend(rules: seq<DynamicRule>, rule: DynamicRule, url: string)
    ensures FirstAction(rules + [rule], url)
      == if FirstAction(rules, url).Some? then FirstAction(rules, url)
         else if MatchesRule(url, rule) then Some(rule.action) else None
    decreases |rules|
  {
    if rules == [] {
      assert [] + [rule] == [rule];
    } else {
      assert (rules + [rule])[1..] == rules[1..] + [rule];
      FirstActionAppend(rules[1..], rule, url);
    }
  }

  class DynamicFilteringEngine {
    var dynamicRules: map<string, seq<DynamicRule>>

    constructor ()
      ensures dynamicRules == map[]
    {
      dynamicRules := map[];
    }

    /** `addRule`: the rule is appended under its domain, creating the entry when missing; other domains keep their rules. */
    method AddRule(domain: string, rule: DynamicRule)
      modifies this
      ensures dynamicRules == old(dynamicRules)[domain := RulesFor(old(dynamicRules), domain) + [rule]]
    {
      if domain !in dynamicRules {
        dynamicRules := dynamicRules[domain := []];
      }
      dynamicRules := dynamicRules[domain := dynamicRules[domain] + [rule]];
    }

    /** `checkDynamicRules`: the action of the first rule stored under the hostname's domain that matches the URL, else `null`. */
    method CheckDynamicRules(url: string, hostname: string) returns (action: Option<string>)
      ensures action == FirstAction(RulesFor(dynamicRules, ExtractDomain(hostname)), url)
    {
      var domain := ExtractDomain(hostname);
      if domain in dynamicRules {
        var rules := dynamicRules[domain];
        var i := 0;
        while i < |rules|
          invariant 0 <= i <= |rules|
          invariant forall j :: 0 <= j < i ==> !MatchesRule(url, rules[j])
        {
          if MatchesRule(url, rules[i]) {
            FirstActionIsFirst(rules, url, i);
            return Some(rules[i].action);
          }
          i := i + 1;
        }
      }
      return None;
    }
  }

  // ---------------------------------------------------------------------
  // CosmeticFilteringEngine
  // ---------------------------------------------------------------------

  class CosmeticFilteringEngine {
    var cosmeticFilters: seq<Filter>

    /** Only `cosmetic` filters are ever stored. */
    ghost predicate Valid()
      reads this
    {
      forall k :: 0 <= k < |cosmeticFilters| ==> cosmeticFilters[k].kind == Cosmetic
    }

    constructor ()
      ensures Valid() && cosmeticFilters == []
    {
      cosmeticFilters := [];
    }

    /** `addFilter`: a `cosmetic` filter is appended, any other filter is ignored. */
    method AddFilter(filter: Filter)
      requires Valid()
      modifies this
      ensures Valid()
      ensures cosmeticFilters == if filter.kind == Cosmetic then old(cosmeticFilters) + [filter] else old(cosmeticFilters)
    {
      if filter.kind == Cosmetic {
        cosmeticFilters := cosmeticFilters + [filter];
      }
    }
  }
}
