/**
  The rule compiler of `UBlockServiceWorker`, as values: how one parsed filter
  becomes a declarative blocking rule, and how the catalog becomes the rule
  list, with a rule counter that every attempted conversion advances and a
  cap of 5000 rules checked after each addition.
 */
module Compiler {
  import opened Wrappers
  import opened Text
  import opened Filters
  import opened Matching

  /** The request types a declarative rule can name. */
  datatype ResourceType =
    | MainFrame | SubFrame | Stylesheet | Script | Image | Font | Object
    | XmlHttpRequest | Ping | CspReport | Media | WebSocket | Other

  function ResourceTypeName(t: ResourceType): string
  {
    match t
    case MainFrame => "main_frame"
    case SubFrame => "sub_frame"
    case Stylesheet => "stylesheet"
    case Script => "script"
    case Image => "image"
    case Font => "font"
    case Object => "object"
    case XmlHttpRequest => "xmlhttprequest"
    case Ping => "ping"
    case CspReport => "csp_report"
    case Media => "media"
    case WebSocket => "websocket"
    case Other => "other"
  }

  /** The default list of `getResourceTypes`, in its order. */
  const AllResourceTypes: seq<ResourceType> :=
    [MainFrame, SubFrame, Stylesheet, Script, Image, Font, Object,
     XmlHttpRequest, Ping, CspReport, Media, WebSocket, Other]

  /** The options that narrow a rule to one type, in the order they are tried. */
  const Narrowing: seq<ResourceType> := [Script, Image, Stylesheet, Font, Media, Object, XmlHttpRequest]

  /** Chrome's limit on the number of rules, checked after each addition. */
  const RULE_LIMIT: nat := 5000

  /**
    A declarative rule. The action is always `{type: 'block'}`, recorded here
    by its type string; `initiatorDomains` is present only for a `domain` option.
   */
  datatype Rule = Rule(id: nat, priority: nat, action: string, urlFilter: string,
                       resourceTypes: seq<ResourceType>, initiatorDomains: Option<seq<string>>)

  /** JavaScript truthiness of `options[key]`: absent is falsy, `true` is truthy, a string is truthy when not empty. */
  predicate Truthy(options: Options, key: string)
  {
    key in options && (options[key].Flag? || options[key].text != "")
  }

  /** `convertPatternToUrlFilter`: drop the leading `||` and one trailing `^`, else a leading `|`, else a trailing `|`. */
  function ConvertPatternToUrlFilter(pattern: string): (u: string)
    ensures |u| <= |pattern|
  {
    if StartsWith(pattern, "||") then
      var s := pattern[2..];
      if EndsWith(s, "^") then s[..|s| - 1] else s
    else if StartsWith(pattern, "|") then pattern[1..]
    else if EndsWith(pattern, "|") then pattern[..|pattern| - 1]
    else pattern
  }

  /** `getResourceTypes`: the first truthy narrowing option gives one type, none gives the default list. */
  function GetResourceTypes(options: Options): (types: seq<ResourceType>)
    ensures types == AllResourceTypes || (|types| == 1 && types[0] in Narrowing)
  {
    if Truthy(options, "script") then [Script]
    else if Truthy(options, "image") then [Image]
    else if Truthy(options, "stylesheet") then [Stylesheet]
    else if Truthy(options, "font") then [Font]
    else if Truthy(options, "media") then [Media]
    else if Truthy(options, "object") then [Object]
    else if Truthy(options, "xmlhttprequest") then [XmlHttpRequest]
    else AllResourceTypes
  }

  /** The non-empty strings of `parts`, in order: `filter(d => d)`. */
  function NonEmpty(parts: seq<string>): (kept: seq<string>)
    ensures |kept| <= |parts|
    ensures forall k :: 0 <= k < |kept| ==> kept[k] != [] && kept[k] in parts
    ensures forall p :: p in parts && p != [] ==> p in kept
  {
    if parts == [] then []
    else if parts[0] == [] then NonEmpty(parts[1..])
    else [parts[0]] + NonEmpty(parts[1..])
  }

  /** `parts.map(d => d.trim())`. */
  function TrimAll(parts: seq<string>): (trimmed: seq<string>)
    ensures |trimmed| == |parts|
    ensures forall k :: 0 <= k < |parts| ==> trimmed[k] == Trim(parts[k])
  {
    if parts == [] then [] else [Trim(parts[0])] + TrimAll(parts[1..])
  }

  /** `parseDomains`: split on `,`, trim each piece, drop the empty ones. */
  function ParseDomains(domainStr: string): (domains: seq<string>)
    ensures |domains| <= |Split(domainStr, ',')|
    ensures forall k :: 0 <= k < |domains| ==> domains[k] != []
  {
    NonEmpty(TrimAll(Split(domainStr, ',')))
  }

  /** The five network types. */
  predicate IsNetwork(t: FilterType)
  {
    t.NetworkDomain? || t.NetworkStart? || t.NetworkEnd? || t.NetworkPattern? || t.NetworkPlain?
  }

  /**
    The filters the compiler looks at: a network type and not an exception
    (`EligibleKinds` shows this is the test on the `network` prefix of the type string).
   */
  predicate Eligible(f: Filter)
  {
    IsNetwork(f.kind) && !f.exception
  }

  /**
    `convertFilterToRule` as a value, given the id the counter hands out. A bare
    `$domain` flag stores `true`, and `true.split` throws, so that filter yields
    no rule.
   */
  function ConvertFilter(f: Filter, id: nat): (r: Option<Rule>)
    ensures r.None? <==> ("domain" in f.options && f.options["domain"].Flag?)
    ensures r.Some? ==> r.value.id == id && r.value.priority == 1 && r.value.action == "block"
    ensures r.Some? ==> (r.value.initiatorDomains.Some? <==> Truthy(f.options, "domain"))
  {
    var resourceTypes := GetResourceTypes(f.options);
    var urlFilter := ConvertPatternToUrlFilter(f.pattern);
    if Truthy(f.options, "domain") then
      match f.options["domain"]
      case Flag => None
      case Str(text) => Some(Rule(id, 1, "block", urlFilter, resourceTypes, Some(ParseDomains(text))))
    else
      Some(Rule(id, 1, "block", urlFilter, resourceTypes, None))
  }

  /** The rule list built so far and the next id the counter hands out. */
  datatype Compiled = Compiled(rules: seq<Rule>, nextId: nat)

  /**
    The inner loop of `generateDeclarativeRules` over one list: each eligible
    filter takes an id; a rule that brings the count to the limit ends the list.
   */
  function CompileList(filters: seq<Filter>, c: Compiled): Compiled
    decreases |filters|
  {
    if filters == [] then c
    else if !Eligible(filters[0]) then CompileList(filters[1..], c)
    else
      match ConvertFilter(filters[0], c.nextId)
      case None => CompileList(filters[1..], Compiled(c.rules, c.nextId + 1))
      case Some(rule) =>
        var next := Compiled(c.rules + [rule], c.nextId + 1);
        if |next.rules| >= RULE_LIMIT then next else CompileList(filters[1..], next)
  }

  /** The outer loop: the lists in catalog order. */
  function CompileLists(lists: seq<FilterList>, c: Compiled): Compiled
    decreases |lists|
  {
    if lists == [] then c else CompileLists(lists[1..], CompileList(lists[0].filters, c))
  }

  /** One list advances the counter by at most one per filter, and every new rule used up an id. */
  lemma {:induction false} CompileListCounts(filters: seq<Filter>, c: Compiled)
    ensures var r := CompileList(filters, c);
      && c.nextId <= r.nextId <= c.nextId + |filters|
      && |c.rules| <= |r.rules| <= |c.rules| + (r.nextId - c.nextId)
    decreases |filters|
  {
    if filters != [] {
      CompileListCounts(filters[1..], c);
      CompileListCounts(filters[1..], Compiled(c.rules, c.nextId + 1));
      match ConvertFilter(filters[0], c.nextId)
      case None =>
      case Some(rule) => CompileListCounts(filters[1..], Compiled(c.rules + [rule], c.nextId + 1));
    }
  }

  /** Over the whole catalog the counter never goes back, and every new rule used up an id. */
  lemma {:induction false} CompileListsCounts(lists: seq<FilterList>, c: Compiled)
    ensures var r := CompileLists(lists, c);
      && c.nextId <= r.nextId
      && |c.rules| <= |r.rules| <= |c.rules| + (r.nextId - c.nextId)
    decreases |lists|
  {
    if lists != [] {
      CompileListCounts(lists[0].filters, c);
      CompileListsCounts(lists[1..], CompileList(lists[0].filters, c));
    }
  }

  // One step of each loop, for the methods that run them.

  lemma CompileListSkips(filters: seq<Filter>, j: nat, c: Compiled)
    requires j < |filters| && !Eligible(filters[j])
    ensures CompileList(filters[j..], c) == CompileList(filters[j + 1..], c)
  {
    assert filters[j..][1..] == filters[j + 1..];
  }

  lemma CompileListFails(filters: seq<Filter>, j: nat, c: Compiled)
    requires j < |filters| && Eligible(filters[j]) && ConvertFilter(filters[j], c.nextId).None?
    ensures CompileList(filters[j..], c) == CompileList(filters[j + 1..], Compiled(c.rules, c.nextId + 1))
  {
    CompileListFailsHead(filters[j..], c);
    assert filters[j..][1..] == filters[j + 1..];
  }

  lemma CompileListFailsHead(xs: seq<Filter>, c: Compiled)
    requires xs != [] && Eligible(xs[0]) && ConvertFilter(xs[0], c.nextId).None?
    ensures CompileList(xs, c) == CompileList(xs[1..], Compiled(c.rules, c.nextId + 1))
  {
  }

  lemma CompileListPushes(filters: seq<Filter>, j: nat, c: Compiled, rule: Rule)
    requires j < |filters| && Eligible(filters[j]) && ConvertFilter(filters[j], c.nextId) == Some(rule)
    requires |c.rules| + 1 < RULE_LIMIT
    ensures CompileList(filters[j..], c) == CompileList(filters[j + 1..], Compiled(c.rules + [rule], c.nextId + 1))
  {
    assert filters[j..][0] == filters[j];
    assert filters[j..][1..] == filters[j + 1..];
  }

  lemma CompileListReachesLimit(filters: seq<Filter>, j: nat, c: Compiled, rule: Rule)
    requires j < |filters| && Eligible(filters[j]) && ConvertFilter(filters[j], c.nextId) == Some(rule)
    requires |c.rules| + 1 >= RULE_LIMIT
    ensures CompileList(filters[j..], c) == Compiled(c.rules + [rule], c.nextId + 1)
  {
    assert filters[j..][0] == filters[j];
  }

  lemma CompileListsSteps(lists: seq<FilterList>, i: nat, c: Compiled)
    requires i < |lists|
    ensures CompileLists(lists[i..], c) == CompileLists(lists[i + 1..], CompileList(lists[i].filters, c))
  {
    assert lists[i..][1..] == lists[i + 1..];
  }

  // ---------------------------------------------------------------------
  // Counting
  // ---------------------------------------------------------------------

  /** An eligible filter whose conversion succeeds. */
  predicate Convertible(f: Filter)
  {
    Eligible(f) && !("domain" in f.options && f.options["domain"].Flag?)
  }

  function EligibleCount(filters: seq<Filter>): nat
  {
    if filters == [] then 0 else (if Eligible(filters[0]) then 1 else 0) + EligibleCount(filters[1..])
  }

  function ConvertibleCount(filters: seq<Filter>): nat
  {
    if filters == [] then 0 else (if Convertible(filters[0]) then 1 else 0) + ConvertibleCount(filters[1..])
  }

  function Min(a: int, b: int): int { if a <= b then a else b }

  function Max(a: int, b: int): int { if a >= b then a else b }

  /** Ids strictly increase along the list and all lie below the counter. */
  predicate IdsBelow(rules: seq<Rule>, next: nat)
  {
    && (forall i, j :: 0 <= i < j < |rules| ==> rules[i].id < rules[j].id)
    && (forall i :: 0 <= i < |rules| ==> rules[i].id < next)
  }

  // ---------------------------------------------------------------------
  // Single conversions
  // ---------------------------------------------------------------------

  /** A filter is eligible exactly when its type string starts with `network` and it is not an exception. */
  lemma EligibleKinds(f: Filter)
    ensures Eligible(f) <==> StartsWith(TypeName(f.kind), "network") && !f.exception
  {
    match f.kind
    case Unknown => assert TypeName(f.kind)[0] == 'u';
    case Cosmetic => assert TypeName(f.kind)[0] == 'c';
    case CosmeticException => assert TypeName(f.kind)[0] == 'c';
    case _ =>
  }

  /** A rule lists either the one type of the first truthy narrowing option, or all thirteen types when none is truthy. */
  lemma GetResourceTypesFirstTruthy(options: Options, k: nat)
    requires k < |Narrowing|
    requires Truthy(options, ResourceTypeName(Narrowing[k]))
    requires forall j :: 0 <= j < k ==> !Truthy(options, ResourceTypeName(Narrowing[j]))
    ensures GetResourceTypes(options) == [Narrowing[k]]
  {
  }

  lemma GetResourceTypesDefault(options: Options)
    requires forall j :: 0 <= j < |Narrowing| ==> !Truthy(options, ResourceTypeName(Narrowing[j]))
    ensures GetResourceTypes(options) == AllResourceTypes
  {
    assert !Truthy(options, ResourceTypeName(Narrowing[0]));
    assert !Truthy(options, ResourceTypeName(Narrowing[1]));
    assert !Truthy(options, ResourceTypeName(Narrowing[2]));
    assert !Truthy(options, ResourceTypeName(Narrowing[3]));
    assert !Truthy(options, ResourceTypeName(Narrowing[4]));
    assert !Truthy(options, ResourceTypeName(Narrowing[5]));
    assert !Truthy(options, ResourceTypeName(Narrowing[6]));
  }

  /** The default list names each of the thirteen types once. */
  lemma AllResourceTypesComplete(t: ResourceType)
    ensures t in AllResourceTypes
    ensures forall i, j :: 0 <= i < j < |AllResourceTypes| ==> AllResourceTypes[i] != AllResourceTypes[j]
  {
  }

  /** `||host^` becomes `host`: the anchor and one separator are dropped. */
  lemma UrlFilterOfDomainPattern(inner: string)
    ensures ConvertPatternToUrlFilter("||" + inner + "^") == inner
  {
    var p := "||" + inner + "^";
    assert StartsWith(p, "||");
    assert p[2..] == inner + "^";
  }

  /** `|start` becomes `start` and `end|` becomes `end`, when the other end carries no anchor. */
  lemma UrlFilterOfAnchors(s: string)
    requires s == [] || s[0] != '|'
    ensures ConvertPatternToUrlFilter("|" + s) == s
    ensures ConvertPatternToUrlFilter(s + "|") == s
  {
    assert ("|" + s)[1..] == s;
    assert (s + "|")[..|s|] == s;
    if s == [] {
      assert "|" + s == "|";
    } else {
      assert !StartsWith(s + "|", "|");
    }
  }

  /** A pattern with no `|` at either end is passed through unchanged. */
  lemma UrlFilterOfUnanchored(s: string)
    requires s == [] || (s[0] != '|' && s[|s| - 1] != '|')
    ensures ConvertPatternToUrlFilter(s) == s
  {
  }

  /** `||x` without a trailing `^` keeps everything after the double bar. */
  lemma UrlFilterOfDoubleBar(x: string)
    requires x == [] || x[|x| - 1] != '^'
    ensures ConvertPatternToUrlFilter("||" + x) == x
  {
    assert ("||" + x)[2..] == x;
    assert StartsWith("||" + x, "||");
    assert "^"[0] == '^' && !EndsWith(x, "^");
  }

  /** Every non-empty piece list is kept whole: `filter(d => d)` drops nothing else and keeps the order. */
  lemma {:induction false} NonEmptyKeepsAll(parts: seq<string>)
    requires forall k :: 0 <= k < |parts| ==> parts[k] != []
    ensures NonEmpty(parts) == parts
    decreases |parts|
  {
    if parts != [] {
      NonEmptyKeepsAll(parts[1..]);
    }
  }

  /** The url filter is the pattern less at most two leading characters and one trailing character. */
  lemma UrlFilterIsInfix(pattern: string) returns (offset: nat)
    ensures var u := ConvertPatternToUrlFilter(pattern);
      offset <= 2 && offset + |u| <= |pattern| <= offset + |u| + 1 && pattern[offset..offset + |u|] == u
  {
    var u := ConvertPatternToUrlFilter(pattern);
    var end: nat;
    if StartsWith(pattern, "||") {
      offset := 2;
      end := if EndsWith(pattern[2..], "^") then |pattern| - 1 else |pattern|;
    } else if StartsWith(pattern, "|") {
      offset, end := 1, |pattern|;
    } else if EndsWith(pattern, "|") {
      offset, end := 0, |pattern| - 1;
    } else {
      offset, end := 0, |pattern|;
    }
    assert u == pattern[offset..end];
  }

  /**
    For a `network_start` pattern without options the compiled url filter is
    the prefix the matcher tests, and for a `network_end` one it is the suffix
    the matcher tests.
   */
  lemma UrlFilterAgreesWithMatcherOnAnchors(f: Filter)
    requires f.pattern != []
    ensures f.pattern[0] == '|' && (|f.pattern| == 1 || f.pattern[1] != '|')
      ==> ConvertPatternToUrlFilter(f.pattern) == DropFirst(f.pattern)
    ensures f.pattern[0] != '|' && f.pattern[|f.pattern| - 1] == '|'
      ==> ConvertPatternToUrlFilter(f.pattern) == DropLast(f.pattern)
  {
    if f.pattern[0] == '|' && (|f.pattern| == 1 || f.pattern[1] != '|') {
      assert f.pattern == "|" + f.pattern[1..];
      UrlFilterOfAnchors(f.pattern[1..]);
    }
    if f.pattern[0] != '|' && f.pattern[|f.pattern| - 1] == '|' {
      assert f.pattern == f.pattern[..|f.pattern| - 1] + "|";
      UrlFilterOfAnchors(f.pattern[..|f.pattern| - 1]);
    }
  }

  /**
    The type is read from the options tail but the url filter from the
    pattern: `ads$domain=a.com|` is a `network_end` filter, so the matcher
    tests the suffix `ad`, while its compiled rule carries `ads`.
   */
  lemma EndTypeFromOptionsTail(p: string, tail: string)
    requires p != [] && p[0] != '|' && p[0] != '@' && p[|p| - 1] != '|' && '$' !in p
    requires '#' !in p && '#' !in tail && tail != [] && tail[|tail| - 1] == '|'
    ensures var f := ParseFilter(p + "$" + tail);
      && f.kind == NetworkEnd
      && DropLast(f.pattern) == p[..|p| - 1]
      && ConvertPatternToUrlFilter(f.pattern) == p
  {
    OptionsTailTakesPartInClassification(p, tail);
    assert !StartsWith(p, "|") && !EndsWith(p, "|");
  }

  /** Each initiator domain is non-empty and trimmed, and joining a list with `,` parses to the concatenation. */
  lemma {:induction false} ParseDomainsShape(domainStr: string)
    ensures forall k :: 0 <= k < |ParseDomains(domainStr)| ==>
      ParseDomains(domainStr)[k] != [] && IsTrimmed(ParseDomains(domainStr)[k]) && ',' !in ParseDomains(domainStr)[k]
  {
    var pieces := Split(domainStr, ',');
    var trimmed := TrimAll(pieces);
    SplitPieces(domainStr, ',');
    forall k | 0 <= k < |trimmed| ensures IsTrimmed(trimmed[k]) && ',' !in trimmed[k] {
      TrimIsTrimmed(pieces[k]);
      TrimAvoid(pieces[k], ',');
    }
  }

  lemma {:induction false} NonEmptyAppend(a: seq<string>, b: seq<string>)
    ensures NonEmpty(a + b) == NonEmpty(a) + NonEmpty(b)
    decreases |a|
  {
    if a == [] {
      assert a + b == b;
    } else {
      assert (a + b)[0] == a[0] && (a + b)[1..] == a[1..] + b;
      NonEmptyAppend(a[1..], b);
    }
  }

  /** `parseDomains("a,b")` is `parseDomains("a") + parseDomains("b")`. */
  lemma ParseDomainsAppend(a: string, b: string)
    ensures ParseDomains(a + "," + b) == ParseDomains(a) + ParseDomains(b)
  {
    SplitAtSeparator(a, ',', b);
    var pa, pb := Split(a, ','), Split(b, ',');
    TrimAllAppend(pa, pb);
    NonEmptyAppend(TrimAll(pa), TrimAll(pb));
  }

  lemma TrimAllAppend(a: seq<string>, b: seq<string>)
    ensures TrimAll(a + b) == TrimAll(a) + TrimAll(b)
  {
    assert forall k :: 0 <= k < |a + b| ==> (a + b)[k] == if k < |a| then a[k] else b[k - |a|];
  }

  /**
    A rule compiled from a parsed line names at most one initiator domain: by
    the time `parseDomains` runs, `parseOptions` has already cut the option
    string at every comma, so `$domain=a.com,b.com` restricts to `a.com` alone.
   */
  lemma ParsedDomainRuleHasOneInitiator(line: string, id: nat)
    requires ConvertFilter(ParseFilter(line), id).Some?
    ensures var r := ConvertFilter(ParseFilter(line), id).value;
      r.initiatorDomains.Some? ==> |r.initiatorDomains.value| <= 1
  {
    var f := ParseFilter(line);
    ParseFilterCommaFree(line);
    if Truthy(f.options, "domain") {
      var text := f.options["domain"].text;
      assert CommaFree(f.options["domain"]);
      SplitCount(text, ',');
    }
  }

  // ---------------------------------------------------------------------
  // The rule list
  // ---------------------------------------------------------------------

  /**
    `after` continues `before`: the rules already built stay in place, the ids
    ascend and lie below the counter, the counter never goes back, and every
    new rule has an id the counter had not yet handed out.
   */
  predicate Extends(before: Compiled, after: Compiled)
  {
    && IdsBelow(after.rules, after.nextId)
    && before.nextId <= after.nextId
    && |before.rules| <= |after.rules| && after.rules[..|before.rules|] == before.rules
    && (forall k :: |before.rules| <= k < |after.rules| ==> before.nextId <= after.rules[k].id)
  }

  lemma ExtendsTrans(a: Compiled, b: Compiled, c: Compiled)
    requires Extends(a, b) && Extends(b, c)
    ensures Extends(a, c)
  {
    assert c.rules[..|a.rules|] == c.rules[..|b.rules|][..|a.rules|];
    forall k | |a.rules| <= k < |c.rules| ensures a.nextId <= c.rules[k].id {
      if k < |b.rules| {
        assert c.rules[k] == c.rules[..|b.rules|][k];
      }
    }
  }

  /** Adding a rule under the counter's id and advancing the counter extends. */
  lemma ExtendsByOne(c: Compiled, rule: Rule)
    requires IdsBelow(c.rules, c.nextId) && rule.id == c.nextId
    ensures Extends(c, Compiled(c.rules + [rule], c.nextId + 1))
  {
    NextIdsBelow(c, rule);
    assert (c.rules + [rule])[..|c.rules|] == c.rules;
  }

  /** One list extends the rule list it started from. */
  lemma {:induction false} CompileListKeepsIds(filters: seq<Filter>, c: Compiled)
    requires IdsBelow(c.rules, c.nextId)
    ensures Extends(c, CompileList(filters, c))
    decreases |filters|
  {
    if filters == [] {
      assert c.rules[..|c.rules|] == c.rules;
    } else {
      var conv := ConvertFilter(filters[0], c.nextId);
      if !Eligible(filters[0]) {
        CompileListKeepsIds(filters[1..], c);
      } else if conv.None? {
        var next := Compiled(c.rules, c.nextId + 1);
        CompileListKeepsIds(filters[1..], next);
        assert Extends(c, next) by {
          assert c.rules[..|c.rules|] == c.rules;
        }
        ExtendsTrans(c, next, CompileList(filters, c));
      } else {
        var next := Compiled(c.rules + [conv.value], c.nextId + 1);
        ExtendsByOne(c, conv.value);
        if |next.rules| < RULE_LIMIT {
          CompileListKeepsIds(filters[1..], next);
          ExtendsTrans(c, next, CompileList(filters, c));
        }
      }
    }
  }

  /** Appending a rule with the counter's id and advancing the counter keeps the ids ordered. */
  lemma NextIdsBelow(c: Compiled, rule: Rule)
    requires IdsBelow(c.rules, c.nextId) && rule.id == c.nextId
    ensures IdsBelow(c.rules + [rule], c.nextId + 1)
  {
    var rules := c.rules + [rule];
    forall i, j | 0 <= i < j < |rules| ensures rules[i].id < rules[j].id {
      if j < |c.rules| {
        assert rules[i] == c.rules[i] && rules[j] == c.rules[j];
      } else {
        assert rules[i] == c.rules[i];
      }
    }
  }

  /** The whole catalog extends the rule list it started from. */
  lemma {:induction false} CompileListsKeepsIds(lists: seq<FilterList>, c: Compiled)
    requires IdsBelow(c.rules, c.nextId)
    ensures Extends(c, CompileLists(lists, c))
    decreases |lists|
  {
    if lists == [] {
      assert c.rules[..|c.rules|] == c.rules;
    } else {
      var mid := CompileList(lists[0].filters, c);
      CompileListKeepsIds(lists[0].filters, c);
      CompileListsKeepsIds(lists[1..], mid);
      ExtendsTrans(c, mid, CompileLists(lists, c));
    }
  }

  /**
    The exact size one list leaves: every convertible filter adds a rule until
    the count reaches the limit; a list that starts at or above the limit still
    adds its first convertible filter.
   */
  lemma {:induction false} CompileListSize(filters: seq<Filter>, c: Compiled)
    ensures |CompileList(filters, c).rules|
      == Min(|c.rules| + ConvertibleCount(filters), Max(|c.rules| + 1, RULE_LIMIT))
    decreases |filters|
  {
    if filters != [] {
      if !Eligible(filters[0]) {
        CompileListSize(filters[1..], c);
      } else {
        match ConvertFilter(filters[0], c.nextId)
        case None =>
          CompileListSize(filters[1..], Compiled(c.rules, c.nextId + 1));
        case Some(rule) =>
          var next := Compiled(c.rules + [rule], c.nextId + 1);
          if |next.rules| < RULE_LIMIT {
            CompileListSize(filters[1..], next);
          }
      }
    }
  }

  /** Below the limit, every eligible filter takes exactly one id, even one whose conversion fails. */
  lemma {:induction false} CompileListUnderLimit(filters: seq<Filter>, c: Compiled)
    requires |c.rules| + ConvertibleCount(filters) < RULE_LIMIT
    ensures CompileList(filters, c).nextId == c.nextId + EligibleCount(filters)
    ensures |CompileList(filters, c).rules| == |c.rules| + ConvertibleCount(filters)
    decreases |filters|
  {
    if filters != [] {
      if !Eligible(filters[0]) {
        CompileListUnderLimit(filters[1..], c);
      } else {
        match ConvertFilter(filters[0], c.nextId)
        case None =>
          CompileListUnderLimit(filters[1..], Compiled(c.rules, c.nextId + 1));
        case Some(rule) =>
          CompileListUnderLimit(filters[1..], Compiled(c.rules + [rule], c.nextId + 1));
      }
    }
  }

  /**
    The limit stops one list only: a list that starts at or beyond the limit
    still adds exactly one rule when it holds a convertible filter.
   */
  lemma LimitIsPerList(filters: seq<Filter>, c: Compiled)
    requires |c.rules| >= RULE_LIMIT && ConvertibleCount(filters) >= 1
    ensures |CompileList(filters, c).rules| == |c.rules| + 1
  {
    CompileListSize(filters, c);
  }

  /** Over the catalog the rule count stays below the limit plus the number of lists. */
  lemma {:induction false} CompileListsBound(lists: seq<FilterList>, c: Compiled)
    ensures |CompileLists(lists, c).rules| <= Max(|c.rules|, RULE_LIMIT - 1) + |lists|
    decreases |lists|
  {
    if lists != [] {
      var mid := CompileList(lists[0].filters, c);
      CompileListSize(lists[0].filters, c);
      CompileListsBound(lists[1..], mid);
    }
  }

  /** The rule `rule` is the conversion of an eligible filter of `filters`, under the rule's own id. */
  predicate ConvertedFromOne(rule: Rule, filters: seq<Filter>)
  {
    exists j :: 0 <= j < |filters| && Eligible(filters[j]) && ConvertFilter(filters[j], rule.id) == Some(rule)
  }

  /** The rules from position `from` on each come from an eligible filter of `filters`. */
  predicate ConvertedFrom(rules: seq<Rule>, from: int, filters: seq<Filter>)
  {
    forall k :: from <= k < |rules| && 0 <= k ==> ConvertedFromOne(rules[k], filters)
  }

  lemma ConvertedFromMore(rules: seq<Rule>, from: int, filters: seq<Filter>)
    requires filters != [] && ConvertedFrom(rules, from, filters[1..])
    ensures ConvertedFrom(rules, from, filters)
  {
    forall k | from <= k < |rules| && 0 <= k ensures ConvertedFromOne(rules[k], filters) {
      var rest := filters[1..];
      assert ConvertedFromOne(rules[k], rest);
      var j :| 0 <= j < |rest| && Eligible(rest[j]) && ConvertFilter(rest[j], rules[k].id) == Some(rules[k]);
      assert rest[j] == filters[j + 1];
    }
  }

  /** Every compiled rule is the conversion of an eligible filter of the list, under the rule's own id. */
  lemma {:induction false} CompileListRulesFromFilters(filters: seq<Filter>, c: Compiled)
    ensures ConvertedFrom(CompileList(filters, c).rules, |c.rules|, filters)
    decreases |filters|
  {
    if filters != [] {
      var conv := ConvertFilter(filters[0], c.nextId);
      if !Eligible(filters[0]) {
        CompileListRulesFromFilters(filters[1..], c);
        ConvertedFromMore(CompileList(filters, c).rules, |c.rules|, filters);
      } else if conv.None? {
        CompileListRulesFromFilters(filters[1..], Compiled(c.rules, c.nextId + 1));
        ConvertedFromMore(CompileList(filters, c).rules, |c.rules|, filters);
      } else if |c.rules| + 1 >= RULE_LIMIT {
        assert ConvertFilter(filters[0], conv.value.id) == conv;
      } else {
        var next := Compiled(c.rules + [conv.value], c.nextId + 1);
        CompileListRulesFromFilters(filters[1..], next);
        RulesFromFiltersAfterAdding(filters, c, conv.value);
      }
    }
  }

  /** The step of the lemma above where the first filter adds a rule below the limit. */
  lemma RulesFromFiltersAfterAdding(filters: seq<Filter>, c: Compiled, rule: Rule)
    requires filters != [] && Eligible(filters[0]) && ConvertFilter(filters[0], c.nextId) == Some(rule)
    requires |c.rules| + 1 < RULE_LIMIT
    requires ConvertedFrom(CompileList(filters[1..], Compiled(c.rules + [rule], c.nextId + 1)).rules, |c.rules| + 1, filters[1..])
    ensures ConvertedFrom(CompileList(filters, c).rules, |c.rules|, filters)
  {
    var next := Compiled(c.rules + [rule], c.nextId + 1);
    var r := CompileList(filters, c);
    assert r == CompileList(filters[1..], next);
    CompileListKeepsPrefix(filters[1..], next);
    ConvertedFromMore(r.rules, |next.rules|, filters);
    assert r.rules[|c.rules|] == rule by {
      assert r.rules[..|next.rules|] == next.rules;
    }
    assert ConvertedFromOne(rule, filters) by {
      assert ConvertFilter(filters[0], rule.id) == Some(rule);
    }
  }

  /** The rules already built stay in place. */
  lemma {:induction false} CompileListKeepsPrefix(filters: seq<Filter>, c: Compiled)
    ensures var r := CompileList(filters, c); |c.rules| <= |r.rules| && r.rules[..|c.rules|] == c.rules
    decreases |filters|
  {
    if filters != [] {
      if !Eligible(filters[0]) {
        CompileListKeepsPrefix(filters[1..], c);
      } else {
        match ConvertFilter(filters[0], c.nextId)
        case None =>
          CompileListKeepsPrefix(filters[1..], Compiled(c.rules, c.nextId + 1));
        case Some(rule) =>
          var next := Compiled(c.rules + [rule], c.nextId + 1);
          if |next.rules| < RULE_LIMIT {
            CompileListKeepsPrefix(filters[1..], next);
            var r := CompileList(filters[1..], next);
            assert r.rules[..|c.rules|] == r.rules[..|next.rules|][..|c.rules|];
          }
      }
    }
  }
}
