/**
  The service worker: it owns an integration, compiles the catalog into
  numbered declarative block rules, reinstalls them through the
  `updateDynamicRules` sink with a full remove-then-add, and answers the
  messages content scripts and the popup send.
 */
module ServiceWorker {
  import opened Wrappers
  import opened Text
  import opened Filters
  import opened Matching
  import opened Compiler
  import opened Integration

  /** The two kinds of `updateDynamicRules` call the worker makes, as recorded by the sink. */
  datatype SinkCall = RemoveRuleIds(ids: seq<nat>) | AddRules(rules: seq<Rule>)

  /** `rules.map(rule => rule.id)`. */
  function RuleIds(rules: seq<Rule>): (ids: seq<nat>)
    ensures |ids| == |rules|
    ensures forall k :: 0 <= k < |rules| ==> ids[k] == rules[k].id
  {
    if rules == [] then [] else [rules[0].id] + RuleIds(rules[1..])
  }

  /** What one rebuild sends: the removal of every held id, then the new rules if there are any. */
  function RebuildCalls(held: seq<Rule>, rebuilt: seq<Rule>): seq<SinkCall>
  {
    [RemoveRuleIds(RuleIds(held))] + (if rebuilt == [] then [] else [AddRules(rebuilt)])
  }

  /** A message: its `type` and the payload fields the handled types read. */
  datatype Message = Message(kind: string, filter: string, domain: string, url: string)

  /** The `type` strings `handleMessage` handles, and every other string. */
  datatype MessageKind = AddFilter | Whitelist | Unwhitelist | GetStats | ShouldBlock | Unhandled

  /** The `switch` on `message.type`. */
  function KindOf(kind: string): (k: MessageKind)
    ensures k == AddFilter <==> kind == "ublock_addFilter"
    ensures k == Whitelist <==> kind == "ublock_whitelist"
    ensures k == Unwhitelist <==> kind == "ublock_unwhitelist"
    ensures k == GetStats <==> kind == "ublock_getStats"
    ensures k == ShouldBlock <==> kind == "ublock_shouldBlock"
  {
    if kind == "ublock_addFilter" then AddFilter
    else if kind == "ublock_whitelist" then Whitelist
    else if kind == "ublock_unwhitelist" then Unwhitelist
    else if kind == "ublock_getStats" then GetStats
    else if kind == "ublock_shouldBlock" then ShouldBlock
    else Unhandled
  }

  /** The object passed to `sendResponse`; an absent field is `None`. */
  datatype Response = Response(success: bool, stats: Option<Stats>, shouldBlock: Option<bool>, error: Option<string>)

  function Ok(): Response
  {
    Response(true, None, None, None)
  }

  /**
    Two rebuilds in a row never hand out an id twice: every rule of the
    second rebuild has a larger id than every rule of the first, whatever
    the catalog was each time.
   */
  lemma RebuildsNeverReuseIds(first: seq<FilterList>, second: seq<FilterList>, start: nat)
    ensures var a := CompileLists(first, Compiled([], start));
      var b := CompileLists(second, Compiled([], a.nextId));
      forall i, j :: 0 <= i < |a.rules| && 0 <= j < |b.rules| ==> a.rules[i].id < b.rules[j].id
  {
    var a := CompileLists(first, Compiled([], start));
    CompileListsKeepsIds(first, Compiled([], start));
    CompileListsKeepsIds(second, Compiled([], a.nextId));
  }

  class UBlockServiceWorker {
    const integration: UBlockIntegration
    var declarativeRules: seq<Rule>
    var ruleIdCounter: nat
    /** Every `updateDynamicRules` call made so far, oldest first. */
    var calls: seq<SinkCall>

    /** The held rules ascend in id and lie below the counter, which starts at 1. */
    ghost predicate Valid()
      reads this, integration
    {
      && IdsBelow(declarativeRules, ruleIdCounter)
      && 1 <= ruleIdCounter
      && integration.Valid()
    }

    /**
      The synchronous part of the constructor: a fresh integration, no rules,
      the counter at 1, then the first rebuild, taken here to run before any
      of the integration's asynchronous fetches has completed.
     */
    constructor (parseUrl: UrlParser, matchesPattern: PatternMatcher)
      ensures Valid() && fresh(integration)
      ensures integration.parseUrl == parseUrl && integration.matchesPattern == matchesPattern
      ensures !integration.initialized && integration.filterLists == []
      ensures integration.whitelistDomains == {} && integration.customFilters == [] && integration.blockedRequests == {}
      ensures declarativeRules == [] && ruleIdCounter == 1
      ensures calls == [RemoveRuleIds([])]
    {
      integration := new UBlockIntegration(parseUrl, matchesPattern);
      declarativeRules := [];
      ruleIdCounter := 1;
      calls := [];
      new;
      InitializeDeclarativeRules();
    }

    /** `convertFilterToRule`: the counter is read and advanced before the conversion can fail. */
    method ConvertFilterToRule(filter: Filter) returns (rule: Option<Rule>)
      modifies this`ruleIdCounter
      ensures rule == ConvertFilter(filter, old(ruleIdCounter))
      ensures ruleIdCounter == old(ruleIdCounter) + 1
    {
      var id := ruleIdCounter;
      ruleIdCounter := ruleIdCounter + 1;
      rule := ConvertFilter(filter, id);
    }

    /**
      `generateDeclarativeRules`: list by list, filter by filter, the eligible
      filters are converted and the successful conversions pushed; a push that
      reaches the limit leaves the current list only.
     */
    method GenerateDeclarativeRules()
      requires Valid()
      modifies this`declarativeRules, this`ruleIdCounter
      ensures Valid()
      ensures Compiled(declarativeRules, ruleIdCounter)
        == CompileLists(integration.filterLists, Compiled(old(declarativeRules), old(ruleIdCounter)))
    {
      var lists := integration.filterLists;
      ghost var start := Compiled(declarativeRules, ruleIdCounter);
      var i := 0;
      while i < |lists|
        invariant 0 <= i <= |lists|
        invariant CompileLists(lists[i..], Compiled(declarativeRules, ruleIdCounter)) == CompileLists(lists, start)
      {
        var filters := lists[i].filters;
        ghost var atListStart := Compiled(declarativeRules, ruleIdCounter);
        var j := 0;
        while j < |filters|
          invariant 0 <= j <= |filters|
          invariant CompileList(filters[j..], Compiled(declarativeRules, ruleIdCounter)) == CompileList(filters, atListStart)
        {
          var filter := filters[j];
          if Eligible(filter) {
            ghost var before := Compiled(declarativeRules, ruleIdCounter);
            var rule := ConvertFilterToRule(filter);
            if rule.Some? {
              declarativeRules := declarativeRules + [rule.value];
              if |declarativeRules| >= RULE_LIMIT {
                CompileListReachesLimit(filters, j, before, rule.value);
                break;
              }
              CompileListPushes(filters, j, before, rule.value);
              assert Compiled(declarativeRules, ruleIdCounter) == Compiled(before.rules + [rule.value], before.nextId + 1);
            } else {
              CompileListFails(filters, j, before);
              assert Compiled(declarativeRules, ruleIdCounter) == Compiled(before.rules, before.nextId + 1);
            }
          } else {
            CompileListSkips(filters, j, Compiled(declarativeRules, ruleIdCounter));
          }
          j := j + 1;
        }
        CompileListsSteps(lists, i, atListStart);
        i := i + 1;
      }
      CompileListsKeepsIds(lists, start);
    }

    /**
      `initializeDeclarativeRules`: remove every held id, empty the list,
      regenerate it from the catalog, and add the result when it is non-empty.
      The counter is not reset, so the new ids are all above the old ones.
     */
    method InitializeDeclarativeRules()
      requires Valid()
      modifies this`declarativeRules, this`ruleIdCounter, this`calls
      ensures Valid()
      ensures Compiled(declarativeRules, ruleIdCounter) == CompileLists(integration.filterLists, Compiled([], old(ruleIdCounter)))
      ensures calls == old(calls) + RebuildCalls(old(declarativeRules), declarativeRules)
      ensures forall i, j :: 0 <= i < |old(declarativeRules)| && 0 <= j < |declarativeRules| ==>
        old(declarativeRules)[i].id < declarativeRules[j].id
    {
      calls := calls + [RemoveRuleIds(RuleIds(declarativeRules))];
      ghost var held := declarativeRules;
      declarativeRules := [];
      GenerateDeclarativeRules();
      CompileListsKeepsIds(integration.filterLists, Compiled([], old(ruleIdCounter)));
      if |declarativeRules| > 0 {
        calls := calls + [AddRules(declarativeRules)];
      }
    }

    /** `updateRules`: always the full rebuild, never an incremental patch. */
    method UpdateRules()
      requires Valid()
      modifies this`declarativeRules, this`ruleIdCounter, this`calls
      ensures Valid()
      ensures Compiled(declarativeRules, ruleIdCounter) == CompileLists(integration.filterLists, Compiled([], old(ruleIdCounter)))
      ensures calls == old(calls) + RebuildCalls(old(declarativeRules), declarativeRules)
    {
      InitializeDeclarativeRules();
    }

    /**
      `handleRequest` and `handleHeaders`: the listener returns `cancel: true`
      exactly when the integration decides to block the URL.
     */
    method HandleRequest(url: string) returns (cancel: bool)
      modifies integration`blockedRequests
      ensures cancel == Decide(integration.initialized, integration.whitelistDomains, integration.filterLists,
        url, ExtractHostname(integration.parseUrl, url), integration.matchesPattern)
      ensures integration.blockedRequests == if cancel then old(integration.blockedRequests) + {url} else old(integration.blockedRequests)
    {
      cancel := integration.ShouldBlockRequest(url);
    }

    /** `handleMessage`: dispatch on the message type; an unknown type changes nothing and fails. */
    method HandleMessage(message: Message) returns (response: Response)
      requires Valid()
      modifies integration`customFilters, integration`whitelistDomains, integration`blockedRequests
      ensures Valid()
      ensures var k := KindOf(message.kind);
        && (k == AddFilter ==> response == Ok() && integration.customFilters == old(integration.customFilters) + [ParseFilter(message.filter)])
        && (k != AddFilter ==> integration.customFilters == old(integration.customFilters))
        && (k == Whitelist ==> response == Ok() && integration.whitelistDomains == old(integration.whitelistDomains) + {ToLower(message.domain)})
        && (k == Unwhitelist ==> response == Ok() && integration.whitelistDomains == old(integration.whitelistDomains) - {ToLower(message.domain)})
        && (k != Whitelist && k != Unwhitelist ==> integration.whitelistDomains == old(integration.whitelistDomains))
        && (k == GetStats ==> response == Response(true, Some(integration.GetStats()), None, None))
        && (k != ShouldBlock ==> integration.blockedRequests == old(integration.blockedRequests))
        && (k == Unhandled ==> response == Response(false, None, None, Some("Unknown message type")))
      ensures KindOf(message.kind) == ShouldBlock ==>
        var blocked := Decide(integration.initialized, integration.whitelistDomains, integration.filterLists,
          message.url, ExtractHostname(integration.parseUrl, message.url), integration.matchesPattern);
        && response == Response(true, None, Some(blocked), None)
        && integration.blockedRequests == if blocked then old(integration.blockedRequests) + {message.url} else old(integration.blockedRequests)
    {
      match KindOf(message.kind)
      case AddFilter =>
        integration.AddCustomFilter(message.filter);
        response := Ok();
      case Whitelist =>
        integration.AddToWhitelist(message.domain);
        response := Ok();
      case Unwhitelist =>
        integration.RemoveFromWhitelist(message.domain);
        response := Ok();
      case GetStats =>
        var stats := integration.GetStats();
        response := Response(true, Some(stats), None, None);
      case ShouldBlock =>
        var shouldBlock := integration.ShouldBlockRequest(message.url);
        response := Response(true, None, Some(shouldBlock), None);
      case Unhandled =>
        response := Response(false, None, None, Some("Unknown message type"));
    }
  }
}
