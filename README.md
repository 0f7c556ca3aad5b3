# uBlock-style filtering engine and declarative-rule compiler, in Dafny

This project models the two core pieces of a browser extension's content blocker:

- **The filtering engine** (`ublock_integration.js`). It parses Adblock-style filter lists into filters. A `@@` prefix marks an exception. The text after the first `$` is the options. A chain of textual cues picks the filter type: cosmetic, cosmetic exception, `||domain^`, `|start`, `end|`, a wildcard, or plain. The engine keeps a catalog of lists keyed by source URL, a whitelist of lower-cased domains, custom filters and a set of blocked URLs. It decides whether a request is blocked in three steps:
  1. A request that arrives before init finishes is allowed.
  2. A host is allowed when it is whitelisted, when its last two labels are whitelisted, or when it is a subdomain of a whitelisted entry.
  3. Otherwise the first filter that matches, across the lists in catalog order, decides: a block rule blocks and an exception allows.

  It also holds a dynamic-rule engine (for each domain, the first rule whose pattern occurs in the URL gives the action) and a cosmetic-filter store.
- **The service worker** (`ublock_service_worker.js`). It compiles network, non-exception filters into numbered declarative block rules, with these properties:
  - ids come from a counter that is never reset;
  - a `domain` option becomes `initiatorDomains`;
  - the first truthy type option narrows `resourceTypes`;
  - a 5000-rule cap on the running total, checked after each push, ends only the current list.

  Each rebuild removes every held id, then adds the new rules. The worker answers the five message types of its message handler.

The modules follow the source:

| module | models |
|---|---|
| `Text` | the string builtins the code relies on (`indexOf`, `split`, `trim`, `startsWith`, `endsWith`, `includes`, `join`, `toLowerCase`) |
| `Filters` | filter and option parsing |
| `Matching` | hostname and domain extraction, the whitelist, filter matching and the request decision as functions |
| `Integration` | the `UBlockIntegration`, `DynamicFilteringEngine` and `CosmeticFilteringEngine` classes, whose methods update their fields |
| `Compiler` | rule conversion and the double loop of the rule generator as functions |
| `ServiceWorker` | the `UBlockServiceWorker` class, its rule list, its id counter and its log of `updateDynamicRules` calls |

The methods that loop in the source are proved against those functions:
- `ParseOptions`
- `ParseFilterList`
- `ShouldBlockRequest`
- `LoadFilterLists`
- `CheckDynamicRules`
- `GenerateDeclarativeRules`

The lemmas then state the properties the engine is meant to have.

Where the code behaves differently from what its names and comments suggest, the model follows the code:

- The first matching filter decides, so an exception placed after a matching block rule has no effect (`ExceptionOrderMatters`).
- Only the lists are consulted when deciding. Custom filters are stored and counted but never consulted.
- A `||…^` pattern whose inner part contains `/` never matches, because it is compared with the hostname (`DomainPatternWithPathNeverMatches`).
- The type cues are checked against the text that still includes the options. So `a$b|` is an end-anchored filter (`OptionsTailTakesPartInClassification`).
- `initiatorDomains` has at most one element. The option parser keeps a value only up to the next `,`, so `domain=a.com,b.com` yields one domain (`ParsedDomainRuleHasOneInitiator`).
- The 5000-rule cap is checked on the running total after each push, but its `break` ends only the current list. Each later list that holds a convertible filter still adds one rule (`LimitIsPerList`, `CompileListsBound`). No truncation flag exists.
- A conversion that fails still consumes an id. Rebuilds never reuse ids (`RebuildsNeverReuseIds`).

## Model

| member | source | states |
|---|---|---|
| Text.IndexOf | ublock_integration.js:112 | `indexOf` returns -1 or a position holding the character, and no earlier position holds it |
| Text.IndexOfFound | ublock_integration.js:112-113 | the index is non-negative exactly when the character occurs, and the part before it is free of the character |
| Text.IndexOfAt | ublock_integration.js:112 | the first position of the character is the index |
| Text.AfterFirst | ublock_integration.js:115 | the text after the first occurrence is shorter than a non-empty input |
| Text.AfterFirstAt | ublock_integration.js:115 | what follows the first occurrence is `substring(indexOf + 1)` |
| Text.Split | ublock_integration.js:76 | `split` always yields at least one piece |
| Text.SplitCount | ublock_integration.js:148-149 | without the separator split yields the whole string; with it, at least two pieces |
| Text.SplitPieces | ublock_integration.js:144 | no piece contains the separator |
| Text.SplitPiecesAvoid | ublock_integration.js:144 | a character absent from the input is absent from every piece |
| Text.SliceAvoid | ublock_integration.js:114 | a character absent from a sequence is absent from every slice of it |
| Text.SplitAtFirst | ublock_integration.js:144 | split takes the text before the first separator, then splits the rest |
| Text.SplitAtInserted | ublock_integration.js:144 | a separator-free head followed by a separator is the first piece |
| Text.SplitBeforeInserted | ublock_integration.js:144 | an earlier separator inside the head ends the first piece there |
| Text.SplitAtSeparator | ublock_integration.js:144 | splitting at a separator concatenates the splits of both sides |
| Text.SplitTwo | ublock_integration.js:149 | two separator-free parts joined by one separator split back into exactly those two |
| Text.SplitFirstTwo | ublock_integration.js:149 | with `split('=', 2)` the key and value are the text before the first `=` and between the first and second |
| Text.JoinSplit | ublock_integration.js:276-280 | joining the pieces of a split gives back the string |
| Text.SplitJoin | ublock_integration.js:276-280 | splitting a join of separator-free parts gives back the parts |
| Text.JoinEndsWithLastTwo | ublock_integration.js:276-280 | a join ends with its last two parts and their separator, at a separator boundary |
| Text.LeadingSpaces | ublock_integration.js:80 | counts exactly the leading whitespace |
| Text.TrailingSpaces | ublock_integration.js:80 | counts exactly the trailing whitespace |
| Text.TrimStartDrops | ublock_integration.js:80 | trimming the start drops exactly the leading whitespace |
| Text.TrimAvoid | ublock_integration.js:147 | trimming introduces no character |
| Text.TrimIsTrimmed | ublock_integration.js:80 | a trimmed string has no surrounding whitespace, and trimming is idempotent |
| Text.TrimEmpty | ublock_integration.js:83 | the trim is empty exactly when every character is whitespace (the skipped blank line) |
| Text.ToLower | ublock_integration.js:268 | lower-casing keeps the length and maps each character |
| Text.ToLowerIsLower | ublock_integration.js:294 | the result is lower-case, lower-casing is idempotent, and a lower-case string is unchanged |
| Text.Contains | ublock_integration.js:233 | the empty string occurs in every string, and a string occurring in another is no longer than it |
| Text.EndsWithDrop | ublock_integration.js:246 | a string ending in `x + p` ends in `p` |
| Text.ContainsChar | ublock_integration.js:132 | `includes` of a one-character string is membership of that character |
| Text.ContainsFirstChar | ublock_integration.js:122-124 | containing a substring implies containing its first character |
| Text.EndsWithSlice | ublock_integration.js:229 | `endsWith` agrees with comparing the last characters as a slice |
| Text.EndsWithPrepend | ublock_integration.js:211 | a suffix stays a suffix after text is prepended |
| Text.EndsWithKeepsChar | ublock_integration.js:246 | a character of a suffix occurs in the whole string |
| Text.EndsWithCharThen | ublock_integration.js:246 | `prefix + s` ends with `c + s` exactly when the prefix ends with `c` |
| Filters.OptionEntry | ublock_integration.js:147-153 | a part is a flag exactly when its trim has no `=`, and no key contains `=` |
| Filters.OptionsOf | ublock_integration.js:142-157 | the last part's key is always present, even for an empty options text, and a comma-free text gives a single entry |
| Filters.Classify | ublock_integration.js:121-136 | the type is never unknown, and only a line containing `#` is cosmetic |
| Filters.OptionEntryCases | ublock_integration.js:147-153 | loop-proof step: the two branches of `OptionEntry` spelled out for `ParseOptions` (the independent forms are `ValueEntry` and `FlagEntry`) |
| Filters.FlagEntry | ublock_integration.js:152 | an option without `=` is the trimmed key set to `true` |
| Filters.ValueEntry | ublock_integration.js:149-150 | `key=value=…` keeps the trimmed key and the trimmed text up to the second `=` |
| Filters.MapOfEntriesPrefix | ublock_integration.js:146-154 | each loop step adds one key, overwriting an earlier one |
| Filters.LastOptionWins | ublock_integration.js:146-154 | a key is present exactly when some part names it, and the last such part gives its value |
| Filters.ParseOptions | ublock_integration.js:142-157 | the loop over the comma-separated parts computes the option map `OptionsOf` |
| Filters.OptionEntryCommaFree | ublock_integration.js:144-150 | a part without a comma gives a value without a comma |
| Filters.MapOfEntriesCommaFree | ublock_integration.js:146-154 | comma-free entry values give a comma-free map |
| Filters.OptionsOfCommaFree | ublock_integration.js:142-157 | no parsed option value contains a comma |
| Filters.ParseFilter | ublock_integration.js:96-139 | a parsed filter keeps its raw line, is an exception exactly when the line starts with `@@`, and never has the unknown type |
| Filters.ParseFilterSplit | ublock_integration.js:106-136 | the type comes from the text after `@@`; the pattern is the text before the first `$` and the options its tail, or the whole text with no options |
| Filters.ParseFilterWithOptions | ublock_integration.js:112-119 | with a `$` the remainder is the pattern, `$` and the options text |
| Filters.ParseFilterCommaFree | ublock_integration.js:96-139 | no option value of a parsed filter contains a comma |
| Filters.ClassifyFirstCueWins | ublock_integration.js:121-136 | the type is the one whose cue holds while no earlier cue in the chain holds (both directions) |
| Filters.DomainAnchorBeforeWildcard | ublock_integration.js:126-133 | a `||` line without `#` is a domain filter even when it has `*` or `^` |
| Filters.EndAnchorWithoutHash | ublock_integration.js:130-131 | a line ending in `|` that is not start-anchored and has no `#` is end-anchored |
| Filters.PlainWithoutCues | ublock_integration.js:134-135 | a line without any cue character is plain |
| Filters.OptionsTailTakesPartInClassification | ublock_integration.js:112-131 | an options tail ending in `|` makes the filter end-anchored, while its pattern stays the text before `$` |
| Filters.ParseFilterList | ublock_integration.js:75-93 | the loop over the lines computes `FiltersOf` of the split text |
| Filters.FlatMapAppend | ublock_integration.js:79-90 | collecting over concatenated lines concatenates the results |
| Filters.FiltersOfAppend | ublock_integration.js:79-90 | parsing concatenated line lists concatenates the filters |
| Filters.FiltersOfLine | ublock_integration.js:80-88 | a line yields nothing when blank or a comment, and otherwise the parse of its trim |
| Filters.FiltersOfKeptLines | ublock_integration.js:79-90 | at most one filter per line; each is the parse of a trimmed, non-comment, non-blank raw line |
| Matching.ExtractHostname | ublock_integration.js:266-272 | the hostname is lower-case with the URL parser's length, or empty when the URL does not parse |
| Matching.ExtractDomain | ublock_integration.js:275-281 | a dot-free hostname is its own domain, and the domain is never longer than the hostname |
| Matching.IsWhitelisted | ublock_integration.js:203-217 | an empty whitelist whitelists nothing, and an entry equal to the hostname or its domain whitelists it |
| Matching.MatchesDomainPattern | ublock_integration.js:240-247 | a match needs a pattern of at least three characters whose inner part ends the hostname |
| Matching.MatchesFilter | ublock_integration.js:220-237 | cosmetic and unknown filters never match, and a plain filter with an empty pattern matches every URL |
| Matching.Decide | ublock_integration.js:173-200 | a blocked request is initialized, not whitelisted, and matched by some non-exception filter of the catalog |
| Matching.ExtractDomainLastTwoLabels | ublock_integration.js:275-281 | the domain is the hostname itself without a dot, and otherwise a two-label suffix at a label boundary |
| Matching.ExtractDomainWithDot | ublock_integration.js:275-281 | a dotted hostname's domain is a two-label suffix at a label boundary |
| Matching.LastTwoLabelsEnd | ublock_integration.js:276-280 | the last two labels, joined, end the hostname at a dot or at its start |
| Matching.LastTwoLabelsSplit | ublock_integration.js:276-280 | the last two labels, joined, split back into two labels |
| Matching.DomainPatternMatches | ublock_integration.js:240-247 | `||d^` matches a hostname exactly when it is `d` or ends with `.d` |
| Matching.DomainPatternMatchesSubdomains | ublock_integration.js:246 | `||d^` matches `d` and every `x.d` |
| Matching.DomainPatternNeedsLabelBoundary | ublock_integration.js:246 | `||d^` does not match `xd` unless `x` ends with a dot |
| Matching.DomainPatternWithPathNeverMatches | ublock_integration.js:240-247 | a domain pattern containing `/` matches no slash-free hostname |
| Matching.DomainPatternNeedsBothAnchors | ublock_integration.js:241-243 | a pattern lacking `||` or `^` never matches as a domain pattern |
| Matching.OptionsOnlyLineMatchesEverything | ublock_integration.js:96-139 | a line that is only `$options` is a plain filter with an empty pattern that matches every URL |
| Matching.FirstMatch | ublock_integration.js:186-197 | a found filter is in the list and matches; none found means no filter matches |
| Matching.FirstMatchPosition | ublock_integration.js:186-197 | a found filter sits at a position that matches with no earlier match |
| Matching.FirstMatchAtPosition | ublock_integration.js:186-197 | the first matching position is the one found |
| Matching.FirstMatchAppend | ublock_integration.js:186-197 | the front part's first match wins over anything later |
| Matching.FlattenAppend | ublock_integration.js:186-187 | walking concatenated catalogs visits their filters in order |
| Matching.FirstMatchDecides | ublock_integration.js:186-197 | once a front of the catalog has a first match, later lists cannot change the decision |
| Matching.FoundFirstMatch | ublock_integration.js:186-194 | the inner loop's first match in list `i`, after no match earlier, is the catalog's first match |
| Matching.NoMatchInList | ublock_integration.js:186-197 | a list with no match extends the no-match prefix |
| Matching.WhitelistOutranksFilters | ublock_integration.js:180-183 | a whitelisted host is never blocked |
| Matching.DecideBlocksOnlyOnMatch | ublock_integration.js:173-200 | blocked exactly when initialized, not whitelisted, and the first matching filter is not an exception |
| Matching.ExceptionOrderMatters | ublock_integration.js:186-197 | a block rule before a matching exception blocks; the exception first allows |
| Matching.SubdomainOfEntryIsWhitelisted | ublock_integration.js:203-217 | every subdomain of a whitelist entry is whitelisted |
| Integration.TotalFiltersIsFlattenLength | ublock_integration.js:305-313 | the counted total is the number of filters in the catalog |
| Integration.SetListLookup | ublock_integration.js:66 | after `set`, the source maps to the new filters and other sources are unchanged |
| Integration.SetListPosition | ublock_integration.js:66 | `set` keeps sources distinct; it replaces in place an existing source and appends a new one |
| Integration.SetListReplaces | ublock_integration.js:66 | `set` on a present source replaces its entry at its position |
| Integration.SetListAppendsNew | ublock_integration.js:66 | `set` on a new source appends it |
| Integration.SetListKeepsDistinct | ublock_integration.js:66 | `set` keeps the sources distinct |
| Integration.SetListSources | ublock_integration.js:66 | `set` introduces no source except the one set |
| Integration.DistinctSourcesTail | ublock_integration.js:66 | distinct sources stay distinct in the tail, which lacks the head's source |
| Integration.FreshStep | ublock_integration.js:61-71 | loading one more source keeps the unloaded sources absent from the catalog |
| Integration.LoadedAppends | ublock_integration.js:54-72 | loading fresh sources appends the successful ones in list order |
| Integration.LoadedFromEmpty | ublock_integration.js:54-72 | from an empty catalog the loaded lists are exactly the successful fetches in order |
| Integration.UBlockIntegration.constructor | ublock_integration.js:17-31 | not initialized; empty catalog, whitelist, custom filters and blocked set |
| Integration.UBlockIntegration.Init | ublock_integration.js:33-51 | a second init does nothing; otherwise the lists are loaded and the engine is initialized |
| Integration.UBlockIntegration.LoadFilterLists | ublock_integration.js:54-72 | each essential list's fetched body is parsed and set in the catalog; failures are skipped |
| Integration.UBlockIntegration.ShouldBlockRequest | ublock_integration.js:173-200 | the answer is `Decide`, and exactly a blocked URL is added to the blocked set |
| Integration.UBlockIntegration.AddCustomFilter | ublock_integration.js:284-290 | the parsed filter is appended to the custom filters |
| Integration.UBlockIntegration.AddToWhitelist | ublock_integration.js:293-296 | the lower-cased domain is added |
| Integration.UBlockIntegration.RemoveFromWhitelist | ublock_integration.js:299-302 | the lower-cased domain is removed |
| Integration.UBlockIntegration.GetStats | ublock_integration.js:305-313 | the totals are the catalog's filter count and the sizes of the other collections |
| Integration.WhitelistedHostIsNeverBlocked | ublock_integration.js:173-217 | after whitelisting a URL's host, that URL is never blocked |
| Integration.RemoveKeepsOtherEntries | ublock_integration.js:299-302 | after removing one domain, a host below a different entry is still whitelisted and so never blocked |
| Integration.MatchesRule | ublock_integration.js:388-391 | an empty pattern matches every URL, and a matching pattern is no longer than the URL |
| Integration.FirstAction | ublock_integration.js:372-385 | no action exactly when no rule for the domain matches the URL |
| Integration.FirstActionIsFirst | ublock_integration.js:376-382 | the first matching rule's action is returned |
| Integration.FirstActionAppend | ublock_integration.js:364-385 | a rule added later only acts when no earlier rule matches |
| Integration.DynamicFilteringEngine.constructor | ublock_integration.js:358-361 | the rule map starts empty |
| Integration.DynamicFilteringEngine.AddRule | ublock_integration.js:364-369 | the rule is appended to its domain's rules |
| Integration.DynamicFilteringEngine.CheckDynamicRules | ublock_integration.js:372-385 | the loop returns the first matching rule's action for the hostname's domain |
| Integration.CosmeticFilteringEngine.constructor | ublock_integration.js:396-399 | the store starts empty |
| Integration.CosmeticFilteringEngine.AddFilter | ublock_integration.js:402-406 | exactly cosmetic filters are appended |
| Compiler.GetResourceTypes | ublock_service_worker.js:186-198 | either one narrowed type or the full default list |
| Compiler.GetResourceTypesFirstTruthy | ublock_service_worker.js:188-195 | the first truthy type option, in the source's order, decides |
| Compiler.GetResourceTypesDefault | ublock_service_worker.js:197 | with no truthy type option every resource type applies |
| Compiler.AllResourceTypesComplete | ublock_service_worker.js:197 | the default list holds every resource type once |
| Compiler.ConvertPatternToUrlFilter | ublock_service_worker.js:173-184 | the url filter is never longer than the pattern |
| Compiler.UrlFilterOfUnanchored | ublock_service_worker.js:182-183 | a pattern without `|` at either end passes through unchanged |
| Compiler.UrlFilterOfDoubleBar | ublock_service_worker.js:175-176 | `||x` without a trailing `^` becomes `x` |
| Compiler.UrlFilterOfDomainPattern | ublock_service_worker.js:175-176 | `||d^` compiles to `d` |
| Compiler.UrlFilterOfAnchors | ublock_service_worker.js:177-181 | the start or end anchor is removed |
| Compiler.UrlFilterIsInfix | ublock_service_worker.js:173-184 | the url filter is the pattern with at most two leading and one trailing characters removed |
| Compiler.UrlFilterAgreesWithMatcherOnAnchors | ublock_service_worker.js:177-181 | for anchored patterns the url filter is the prefix or suffix the matcher tests |
| Compiler.EndTypeFromOptionsTail | ublock_service_worker.js:179-180 | an end-typed filter from an options tail compiles to its pattern, while the matcher tests the pattern minus one character |
| Compiler.NonEmpty | ublock_service_worker.js:201 | the kept pieces are exactly the non-empty pieces of the input |
| Compiler.NonEmptyKeepsAll | ublock_service_worker.js:201 | a list with no empty piece is kept whole and in order |
| Compiler.NonEmptyAppend | ublock_service_worker.js:201 | filtering concatenated pieces concatenates the results |
| Compiler.TrimAll | ublock_service_worker.js:201 | each piece is trimmed |
| Compiler.TrimAllAppend | ublock_service_worker.js:201 | trimming concatenated pieces concatenates the results |
| Compiler.ParseDomains | ublock_service_worker.js:200-202 | no more domains than comma-separated pieces, and none empty |
| Compiler.ParseDomainsShape | ublock_service_worker.js:200-202 | every parsed domain is non-empty, trimmed and comma-free |
| Compiler.ParseDomainsAppend | ublock_service_worker.js:200-202 | parsing `a,b` concatenates the domains of `a` and `b` |
| Compiler.ParsedDomainRuleHasOneInitiator | ublock_service_worker.js:162-164 | a parsed filter's rule has at most one initiator domain |
| Compiler.ConvertFilter | ublock_service_worker.js:149-171 | conversion fails exactly on a boolean `domain` option; otherwise the rule has the given id, priority 1, a block action, and initiators exactly for a truthy `domain` |
| Compiler.EligibleKinds | ublock_service_worker.js:133 | eligible exactly when the type name starts with `network` and the filter is not an exception |
| Compiler.CompileListCounts | ublock_service_worker.js:131-146 | the counter advances by at most one per filter, and each new rule used up an id |
| Compiler.CompileListsCounts | ublock_service_worker.js:129-147 | the counter never goes back, and each new rule used up an id |
| Compiler.CompileList | ublock_service_worker.js:131-146 | the inner loop over one list; its properties are stated by `CompileListCounts`, `CompileListSize`, `CompileListUnderLimit`, `CompileListKeepsIds` and `CompileListRulesFromFilters` |
| Compiler.CompileLists | ublock_service_worker.js:129-147 | the outer loop over the catalog; its properties are stated by `CompileListsCounts`, `CompileListsKeepsIds` and `CompileListsBound` |
| Compiler.CompileListSkips | ublock_service_worker.js:133 | an ineligible filter changes nothing |
| Compiler.CompileListFails | ublock_service_worker.js:149-170 | a failed conversion still consumes an id |
| Compiler.CompileListFailsHead | ublock_service_worker.js:149-170 | loop-proof step: one unfolding of `CompileList` at a failing head filter |
| Compiler.CompileListPushes | ublock_service_worker.js:134-137 | a successful conversion under the cap is pushed and consumes an id |
| Compiler.CompileListReachesLimit | ublock_service_worker.js:138-143 | a push that reaches the cap ends the list |
| Compiler.CompileListsSteps | ublock_service_worker.js:131-146 | loop-proof step: one unfolding of `CompileLists` for the outer loop |
| Compiler.ExtendsTrans | ublock_service_worker.js:131-146 | growing the rule list with fresh ids is transitive |
| Compiler.ExtendsByOne | ublock_service_worker.js:134-136 | pushing the rule with the current id extends the state |
| Compiler.NextIdsBelow | ublock_service_worker.js:134-136 | held ids stay below the counter after a push |
| Compiler.CompileListKeepsIds | ublock_service_worker.js:131-146 | one list's compilation only appends rules with fresh, increasing ids |
| Compiler.CompileListsKeepsIds | ublock_service_worker.js:129-147 | the whole compilation only appends rules with fresh, increasing ids |
| Compiler.CompileListKeepsPrefix | ublock_service_worker.js:131-146 | earlier rules are kept unchanged |
| Compiler.CompileListSize | ublock_service_worker.js:131-146 | a list adds its convertible filters, capped at the limit, or one rule beyond a full list |
| Compiler.CompileListUnderLimit | ublock_service_worker.js:131-146 | under the cap every eligible filter takes an id and every convertible one a rule |
| Compiler.LimitIsPerList | ublock_service_worker.js:138-143 | a full rule list still grows by one rule for a list with a convertible filter |
| Compiler.CompileListsBound | ublock_service_worker.js:129-147 | the total stays below the cap plus one rule per list |
| Compiler.ConvertedFromMore | ublock_service_worker.js:131-146 | rules converted from a tail are converted from the whole list |
| Compiler.CompileListRulesFromFilters | ublock_service_worker.js:131-146 | every new rule is the conversion of an eligible filter of the list |
| Compiler.RulesFromFiltersAfterAdding | ublock_service_worker.js:134-137 | a pushed rule is the conversion of the current filter |
| ServiceWorker.RuleIds | ublock_service_worker.js:108-110 | the ids are the rules' ids, position by position |
| ServiceWorker.KindOf | ublock_service_worker.js:70-101 | each handled message type string maps to its own kind (both directions) |
| ServiceWorker.RebuildsNeverReuseIds | ublock_service_worker.js:105-127 | the rules of a later rebuild all have larger ids than the earlier one's |
| ServiceWorker.UBlockServiceWorker.constructor | ublock_service_worker.js:12-17 | a fresh, uninitialized integration with empty catalog, whitelist, custom filters and blocked set; no rules, the counter at 1, and a first rebuild that only removes nothing |
| ServiceWorker.UBlockServiceWorker.ConvertFilterToRule | ublock_service_worker.js:149-171 | the converted rule uses the old counter, which is advanced even when conversion fails |
| ServiceWorker.UBlockServiceWorker.GenerateDeclarativeRules | ublock_service_worker.js:129-147 | the double loop computes `CompileLists` of the catalog and keeps ids ascending below the counter |
| ServiceWorker.UBlockServiceWorker.InitializeDeclarativeRules | ublock_service_worker.js:105-127 | removes all held ids, then adds the recompiled rules when there are any; every new id exceeds every old one |
| ServiceWorker.UBlockServiceWorker.UpdateRules | ublock_service_worker.js:205-207 | a full rebuild |
| ServiceWorker.UBlockServiceWorker.HandleRequest | ublock_service_worker.js:41-66 | returns `cancel: true` exactly when the integration blocks the URL, and only then records it as blocked |
| ServiceWorker.UBlockServiceWorker.HandleMessage | ublock_service_worker.js:68-103 | each message type changes only its own collection and sends its response; an unknown type fails with "Unknown message type" |

## Left out

- Fetching is a parameter `fetch` that maps a URL to an optional body. Promises, `await` and the race between an unfinished `init` and requests are not modelled; `initialized` is a plain flag.
- The `URL` parser is a parameter `parseUrl`. Its `null` result stands for the thrown error.
- `matchesPattern` (the regular-expression matcher) is a parameter `matchesPattern`. Regular expressions are not modelled.
- The `chrome.*` APIs are not modelled. `updateDynamicRules` is a log of calls.
- The `catch` paths of the rebuild are not modelled. The sink never fails.
- The `catch` in the message handler that turns a missing payload into an error response is not modelled. Payload fields are always present strings.
- `handleHeaders` has the same body as `handleRequest` and is modelled by `HandleRequest`.
- Whether the browser acts on the value `handleRequest` returns is not modelled. The `onBeforeRequest` listener is registered without `"blocking"`, and an `async` listener returns a Promise. `HandleRequest` models only the returned `cancel` flag.
- ServiceWorker.UBlockServiceWorker.constructor: assumes one interleaving. Its first rebuild reads the catalog only after the first `updateDynamicRules` call resolves, while the integration's `init` is fetching lists at the same time. The model takes that rebuild to run before any fetch completes, so it compiles an empty catalog. If the first list arrives earlier, the real worker compiles it.
- Only the constructor's call of `setupEventListeners` is modelled, namely its first rebuild. The listener registration itself is not.
- `StaticFilteringEngine` and `CosmeticFilteringEngine.applyFilters` are not modelled. The integration creates the static engine but never calls it, and `applyFilters` has an empty body. The engines' back-reference to the integration is not modelled; `CheckDynamicRules` calls the domain extraction directly.
- JavaScript objects as maps are modelled as Dafny maps. The effect of a `__proto__` key is not modelled.
- Strings are sequences of characters, not UTF-16 code units.
- Text.ToLower: lower-cases only ASCII letters, not full Unicode case mapping.
- Numbers are unbounded. The 2^53 limit of JavaScript numbers on the id counter is not modelled.
- Compiler.Eligible is written as a predicate on the filter type. `Compiler.EligibleKinds` links it to the source's `startsWith('network')` test.
- The behaviour of a compiled `urlFilter` inside the browser's rule engine is not modelled, only its text.
- The popup, content scripts and the other extension files are not part of this model.
