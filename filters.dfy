/**
  The Adblock filter parser of `UBlockIntegration`: a filter list is split into
  lines, each kept line becomes one record `{raw, type, pattern, options,
  exception}`, the `$` tail becomes an options map, and the type comes from a
  fixed chain of structural tests.
 */
module Filters {
  import opened Text

  /** The `type` field. `Unknown` is the initial value and is overwritten by every branch of the chain. */
  datatype FilterType =
    | Unknown
    | Cosmetic
    | CosmeticException
    | NetworkDomain
    | NetworkStart
    | NetworkEnd
    | NetworkPattern
    | NetworkPlain

  /** The string the JavaScript code stores in `filter.type`. */
  function TypeName(t: FilterType): string
  {
    match t
    case Unknown => "unknown"
    case Cosmetic => "cosmetic"
    case CosmeticException => "cosmetic_exception"
    case NetworkDomain => "network_domain"
    case NetworkStart => "network_start"
    case NetworkEnd => "network_end"
    case NetworkPattern => "network_pattern"
    case NetworkPlain => "network_plain"
  }

  /** An option is either a bare flag (`true`) or the string after `=`. */
  datatype OptionValue = Flag | Str(text: string)

  type Options = map<string, OptionValue>

  datatype Filter = Filter(raw: string, kind: FilterType, pattern: string, options: Options, exception: bool)

  // ---------------------------------------------------------------------
  // Options: `a,b=c, d = e`
  // ---------------------------------------------------------------------

  /**
    One comma-separated part: a trimmed `key=value` keeps the text between the
    first and the second `=` (that is what `split('=', 2)` yields), a part
    without `=` is a flag.
   */
  function OptionEntry(part: string): (e: (string, OptionValue))
    ensures e.1.Flag? <==> '=' !in Trim(part)
    ensures '=' !in e.0
  {
    var t := Trim(part);
    if '=' in t then
      SplitCount(t, '=');
      var kv := Split(t, '=');
      SplitPieces(t, '=');
      TrimAvoid(kv[0], '=');
      (Trim(kv[0]), Str(Trim(kv[1])))
    else
      (t, Flag)
  }

  /** The two shapes of an entry, with the split of a `key=value` part spelled out. */
  lemma OptionEntryCases(part: string)
    ensures var t := Trim(part);
      '=' in t ==> |Split(t, '=')| >= 2 && OptionEntry(part) == (Trim(Split(t, '=')[0]), Str(Trim(Split(t, '=')[1])))
    ensures '=' !in Trim(part) ==> OptionEntry(part) == (Trim(part), Flag)
  {
    SplitCount(Trim(part), '=');
  }

  /** The object built by writing the entries in turn: later keys overwrite earlier ones. */
  function MapOfEntries(entries: seq<(string, OptionValue)>): Options
  {
    if entries == [] then map[]
    else
      var e := entries[|entries| - 1];
      MapOfEntries(entries[..|entries| - 1])[e.0 := e.1]
  }

  /** Writing one more entry. */
  lemma MapOfEntriesPrefix(entries: seq<(string, OptionValue)>, i: nat)
    requires i < |entries|
    ensures MapOfEntries(entries[..i + 1]) == MapOfEntries(entries[..i])[entries[i].0 := entries[i].1]
  {
    assert entries[..i + 1][..i] == entries[..i];
  }

  /** `parseOptions`, as a value: split on `,`, one entry per part. */
  function OptionsOf(optionsStr: string): (o: Options)
    ensures var parts := Split(optionsStr, ','); OptionEntry(parts[|parts| - 1]).0 in o
    ensures ',' !in optionsStr ==> o == map[OptionEntry(optionsStr).0 := OptionEntry(optionsStr).1]
  {
    SplitCount(optionsStr, ',');
    var parts := Split(optionsStr, ',');
    var entries := seq(|parts|, k requires 0 <= k < |parts| => OptionEntry(parts[k]));
    assert ',' !in optionsStr ==>
      && entries == [OptionEntry(optionsStr)] && entries[..0] == []
      && MapOfEntries(entries) == MapOfEntries(entries[..0])[entries[0].0 := entries[0].1];
    MapOfEntries(entries)
  }

  /** No `,` in a string value: the option string was already cut at every comma. */
  predicate CommaFree(v: OptionValue)
  {
    v.Str? ==> ',' !in v.text
  }

  /** A comma-free part gives a comma-free value. */
  lemma OptionEntryCommaFree(part: string)
    requires ',' !in part
    ensures CommaFree(OptionEntry(part).1)
  {
    var t := Trim(part);
    TrimAvoid(part, ',');
    if '=' in t {
      SplitCount(t, '=');
      SplitPiecesAvoid(t, '=', ',');
      TrimAvoid(Split(t, '=')[1], ',');
    }
  }

  /** Writing comma-free values gives an object of comma-free values. */
  lemma {:induction false} MapOfEntriesCommaFree(entries: seq<(string, OptionValue)>)
    requires forall k :: 0 <= k < |entries| ==> CommaFree(entries[k].1)
    ensures forall key :: key in MapOfEntries(entries) ==> CommaFree(MapOfEntries(entries)[key])
    decreases |entries|
  {
    if entries != [] {
      MapOfEntriesCommaFree(entries[..|entries| - 1]);
    }
  }

  /** Every string value of `parseOptions` is free of commas. */
  lemma OptionsOfCommaFree(optionsStr: string)
    ensures forall key :: key in OptionsOf(optionsStr) ==> CommaFree(OptionsOf(optionsStr)[key])
  {
    var parts := Split(optionsStr, ',');
    var entries := seq(|parts|, k requires 0 <= k < |parts| => OptionEntry(parts[k]));
    SplitPieces(optionsStr, ',');
    forall k | 0 <= k < |entries| ensures CommaFree(entries[k].1) {
      OptionEntryCommaFree(parts[k]);
    }
    MapOfEntriesCommaFree(entries);
  }

  /** `parseOptions`: split on `,` and write each part into the options object. */
  method ParseOptions(optionsStr: string) returns (options: Options)
    ensures options == OptionsOf(optionsStr)
  {
    var parts := Split(optionsStr, ',');
    ghost var entries := seq(|parts|, k requires 0 <= k < |parts| => OptionEntry(parts[k]));
    options := map[];
    var i := 0;
    while i < |parts|
      invariant 0 <= i <= |parts|
      invariant options == MapOfEntries(entries[..i])
    {
      MapOfEntriesPrefix(entries, i);
      assert entries[i] == OptionEntry(parts[i]);
      OptionEntryCases(parts[i]);
      var trimmed := Trim(parts[i]);
      if '=' in trimmed {
        var kv := Split(trimmed, '=');
        options := options[Trim(kv[0]) := Str(Trim(kv[1]))];
      } else {
        options := options[trimmed := Flag];
      }
      i := i + 1;
    }
    assert entries[..i] == entries;
  }

  // ---------------------------------------------------------------------
  // Classification
  // ---------------------------------------------------------------------

  /** The chain of `parseFilter`, applied to the line after `@@` is removed, options tail included. */
  function Classify(rest: string): (t: FilterType)
    ensures t != Unknown
    ensures t == Cosmetic || t == CosmeticException ==> '#' in rest
  {
    if Contains(rest, "##") then (ContainsFirstChar(rest, "##"); Cosmetic)
    else if Contains(rest, "#@#") then (ContainsFirstChar(rest, "#@#"); CosmeticException)
    else if StartsWith(rest, "||") then NetworkDomain
    else if StartsWith(rest, "|") then NetworkStart
    else if EndsWith(rest, "|") then NetworkEnd
    else if Contains(rest, "*") || Contains(rest, "^") then NetworkPattern
    else NetworkPlain
  }

  /** The structural cue each type is checked for. */
  predicate Cue(t: FilterType, s: string)
  {
    match t
    case Unknown => false
    case Cosmetic => Contains(s, "##")
    case CosmeticException => Contains(s, "#@#")
    case NetworkDomain => StartsWith(s, "||")
    case NetworkStart => StartsWith(s, "|")
    case NetworkEnd => EndsWith(s, "|")
    case NetworkPattern => Contains(s, "*") || Contains(s, "^")
    case NetworkPlain => true
  }

  /** The position of each test in the chain; `Unknown` comes after the unconditional last branch. */
  function Rank(t: FilterType): nat
  {
    match t
    case Cosmetic => 0
    case CosmeticException => 1
    case NetworkDomain => 2
    case NetworkStart => 3
    case NetworkEnd => 4
    case NetworkPattern => 5
    case NetworkPlain => 6
    case Unknown => 7
  }

  // ---------------------------------------------------------------------
  // One filter line
  // ---------------------------------------------------------------------

  /** The line with a leading exception marker `@@` removed. */
  function Remainder(line: string): string
  {
    if StartsWith(line, "@@") then line[2..] else line
  }

  /** `parseFilter`. */
  function ParseFilter(line: string): (f: Filter)
    ensures f.raw == line
    ensures f.exception <==> StartsWith(line, "@@")
    ensures f.kind != Unknown
  {
    var exception := StartsWith(line, "@@");
    var rest := Remainder(line);
    var dollar := IndexOf(rest, '$');
    var pattern := if dollar >= 0 then rest[..dollar] else rest;
    var options := if dollar >= 0 then OptionsOf(AfterFirst(rest, '$')) else map[];
    Filter(line, Classify(rest), pattern, options, exception)
  }

  // ---------------------------------------------------------------------
  // A whole list
  // ---------------------------------------------------------------------

  /** Lines `parseFilterList` skips, after trimming: empty ones and `!` comments. */
  predicate Skipped(trimmed: string)
  {
    trimmed == [] || StartsWith(trimmed, "!")
  }

  /** What one line contributes: nothing when skipped, else the filter of the trimmed line. */
  function Collected(line: string): seq<Filter>
  {
    var t := Trim(line);
    if Skipped(t) then [] else [ParseFilter(t)]
  }

  /** What `f` gives for each element, concatenated in order. */
  function FlatMap<A, B>(xs: seq<A>, f: A -> seq<B>): seq<B>
  {
    if xs == [] then [] else FlatMap(xs[..|xs| - 1], f) + f(xs[|xs| - 1])
  }

  /** The filters `parseFilterList` collects from its lines, in order. */
  function FiltersOf(lines: seq<string>): seq<Filter>
  {
    FlatMap(lines, Collected)
  }

  /** `parseFilterList`. */
  method ParseFilterList(text: string) returns (filters: seq<Filter>)
    ensures filters == FiltersOf(Split(text, '\n'))
  {
    var lines := Split(text, '\n');
    filters := [];
    var i := 0;
    while i < |lines|
      invariant 0 <= i <= |lines|
      invariant filters == FiltersOf(lines[..i])
    {
      var trimmed := Trim(lines[i]);
      assert lines[..i + 1][..i] == lines[..i];
      assert FiltersOf(lines[..i + 1]) == FiltersOf(lines[..i]) + Collected(lines[i]);
      if !Skipped(trimmed) {
        var filter := ParseFilter(trimmed);
        filters := filters + [filter];
      }
      i := i + 1;
    }
    assert lines[..i] == lines;
  }

  // ---------------------------------------------------------------------
  // Properties of the parser
  // ---------------------------------------------------------------------

  /** Every type but `unknown` is found by its own cue, with every earlier cue absent; `unknown` is never produced. */
  lemma ClassifyFirstCueWins(s: string, t: FilterType)
    ensures Classify(s) == t <==> Cue(t, s) && forall u :: Rank(u) < Rank(t) ==> !Cue(u, s)
  {
    assert Rank(Cosmetic) == 0 && Rank(CosmeticException) == 1 && Rank(NetworkDomain) == 2;
    assert Rank(NetworkStart) == 3 && Rank(NetworkEnd) == 4 && Rank(NetworkPattern) == 5;
    assert Rank(NetworkPlain) == 6;
    assert Cue(Cosmetic, s) == Contains(s, "##");
    assert Cue(CosmeticException, s) == Contains(s, "#@#");
    assert Cue(NetworkDomain, s) == StartsWith(s, "||");
    assert Cue(NetworkStart, s) == StartsWith(s, "|");
    assert Cue(NetworkEnd, s) == EndsWith(s, "|");
    assert Cue(NetworkPattern, s) == (Contains(s, "*") || Contains(s, "^"));
  }

  /**
    The exception marker is removed first; then the pattern is the text before
    the first `$` and the options come from the text after it, or the pattern is
    the whole remainder and there are no options. The type is read from the
    whole remainder.
   */
  lemma ParseFilterSplit(line: string)
    ensures var f := ParseFilter(line); var rest := Remainder(line);
      && f.kind == Classify(rest)
      && '$' !in f.pattern
      && ('$' in rest ==>
            |f.pattern| < |rest| && rest == f.pattern + "$" + rest[|f.pattern| + 1..]
            && f.options == OptionsOf(rest[|f.pattern| + 1..]))
      && ('$' !in rest ==> f.pattern == rest && f.options == map[])
  {
    var rest := Remainder(line);
    IndexOfFound(rest, '$');
    if '$' in rest {
      ParseFilterWithOptions(line);
    }
  }

  /** The `$` case of the lemma above. */
  lemma ParseFilterWithOptions(line: string)
    requires '$' in Remainder(line)
    ensures var f := ParseFilter(line); var rest := Remainder(line);
      && |f.pattern| < |rest| && rest == f.pattern + "$" + rest[|f.pattern| + 1..]
      && f.options == OptionsOf(rest[|f.pattern| + 1..])
  {
    var rest := Remainder(line);
    var dollar := IndexOf(rest, '$');
    IndexOfFound(rest, '$');
    AfterFirstAt(rest, '$');
    assert ParseFilter(line).pattern == rest[..dollar];
    Around(rest, dollar);
  }

  /** A parsed filter's option values hold no comma. */
  lemma ParseFilterCommaFree(line: string)
    ensures forall key :: key in ParseFilter(line).options ==> CommaFree(ParseFilter(line).options[key])
  {
    ParseFilterSplit(line);
    var rest := Remainder(line);
    var f := ParseFilter(line);
    if '$' in rest {
      OptionsOfCommaFree(rest[|f.pattern| + 1..]);
    }
  }

  /** A domain anchor is checked before wildcards: `||ads.net^*` is domain-anchored. */
  lemma DomainAnchorBeforeWildcard(s: string)
    requires StartsWith(s, "||") && '#' !in s
    ensures Classify(s) == NetworkDomain
  {
    if Contains(s, "##") {
      ContainsFirstChar(s, "##");
    }
    if Contains(s, "#@#") {
      ContainsFirstChar(s, "#@#");
    }
  }

  /** Without `#` and without a leading `|`, a trailing `|` makes a `network_end` filter. */
  lemma EndAnchorWithoutHash(s: string)
    requires '#' !in s && s != [] && s[0] != '|' && s[|s| - 1] == '|'
    ensures Classify(s) == NetworkEnd
  {
    if Contains(s, "##") {
      ContainsFirstChar(s, "##");
    }
    if Contains(s, "#@#") {
      ContainsFirstChar(s, "#@#");
    }
    assert !StartsWith(s, "|");
    assert EndsWith(s, "|");
  }

  /** A line with none of the cue characters `#`, `|`, `*` and `^` is a plain filter. */
  lemma PlainWithoutCues(s: string)
    requires '#' !in s && '|' !in s && '*' !in s && '^' !in s
    ensures Classify(s) == NetworkPlain
  {
    if Contains(s, "##") {
      ContainsFirstChar(s, "##");
    }
    if Contains(s, "#@#") {
      ContainsFirstChar(s, "#@#");
    }
    if s != [] {
      assert s[0] != '|' && s[|s| - 1] != '|';
    }
    ContainsChar(s, '*');
    ContainsChar(s, '^');
  }

  /**
    The type is read from the options tail too: in `ads$domain=a.com|` no `|`
    belongs to the pattern `ads`, yet the trailing `|` of the options makes it
    a `network_end` filter.
   */
  lemma OptionsTailTakesPartInClassification(p: string, tail: string)
    requires p != [] && p[0] != '|' && p[0] != '@' && '$' !in p
    requires '#' !in p && '#' !in tail && tail != [] && tail[|tail| - 1] == '|'
    ensures ParseFilter(p + "$" + tail).kind == NetworkEnd
    ensures ParseFilter(p + "$" + tail).pattern == p
  {
    var line := p + "$" + tail;
    assert line[0] == p[0];
    assert Remainder(line) == line;
    assert line[|p|] == '$' && line[..|p|] == p;
    IndexOfAt(line, '$', |p|);
    assert '#' !in line by {
      assert forall k :: 0 <= k < |line| ==> line[k] == (if k < |p| then p[k] else if k == |p| then '$' else tail[k - |p| - 1]);
    }
    assert line[|line| - 1] == tail[|tail| - 1];
    EndAnchorWithoutHash(line);
    ParseFilterSplit(line);
  }

  /** A bare part is a flag named by the trimmed part. */
  lemma FlagEntry(part: string)
    requires '=' !in Trim(part)
    ensures OptionEntry(part) == (Trim(part), Flag)
  {
  }

  /** `key=value`: the value is the text up to the second `=`, and anything after it is dropped. */
  lemma {:induction false} ValueEntry(part: string, key: string, value: string, tail: string)
    requires Trim(part) == key + "=" + value + tail
    requires '=' !in key && '=' !in value
    requires tail == [] || tail[0] == '='
    ensures OptionEntry(part) == (Trim(key), Str(Trim(value)))
  {
    var t := Trim(part);
    assert t == key + ['='] + value + tail;
    assert t[|key|] == '=';
    SplitFirstTwo(key, '=', value, tail);
  }

  /**
    Duplicate keys: a key is present exactly when some entry names it, and the
    last entry naming it decides its value.
   */
  lemma {:induction false} LastOptionWins(entries: seq<(string, OptionValue)>, key: string)
    ensures key in MapOfEntries(entries) <==> exists j :: 0 <= j < |entries| && entries[j].0 == key
    ensures forall j ::
      (0 <= j < |entries| && entries[j].0 == key
       && (forall l :: j < l < |entries| ==> entries[l].0 != key))
      ==> MapOfEntries(entries)[key] == entries[j].1
    decreases |entries|
  {
    if entries != [] {
      var n := |entries| - 1;
      var init := entries[..n];
      LastOptionWins(init, key);
      assert forall j :: 0 <= j < n ==> init[j] == entries[j];
    }
  }

  lemma {:induction false} FlatMapAppend<A, B>(a: seq<A>, b: seq<A>, f: A -> seq<B>)
    ensures FlatMap(a + b, f) == FlatMap(a, f) + FlatMap(b, f)
    decreases |b|
  {
    if b != [] {
      var n := |b| - 1;
      var ab := a + b;
      assert ab[..|ab| - 1] == a + b[..n] && ab[|ab| - 1] == b[n];
      FlatMapAppend(a, b[..n], f);
      Associative(FlatMap(a, f), FlatMap(b[..n], f), f(b[n]));
    } else {
      assert a + b == a;
    }
  }

  /** The list parser treats each line on its own and keeps the order of lines. */
  lemma FiltersOfAppend(a: seq<string>, b: seq<string>)
    ensures FiltersOf(a + b) == FiltersOf(a) + FiltersOf(b)
  {
    FlatMapAppend(a, b, Collected);
  }

  /** A single line yields nothing when it is blank or a `!` comment, and exactly its own filter otherwise. */
  lemma FiltersOfLine(line: string)
    ensures FiltersOf([line]) == if Skipped(Trim(line)) then [] else [ParseFilter(Trim(line))]
  {
    assert [line][..0] == [];
    assert FlatMap([line], Collected) == Collected(line);
  }

  /** Every collected filter comes from a kept line: its raw text is trimmed, non-empty and not a comment. */
  lemma {:induction false} FiltersOfKeptLines(lines: seq<string>)
    ensures |FiltersOf(lines)| <= |lines|
    ensures forall k :: 0 <= k < |FiltersOf(lines)| ==>
      var f := FiltersOf(lines)[k]; !Skipped(f.raw) && IsTrimmed(f.raw) && f == ParseFilter(f.raw)
    decreases |lines|
  {
    if lines != [] {
      var n := |lines| - 1;
      var t := Trim(lines[n]);
      var init := FiltersOf(lines[..n]);
      assert FiltersOf(lines) == init + Collected(lines[n]);
      FiltersOfKeptLines(lines[..n]);
      TrimIsTrimmed(lines[n]);
      if !Skipped(t) {
        var f := ParseFilter(t);
        assert FiltersOf(lines) == init + [f];
        assert f.raw == t;
      } else {
        assert FiltersOf(lines) == init;
      }
    }
  }
}
