/** The file organizer's rules: a rule is a file pattern, a target folder,
    an action and a priority; an engine holds its rules in descending
    priority, rules of equal priority in the order given; the summary lists
    them; and the loader builds an engine from YAML text, filling in missing
    fields and falling back to an engine without rules on any error.
    `yaml.safe_load` is a parameter (`None` where it raises). */
module FileRules {
  import opened Wrappers
  import opened Seqs
  import opened Strings
  import opened StableSort
  import opened YamlValue

  datatype FileRule = FileRule(pattern: string, target: string, action: string, priority: int := 0)

  function PriorityKey(r: FileRule): int { r.priority }

  /** `RulesEngine`; its rules are never changed after construction. */
  datatype RulesEngine = RulesEngine(rules: seq<FileRule>)

  /** `RulesEngine(rules)`: the rules sorted by priority, highest first. */
  function NewEngine(rules: seq<FileRule>): (e: RulesEngine)
    ensures multiset(e.rules) == multiset(rules)
    ensures SortedDesc(e.rules, PriorityKey)
  {
    SortIsSorted(rules, PriorityKey);
    RulesEngine(SortByKeyDesc(rules, PriorityKey))
  }

  /** Rules of equal priority keep the order they were given in. */
  lemma EngineIsStable(rules: seq<FileRule>, k: int)
    ensures Filter(NewEngine(rules).rules, KeyIs(PriorityKey, k)) == Filter(rules, KeyIs(PriorityKey, k))
  {
    SortIsStable(rules, PriorityKey, k);
  }

  // ---------------------------------------------------------------- summary

  const NoRulesText := "No organization rules defined."
  const SummaryHeader := "File Organization Rules (sorted by priority):\n"

  /** The line for the rule numbered `n`. */
  function SummaryLine(n: int, r: FileRule): string {
    IntToString(n) + ". Pattern: '" + r.pattern + "' → " + Upper(r.action) + " to '" + r.target
      + "' (Priority: " + IntToString(r.priority) + ")\n"
  }

  /** The lines of `rules`, numbered from 1. */
  function SummaryLines(rules: seq<FileRule>): string {
    if rules == [] then ""
    else SummaryLines(rules[..|rules| - 1]) + SummaryLine(|rules|, rules[|rules| - 1])
  }

  /** `get_rules_summary`. */
  function Summary(engine: RulesEngine): (text: string)
    ensures engine.rules != [] ==> StartsWith(text, SummaryHeader)
  {
    if engine.rules == [] then NoRulesText else SummaryHeader + SummaryLines(engine.rules)
  }

  /** `get_rules_summary` as it runs: a string extended by one line per rule. */
  method GetRulesSummary(engine: RulesEngine) returns (summary: string)
    ensures summary == Summary(engine)
  {
    if engine.rules == [] {
      return NoRulesText;
    }
    summary := SummaryHeader;
    var i := 0;
    while i < |engine.rules|
      invariant 0 <= i <= |engine.rules|
      invariant summary == SummaryHeader + SummaryLines(engine.rules[..i])
    {
      var rule := engine.rules[i];
      SummaryStep(engine.rules, i);
      summary := summary + SummaryLine(i + 1, rule);
      i := i + 1;
    }
    assert engine.rules[..i] == engine.rules;
  }

  /** One turn of the summary loop. */
  lemma SummaryStep(rules: seq<FileRule>, i: int)
    requires 0 <= i < |rules|
    ensures SummaryHeader + SummaryLines(rules[..i]) + SummaryLine(i + 1, rules[i])
         == SummaryHeader + SummaryLines(rules[..i + 1])
  {
    assert rules[..i + 1] == rules[..i] + [rules[i]];
    SummaryLinesSnoc(rules[..i], rules[i]);
  }

  /** No field of the rule breaks a line. */
  predicate SingleLine(r: FileRule) {
    '\n' !in r.pattern && '\n' !in r.target && '\n' !in r.action
  }

  /** A printed integer holds no newline. */
  lemma IntToStringNoNewline(i: int)
    ensures '\n' !in IntToString(i)
  {
    var s := IntToString(i);
    if i < 0 {
      assert s[1..] == NatToDecimal(-i);
      forall k | 0 <= k < |s| ensures s[k] != '\n' {
        if k > 0 { assert s[k] == NatToDecimal(-i)[k - 1]; }
      }
    }
  }

  /** A rule's line ends in the only newline it has. */
  lemma OneNewlinePerLine(n: int, r: FileRule)
    requires SingleLine(r)
    ensures CountChar(SummaryLine(n, r), '\n') == 1
  {
    UpperKeeps(r.action, '\n');
    IntToStringNoNewline(n);
    IntToStringNoNewline(r.priority);
    var body := IntToString(n) + ". Pattern: '" + r.pattern + "' → " + Upper(r.action) + " to '" + r.target
                + "' (Priority: " + IntToString(r.priority) + ")";
    assert SummaryLine(n, r) == body + "\n";
    assert '\n' !in body;
    CountCharAbsent(body, '\n');
    CountCharConcat(body, "\n", '\n');
  }

  /** The summary has one line per rule after its header line. */
  lemma {:induction false} SummaryLineCount(rules: seq<FileRule>)
    requires forall r :: r in rules ==> SingleLine(r)
    ensures CountChar(SummaryLines(rules), '\n') == |rules|
  {
    if rules != [] {
      var init := rules[..|rules| - 1];
      assert forall r :: r in init ==> r in rules;
      SummaryLineCount(init);
      OneNewlinePerLine(|rules|, rules[|rules| - 1]);
      CountCharConcat(SummaryLines(init), SummaryLine(|rules|, rules[|rules| - 1]), '\n');
    }
  }

  /** The text for no rules is given exactly for an engine without rules; any
      other engine gets the header and then one line per rule. */
  lemma {:induction false} SummaryShape(engine: RulesEngine)
    requires forall r :: r in engine.rules ==> SingleLine(r)
    ensures Summary(engine) == NoRulesText <==> engine.rules == []
    ensures engine.rules != [] ==> (
              && StartsWith(Summary(engine), SummaryHeader)
              && CountChar(Summary(engine)[|SummaryHeader|..], '\n') == |engine.rules|)
  {
    if engine.rules != [] {
      assert Summary(engine)[0] == SummaryHeader[0];
      SummaryLineCount(engine.rules);
      assert Summary(engine)[|SummaryHeader|..] == SummaryLines(engine.rules);
      assert Summary(engine)[..|SummaryHeader|] == SummaryHeader;
    }
  }

  /** Appending a rule appends its line, numbered after the others. */
  lemma {:induction false} SummaryLinesSnoc(rules: seq<FileRule>, r: FileRule)
    ensures SummaryLines(rules + [r]) == SummaryLines(rules) + SummaryLine(|rules| + 1, r)
  {
    assert (rules + [r])[..|rules|] == rules;
  }

  // ---------------------------------------------------------------- loader

  /** `FileRule(pattern=d.get('pattern', '*'), target=d.get('target', ''),
      action=d.get('action', 'copy'), priority=d.get('priority', 0))` for an
      entry whose fields have the types a rule is used with. */
  function RuleOf(item: Yaml): Option<FileRule> {
    match item
    case YMap(e) =>
      (match (GetOr(e, "pattern", YStr("*")), GetOr(e, "target", YStr("")),
              GetOr(e, "action", YStr("copy")), GetOr(e, "priority", YInt(0)))
       case (YStr(pattern), YStr(target), YStr(action), YInt(priority)) =>
         Some(FileRule(pattern, target, action, priority))
       case _ => None)
    case _ => None
  }

  /** The rule of every entry, or `None` as soon as one has no rule. */
  function RulesOf(items: seq<Yaml>): (r: Option<seq<FileRule>>)
    ensures r.Some? <==> forall k :: 0 <= k < |items| ==> RuleOf(items[k]).Some?
    ensures r.Some? ==> |r.value| == |items| && forall k :: 0 <= k < |items| ==> r.value[k] == RuleOf(items[k]).value
  {
    if items == [] then Some([])
    else
      match RulesOf(items[..|items| - 1])
      case None => None
      case Some(init) =>
        match RuleOf(items[|items| - 1])
        case None => None
        case Some(last) => Some(init + [last])
  }

  /** The entries of `data['rules']` when the document is a non-empty
      mapping holding a list under "rules"; no entries when the document has
      no rules; `None` where the loader would raise. */
  function RuleEntries(data: Yaml): Option<seq<Yaml>> {
    if !Truthy(data) || MemberOf("rules", data) == Some(false) then Some([])
    else if !data.YMap? then None
    else match Get(data.entries, "rules").value
      case YList(items) => Some(items)
      case YMap(entries) => if entries == [] then Some([]) else None
      case YStr(s) => if s == [] then Some([]) else None
      case _ => None
  }

  /** `load_rules_from_string`: the engine of the document's rules, or an
      engine without rules when the text does not parse or anything fails. */
  function LoadRules(safeLoad: string -> Option<Yaml>, text: string): (e: RulesEngine)
    ensures SortedDesc(e.rules, PriorityKey)
  {
    match safeLoad(text)
    case None => RulesEngine([])
    case Some(data) =>
      match RuleEntries(data)
      case None => RulesEngine([])
      case Some(items) =>
        match RulesOf(items)
        case None => RulesEngine([])
        case Some(rules) => NewEngine(rules)
  }

  /** `load_rules_from_string` as it runs: a loop appending one rule per
      entry, abandoned for an empty engine at the first entry that fails. */
  method LoadRulesFromString(safeLoad: string -> Option<Yaml>, text: string) returns (engine: RulesEngine)
    ensures engine == LoadRules(safeLoad, text)
  {
    var data := safeLoad(text);
    if data.None? {
      return RulesEngine([]);
    }
    var entries := RuleEntries(data.value);
    if entries.None? {
      return RulesEngine([]);
    }
    var items := entries.value;
    var rules: seq<FileRule> := [];
    var i := 0;
    while i < |items|
      invariant 0 <= i <= |items|
      invariant RulesOf(items[..i]) == Some(rules)
    {
      var rule := RuleOf(items[i]);
      assert items[..i + 1][..i] == items[..i];
      if rule.None? {
        assert RulesOf(items[..i + 1]).None?;
        assert RulesOf(items).None? by {
          assert !RuleOf(items[i]).Some?;
        }
        return RulesEngine([]);
      }
      rules := rules + [rule.value];
      i := i + 1;
    }
    assert items[..i] == items;
    return NewEngine(rules);
  }

  /** Missing fields take the defaults: an empty entry is a rule that copies
      every file to '' with priority 0. */
  lemma Defaults()
    ensures RuleOf(YMap([])) == Some(FileRule("*", "", "copy", 0))
  {
  }

  /** A loaded engine has one rule per entry, each with the entry's fields
      or their defaults, in descending priority. */
  lemma LoadedRules(safeLoad: string -> Option<Yaml>, text: string, items: seq<Yaml>)
    requires safeLoad(text).Some? && RuleEntries(safeLoad(text).value) == Some(items)
    requires forall k :: 0 <= k < |items| ==> RuleOf(items[k]).Some?
    ensures var engine := LoadRules(safeLoad, text);
            && |engine.rules| == |items|
            && RulesOf(items).Some?
            && multiset(engine.rules) == multiset(RulesOf(items).value)
            && SortedDesc(engine.rules, PriorityKey)
  {
    var rules := RulesOf(items).value;
    var engine := LoadRules(safeLoad, text);
    assert |engine.rules| == |multiset(engine.rules)| == |multiset(rules)| == |rules|;
  }

  /** Unparsable text, a document that is not a mapping with rules, and an
      entry without a rule each give an engine without rules. */
  lemma LoaderFallsBack(safeLoad: string -> Option<Yaml>, text: string)
    requires || safeLoad(text).None?
             || (safeLoad(text).Some? && !safeLoad(text).value.YMap?)
             || (safeLoad(text).Some? && safeLoad(text).value.YMap?
                 && !HasKey(safeLoad(text).value.entries, "rules"))
    ensures LoadRules(safeLoad, text) == RulesEngine([])
  {
    if safeLoad(text).Some? {
      var data := safeLoad(text).value;
      if !data.YMap? && Truthy(data) {
        assert MemberOf("rules", data) != Some(false) ==> RuleEntries(data).None?;
      }
    }
  }

  /** A list of rules with one entry that has no rule loads as no rules at
      all. */
  lemma OneBadEntryEmptiesEngine(safeLoad: string -> Option<Yaml>, text: string, items: seq<Yaml>, k: int)
    requires safeLoad(text).Some? && RuleEntries(safeLoad(text).value) == Some(items)
    requires 0 <= k < |items| && RuleOf(items[k]).None?
    ensures LoadRules(safeLoad, text) == RulesEngine([])
  {
  }
}
