/**
  The SARIF report of the audit: `findings_to_sarif`. A document is its rules array and its results;
  constant fields and the rule name, which only restates the rule id, are not modelled.
*/
module Sarif {
  import opened Wrappers
  import opened Sequences

  datatype Finding = Finding(
    ruleId: string, severity: string, file: string, line: Option<int>, title: string, detail: string, fix: string)

  datatype Level = ErrorLevel | WarningLevel | NoteLevel

  datatype Rule = Rule(id: string, title: string, detail: string, level: Level, fix: string)

  datatype Location = Location(uri: string, startLine: Option<int>)

  datatype Result = Result(ruleId: string, ruleIndex: nat, level: Level, message: string, location: Location)

  datatype Document = Document(rules: seq<Rule>, results: seq<Result>)

  function LevelOf(severity: string): Level {
    if severity == "critical" || severity == "high" then ErrorLevel
    else if severity == "low" || severity == "info" then NoteLevel
    else WarningLevel
  }

  function MakeRule(f: Finding): Rule {
    Rule(f.ruleId, f.title, f.detail, LevelOf(f.severity), f.fix)
  }

  function MakeResult(f: Finding, index: nat): Result {
    Result(f.ruleId, index, LevelOf(f.severity), f.detail, Location(f.file, f.line))
  }

  // ----- The sort key -----

  /** A missing line sorts as line 0. */
  datatype Key = Key(ruleId: string, severity: string, file: string, line: int)

  function KeyOf(f: Finding): Key {
    Key(f.ruleId, f.severity, f.file, if f.line.Some? then f.line.value else 0)
  }

  predicate KeyLe(k: Key, l: Key) {
    if k.ruleId != l.ruleId then StringLe(k.ruleId, l.ruleId)
    else if k.severity != l.severity then StringLe(k.severity, l.severity)
    else if k.file != l.file then StringLe(k.file, l.file)
    else k.line <= l.line
  }

  predicate FindingLe(f: Finding, g: Finding) {
    KeyLe(KeyOf(f), KeyOf(g))
  }

  lemma KeyOrder()
    ensures TotalOrder(KeyLe)
    ensures TotalPreorder(FindingLe)
  {
    StringOrder();
    forall k, l, m | KeyLe(k, l) && KeyLe(l, m) ensures KeyLe(k, m) {
      if k.ruleId == l.ruleId == m.ruleId && k.severity == l.severity == m.severity && k.file == l.file == m.file {
      } else if k.ruleId == l.ruleId == m.ruleId && k.severity == l.severity == m.severity {
        assert StringLe(k.file, l.file) && StringLe(l.file, m.file);
      } else if k.ruleId == l.ruleId == m.ruleId {
        assert StringLe(k.severity, l.severity) && StringLe(l.severity, m.severity);
      } else {
        assert StringLe(k.ruleId, l.ruleId) && StringLe(l.ruleId, m.ruleId);
      }
    }
    forall k, l ensures (KeyLe(k, l) || KeyLe(l, k)) && (KeyLe(k, l) && KeyLe(l, k) ==> k == l) {
      assert StringLe(k.ruleId, l.ruleId) || StringLe(l.ruleId, k.ruleId);
      assert StringLe(k.severity, l.severity) || StringLe(l.severity, k.severity);
      assert StringLe(k.file, l.file) || StringLe(l.file, k.file);
    }
    forall f, g, h | FindingLe(f, g) && FindingLe(g, h) ensures FindingLe(f, h) {
      assert KeyLe(KeyOf(f), KeyOf(g)) && KeyLe(KeyOf(g), KeyOf(h));
    }
    forall f, g ensures FindingLe(f, g) || FindingLe(g, f) {
      assert KeyLe(KeyOf(f), KeyOf(g)) || KeyLe(KeyOf(g), KeyOf(f));
    }
  }

  // ----- The document as a function of the ordered findings -----

  function RuleIds(rules: seq<Rule>): seq<string> {
    seq(|rules|, i requires 0 <= i < |rules| => rules[i].id)
  }

  /** One rule for each id, made from the first finding that has it. */
  function RulesOf(ordered: seq<Finding>): seq<Rule> {
    if ordered == [] then []
    else
      var rules, last := RulesOf(ordered[..|ordered| - 1]), ordered[|ordered| - 1];
      if last.ruleId in RuleIds(rules) then rules else rules + [MakeRule(last)]
  }

  function IndexOf(rules: seq<Rule>, id: string): nat {
    if rules == [] || rules[0].id == id then 0 else 1 + IndexOf(rules[1..], id)
  }

  function ResultsOf(ordered: seq<Finding>, rules: seq<Rule>): seq<Result> {
    seq(|ordered|, i requires 0 <= i < |ordered| => MakeResult(ordered[i], IndexOf(rules, ordered[i].ruleId)))
  }

  function DocumentOf(ordered: seq<Finding>): Document {
    Document(RulesOf(ordered), ResultsOf(ordered, RulesOf(ordered)))
  }

  function SarifOf(findings: seq<Finding>): Document {
    DocumentOf(Sort(findings, FindingLe))
  }

  method FindingsToSarif(findings: seq<Finding>) returns (doc: Document)
    ensures doc == SarifOf(findings)
  {
    var ordered := Sort(findings, FindingLe);
    var seen, order := CollectRules(ordered);
    OrderedIds(findings);
    var ids := Sort(order, StringLe);
    SortOfSorted(order);
    var rules := seq(|ids|, i requires 0 <= i < |ids| && ids[i] in seen => seen[ids[i]]);
    assert rules == RulesOf(ordered);
    var results := MakeResults(ordered, rules, ids);
    doc := Document(rules, results);
  }

  /** `rule_index` and the results that point through it. */
  method MakeResults(ordered: seq<Finding>, rules: seq<Rule>, ids: seq<string>) returns (results: seq<Result>)
    requires rules == RulesOf(ordered) && ids == RuleIds(rules)
    ensures results == ResultsOf(ordered, rules)
  {
    var index: map<string, nat> := map[];
    RuleIdsOf(ordered);
    for i := 0 to |ids|
      invariant forall j | 0 <= j < i :: ids[j] in index && index[ids[j]] == j
    {
      index := index[ids[i] := i];
    }
    results := [];
    for i := 0 to |ordered|
      invariant |results| == i
      invariant forall j | 0 <= j < i :: results[j] == ResultsOf(ordered, rules)[j]
    {
      var id := ordered[i].ruleId;
      EveryIdHasARule(ordered, i);
      IndexFinds(rules, id);
      assert ids[IndexOf(rules, id)] == id;
      results := results + [MakeResult(ordered[i], if id in index then index[id] else 0)];
    }
  }

  /** The loop that fills `seen_rule_ids`; `order` is the insertion order of its keys. */
  method CollectRules(ordered: seq<Finding>) returns (seen: map<string, Rule>, order: seq<string>)
    ensures order == RuleIds(RulesOf(ordered))
    ensures forall i | 0 <= i < |order| :: order[i] in seen && seen[order[i]] == RulesOf(ordered)[i]
  {
    seen, order := map[], [];
    for i := 0 to |ordered|
      invariant order == RuleIds(RulesOf(ordered[..i]))
      invariant forall id :: id in seen <==> id in order
      invariant forall j | 0 <= j < |order| :: seen[order[j]] == RulesOf(ordered[..i])[j]
    {
      var finding := ordered[i];
      assert ordered[..i + 1][..i] == ordered[..i];
      if finding.ruleId !in seen {
        seen := seen[finding.ruleId := MakeRule(finding)];
        order := order + [finding.ruleId];
      }
    }
    assert ordered[..|ordered|] == ordered;
  }

  lemma SortOfSorted(ids: seq<string>)
    requires SortedBy(ids, StringLe)
    ensures Sort(ids, StringLe) == ids
  {
  }

  // ----- The rules array -----

  lemma {:induction false} RuleIdsOf(ordered: seq<Finding>)
    ensures forall id :: id in RuleIds(RulesOf(ordered)) <==> exists f :: f in ordered && f.ruleId == id
    ensures Distinct(RuleIds(RulesOf(ordered)))
  {
    if ordered != [] {
      var init, last := ordered[..|ordered| - 1], ordered[|ordered| - 1];
      RuleIdsOf(init);
      assert ordered == init + [last];
      assert RuleIds(RulesOf(init) + [MakeRule(last)]) == RuleIds(RulesOf(init)) + [last.ruleId];
      forall id ensures id in RuleIds(RulesOf(ordered)) <==> exists f :: f in ordered && f.ruleId == id {
        if f :| f in ordered && f.ruleId == id {
          assert f in init || f == last;
        }
        assert last in ordered && forall f | f in init :: f in ordered;
      }
    }
  }

  lemma {:induction false} RuleIdsSorted(ordered: seq<Finding>)
    requires forall i, j | 0 <= i < j < |ordered| :: StringLe(ordered[i].ruleId, ordered[j].ruleId)
    ensures SortedBy(RuleIds(RulesOf(ordered)), StringLe)
  {
    if ordered != [] {
      var init, last := ordered[..|ordered| - 1], ordered[|ordered| - 1];
      RuleIdsSorted(init);
      RuleIdsOf(init);
      var ids := RuleIds(RulesOf(init));
      assert RuleIds(RulesOf(init) + [MakeRule(last)]) == ids + [last.ruleId];
      forall id | id in ids ensures StringLe(id, last.ruleId) {
        var f :| f in init && f.ruleId == id;
      }
    }
  }

  lemma OrderedIds(findings: seq<Finding>)
    ensures var ordered := Sort(findings, FindingLe);
      && SortedBy(RuleIds(RulesOf(ordered)), StringLe) && Distinct(RuleIds(RulesOf(ordered)))
  {
    var ordered := Sort(findings, FindingLe);
    KeyOrder();
    StringOrder();
    SortIsSortedPermutation(findings, FindingLe);
    forall i, j | 0 <= i < j < |ordered| ensures StringLe(ordered[i].ruleId, ordered[j].ruleId) {
      assert FindingLe(ordered[i], ordered[j]);
    }
    RuleIdsSorted(ordered);
    RuleIdsOf(ordered);
  }

  lemma EveryIdHasARule(ordered: seq<Finding>, i: nat)
    requires i < |ordered|
    ensures ordered[i].ruleId in RuleIds(RulesOf(ordered))
  {
    RuleIdsOf(ordered);
    assert ordered[i] in ordered;
  }

  lemma {:induction false} IndexFinds(rules: seq<Rule>, id: string)
    requires id in RuleIds(rules)
    ensures IndexOf(rules, id) < |rules| && rules[IndexOf(rules, id)].id == id
  {
    if rules[0].id != id {
      assert RuleIds(rules)[1..] == RuleIds(rules[1..]);
      assert RuleIds(rules) == [rules[0].id] + RuleIds(rules[1..]);
      IndexFinds(rules[1..], id);
    }
  }

  // ----- Main results -----

  /** "critical" and "high" are errors, "low" and "info" are notes, and all else is a warning. */
  ghost predicate LevelFor(severity: string, level: Level) {
    && (level == ErrorLevel <==> severity in {"critical", "high"})
    && (level == NoteLevel <==> severity in {"low", "info"})
  }

  /** By rule, then severity, then file, then line; a missing line counts as 0. */
  ghost predicate InOrder(f: Finding, g: Finding) {
    if f.ruleId != g.ruleId then StringLe(f.ruleId, g.ruleId)
    else if f.severity != g.severity then StringLe(f.severity, g.severity)
    else if f.file != g.file then StringLe(f.file, g.file)
    else (match f.line case Some(n) => n case None => 0) <= match g.line case Some(n) => n case None => 0
  }

  /** The rules are strictly sorted by id and are exactly those of the findings. */
  ghost predicate RulesAgree(rules: seq<Rule>, findings: seq<Finding>) {
    && SortedBy(RuleIds(rules), StringLe) && Distinct(RuleIds(rules))
    && forall id :: id in RuleIds(rules) <==> exists f :: f in findings && f.ruleId == id
  }

  /** The i-th result is the i-th ordered finding and points at its own rule. */
  ghost predicate ResultAgrees(doc: Document, ordered: seq<Finding>, i: nat)
    requires i < |ordered| == |doc.results|
  {
    var result := doc.results[i];
    && result.ruleIndex < |doc.rules|
    && doc.rules[result.ruleIndex].id == result.ruleId == ordered[i].ruleId
    && LevelFor(ordered[i].severity, result.level) && result.message == ordered[i].detail
    && result.location == Location(ordered[i].file, ordered[i].line)
  }

  /** The i-th ordered finding is the first of its rule, and the rule is made from it. */
  ghost predicate FirstOf(rule: Rule, ordered: seq<Finding>, i: nat)
    requires i < |ordered|
  {
    && rule.id == ordered[i].ruleId && rule.title == ordered[i].title && rule.detail == ordered[i].detail
    && rule.fix == ordered[i].fix && LevelFor(ordered[i].severity, rule.level)
    && forall j | 0 <= j < i :: ordered[j].ruleId != ordered[i].ruleId
  }

  lemma {:induction false} RuleComesFromFirst(ordered: seq<Finding>, k: nat)
    requires k < |RulesOf(ordered)|
    ensures HasFirst(RulesOf(ordered)[k], ordered)
  {
    var init, last := ordered[..|ordered| - 1], |ordered| - 1;
    if k < |RulesOf(init)| {
      RuleComesFromFirst(init, k);
      var i: nat :| i < |init| && FirstOf(RulesOf(init)[k], init, i);
      assert FirstOf(RulesOf(ordered)[k], ordered, i);
    } else {
      RuleIdsOf(init);
      forall j | 0 <= j < last ensures ordered[j].ruleId != ordered[last].ruleId {
        assert init[j] in init;
      }
      assert FirstOf(RulesOf(ordered)[k], ordered, last);
    }
  }

  ghost predicate HasFirst(rule: Rule, ordered: seq<Finding>) {
    exists i: nat :: i < |ordered| && FirstOf(rule, ordered, i)
  }

  /**
    The rules are those of the findings, strictly sorted, each from the first of its findings; the
    results are the findings in sort order, each pointing at its own rule.
   */
  lemma DocumentAgrees(findings: seq<Finding>)
    ensures var doc, ordered := SarifOf(findings), Sort(findings, FindingLe);
      && multiset(ordered) == multiset(findings) && SortedBy(ordered, FindingLe)
      && RulesAgree(doc.rules, findings) && (forall rule | rule in doc.rules :: HasFirst(rule, ordered))
      && |doc.results| == |ordered| && (forall i | 0 <= i < |ordered| :: ResultAgrees(doc, ordered, i))
      && forall i, j | 0 <= i < j < |ordered| :: InOrder(ordered[i], ordered[j])
  {
    var doc, ordered := SarifOf(findings), Sort(findings, FindingLe);
    KeyOrder();
    SortIsSortedPermutation(findings, FindingLe);
    RulesOfFindings(findings);
    AllResultsAgree(ordered);
    forall i, j | 0 <= i < j < |ordered| ensures InOrder(ordered[i], ordered[j]) {
      assert FindingLe(ordered[i], ordered[j]);
    }
    forall rule | rule in doc.rules ensures HasFirst(rule, ordered) {
      var k :| 0 <= k < |doc.rules| && doc.rules[k] == rule;
      RuleComesFromFirst(ordered, k);
    }
  }

  lemma AllResultsAgree(ordered: seq<Finding>)
    ensures forall i | 0 <= i < |ordered| :: ResultAgrees(DocumentOf(ordered), ordered, i)
  {
    forall i | 0 <= i < |ordered| ensures ResultAgrees(DocumentOf(ordered), ordered, i) {
      EveryIdHasARule(ordered, i);
      IndexFinds(RulesOf(ordered), ordered[i].ruleId);
    }
  }

  lemma RulesOfFindings(findings: seq<Finding>)
    ensures RulesAgree(RulesOf(Sort(findings, FindingLe)), findings)
  {
    KeyOrder();
    SortIsSortedPermutation(findings, FindingLe);
    OrderedIds(findings);
    RuleIdsOf(Sort(findings, FindingLe));
  }

  // ----- When the order of the findings does not show -----

  /** No finding of the same rule has a smaller key. */
  ghost predicate LeastOfRule(f: Finding, findings: seq<Finding>) {
    forall h | h in findings && h.ruleId == f.ruleId :: FindingLe(f, h)
  }

  /** The two findings give the same result, and the same rule if the rule could come from either. */
  ghost predicate Interchangeable(f: Finding, g: Finding, findings: seq<Finding>) {
    && MakeResult(f, 0) == MakeResult(g, 0)
    && (LeastOfRule(f, findings) ==> MakeRule(f) == MakeRule(g))
  }

  ghost predicate TiesInterchangeable(findings: seq<Finding>) {
    forall f, g | f in findings && g in findings && KeyOf(f) == KeyOf(g) :: Interchangeable(f, g, findings)
  }

  ghost predicate OrderDoesNotShow(findings: seq<Finding>) {
    forall permuted | multiset(permuted) == multiset(findings) :: SarifOf(permuted) == SarifOf(findings)
  }

  /** Two orders of the same findings are sorted into the same keys. */
  lemma SameKeys(findings: seq<Finding>, permuted: seq<Finding>)
    requires multiset(findings) == multiset(permuted)
    ensures var fs, gs := Sort(findings, FindingLe), Sort(permuted, FindingLe);
      && |fs| == |gs| && (forall i | 0 <= i < |fs| :: KeyOf(fs[i]) == KeyOf(gs[i]))
      && forall f | f in fs || f in gs :: f in findings
  {
    var fs, gs := Sort(findings, FindingLe), Sort(permuted, FindingLe);
    KeyOrder();
    SortIsSortedPermutation(findings, FindingLe);
    SortIsSortedPermutation(permuted, FindingLe);
    SameMultiset(findings, permuted);
    MapPermutes(fs, gs, KeyOf);
    SortedKeys(fs);
    SortedKeys(gs);
    MapAt(fs, KeyOf);
    MapAt(gs, KeyOf);
    SortedUnique(Map(fs, KeyOf), Map(gs, KeyOf), KeyLe);
    forall i | 0 <= i < |fs| ensures KeyOf(fs[i]) == KeyOf(gs[i]) {
      assert Map(fs, KeyOf)[i] == Map(gs, KeyOf)[i];
    }
  }

  lemma SortedKeys(fs: seq<Finding>)
    requires SortedBy(fs, FindingLe)
    ensures SortedBy(Map(fs, KeyOf), KeyLe)
  {
    MapAt(fs, KeyOf);
    forall i, j | 0 <= i < j < |fs| ensures KeyLe(Map(fs, KeyOf)[i], Map(fs, KeyOf)[j]) {
      assert FindingLe(fs[i], fs[j]);
    }
  }

  ghost predicate FirstAt(ordered: seq<Finding>, i: nat)
    requires i < |ordered|
  {
    forall j | 0 <= j < i :: ordered[j].ruleId != ordered[i].ruleId
  }

  /** The same rule ids, and the first finding of each rule makes the same rule. */
  ghost predicate SameFirsts(fs: seq<Finding>, gs: seq<Finding>) {
    && |fs| == |gs|
    && forall i | 0 <= i < |fs| && FirstAt(fs, i) :: MakeRule(fs[i]) == MakeRule(gs[i])
  }

  lemma PrefixFirsts(fs: seq<Finding>, gs: seq<Finding>)
    requires SameFirsts(fs, gs) && fs != []
    ensures SameFirsts(fs[..|fs| - 1], gs[..|fs| - 1])
  {
    var f0 := fs[..|fs| - 1];
    forall i | 0 <= i < |f0| && FirstAt(f0, i) ensures MakeRule(fs[i]) == MakeRule(gs[i]) {
      assert forall j | 0 <= j < i :: f0[j].ruleId == fs[j].ruleId;
      assert FirstAt(fs, i);
    }
  }

  lemma {:induction false} SameFirstsSameRules(fs: seq<Finding>, gs: seq<Finding>)
    requires SameFirsts(fs, gs) && forall i | 0 <= i < |fs| :: fs[i].ruleId == gs[i].ruleId
    ensures RulesOf(fs) == RulesOf(gs)
  {
    if fs != [] {
      PrefixFirsts(fs, gs);
      SameFirstsSameRules(fs[..|fs| - 1], gs[..|fs| - 1]);
      LastRule(fs, gs);
    }
  }

  lemma LastRule(fs: seq<Finding>, gs: seq<Finding>)
    requires |fs| == |gs| > 0 && RulesOf(fs[..|fs| - 1]) == RulesOf(gs[..|gs| - 1])
    requires fs[|fs| - 1].ruleId == gs[|gs| - 1].ruleId
    requires FirstAt(fs, |fs| - 1) ==> MakeRule(fs[|fs| - 1]) == MakeRule(gs[|gs| - 1])
    ensures RulesOf(fs) == RulesOf(gs)
  {
    if fs[|fs| - 1].ruleId !in RuleIds(RulesOf(fs[..|fs| - 1])) {
      NewRuleIsFirst(fs);
    }
  }

  lemma NewRuleIsFirst(fs: seq<Finding>)
    requires fs != [] && fs[|fs| - 1].ruleId !in RuleIds(RulesOf(fs[..|fs| - 1]))
    ensures FirstAt(fs, |fs| - 1)
  {
    var init := fs[..|fs| - 1];
    RuleIdsOf(init);
    forall j | 0 <= j < |fs| - 1 ensures fs[j].ruleId != fs[|fs| - 1].ruleId {
      assert init[j] in init;
    }
  }

  /** In sorted findings, the first of a rule has the least key of the rule. */
  lemma FirstIsLeastOfRule(findings: seq<Finding>, ordered: seq<Finding>, i: nat)
    requires SortedBy(ordered, FindingLe) && (forall f :: f in ordered <==> f in findings)
    requires i < |ordered| && FirstAt(ordered, i)
    ensures LeastOfRule(ordered[i], findings)
  {
    KeyOrder();
    forall h | h in findings && h.ruleId == ordered[i].ruleId ensures FindingLe(ordered[i], h) {
      assert h in ordered;
      var j :| 0 <= j < |ordered| && ordered[j] == h;
      assert !(j < i);
    }
  }

  lemma InterchangeableSuffices(findings: seq<Finding>, permuted: seq<Finding>)
    requires multiset(permuted) == multiset(findings) && TiesInterchangeable(findings)
    ensures SarifOf(permuted) == SarifOf(findings)
  {
    var fs, gs := Sort(findings, FindingLe), Sort(permuted, FindingLe);
    SameKeys(findings, permuted);
    KeyOrder();
    SortIsSortedPermutation(findings, FindingLe);
    forall i | 0 <= i < |fs| ensures Interchangeable(fs[i], gs[i], findings) {
      assert fs[i] in fs && gs[i] in gs;
    }
    forall i | 0 <= i < |fs| && FirstAt(fs, i) ensures MakeRule(fs[i]) == MakeRule(gs[i]) {
      FirstIsLeastOfRule(findings, fs, i);
      assert Interchangeable(fs[i], gs[i], findings);
    }
    SameFirstsSameRules(fs, gs);
    forall i | 0 <= i < |fs| ensures ResultsOf(fs, RulesOf(fs))[i] == ResultsOf(gs, RulesOf(gs))[i] {
      assert Interchangeable(fs[i], gs[i], findings);
    }
    assert ResultsOf(fs, RulesOf(fs)) == ResultsOf(gs, RulesOf(gs));
  }

  /** The rule of the first finding with its id is made from it. */
  lemma {:induction false} FirstMakesRule(ordered: seq<Finding>, i: nat)
    requires i < |ordered| && FirstAt(ordered, i)
    ensures MakeRule(ordered[i]) in RulesOf(ordered)
  {
    var n := |ordered| - 1;
    var init := ordered[..n];
    if i < n {
      assert FirstAt(init, i);
      FirstMakesRule(init, i);
    } else {
      RuleIdsOf(init);
      assert forall f | f in init :: f.ruleId != ordered[n].ruleId;
    }
  }

  lemma OneRulePerId(ordered: seq<Finding>, r: Rule, q: Rule)
    requires r in RulesOf(ordered) && q in RulesOf(ordered) && r.id == q.id
    ensures r == q
  {
    RuleIdsOf(ordered);
    var rules := RulesOf(ordered);
    var i :| 0 <= i < |rules| && rules[i] == r;
    var j :| 0 <= j < |rules| && rules[j] == q;
    assert RuleIds(rules)[i] == RuleIds(rules)[j];
  }

  /** Exchanging two tied findings that are not interchangeable shows. */
  lemma TieShows(f: Finding, g: Finding, rest: seq<Finding>)
    requires KeyOf(f) == KeyOf(g) && SarifOf([f, g] + rest) == SarifOf([g, f] + rest)
    ensures Interchangeable(f, g, [f, g] + rest)
  {
    var s := Sort(rest, FindingLe);
    KeyOrder();
    var p := SortTiedPair(f, g, rest, FindingLe);
    SwappedDocuments(s[..p], f, g, s[p..]);
    if LeastOfRule(f, [f, g] + rest) {
      NoneBefore(f, g, rest, s[..p]);
    }
  }

  lemma NoneBefore(f: Finding, g: Finding, rest: seq<Finding>, before: seq<Finding>)
    requires LeastOfRule(f, [f, g] + rest) && before <= Sort(rest, FindingLe)
    requires forall x | x in before :: !FindingLe(f, x)
    ensures forall j | 0 <= j < |before| :: before[j].ruleId != f.ruleId
  {
    KeyOrder();
    SortIsSortedPermutation(rest, FindingLe);
    forall j | 0 <= j < |before| ensures before[j].ruleId != f.ruleId {
      assert before[j] == Sort(rest, FindingLe)[j];
      assert before[j] in rest && before[j] in [f, g] + rest;
    }
  }

  lemma SwappedDocuments(before: seq<Finding>, f: Finding, g: Finding, after: seq<Finding>)
    requires f.ruleId == g.ruleId
    requires DocumentOf(before + [f] + ([g] + after)) == DocumentOf(before + [g] + ([f] + after))
    ensures MakeResult(f, 0) == MakeResult(g, 0)
    ensures (forall j | 0 <= j < |before| :: before[j].ruleId != f.ruleId) ==> MakeRule(f) == MakeRule(g)
  {
    var fs, gs, p := before + [f] + ([g] + after), before + [g] + ([f] + after), |before|;
    assert fs[p] == f && gs[p] == g && fs[..p] == before == gs[..p];
    assert ResultsOf(fs, RulesOf(fs))[p] == ResultsOf(gs, RulesOf(gs))[p];
    if forall j | 0 <= j < p :: before[j].ruleId != f.ruleId {
      FirstRulesAgree(fs, gs, p);
    }
  }

  lemma FirstRulesAgree(fs: seq<Finding>, gs: seq<Finding>, p: nat)
    requires p < |fs| == |gs| && fs[..p] == gs[..p] && fs[p].ruleId == gs[p].ruleId
    requires forall j | 0 <= j < p :: fs[..p][j].ruleId != fs[p].ruleId
    requires RulesOf(fs) == RulesOf(gs)
    ensures MakeRule(fs[p]) == MakeRule(gs[p])
  {
    assert forall j | 0 <= j < p :: fs[j] == fs[..p][j] == gs[j];
    FirstMakesRule(fs, p);
    FirstMakesRule(gs, p);
    OneRulePerId(fs, MakeRule(fs[p]), MakeRule(gs[p]));
  }

  lemma RemoveOne(xs: seq<Finding>, x: Finding) returns (rest: seq<Finding>)
    requires x in xs
    ensures multiset(rest) == multiset(xs) - multiset{x}
    ensures forall y | y in xs && y != x :: y in rest
  {
    var k :| 0 <= k < |xs| && xs[k] == x;
    rest := xs[..k] + xs[k + 1..];
    TakeOut(xs, k);
    assert xs == xs[..k] + [x] + xs[k + 1..];
  }

  lemma TwoInFront(findings: seq<Finding>, f: Finding, g: Finding) returns (rest: seq<Finding>)
    requires f in findings && g in findings && f != g
    ensures multiset([f, g] + rest) == multiset(findings) == multiset([g, f] + rest)
  {
    var others := RemoveOne(findings, f);
    rest := RemoveOne(others, g);
    PutBack(findings, f, others);
    PutBack(others, g, rest);
    FrontItems(f, g, rest);
    FrontItems(g, f, rest);
  }

  lemma PutBack(xs: seq<Finding>, x: Finding, rest: seq<Finding>)
    requires x in xs && multiset(rest) == multiset(xs) - multiset{x}
    ensures multiset(xs) == multiset(rest) + multiset{x}
  {
    assert x in multiset(xs);
  }

  lemma FrontItems(f: Finding, g: Finding, rest: seq<Finding>)
    ensures multiset([f, g] + rest) == multiset(rest) + multiset{f} + multiset{g}
  {
    assert [f, g] + rest == [f] + ([g] + rest);
  }

  lemma SameInterchangeable(f: Finding, g: Finding, xs: seq<Finding>, ys: seq<Finding>)
    requires multiset(xs) == multiset(ys) && Interchangeable(f, g, xs)
    ensures Interchangeable(f, g, ys)
  {
    SameMultiset(xs, ys);
  }

  /**
    The document is the same for every order of the findings if and only if findings with equal sort keys
    give the same result, and those with the least key of their rule also the same rule.
   */
  lemma OrderDoesNotShowExactlyWhen(findings: seq<Finding>)
    ensures OrderDoesNotShow(findings) <==> TiesInterchangeable(findings)
  {
    if TiesInterchangeable(findings) {
      forall permuted | multiset(permuted) == multiset(findings) ensures SarifOf(permuted) == SarifOf(findings) {
        InterchangeableSuffices(findings, permuted);
      }
    }
    if OrderDoesNotShow(findings) {
      forall f, g | f in findings && g in findings && KeyOf(f) == KeyOf(g) ensures Interchangeable(f, g, findings) {
        if f != g {
          TiedPairInterchangeable(findings, f, g);
        }
      }
    }
  }

  lemma TiedPairInterchangeable(findings: seq<Finding>, f: Finding, g: Finding)
    requires OrderDoesNotShow(findings) && f in findings && g in findings && KeyOf(f) == KeyOf(g) && f != g
    ensures Interchangeable(f, g, findings)
  {
    var rest := TwoInFront(findings, f, g);
    assert SarifOf([f, g] + rest) == SarifOf(findings) == SarifOf([g, f] + rest);
    TieShows(f, g, rest);
    SameInterchangeable(f, g, [f, g] + rest, findings);
  }

  /** The two findings read the same in a report. */
  predicate Alike(f: Finding, g: Finding) {
    MakeRule(f) == MakeRule(g) && MakeResult(f, 0) == MakeResult(g, 0)
  }

  /** Permuting the findings leaves the document unchanged when findings with equal sort keys read alike. */
  lemma OrderDoesNotMatter(findings: seq<Finding>, permuted: seq<Finding>)
    requires multiset(findings) == multiset(permuted)
    requires forall f, g | f in findings && g in findings && KeyOf(f) == KeyOf(g) :: Alike(f, g)
    ensures SarifOf(permuted) == SarifOf(findings)
  {
    InterchangeableSuffices(findings, permuted);
  }

  /** For two findings: swapping them shows if and only if they are tied and differ. */
  lemma SwapShowsExactlyOnTies(f: Finding, g: Finding)
    ensures SarifOf([f, g]) == SarifOf([g, f]) <==> KeyOf(f) != KeyOf(g) || Alike(f, g)
  {
    KeyOrder();
    assert multiset([f, g]) == multiset([g, f]);
    if KeyOf(f) == KeyOf(g) && SarifOf([f, g]) == SarifOf([g, f]) {
      assert [f, g] + [] == [f, g] && [g, f] + [] == [g, f];
      TieShows(f, g, []);
      assert LeastOfRule(f, [f, g]);
    } else if KeyOf(f) != KeyOf(g) || Alike(f, g) {
      OrderDoesNotMatter([f, g], [g, f]);
    }
  }

  /** Tied findings may differ in their rules and not show, as long as a smaller finding makes the rule. */
  lemma HarmlessTie(least: Finding, f: Finding, g: Finding)
    requires least.ruleId == f.ruleId && FindingLe(least, f) && KeyOf(least) != KeyOf(f)
    requires KeyOf(f) == KeyOf(g) && MakeResult(f, 0) == MakeResult(g, 0)
    ensures OrderDoesNotShow([least, f, g])
  {
    KeyOrder();
    var findings := [least, f, g];
    assert !FindingLe(f, least) && !FindingLe(g, least) && least in findings;
    OrderDoesNotShowExactlyWhen(findings);
  }
}
