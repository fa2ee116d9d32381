/** Merging findings that report the same thing (`correlate_findings`). */
module Correlation {
  import opened JsonValues
  import opened Sorting

  datatype Severity = INFO | LOW | MEDIUM | HIGH | CRITICAL

  datatype Confidence = WEAK | MODERATE | STRONG

  function Rank(severity: Severity): nat {
    match severity case INFO => 0 case LOW => 1 case MEDIUM => 2 case HIGH => 3 case CRITICAL => 4
  }

  function Certainty(confidence: Confidence): nat {
    match confidence case WEAK => 0 case MODERATE => 1 case STRONG => 2
  }

  /** CRITICAL is worse than HIGH, HIGH than MEDIUM, MEDIUM than LOW, and LOW than INFO. */
  predicate Worse(a: Severity, b: Severity) {
    match a
    case CRITICAL => !b.CRITICAL?
    case HIGH => b.MEDIUM? || b.LOW? || b.INFO?
    case MEDIUM => b.LOW? || b.INFO?
    case LOW => b.INFO?
    case INFO => false
  }

  /** HIGH confidence is surer than MEDIUM, and MEDIUM than LOW. */
  predicate Surer(a: Confidence, b: Confidence) {
    (a.STRONG? && !b.STRONG?) || (a.MODERATE? && b.WEAK?)
  }

  /** The ranks order severities and confidences as they are meant. */
  lemma {:induction false} RanksExactly(a: Severity, b: Severity, x: Confidence, y: Confidence)
    ensures Rank(a) > Rank(b) <==> Worse(a, b)
    ensures Certainty(x) > Certainty(y) <==> Surer(x, y)
  {
  }

  datatype Evidence = Evidence(engine: string, content: Json)

  /** What a fingerprint is computed from. */
  datatype Subject = Subject(endpoint: Option<string>, method_: Option<string>, parameter: Option<string>,
      category: string)

  /** A finding draft; `text` stands for the descriptive fields, which are carried along. */
  datatype Finding = Finding(
    subject: Subject, severity: Severity, confidence: Confidence, sourceEngine: string,
    references: seq<string>, evidence: seq<Evidence>, text: Json)

  datatype Correlated = Correlated(finding: Finding, sources: seq<string>)

  type Fingerprint = Subject -> string

  // ---------- one group ----------

  predicate Above(a: Finding, b: Finding) {
    Rank(a.severity) > Rank(b.severity)
    || (Rank(a.severity) == Rank(b.severity) && Certainty(a.confidence) > Certainty(b.confidence))
  }

  /** `max` returns the first of the largest elements. */
  ghost predicate FirstBest(group: seq<Finding>, i: nat) {
    && i < |group|
    && (forall j | 0 <= j < |group| :: !Above(group[j], group[i]))
    && (forall j | 0 <= j < i :: Above(group[i], group[j]))
  }

  function EvidenceOf(group: seq<Finding>): seq<Evidence> {
    if group == [] then [] else EvidenceOf(group[..|group| - 1]) + group[|group| - 1].evidence
  }

  lemma {:induction false} EvidenceOfAppend(group: seq<Finding>, last: Finding)
    ensures EvidenceOf([]) == [] && EvidenceOf(group + [last]) == EvidenceOf(group) + last.evidence
  {
    assert (group + [last])[..|group|] == group;
  }

  function References(group: seq<Finding>): set<string> {
    set f, r | f in group && r in f.references :: r
  }

  function Sources(group: seq<Finding>): set<string> {
    set f | f in group :: f.sourceEngine
  }

  /** The finding is a copy of the first best one, with evidence and references of the whole
      group, and HIGH confidence once two engines agree. */
  ghost predicate CopiesBest(value: Correlated, group: seq<Finding>, i: nat) {
    && FirstBest(group, i)
    && value.finding.evidence == EvidenceOf(group)
    && value.finding.confidence == (if |value.sources| >= 2 then STRONG else group[i].confidence)
    && value.finding == group[i].(evidence := value.finding.evidence, references := value.finding.references,
                                  confidence := value.finding.confidence)
  }

  /** What the correlated finding of a group is. */
  ghost predicate Merges(value: Correlated, group: seq<Finding>) {
    && (exists i: nat :: CopiesBest(value, group, i))
    && Ascending(value.finding.references) && (forall r :: r in value.finding.references <==> r in References(group))
    && Ascending(value.sources) && (forall e :: e in value.sources <==> e in Sources(group))
  }

  method Best(group: seq<Finding>) returns (best: nat)
    requires group != []
    ensures FirstBest(group, best)
  {
    best := 0;
    for i := 1 to |group|
      invariant best < i && forall j | 0 <= j < i :: !Above(group[j], group[best])
      invariant forall j | 0 <= j < best :: Above(group[best], group[j])
    {
      if Above(group[i], group[best]) {
        best := i;
      }
    }
  }

  method Merge(group: seq<Finding>) returns (value: Correlated)
    requires group != []
    ensures Merges(value, group)
  {
    var best := Best(group);
    var sources := SortSet(Sources(group));
    var evidence := [];
    for i := 0 to |group|
      invariant evidence == EvidenceOf(group[..i])
    {
      assert group[..i + 1][..i] == group[..i];
      evidence := evidence + group[i].evidence;
    }
    assert group[..|group|] == group;
    var references := SortSet(References(group));
    var representative := group[best].(evidence := evidence, references := references);
    if |sources| >= 2 && !representative.confidence.STRONG? {
      representative := representative.(confidence := STRONG);
    }
    value := Correlated(representative, sources);
    assert CopiesBest(value, group, best);
  }

  // ---------- grouping ----------

  function Members(findings: seq<Finding>, key: string, fingerprint: Fingerprint): seq<Finding> {
    if findings == [] then []
    else
      var last := findings[|findings| - 1];
      Members(findings[..|findings| - 1], key, fingerprint) + (if fingerprint(last.subject) == key then [last] else [])
  }

  /** The fingerprints in the order in which they first occur. */
  function Keys(findings: seq<Finding>, fingerprint: Fingerprint): seq<string> {
    if findings == [] then []
    else
      var (seen, key) := (Keys(findings[..|findings| - 1], fingerprint), fingerprint(findings[|findings| - 1].subject));
      if key in seen then seen else seen + [key]
  }

  predicate Distinct(keys: seq<string>) {
    forall i, j | 0 <= i < j < |keys| :: keys[i] != keys[j]
  }

  lemma {:induction false} KeysDistinct(findings: seq<Finding>, fingerprint: Fingerprint)
    ensures Distinct(Keys(findings, fingerprint))
    ensures forall key ::
              key in Keys(findings, fingerprint) <==> exists f :: f in findings && fingerprint(f.subject) == key
  {
    if findings != [] {
      KeysDistinct(findings[..|findings| - 1], fingerprint);
      assert findings == findings[..|findings| - 1] + [findings[|findings| - 1]];
    }
  }

  lemma {:induction false} MembersAre(findings: seq<Finding>, key: string, fingerprint: Fingerprint)
    ensures forall f :: f in Members(findings, key, fingerprint) <==> f in findings && fingerprint(f.subject) == key
  {
    if findings != [] {
      MembersAre(findings[..|findings| - 1], key, fingerprint);
      assert findings == findings[..|findings| - 1] + [findings[|findings| - 1]];
    }
  }

  lemma {:induction false} MembersCount(findings: seq<Finding>, key: string, fingerprint: Fingerprint, f: Finding)
    ensures multiset(Members(findings, key, fingerprint))[f]
      == if fingerprint(f.subject) == key then multiset(findings)[f] else 0
  {
    if findings != [] {
      MembersCount(findings[..|findings| - 1], key, fingerprint, f);
      assert findings == findings[..|findings| - 1] + [findings[|findings| - 1]];
    }
  }

  /** The dictionary of groups and the order in which its keys were inserted. */
  method GroupFindings(findings: seq<Finding>, fingerprint: Fingerprint)
    returns (groups: map<string, seq<Finding>>, order: seq<string>)
    ensures order == Keys(findings, fingerprint)
    ensures forall key | key in order :: key in groups && groups[key] == Members(findings, key, fingerprint)
  {
    groups, order := map[], [];
    for i := 0 to |findings|
      invariant order == Keys(findings[..i], fingerprint)
      invariant forall key :: key in groups <==> key in order
      invariant forall key | key in groups :: groups[key] == Members(findings[..i], key, fingerprint)
    {
      var key := fingerprint(findings[i].subject);
      assert findings[..i + 1][..i] == findings[..i];
      if key !in groups {
        MembersAre(findings[..i], key, fingerprint);
        KeysDistinct(findings[..i], fingerprint);
        NoMembers(Members(findings[..i], key, fingerprint));
        groups, order := groups[key := []], order + [key];
      }
      groups := groups[key := groups[key] + [findings[i]]];
    }
    assert findings[..|findings|] == findings;
  }

  lemma {:induction false} NoMembers(items: seq<Finding>)
    ensures items != [] ==> exists f :: f in items
  {
    assert items != [] ==> items[0] in items;
  }

  predicate MoreSevere(a: Correlated, b: Correlated) {
    Rank(a.finding.severity) > Rank(b.finding.severity)
  }

  /** One correlated finding per key, in the order of `keys`. */
  ghost predicate MergesAll(values: seq<Correlated>, keys: seq<string>, findings: seq<Finding>,
        fingerprint: Fingerprint)
  {
    |values| == |keys| && forall i | 0 <= i < |keys| :: Merges(values[i], Members(findings, keys[i], fingerprint))
  }

  lemma {:induction false} KeyHasMember(findings: seq<Finding>, key: string, fingerprint: Fingerprint)
    requires key in Keys(findings, fingerprint)
    ensures Members(findings, key, fingerprint) != []
  {
    KeysDistinct(findings, fingerprint);
    MembersAre(findings, key, fingerprint);
  }

  // ---------- what the merged findings are ----------

  /** A correlated finding has the fingerprint of its group. */
  lemma {:induction false} MergesKeepsKey(value: Correlated, findings: seq<Finding>, key: string,
        fingerprint: Fingerprint)
    requires Merges(value, Members(findings, key, fingerprint))
    ensures fingerprint(value.finding.subject) == key
  {
    var group := Members(findings, key, fingerprint);
    var i: nat :| CopiesBest(value, group, i);
    MembersAre(findings, key, fingerprint);
    assert group[i] in group;
  }

  /** Severity is the maximum of the group; with two engines confidence is HIGH. */
  lemma {:induction false} MergedSeverity(value: Correlated, group: seq<Finding>)
    requires Merges(value, group)
    ensures forall f | f in group :: !Worse(f.severity, value.finding.severity)
    ensures exists f :: f in group && f.severity == value.finding.severity
    ensures |Sources(group)| >= 2 ==> value.finding.confidence.STRONG?
  {
    var i: nat :| CopiesBest(value, group, i);
    BestSeverity(group, i);
    assert group[i] in group;
    AscendingSize(value.sources, Sources(group));
  }

  /** A merged finding has the references and sources of all findings of its group, each once and in order;
      its other fields are those of one of them. */
  lemma {:induction false} MergedCarries(value: Correlated, group: seq<Finding>)
    requires Merges(value, group)
    ensures forall r :: r in value.finding.references <==> exists f :: f in group && r in f.references
    ensures forall e :: e in value.sources <==> exists f :: f in group && f.sourceEngine == e
    ensures Ascending(value.finding.references) && Ascending(value.sources)
    ensures exists f :: f in group && value.finding.subject == f.subject && value.finding.severity == f.severity
              && value.finding.text == f.text && value.finding.sourceEngine == f.sourceEngine
              && (value.finding.confidence == f.confidence
                 || (value.finding.confidence.STRONG? && |value.sources| >= 2))
  {
    var i: nat :| CopiesBest(value, group, i);
    assert group[i] in group;
  }

  lemma {:induction false} BestSeverity(group: seq<Finding>, i: nat)
    requires FirstBest(group, i)
    ensures forall f | f in group :: !Above(f, group[i])
    ensures forall f | f in group :: Rank(f.severity) <= Rank(group[i].severity)
  {
    forall f | f in group ensures !Above(f, group[i]) {
      var j :| 0 <= j < |group| && group[j] == f;
    }
  }

  lemma {:induction false} AscendingSize(items: seq<string>, members: set<string>)
    requires Ascending(items) && forall x :: x in items <==> x in members
    ensures |items| == |members|
  {
    if items == [] {
      assert members == {};
    } else {
      TailMember(items, items[0]);
      forall x ensures x in items[1..] <==> x in members - {items[0]} {
        TailMember(items, x);
      }
      AscendingSize(items[1..], members - {items[0]});
    }
  }

  predicate Highest(f: Finding, group: seq<Finding>) {
    forall g | g in group :: Rank(g.severity) <= Rank(f.severity) && Certainty(g.confidence) <= Certainty(f.confidence)
  }

  lemma {:induction false} ConfidenceByRank(value: Correlated, group: seq<Finding>)
    requires Merges(value, group)
    ensures (forall f | f in group :: Certainty(f.confidence) <= Certainty(value.finding.confidence))
       <==> |Sources(group)| >= 2 || exists f {:trigger Highest(f, group)} :: f in group && Highest(f, group)
  {
    var i: nat :| CopiesBest(value, group, i);
    BestSeverity(group, i);
    assert Highest(group[i], group)
      <==> forall g | g in group :: Certainty(g.confidence) <= Certainty(group[i].confidence);
    AscendingSize(value.sources, Sources(group));
  }

  /** No finding of the group is worse or surer. */
  predicate Tops(f: Finding, group: seq<Finding>) {
    forall g | g in group :: !Worse(g.severity, f.severity) && !Surer(g.confidence, f.confidence)
  }

  lemma {:induction false} TopsByRank(f: Finding, group: seq<Finding>)
    ensures Tops(f, group) <==> Highest(f, group)
  {
    forall g | g in group
      ensures Worse(g.severity, f.severity) <==> Rank(g.severity) > Rank(f.severity)
      ensures Surer(g.confidence, f.confidence) <==> Certainty(g.confidence) > Certainty(f.confidence)
    {
      RanksExactly(g.severity, f.severity, g.confidence, f.confidence);
    }
  }

  lemma {:induction false} TopsExist(group: seq<Finding>)
    ensures (exists f {:trigger Tops(f, group)} :: f in group && Tops(f, group))
       <==> exists f {:trigger Highest(f, group)} :: f in group && Highest(f, group)
  {
    forall f | f in group ensures Tops(f, group) <==> Highest(f, group) {
      TopsByRank(f, group);
    }
  }

  lemma {:induction false} NoneSurer(confidence: Confidence, group: seq<Finding>)
    ensures (forall f | f in group :: !Surer(f.confidence, confidence))
       <==> forall f | f in group :: Certainty(f.confidence) <= Certainty(confidence)
  {
    forall f | f in group
      ensures Surer(f.confidence, confidence) <==> Certainty(f.confidence) > Certainty(confidence)
    {
      RanksExactly(f.severity, f.severity, f.confidence, confidence);
    }
  }

  /** With one engine the confidence is that of the best finding, which need not be the highest of
      the group. It is at least the highest exactly when two engines agree or some finding has both
      the highest severity and the highest confidence. */
  lemma {:induction false} ConfidenceExactly(value: Correlated, group: seq<Finding>)
    requires Merges(value, group)
    ensures (forall f | f in group :: !Surer(f.confidence, value.finding.confidence))
       <==> |Sources(group)| >= 2 || exists f {:trigger Tops(f, group)} :: f in group && Tops(f, group)
  {
    ConfidenceByRank(value, group);
    NoneSurer(value.finding.confidence, group);
    TopsExist(group);
  }

  /** A severe but uncertain finding hides a mild and certain one. */
  lemma {:induction false} ConfidenceLost(value: Correlated, subject: Subject, engine: string, text: Json)
    requires Merges(value, [Finding(subject, HIGH, WEAK, engine, [], [], text),
      Finding(subject, LOW, STRONG, engine, [], [], text)])
    ensures value.finding.confidence.WEAK?
  {
    var group := [Finding(subject, HIGH, WEAK, engine, [], [], text),
        Finding(subject, LOW, STRONG, engine, [], [], text)];
    var i: nat :| CopiesBest(value, group, i);
    assert Above(group[0], group[1]);
    AscendingSize(value.sources, Sources(group));
    assert Sources(group) == {engine};
  }

  // ---------- the whole list ----------

  function KeyOf(value: Correlated, fingerprint: Fingerprint): string {
    fingerprint(value.finding.subject)
  }

  lemma {:induction false} MoreSevereIsOrder()
    ensures Order(MoreSevere)
  {
  }

  /** Exactly one merged finding per fingerprint that occurs. */
  lemma {:induction false} OneFindingPerFingerprint(findings: seq<Finding>, fingerprint: Fingerprint,
        values: seq<Correlated>)
    requires MergesAll(values, Keys(findings, fingerprint), findings, fingerprint)
    ensures forall i | 0 <= i < |values| ::
      Merges(values[i], Members(findings, KeyOf(values[i], fingerprint), fingerprint))
    ensures forall i, j | 0 <= i < j < |values| :: KeyOf(values[i], fingerprint) != KeyOf(values[j], fingerprint)
    ensures forall f | f in findings :: exists i ::
      0 <= i < |values| && KeyOf(values[i], fingerprint) == fingerprint(f.subject)
  {
    var keys := Keys(findings, fingerprint);
    KeysDistinct(findings, fingerprint);
    forall i | 0 <= i < |values| ensures KeyOf(values[i], fingerprint) == keys[i] {
      MergesKeepsKey(values[i], findings, keys[i], fingerprint);
    }
    forall f | f in findings
      ensures exists i :: 0 <= i < |values| && KeyOf(values[i], fingerprint) == fingerprint(f.subject)
    {
      assert fingerprint(f.subject) in keys;
      var i :| 0 <= i < |keys| && keys[i] == fingerprint(f.subject);
      assert KeyOf(values[i], fingerprint) == keys[i];
    }
  }

  function OfSeverity(severity: Severity): Correlated -> bool {
    (v: Correlated) => v.finding.severity == severity
  }

  /** The output has the same findings, the most severe first, and those of one severity in the
      order in which they were first reported. */
  lemma {:induction false} MostSevereFirst(values: seq<Correlated>, severity: Severity)
    ensures multiset(Sort(values, MoreSevere)) == multiset(values) && Sorted(Sort(values, MoreSevere), MoreSevere)
    ensures Select(Sort(values, MoreSevere), OfSeverity(severity)) == Select(values, OfSeverity(severity))
  {
    MoreSevereIsOrder();
    SortSorted(values, MoreSevere);
    SortPermutes(values, MoreSevere);
    SortStable(values, MoreSevere, OfSeverity(severity));
  }

  /** No finding comes after a less severe one. */
  lemma {:induction false} SeverityFalls(output: seq<Correlated>, findings: seq<Finding>, fingerprint: Fingerprint,
        i: nat, j: nat)
    requires Correlates(output, findings, fingerprint) && i < j < |output|
    ensures !Worse(output[j].finding.severity, output[i].finding.severity)
  {
    assert !MoreSevere(output[j], output[i]);
  }

  /** The output: for every fingerprint that occurs its merged group, and nothing else, sorted. */
  ghost predicate Correlates(output: seq<Correlated>, findings: seq<Finding>, fingerprint: Fingerprint) {
    && |output| == |Keys(findings, fingerprint)| && Sorted(output, MoreSevere)
    && (forall v | v in output :: Merges(v, Members(findings, KeyOf(v, fingerprint), fingerprint)))
    && (forall f | f in findings :: exists v :: v in output && KeyOf(v, fingerprint) == fingerprint(f.subject))
  }

  lemma {:induction false} SortedCorrelates(values: seq<Correlated>, findings: seq<Finding>, fingerprint: Fingerprint)
    requires MergesAll(values, Keys(findings, fingerprint), findings, fingerprint)
    ensures Correlates(Sort(values, MoreSevere), findings, fingerprint)
  {
    var output := Sort(values, MoreSevere);
    OneFindingPerFingerprint(findings, fingerprint, values);
    MostSevereFirst(values, INFO);
    SortPermutes(values, MoreSevere);
    forall v | v in output ensures Merges(v, Members(findings, KeyOf(v, fingerprint), fingerprint)) {
      SameMember(values, MoreSevere, v);
    }
    forall f | f in findings ensures exists v :: v in output && KeyOf(v, fingerprint) == fingerprint(f.subject) {
      var i :| 0 <= i < |values| && KeyOf(values[i], fingerprint) == fingerprint(f.subject);
      SameMember(values, MoreSevere, values[i]);
    }
  }

  /** Correlates a list of findings; `values` is the output before sorting. */
  method CorrelateFindings(findings: seq<Finding>, fingerprint: Fingerprint)
    returns (output: seq<Correlated>, ghost values: seq<Correlated>)
    ensures Correlates(output, findings, fingerprint)
    ensures output == Sort(values, MoreSevere) && MergesAll(values, Keys(findings, fingerprint), findings, fingerprint)
  {
    var groups, order := GroupFindings(findings, fingerprint);
    var merged := [];
    for i := 0 to |order|
      invariant MergesAll(merged, order[..i], findings, fingerprint)
    {
      KeyHasMember(findings, order[i], fingerprint);
      var value := Merge(groups[order[i]]);
      merged := merged + [value];
      assert order[..i + 1] == order[..i] + [order[i]];
    }
    assert order[..|order|] == order;
    SortedCorrelates(merged, findings, fingerprint);
    values := merged;
    output := Sort(merged, MoreSevere);
  }

  // ---------- conservation of evidence ----------

  function Total(values: seq<Correlated>): multiset<Evidence> {
    if values == [] then multiset{} else multiset(values[0].finding.evidence) + Total(values[1..])
  }

  lemma {:induction false} TotalInsert(value: Correlated, sorted: seq<Correlated>)
    ensures Total(Insert(value, sorted, MoreSevere)) == multiset(value.finding.evidence) + Total(sorted)
  {
    if sorted != [] && MoreSevere(sorted[0], value) {
      TotalInsert(value, sorted[1..]);
      assert ([sorted[0]] + Insert(value, sorted[1..], MoreSevere))[1..] == Insert(value, sorted[1..], MoreSevere);
    } else {
      assert ([value] + sorted)[1..] == sorted;
    }
  }

  lemma {:induction false} TotalSort(values: seq<Correlated>)
    ensures Total(Sort(values, MoreSevere)) == Total(values)
  {
    if values != [] {
      TotalSort(values[1..]);
      TotalInsert(values[0], Sort(values[1..], MoreSevere));
    }
  }

  /** The evidence of the groups of these keys. */
  function GroupTotal(keys: seq<string>, findings: seq<Finding>, fingerprint: Fingerprint): multiset<Evidence> {
    if keys == [] then multiset{}
    else multiset(EvidenceOf(Members(findings, keys[0], fingerprint))) + GroupTotal(keys[1..], findings, fingerprint)
  }

  lemma {:induction false} EvidenceOneMore(group: seq<Finding>, last: Finding)
    ensures EvidenceOf(group + [last]) == EvidenceOf(group) + last.evidence
  {
    assert (group + [last])[..|group|] == group;
  }

  lemma {:induction false} MembersOneMore(findings: seq<Finding>, last: Finding, key: string, fingerprint: Fingerprint)
    ensures multiset(EvidenceOf(Members(findings + [last], key, fingerprint)))
         == multiset(EvidenceOf(Members(findings, key, fingerprint)))
            + (if fingerprint(last.subject) == key then multiset(last.evidence) else multiset{})
  {
    assert (findings + [last])[..|findings|] == findings;
    EvidenceOneMore(Members(findings, key, fingerprint), last);
    assert Members(findings, key, fingerprint) + [] == Members(findings, key, fingerprint);
  }

  lemma {:induction false} AddedOnce(head: multiset<Evidence>, tail: multiset<Evidence>, more: multiset<Evidence>)
    ensures (head + more) + tail == (head + tail) + more && head + (tail + more) == (head + tail) + more
    ensures head + multiset{} == head && tail + multiset{} == tail && (head + tail) + multiset{} == head + tail
  {
  }

  lemma {:induction false} FirstOrRest(keys: seq<string>, key: string)
    requires keys != [] && Distinct(keys)
    ensures key in keys <==> key == keys[0] || key in keys[1..]
    ensures !(key == keys[0] && key in keys[1..])
  {
    assert keys == [keys[0]] + keys[1..];
  }

  /** One more finding adds its evidence to one group. */
  lemma {:induction false} GroupTotalOneMore(keys: seq<string>, findings: seq<Finding>, last: Finding,
        fingerprint: Fingerprint)
    requires Distinct(keys)
    ensures GroupTotal(keys, findings + [last], fingerprint)
         == GroupTotal(keys, findings, fingerprint)
            + (if fingerprint(last.subject) in keys then multiset(last.evidence) else multiset{})
  {
    if keys != [] {
      GroupTotalOneMore(keys[1..], findings, last, fingerprint);
      MembersOneMore(findings, last, keys[0], fingerprint);
      FirstOrRest(keys, fingerprint(last.subject));
      AddedOnce(multiset(EvidenceOf(Members(findings, keys[0], fingerprint))),
          GroupTotal(keys[1..], findings, fingerprint),
                multiset(last.evidence));
    }
  }

  lemma {:induction false} GroupTotalEmpty(keys: seq<string>, fingerprint: Fingerprint)
    ensures GroupTotal(keys, [], fingerprint) == multiset{}
  {
    if keys != [] {
      GroupTotalEmpty(keys[1..], fingerprint);
    }
  }

  lemma {:induction false} GroupsPartition(keys: seq<string>, findings: seq<Finding>, fingerprint: Fingerprint)
    requires Distinct(keys) && forall f | f in findings :: fingerprint(f.subject) in keys
    ensures GroupTotal(keys, findings, fingerprint) == multiset(EvidenceOf(findings))
  {
    if findings == [] {
      GroupTotalEmpty(keys, fingerprint);
    } else {
      var (init, last) := (findings[..|findings| - 1], findings[|findings| - 1]);
      assert findings == init + [last];
      GroupsPartition(keys, init, fingerprint);
      GroupTotalOneMore(keys, init, last, fingerprint);
    }
  }

  lemma {:induction false} MergedTotal(values: seq<Correlated>, keys: seq<string>, findings: seq<Finding>,
        fingerprint: Fingerprint)
    requires MergesAll(values, keys, findings, fingerprint)
    ensures Total(values) == GroupTotal(keys, findings, fingerprint)
  {
    if keys != [] {
      var i: nat :| CopiesBest(values[0], Members(findings, keys[0], fingerprint), i);
      MergedTotal(values[1..], keys[1..], findings, fingerprint);
    }
  }

  /** No evidence is lost, none is duplicated. */
  lemma {:induction false} EvidenceConserved(findings: seq<Finding>, fingerprint: Fingerprint, values: seq<Correlated>)
    requires MergesAll(values, Keys(findings, fingerprint), findings, fingerprint)
    ensures Total(Sort(values, MoreSevere)) == multiset(EvidenceOf(findings))
  {
    TotalSort(values);
    KeysDistinct(findings, fingerprint);
    MergedTotal(values, Keys(findings, fingerprint), findings, fingerprint);
    GroupsPartition(Keys(findings, fingerprint), findings, fingerprint);
  }

  // ---------- the order of the input ----------

  lemma {:induction false} TakeOut(group: seq<Finding>, f: Finding) returns (rest: seq<Finding>)
    requires f in group
    ensures multiset(group) == multiset(rest) + multiset{f}
    ensures multiset(EvidenceOf(group)) == multiset(EvidenceOf(rest)) + multiset(f.evidence)
  {
    var (init, last) := (group[..|group| - 1], group[|group| - 1]);
    assert group == init + [last];
    if last == f {
      rest := init;
    } else {
      var left := TakeOut(init, f);
      EvidenceOneMore(left, last);
      rest := left + [last];
    }
  }

  /** The evidence of a group, as a multiset, does not depend on the order of the group. */
  lemma {:induction false} EvidenceAnyOrder(group: seq<Finding>, other: seq<Finding>)
    requires multiset(group) == multiset(other)
    ensures multiset(EvidenceOf(group)) == multiset(EvidenceOf(other))
    decreases |group|
  {
    assert |multiset(group)| == |group| && |multiset(other)| == |other|;
    if group != [] {
      var (init, last) := (group[..|group| - 1], group[|group| - 1]);
      assert group == init + [last];
      assert last in multiset(other);
      var rest := TakeOut(other, last);
      assert multiset(init) == multiset(group) - multiset{last} == multiset(rest);
      EvidenceAnyOrder(init, rest);
    }
  }

  /** Two merges of the same group in different orders agree on severity, confidence, sources and
      references, and on the evidence up to order. */
  lemma {:induction false} MergeAnyOrder(value: Correlated, group: seq<Finding>, other: Correlated,
        permuted: seq<Finding>)
    requires Merges(value, group) && Merges(other, permuted) && multiset(group) == multiset(permuted)
    ensures value.finding.severity == other.finding.severity && value.finding.confidence == other.finding.confidence
    ensures value.sources == other.sources && value.finding.references == other.finding.references
    ensures multiset(value.finding.evidence) == multiset(other.finding.evidence)
  {
    forall f ensures f in group <==> f in permuted {
      assert f in multiset(group) <==> f in multiset(permuted);
    }
    EvidenceAnyOrder(group, permuted);
    AscendingUnique(value.sources, other.sources);
    AscendingUnique(value.finding.references, other.finding.references);
    BestAnyOrder(value, group, other, permuted);
  }

  lemma {:induction false} BestAnyOrder(value: Correlated, group: seq<Finding>, other: Correlated,
        permuted: seq<Finding>)
    requires (exists i: nat :: CopiesBest(value, group, i)) && (exists j: nat :: CopiesBest(other, permuted, j))
    requires forall f :: f in group <==> f in permuted
    requires value.sources == other.sources
    ensures value.finding.severity == other.finding.severity && value.finding.confidence == other.finding.confidence
  {
    var i: nat :| CopiesBest(value, group, i);
    var j: nat :| CopiesBest(other, permuted, j);
    BestSeverity(group, i);
    BestSeverity(permuted, j);
    assert group[i] in permuted && permuted[j] in group;
  }

  /** Reordering the input changes no fingerprint and no group beyond its order. */
  lemma {:induction false} InputOrderIrrelevant(findings: seq<Finding>, others: seq<Finding>, fingerprint: Fingerprint,
        key: string)
    requires multiset(findings) == multiset(others)
    ensures key in Keys(findings, fingerprint) <==> key in Keys(others, fingerprint)
    ensures multiset(Members(findings, key, fingerprint)) == multiset(Members(others, key, fingerprint))
  {
    KeysDistinct(findings, fingerprint);
    KeysDistinct(others, fingerprint);
    forall f ensures f in findings <==> f in others
      ensures multiset(Members(findings, key, fingerprint))[f] == multiset(Members(others, key, fingerprint))[f] {
      assert f in multiset(findings) <==> f in multiset(others);
      MembersCount(findings, key, fingerprint, f);
      MembersCount(others, key, fingerprint, f);
    }
  }

  /** Whatever order the findings come in, each fingerprint gets the same merged finding, up to
      the order of its evidence and the text taken over from the best one. */
  lemma {:induction false} CorrelationAnyOrder(findings: seq<Finding>, values: seq<Correlated>, others: seq<Finding>,
        permuted: seq<Correlated>, fingerprint: Fingerprint, i: nat)
    returns (j: nat)
    requires multiset(findings) == multiset(others)
    requires MergesAll(values, Keys(findings, fingerprint), findings, fingerprint) && i < |values|
    requires MergesAll(permuted, Keys(others, fingerprint), others, fingerprint)
    ensures j < |permuted| && KeyOf(permuted[j], fingerprint) == KeyOf(values[i], fingerprint)
    ensures var (v, w) := (values[i], permuted[j]);
            && v.finding.severity == w.finding.severity && v.finding.confidence == w.finding.confidence
            && v.sources == w.sources && v.finding.references == w.finding.references
            && multiset(v.finding.evidence) == multiset(w.finding.evidence)
  {
    var key := Keys(findings, fingerprint)[i];
    InputOrderIrrelevant(findings, others, fingerprint, key);
    j :| 0 <= j < |Keys(others, fingerprint)| && Keys(others, fingerprint)[j] == key;
    MergesKeepsKey(values[i], findings, key, fingerprint);
    MergesKeepsKey(permuted[j], others, key, fingerprint);
    MergeAnyOrder(values[i], Members(findings, key, fingerprint), permuted[j], Members(others, key, fingerprint));
  }
}
