/** The grouped handoff report (`pentest_payload`): findings with the same text become one issue
    with several affected locations, each with a few pieces of evidence. */
module PentestReport {
  import opened JsonValues
  import opened Compaction
  import opened Sorting
  import Strings

  datatype GroupKey = GroupKey(
    category: string, title: string, description: string, impact: string, remediation: string,
    owasp: Option<string>, cwe: Option<string>)

  datatype Location = Location(method_: Option<string>, endpoint: Option<string>, parameter: Option<string>)

  /** A finding of the technical report. */
  datatype Finding = Finding(
    key: GroupKey, location: Location, severity: string, confidence: string, risk: real, status: string,
    references: seq<string>, engines: seq<string>, evidence: seq<Json>)

  /** How evidence is shortened before it is compacted, and the text by which two pieces of
      evidence count as the same. */
  datatype Rendering = Rendering(shorten: Json -> Json, marker: Json -> string)

  function Concise(evidence: Json, r: Rendering): Json {
    Compact(r.shorten(evidence))
  }

  // ---------- ranks ----------

  function SeverityOrder(severity: string): int {
    if severity == "INFO" then 0 else if severity == "LOW" then 1 else if severity == "MEDIUM" then 2
    else if severity == "HIGH" then 3 else if severity == "CRITICAL" then 4 else -1
  }

  function ConfidenceOrder(confidence: string): int {
    if confidence == "LOW" then 0 else if confidence == "MEDIUM" then 1 else if confidence == "HIGH" then 2 else -1
  }

  /** The first text comes before the second in the list, or only the first is listed. */
  predicate Before(list: seq<string>, a: string, b: string) {
    exists i :: 0 <= i < |list| && a == list[i] && b !in list[..i + 1]
  }

  lemma {:induction false} SeverityOrderExactly(a: string, b: string)
    ensures SeverityOrder(a) > SeverityOrder(b) <==> Before(["CRITICAL", "HIGH", "MEDIUM", "LOW", "INFO"], a, b)
  {
    var list := ["CRITICAL", "HIGH", "MEDIUM", "LOW", "INFO"];
    assert list[..1] == ["CRITICAL"] && list[..2] == ["CRITICAL", "HIGH"]
      && list[..3] == ["CRITICAL", "HIGH", "MEDIUM"];
    assert list[..4] == ["CRITICAL", "HIGH", "MEDIUM", "LOW"] && list[..5] == list;
    assert list[0] == "CRITICAL" && list[1] == "HIGH" && list[2] == "MEDIUM" && list[3] == "LOW" && list[4] == "INFO";
  }

  lemma {:induction false} ConfidenceOrderExactly(a: string, b: string)
    ensures ConfidenceOrder(a) > ConfidenceOrder(b) <==> Before(["HIGH", "MEDIUM", "LOW"], a, b)
  {
    var list := ["HIGH", "MEDIUM", "LOW"];
    assert list[..1] == ["HIGH"] && list[..2] == ["HIGH", "MEDIUM"] && list[..3] == list;
    assert list[0] == "HIGH" && list[1] == "MEDIUM" && list[2] == "LOW";
  }

  /** `_best` */
  function Best(value: string, candidate: string, order: string -> int): string {
    if order(candidate) > order(value) then candidate else value
  }

  // ---------- evidence at one location ----------

  function Markers(evidence: seq<Json>, r: Rendering): set<string> {
    set e | e in evidence :: r.marker(e)
  }

  /** The first piece of evidence for each marker, shortened; empty ones are dropped. */
  function Unique(evidence: seq<Json>, r: Rendering): seq<Json> {
    if evidence == [] then []
    else
      var (seen, concise) := (Unique(evidence[..|evidence| - 1], r), Concise(evidence[|evidence| - 1], r));
      if concise == EMPTY || r.marker(concise) in Markers(seen, r) then seen else seen + [concise]
  }

  const SHOWN := 3

  function FirstShown(evidence: seq<Json>): seq<Json> {
    if |evidence| <= SHOWN then evidence else evidence[..SHOWN]
  }

  /** The first three are shown, or all if there are fewer. */
  lemma {:induction false} FirstThree(evidence: seq<Json>)
    ensures FirstShown(evidence) <= evidence
    ensures |FirstShown(evidence)| == if |evidence| >= 3 then 3 else |evidence|
  {
  }

  /** Later evidence comes later. */
  lemma {:induction false} UniqueGrows(evidence: seq<Json>, more: seq<Json>, r: Rendering)
    ensures Unique(evidence, r) <= Unique(evidence + more, r)
    decreases |more|
  {
    if more == [] {
      assert evidence + more == evidence;
    } else {
      assert (evidence + more)[..|evidence + more| - 1] == evidence + more[..|more| - 1];
      UniqueGrows(evidence, more[..|more| - 1], r);
    }
  }

  datatype Site = Site(location: Location, evidence: seq<Json>, markers: set<string>)

  /** The site shows the evidence gathered for its location. */
  predicate Shows(site: Site, evidence: seq<Json>, r: Rendering) {
    site.evidence == FirstShown(Unique(evidence, r)) && site.markers == Markers(Unique(evidence, r), r)
  }

  method AddEvidence(site: Site, more: seq<Json>, r: Rendering, ghost before: seq<Json>) returns (updated: Site)
    requires Shows(site, before, r)
    ensures Shows(updated, before + more, r) && updated.location == site.location
  {
    updated := site;
    assert before + more[..0] == before;
    for i := 0 to |more|
      invariant Shows(updated, before + more[..i], r) && updated.location == site.location
    {
      ghost var sofar := before + more[..i];
      assert before + more[..i + 1] == sofar + [more[i]];
      assert (sofar + [more[i]])[..|sofar|] == sofar;
      var concise := Concise(more[i], r);
      var marker := r.marker(concise);
      if concise == EMPTY || marker in updated.markers {
        continue;
      }
      ghost var seen := Unique(sofar, r);
      MarkersMore(seen, concise, r);
      updated := updated.(markers := updated.markers + {marker});
      if |updated.evidence| < SHOWN {
        updated := updated.(evidence := updated.evidence + [concise]);
      }
    }
    assert before + more[..|more|] == before + more;
  }

  lemma {:induction false} MarkersMore(evidence: seq<Json>, last: Json, r: Rendering)
    ensures Markers(evidence + [last], r) == Markers(evidence, r) + {r.marker(last)}
  {
  }

  /** What the evidence kept for a location is: compact, not empty, one per marker, each from a
      given piece of evidence; and no marker is missing. */
  lemma {:induction false} UniqueEvidence(evidence: seq<Json>, r: Rendering)
    ensures forall i, j | 0 <= i < j < |Unique(evidence, r)| ::
      r.marker(Unique(evidence, r)[i]) != r.marker(Unique(evidence, r)[j])
    ensures forall u | u in Unique(evidence, r) ::
              u != EMPTY && IsCompact(u) && exists e :: e in evidence && u == Concise(e, r)
    ensures forall e | e in evidence && Concise(e, r) != EMPTY ::
      r.marker(Concise(e, r)) in Markers(Unique(evidence, r), r)
  {
    if evidence != [] {
      var (init, last) := (evidence[..|evidence| - 1], evidence[|evidence| - 1]);
      assert evidence == init + [last];
      UniqueEvidence(init, r);
      CompactIsCompact(r.shorten(last));
      UniqueStep(init, last, r);
    }
  }

  lemma {:induction false} UniqueStep(init: seq<Json>, last: Json, r: Rendering)
    requires forall i, j | 0 <= i < j < |Unique(init, r)| ::
      r.marker(Unique(init, r)[i]) != r.marker(Unique(init, r)[j])
    ensures var all := Unique(init + [last], r);
            && (forall i, j | 0 <= i < j < |all| :: r.marker(all[i]) != r.marker(all[j]))
            && Markers(Unique(init, r), r) <= Markers(all, r)
            && (Concise(last, r) != EMPTY ==> r.marker(Concise(last, r)) in Markers(all, r))
            && forall u | u in all :: u in Unique(init, r) || (u == Concise(last, r) && u != EMPTY)
  {
    assert (init + [last])[..|init|] == init;
    var seen := Unique(init, r);
    MarkersMore(seen, Concise(last, r), r);
    forall i | 0 <= i < |seen| ensures r.marker(seen[i]) in Markers(seen, r) {
      assert seen[i] in seen;
    }
  }

  // ---------- one group ----------

  /** `list(dict.fromkeys(...))` */
  function Dedupe(items: seq<string>): seq<string> {
    if items == [] then []
    else
      var (seen, last) := (Dedupe(items[..|items| - 1]), items[|items| - 1]);
      if last in seen then seen else seen + [last]
  }

  lemma {:induction false} DedupeKeeps(items: seq<string>)
    ensures NoRepeats(Dedupe(items)) && forall x :: x in Dedupe(items) <==> x in items
  {
    if items != [] {
      DedupeKeeps(items[..|items| - 1]);
      assert items == items[..|items| - 1] + [items[|items| - 1]];
    }
  }

  predicate NoRepeats<T(==)>(items: seq<T>) {
    forall i, j | 0 <= i < j < |items| :: items[i] != items[j]
  }

  datatype Group = Group(
    severity: string, confidence: string, risk: real, status: string, references: seq<string>,
    engines: seq<string>, sites: seq<Site>)

  function NewGroup(f: Finding): Group {
    Group(f.severity, f.confidence, f.risk, f.status, Dedupe(f.references), Dedupe(f.engines), [])
  }

  /** The group's ratings and engines after one more finding. */
  function Absorb(group: Group, f: Finding): Group {
    group.(severity := Best(group.severity, f.severity, SeverityOrder),
           confidence := Best(group.confidence, f.confidence, ConfidenceOrder),
           risk := if f.risk > group.risk then f.risk else group.risk,
           engines := Dedupe(group.engines + f.engines))
  }

  /** Severity, confidence and risk are each the highest of the group. */
  ghost predicate Rated(group: Group, members: seq<Finding>) {
    && (exists f :: f in members && f.severity == group.severity)
    && (exists f :: f in members && f.confidence == group.confidence)
    && (exists f :: f in members && f.risk == group.risk)
    && forall f | f in members ::
         SeverityOrder(f.severity) <= SeverityOrder(group.severity)
         && ConfidenceOrder(f.confidence) <= ConfidenceOrder(group.confidence) && f.risk <= group.risk
  }

  /** The engines of all findings; status and references of the first. */
  ghost predicate Credited(group: Group, members: seq<Finding>) {
    && members != [] && NoRepeats(group.engines)
    && (forall e :: e in group.engines <==> exists f :: f in members && e in f.engines)
    && group.status == members[0].status && group.references == Dedupe(members[0].references)
  }

  lemma {:induction false} AbsorbRated(group: Group, members: seq<Finding>, f: Finding)
    requires Rated(group, members)
    ensures Rated(Absorb(group, f), members + [f])
  {
    var all := members + [f];
    assert f in all && forall g | g in members :: g in all;
  }

  lemma {:induction false} AbsorbCredited(group: Group, members: seq<Finding>, f: Finding)
    requires Credited(group, members)
    ensures Credited(Absorb(group, f), members + [f])
  {
    DedupeKeeps(group.engines + f.engines);
    var all := members + [f];
    forall e ensures e in Absorb(group, f).engines <==> exists g :: g in all && e in g.engines {
      if e in f.engines {
        assert f in all;
      }
    }
  }

  lemma {:induction false} NewGroupFits(f: Finding)
    ensures Rated(NewGroup(f), [f]) && Credited(NewGroup(f), [f])
  {
    assert f in [f];
    DedupeKeeps(f.engines);
  }

  /** The locations of a group in the order in which they first occur. */
  function LocationsOf(members: seq<Finding>): seq<Location> {
    if members == [] then []
    else
      var (seen, last) := (LocationsOf(members[..|members| - 1]), members[|members| - 1].location);
      if last in seen then seen else seen + [last]
  }

  lemma {:induction false} LocationsOnce(members: seq<Finding>)
    ensures NoRepeats(LocationsOf(members))
    ensures forall location :: location in LocationsOf(members) <==> exists f :: f in members && f.location == location
  {
    if members != [] {
      LocationsOnce(members[..|members| - 1]);
      assert members == members[..|members| - 1] + [members[|members| - 1]];
    }
  }

  /** All evidence reported for one location. */
  function EvidenceAt(members: seq<Finding>, location: Location): seq<Json> {
    if members == [] then []
    else
      var last := members[|members| - 1];
      EvidenceAt(members[..|members| - 1], location) + (if last.location == location then last.evidence else [])
  }

  lemma {:induction false} NoEvidenceElsewhere(members: seq<Finding>, location: Location)
    requires location !in LocationsOf(members)
    ensures EvidenceAt(members, location) == []
  {
    if members != [] {
      NoEvidenceElsewhere(members[..|members| - 1], location);
    }
  }

  /** One site per location, showing the evidence reported there. */
  predicate SitesFit(sites: seq<Site>, members: seq<Finding>, r: Rendering) {
    && |sites| == |LocationsOf(members)|
    && forall i | 0 <= i < |sites| ::
         sites[i].location == LocationsOf(members)[i] && Shows(sites[i], EvidenceAt(members, sites[i].location), r)
  }

  method FindSite(sites: seq<Site>, location: Location) returns (at: nat)
    ensures at <= |sites| && (at < |sites| ==> sites[at].location == location)
    ensures at == |sites| ==> forall i | 0 <= i < |sites| :: sites[i].location != location
  {
    at := 0;
    while at < |sites| && sites[at].location != location
      invariant at <= |sites| && forall i | 0 <= i < at :: sites[i].location != location
    {
      at := at + 1;
    }
  }

  /** Adds a finding's evidence to its location, which may be new. */
  method Visit(sites: seq<Site>, f: Finding, r: Rendering, ghost members: seq<Finding>) returns (updated: seq<Site>)
    requires SitesFit(sites, members, r)
    ensures SitesFit(updated, members + [f], r)
  {
    LocationsOnce(members);
    assert (members + [f])[..|members|] == members;
    var at := FindSite(sites, f.location);
    if at == |sites| {
      assert f.location !in LocationsOf(members);
      NoEvidenceElsewhere(members, f.location);
      var site := AddEvidence(Site(f.location, [], {}), f.evidence, r, []);
      assert [] + f.evidence == f.evidence;
      updated := sites + [site];
    } else {
      assert f.location in LocationsOf(members);
      var site := AddEvidence(sites[at], f.evidence, r, EvidenceAt(members, f.location));
      updated := sites[at := site];
    }
    VisitFits(sites, updated, members, f, r, at);
  }

  lemma {:induction false} OneMoreFinding(members: seq<Finding>, f: Finding, location: Location)
    ensures LocationsOf(members + [f])
         == LocationsOf(members) + (if f.location in LocationsOf(members) then [] else [f.location])
    ensures f.location == location ==> EvidenceAt(members + [f], location) == EvidenceAt(members, location) + f.evidence
    ensures f.location != location ==> EvidenceAt(members + [f], location) == EvidenceAt(members, location)
  {
    assert (members + [f])[..|members|] == members;
  }

  lemma {:induction false} OtherSite(sites: seq<Site>, members: seq<Finding>, f: Finding, r: Rendering, i: nat)
    requires SitesFit(sites, members, r) && i < |sites| && sites[i].location != f.location
    ensures sites[i].location == LocationsOf(members)[i]
    ensures Shows(sites[i], EvidenceAt(members + [f], sites[i].location), r)
  {
    OneMoreFinding(members, f, sites[i].location);
  }

  lemma {:induction false} VisitFits(sites: seq<Site>, updated: seq<Site>, members: seq<Finding>, f: Finding,
        r: Rendering, at: nat)
    requires SitesFit(sites, members, r) && NoRepeats(LocationsOf(members))
    requires at < |updated| && updated[at].location == f.location
      && Shows(updated[at], EvidenceAt(members, f.location) + f.evidence, r)
    requires forall i | 0 <= i < |updated| && i != at :: i < |sites| && updated[i] == sites[i]
    requires if f.location in LocationsOf(members) then at < |sites| == |updated| && sites[at].location == f.location
             else at == |sites| == |updated| - 1
    ensures SitesFit(updated, members + [f], r)
  {
    OneMoreFinding(members, f, f.location);
    forall i | 0 <= i < |updated|
      ensures updated[i].location == LocationsOf(members + [f])[i]
      ensures Shows(updated[i], EvidenceAt(members + [f], updated[i].location), r)
    {
      if i != at {
        assert sites[i].location == LocationsOf(members)[i] && sites[i].location != f.location;
        OtherSite(sites, members, f, r, i);
      }
    }
  }

  // ---------- grouping ----------

  function MembersOf(findings: seq<Finding>, key: GroupKey): seq<Finding> {
    if findings == [] then []
    else
      var last := findings[|findings| - 1];
      MembersOf(findings[..|findings| - 1], key) + (if last.key == key then [last] else [])
  }

  function KeysOf(findings: seq<Finding>): seq<GroupKey> {
    if findings == [] then []
    else
      var (seen, last) := (KeysOf(findings[..|findings| - 1]), findings[|findings| - 1].key);
      if last in seen then seen else seen + [last]
  }

  lemma {:induction false} KeysOnce(findings: seq<Finding>)
    ensures NoRepeats(KeysOf(findings))
    ensures forall key :: key in KeysOf(findings) <==> exists f :: f in findings && f.key == key
  {
    if findings != [] {
      KeysOnce(findings[..|findings| - 1]);
      assert findings == findings[..|findings| - 1] + [findings[|findings| - 1]];
    }
  }

  lemma {:induction false} MembersExactly(findings: seq<Finding>, key: GroupKey)
    ensures forall f :: f in MembersOf(findings, key) <==> f in findings && f.key == key
  {
    if findings != [] {
      MembersExactly(findings[..|findings| - 1], key);
      assert findings == findings[..|findings| - 1] + [findings[|findings| - 1]];
    }
  }

  lemma {:induction false} NoMember(findings: seq<Finding>, key: GroupKey)
    requires key !in KeysOf(findings)
    ensures MembersOf(findings, key) == []
  {
    KeysOnce(findings);
    MembersExactly(findings, key);
    HasMember(MembersOf(findings, key));
  }

  lemma {:induction false} HasMember(members: seq<Finding>)
    ensures members != [] ==> exists f :: f in members
  {
    assert members != [] ==> members[0] in members;
  }

  ghost predicate Fits(group: Group, members: seq<Finding>, r: Rendering) {
    Rated(group, members) && Credited(group, members) && SitesFit(group.sites, members, r)
  }

  /** One group per key that occurs. */
  ghost predicate GroupsFit(groups: map<GroupKey, Group>, order: seq<GroupKey>, findings: seq<Finding>, r: Rendering) {
    && order == KeysOf(findings) && (forall key :: key in groups <==> key in order)
    && AllFit(groups, key => MembersOf(findings, key), r)
  }

  ghost predicate AllFit(groups: map<GroupKey, Group>, members: GroupKey -> seq<Finding>, r: Rendering) {
    forall key | key in groups :: Fits(groups[key], members(key), r)
  }

  lemma {:induction false} OneMoreFits(groups: map<GroupKey, Group>, before: GroupKey -> seq<Finding>,
        after: GroupKey -> seq<Finding>, r: Rendering, changed: GroupKey, group: Group)
    requires AllFit(groups, before, r) && Fits(group, after(changed), r)
    requires forall key | key != changed :: after(key) == before(key)
    ensures AllFit(groups[changed := group], after, r)
  {
  }

  /** Opens a group, or adds to the one there is. */
  method AddFinding(known: Option<Group>, f: Finding, r: Rendering, ghost members: seq<Finding>) returns (group: Group)
    requires match known case Some(g) => Fits(g, members, r) case None => members == []
    ensures Fits(group, members + [f], r)
  {
    match known {
      case None =>
        NewGroupFits(f);
        assert members + [f] == [f];
        group := NewGroup(f);
      case Some(g) =>
        AbsorbRated(g, members, f);
        AbsorbCredited(g, members, f);
        group := Absorb(g, f);
    }
    var sites := Visit(group.sites, f, r, members);
    AssembleGroup(group, sites, members + [f], r);
    group := group.(sites := sites);
  }

  lemma {:induction false} AssembleGroup(group: Group, sites: seq<Site>, members: seq<Finding>, r: Rendering)
    requires Rated(group, members) && Credited(group, members) && SitesFit(sites, members, r)
    ensures Fits(group.(sites := sites), members, r)
  {
  }

  method GroupFindings(findings: seq<Finding>, r: Rendering)
    returns (groups: map<GroupKey, Group>, order: seq<GroupKey>)
    ensures GroupsFit(groups, order, findings, r)
  {
    groups, order := map[], [];
    for i := 0 to |findings|
      invariant GroupsFit(groups, order, findings[..i], r)
    {
      var key := findings[i].key;
      ghost var members := MembersOf(findings[..i], key);
      if key !in groups {
        NoMember(findings[..i], key);
      }
      var group := AddFinding(if key in groups then Some(groups[key]) else None, findings[i], r, members);
      GroupsGrow(groups, order, findings, r, i, group);
      order := if key in groups then order else order + [key];
      groups := groups[key := group];
    }
    assert findings[..|findings|] == findings;
  }

  lemma {:induction false} MembersNext(findings: seq<Finding>, i: nat, key: GroupKey)
    requires i < |findings|
    ensures MembersOf(findings[..i + 1], key)
         == MembersOf(findings[..i], key) + (if findings[i].key == key then [findings[i]] else [])
  {
    assert findings[..i + 1][..i] == findings[..i];
  }

  lemma {:induction false} KeysNext(findings: seq<Finding>, i: nat)
    requires i < |findings|
    ensures KeysOf(findings[..i + 1])
         == KeysOf(findings[..i]) + (if findings[i].key in KeysOf(findings[..i]) then [] else [findings[i].key])
  {
    assert findings[..i + 1][..i] == findings[..i];
  }

  lemma {:induction false} OrderGrows(groups: map<GroupKey, Group>, order: seq<GroupKey>, findings: seq<Finding>,
        i: nat, group: Group)
    requires i < |findings| && order == KeysOf(findings[..i]) && forall key :: key in groups <==> key in order
    ensures var key := findings[i].key;
            var next := if key in groups then order else order + [key];
            next == KeysOf(findings[..i + 1]) && forall other :: other in groups[key := group] <==> other in next
  {
    KeysNext(findings, i);
  }

  lemma {:induction false} GroupsGrow(groups: map<GroupKey, Group>, order: seq<GroupKey>, findings: seq<Finding>,
        r: Rendering, i: nat, group: Group)
    requires i < |findings| && GroupsFit(groups, order, findings[..i], r)
    requires Fits(group, MembersOf(findings[..i], findings[i].key) + [findings[i]], r)
    ensures var key := findings[i].key;
            GroupsFit(groups[key := group], if key in groups then order else order + [key], findings[..i + 1], r)
  {
    OrderGrows(groups, order, findings, i, group);
    MembersNext(findings, i, findings[i].key);
    OthersNext(findings, i);
    OneMoreFits(groups, key => MembersOf(findings[..i], key), key => MembersOf(findings[..i + 1], key), r,
        findings[i].key, group);
  }

  lemma {:induction false} OthersNext(findings: seq<Finding>, i: nat)
    requires i < |findings|
    ensures forall key | key != findings[i].key :: MembersOf(findings[..i + 1], key) == MembersOf(findings[..i], key)
  {
    forall key | key != findings[i].key ensures MembersOf(findings[..i + 1], key) == MembersOf(findings[..i], key) {
      MembersNext(findings, i, key);
    }
  }

  // ---------- the issues ----------

  datatype Issue = Issue(id: string, key: GroupKey, group: Group)

  /** Most severe first, then highest risk, then by title. */
  predicate IssueLess(a: Issue, b: Issue) {
    var (x, y) := (SeverityOrder(a.group.severity), SeverityOrder(b.group.severity));
    x > y || (x == y && (a.group.risk > b.group.risk
        || (a.group.risk == b.group.risk && Less(a.key.title, b.key.title))))
  }

  /** An absent or empty field is left out and sorts as the empty string. */
  function Shown(field: Option<string>): string {
    match field case Some(text) => text case None => ""
  }

  predicate SiteLess(a: Site, b: Site) {
    var (x, y) := (Shown(a.location.endpoint), Shown(b.location.endpoint));
    Less(x, y) || (x == y && Less(Shown(a.location.method_), Shown(b.location.method_)))
  }

  function Pad(digits: string): string {
    if |digits| >= 3 then digits else seq(3 - |digits|, _ => '0') + digits
  }

  /** `f"PT-{n:03d}"` */
  function IssueId(n: nat): string {
    "PT-" + Pad(Strings.Decimal(n))
  }

  lemma {:induction false} ZerosAddNothing(zeros: nat, digits: string)
    ensures Strings.Value(seq(zeros, _ => '0') + digits) == Strings.Value(digits)
    decreases zeros, |digits|
  {
    var all := seq(zeros, _ => '0') + digits;
    if digits != "" {
      assert all[..|all| - 1] == seq(zeros, _ => '0') + digits[..|digits| - 1];
      ZerosAddNothing(zeros, digits[..|digits| - 1]);
    } else if zeros > 0 {
      assert all[..|all| - 1] == seq(zeros - 1, _ => '0') + "";
      ZerosAddNothing(zeros - 1, "");
    }
  }

  /** The number can be read back from the id, so ids of different issues differ. */
  lemma {:induction false} IssueIdDistinct(n: nat)
    ensures Strings.Value(IssueId(n)[3..]) == n
    ensures "PT-" <= IssueId(n) && |IssueId(n)| >= 6 && (forall c | c in IssueId(n)[3..] :: '0' <= c <= '9')
  {
    Strings.DecimalValue(n);
    var digits := Strings.Decimal(n);
    assert IssueId(n)[3..] == Pad(digits);
    forall c | c in Strings.DIGITS ensures '0' <= c <= '9' {
    }
    if |digits| < 3 {
      ZerosAddNothing(3 - |digits|, digits);
    }
  }

  lemma {:induction false} IssueLessIsOrder()
    ensures Order(IssueLess)
  {
    LessIsOrder();
  }

  lemma {:induction false} SiteLessIsOrder()
    ensures Order(SiteLess)
  {
    LessIsOrder();
    TotalOrder();
  }

  lemma {:induction false} TotalOrder()
    ensures forall a, b :: a != b ==> Less(a, b) || Less(b, a)
  {
    forall a, b ensures a != b ==> Less(a, b) || Less(b, a) {
      LessAsymmetric(a, b);
    }
  }

  /** A group as it is reported: engines sorted, locations by path and method. */
  function Presented(group: Group): Group {
    group.(engines := Sort(group.engines, Less), sites := Sort(group.sites, SiteLess))
  }

  function Drafts(groups: map<GroupKey, Group>, order: seq<GroupKey>): seq<Issue>
    requires forall key | key in order :: key in groups
  {
    if order == [] then [] else [Issue("", order[0], groups[order[0]])] + Drafts(groups, order[1..])
  }

  datatype Summary = Summary(issues: nat, locations: nat, severities: map<string, nat>, maximumRisk: real)

  function CountLocations(issues: seq<Issue>): nat {
    if issues == [] then 0 else CountLocations(issues[..|issues| - 1]) + |issues[|issues| - 1].group.sites|
  }

  function CountSeverity(issues: seq<Issue>, severity: string): nat {
    if issues == [] then 0
    else CountSeverity(issues[..|issues| - 1], severity)
         + (if issues[|issues| - 1].group.severity == severity then 1 else 0)
  }

  /** The positions of the issues with a severity. */
  function WithSeverity(issues: seq<Issue>, severity: string): set<nat> {
    set i: nat | i < |issues| && issues[i].group.severity == severity
  }

  /** The count of a severity is the number of its issues. */
  lemma {:induction false} SeverityCounted(issues: seq<Issue>, severity: string)
    ensures CountSeverity(issues, severity) == |WithSeverity(issues, severity)|
  {
    if issues == [] {
      assert WithSeverity(issues, severity) == {};
    } else {
      var init := issues[..|issues| - 1];
      SeverityCounted(init, severity);
      var more := if issues[|issues| - 1].group.severity == severity then {|init|} else {};
      assert WithSeverity(issues, severity) == WithSeverity(init, severity) + more;
    }
  }

  const SEVERITIES := ["CRITICAL", "HIGH", "MEDIUM", "LOW", "INFO"]

  /** The numbered issues, from the drafts in report order. */
  predicate Numbered(issues: seq<Issue>, sorted: seq<Issue>) {
    |issues| == |sorted| && forall i | 0 <= i < |issues| ::
      issues[i] == Issue(IssueId(i + 1), sorted[i].key, Presented(sorted[i].group))
  }

  ghost predicate MaximumRisk(risk: real, issues: seq<Issue>) {
    if issues == [] then risk == 0.0
    else (exists i :: 0 <= i < |issues| && issues[i].group.risk == risk)
         && forall i | 0 <= i < |issues| :: issues[i].group.risk <= risk
  }

  method Summarize(issues: seq<Issue>) returns (summary: Summary)
    ensures summary.issues == |issues| && summary.locations == CountLocations(issues)
    ensures MaximumRisk(summary.maximumRisk, issues)
    ensures summary.severities == map severity | severity in SEVERITIES :: CountSeverity(issues, severity)
  {
    var locations, risk := 0, 0.0;
    for i := 0 to |issues|
      invariant locations == CountLocations(issues[..i]) && MaximumRisk(risk, issues[..i])
    {
      assert issues[..i + 1] == issues[..i] + [issues[i]];
      risk := if i == 0 || issues[i].group.risk > risk then issues[i].group.risk else risk;
      RiskNext(issues, i, risk);
      locations := locations + |issues[i].group.sites|;
    }
    assert issues[..|issues|] == issues;
    summary := Summary(|issues|, locations, map severity | severity in SEVERITIES :: CountSeverity(issues, severity),
        risk);
  }

  lemma {:induction false} RiskNext(issues: seq<Issue>, i: nat, risk: real)
    requires i < |issues|
    requires exists before: real :: MaximumRisk(before, issues[..i])
                            && risk == if i == 0 || issues[i].group.risk > before then issues[i].group.risk else before
    ensures MaximumRisk(risk, issues[..i + 1])
  {
    var before: real :| MaximumRisk(before, issues[..i])
                        && risk == if i == 0 || issues[i].group.risk > before then issues[i].group.risk else before;
    var next := issues[..i + 1];
    assert next[i] == issues[i] && forall j | 0 <= j < i :: next[j] == issues[..i][j];
    if risk == before && i > 0 {
      var j :| 0 <= j < i && issues[..i][j].group.risk == before;
      assert next[j].group.risk == risk;
    }
  }

  /** The issues and their summary; the ghost results say from which groups they come. */
  method PentestPayload(findings: seq<Finding>, r: Rendering)
    returns (issues: seq<Issue>, summary: Summary, ghost groups: map<GroupKey, Group>)
    ensures GroupsFit(groups, KeysOf(findings), findings, r)
    ensures Numbered(issues, Sort(Drafts(groups, KeysOf(findings)), IssueLess))
    ensures summary.issues == |issues| && summary.locations == CountLocations(issues)
    ensures MaximumRisk(summary.maximumRisk, issues)
    ensures summary.severities.Keys == {"CRITICAL", "HIGH", "MEDIUM", "LOW", "INFO"}
    ensures forall severity | severity in summary.severities ::
      summary.severities[severity] == |WithSeverity(issues, severity)|
  {
    var found, order := GroupFindings(findings, r);
    groups := found;
    issues := Number(Sort(Drafts(found, order), IssueLess));
    summary := Summarize(issues);
    forall severity | severity in summary.severities
      ensures summary.severities[severity] == |WithSeverity(issues, severity)|
    {
      SeverityCounted(issues, severity);
    }
  }

  method Number(sorted: seq<Issue>) returns (issues: seq<Issue>)
    ensures Numbered(issues, sorted)
  {
    issues := [];
    for i := 0 to |sorted|
      invariant Numbered(issues, sorted[..i])
    {
      NumberedMore(issues, sorted, i);
      issues := issues + [Issue(IssueId(i + 1), sorted[i].key, Presented(sorted[i].group))];
    }
    assert sorted[..|sorted|] == sorted;
  }

  lemma {:induction false} NumberedMore(issues: seq<Issue>, sorted: seq<Issue>, i: nat)
    requires i < |sorted| && Numbered(issues, sorted[..i])
    ensures Numbered(issues + [Issue(IssueId(i + 1), sorted[i].key, Presented(sorted[i].group))], sorted[..i + 1])
  {
    var more := issues + [Issue(IssueId(i + 1), sorted[i].key, Presented(sorted[i].group))];
    forall k | 0 <= k < i + 1
      ensures more[k] == Issue(IssueId(k + 1), sorted[..i + 1][k].key, Presented(sorted[..i + 1][k].group))
    {
      assert k < i ==> sorted[..i][k] == sorted[k];
    }
  }

  // ---------- what the report conserves ----------

  lemma {:induction false} DraftsAre(groups: map<GroupKey, Group>, order: seq<GroupKey>)
    requires forall key | key in order :: key in groups
    ensures |Drafts(groups, order)| == |order|
    ensures forall i | 0 <= i < |order| :: Drafts(groups, order)[i] == Issue("", order[i], groups[order[i]])
  {
    if order != [] {
      DraftsAre(groups, order[1..]);
    }
  }

  lemma {:induction false} IssueFromGroup(groups: map<GroupKey, Group>, keys: seq<GroupKey>, issues: seq<Issue>, i: nat)
    requires (forall key | key in keys :: key in groups) && i < |issues|
    requires Numbered(issues, Sort(Drafts(groups, keys), IssueLess))
    ensures issues[i].key in keys && issues[i].group == Presented(groups[issues[i].key])
  {
    DraftsAre(groups, keys);
    SameMember(Drafts(groups, keys), IssueLess, Sort(Drafts(groups, keys), IssueLess)[i]);
  }

  lemma {:induction false} IssueOfKey(groups: map<GroupKey, Group>, keys: seq<GroupKey>, issues: seq<Issue>,
        key: GroupKey)
    returns (i: nat)
    requires (forall key | key in keys :: key in groups) && key in keys
    requires Numbered(issues, Sort(Drafts(groups, keys), IssueLess))
    ensures i < |issues| && issues[i].key == key
  {
    DraftsAre(groups, keys);
    var k :| 0 <= k < |keys| && keys[k] == key;
    SameMember(Drafts(groups, keys), IssueLess, Drafts(groups, keys)[k]);
    i :| 0 <= i < |issues| && Sort(Drafts(groups, keys), IssueLess)[i] == Drafts(groups, keys)[k];
  }

  lemma {:induction false} IssueKeysDiffer(groups: map<GroupKey, Group>, keys: seq<GroupKey>, issues: seq<Issue>)
    requires NoRepeats(keys) && forall key | key in keys :: key in groups
    requires Numbered(issues, Sort(Drafts(groups, keys), IssueLess))
    ensures |issues| == |keys| && forall i, j | 0 <= i < j < |issues| :: issues[i].key != issues[j].key
  {
    DraftsAre(groups, keys);
    SortPermutes(Drafts(groups, keys), IssueLess);
    SortedKeys(Drafts(groups, keys), Sort(Drafts(groups, keys), IssueLess));
  }

  lemma {:induction false} GroupKeys(groups: map<GroupKey, Group>, findings: seq<Finding>, r: Rendering)
    requires GroupsFit(groups, KeysOf(findings), findings, r)
    ensures forall key :: key in groups <==> key in KeysOf(findings)
  {
  }

  /** Every finding is in exactly one issue, that of its seven text fields. */
  lemma {:induction false} IssuesPartitionFindings(groups: map<GroupKey, Group>, findings: seq<Finding>,
        issues: seq<Issue>)
    requires forall key :: key in groups <==> key in KeysOf(findings)
    requires Numbered(issues, Sort(Drafts(groups, KeysOf(findings)), IssueLess))
    ensures forall i, j | 0 <= i < j < |issues| :: issues[i].key != issues[j].key
    ensures forall f | f in findings :: exists i :: 0 <= i < |issues| && issues[i].key == f.key
    ensures forall i | 0 <= i < |issues| :: exists f :: f in findings && f.key == issues[i].key
  {
    var keys := KeysOf(findings);
    KeysOnce(findings);
    IssueKeysDiffer(groups, keys, issues);
    forall f | f in findings ensures exists i :: 0 <= i < |issues| && issues[i].key == f.key {
      var i := IssueOfKey(groups, keys, issues, f.key);
    }
    forall i | 0 <= i < |issues| ensures exists f :: f in findings && f.key == issues[i].key {
      IssueFromGroup(groups, keys, issues, i);
    }
  }

  lemma {:induction false} CountOf<T>(items: seq<T>, i: nat, j: nat)
    requires i < j < |items| && items[i] == items[j]
    ensures multiset(items)[items[i]] >= 2
  {
    assert items == items[..j] + ([items[j]] + items[j + 1..]);
    assert items[i] in items[..j];
    assert multiset(items) == multiset(items[..j]) + multiset([items[j]]) + multiset(items[j + 1..]);
  }

  lemma {:induction false} CountOnce<T>(items: seq<T>, x: T)
    requires NoRepeats(items)
    ensures multiset(items)[x] <= 1
  {
    if items != [] {
      CountOnce(items[1..], x);
      assert items == [items[0]] + items[1..];
      assert items[0] !in items[1..];
    }
  }

  /** Sorting keeps keys distinct. */
  lemma {:induction false} SortedKeys(drafts: seq<Issue>, sorted: seq<Issue>)
    requires multiset(drafts) == multiset(sorted)
    requires forall i, j | 0 <= i < j < |drafts| :: drafts[i].key != drafts[j].key
    ensures forall i, j | 0 <= i < j < |sorted| :: sorted[i].key != sorted[j].key
  {
    forall i, j | 0 <= i < j < |sorted| ensures sorted[i].key != sorted[j].key {
      assert sorted[i] in multiset(drafts) && sorted[j] in multiset(drafts);
      if sorted[i] == sorted[j] {
        CountOf(sorted, i, j);
        CountOnce(drafts, sorted[i]);
        assert false;
      }
    }
  }

  ghost predicate EnginesReported(engines: seq<string>, members: seq<Finding>) {
    && Sorted(engines, Less) && NoRepeats(engines)
    && forall e :: e in engines <==> exists f :: f in members && e in f.engines
  }

  /** Each location once, with the first three different pieces of evidence reported for it. */
  ghost predicate SitesReported(sites: seq<Site>, members: seq<Finding>, r: Rendering) {
    && Sorted(sites, SiteLess) && |sites| == |LocationsOf(members)|
    && (forall f | f in members :: exists i :: 0 <= i < |sites| && sites[i].location == f.location)
    && forall site | site in sites ::
         site.location in LocationsOf(members)
             && site.evidence == FirstShown(Unique(EvidenceAt(members, site.location), r))
  }

  /** An issue's severity, confidence and risk are the highest of its findings; its engines and
      locations are exactly theirs, each once. */
  ghost predicate Reports(group: Group, members: seq<Finding>, r: Rendering) {
    Rated(group, members) && EnginesReported(group.engines, members) && SitesReported(group.sites, members, r)
  }

  lemma {:induction false} SortNoRepeats(items: seq<string>)
    requires NoRepeats(items)
    ensures NoRepeats(Sort(items, Less))
  {
    SortPermutes(items, Less);
    var sorted := Sort(items, Less);
    forall i, j | 0 <= i < j < |sorted| ensures sorted[i] != sorted[j] {
      CountOnce(items, sorted[i]);
      if sorted[i] == sorted[j] {
        CountOf(sorted, i, j);
        assert false;
      }
    }
  }

  lemma {:induction false} PresentedEngines(group: Group, members: seq<Finding>)
    requires Credited(group, members)
    ensures EnginesReported(Presented(group).engines, members)
  {
    LessIsOrder();
    SortSorted(group.engines, Less);
    SortNoRepeats(group.engines);
    forall e ensures e in Presented(group).engines <==> e in group.engines {
      SameMember(group.engines, Less, e);
    }
  }

  lemma {:induction false} PresentedSites(sites: seq<Site>, members: seq<Finding>, r: Rendering)
    requires SitesFit(sites, members, r)
    ensures Sorted(Sort(sites, SiteLess), SiteLess) && |Sort(sites, SiteLess)| == |LocationsOf(members)|
    ensures forall site | site in Sort(sites, SiteLess) ::
              site.location in LocationsOf(members) && Shows(site, EvidenceAt(members, site.location), r)
    ensures forall location | location in LocationsOf(members) ::
              exists i :: 0 <= i < |Sort(sites, SiteLess)| && Sort(sites, SiteLess)[i].location == location
  {
    var sorted := Sort(sites, SiteLess);
    SiteLessIsOrder();
    SortSorted(sites, SiteLess);
    SortPermutes(sites, SiteLess);
    forall site | site in sorted
      ensures site.location in LocationsOf(members) && Shows(site, EvidenceAt(members, site.location), r)
    {
      SameMember(sites, SiteLess, site);
    }
    forall location | location in LocationsOf(members)
      ensures exists i :: 0 <= i < |sorted| && sorted[i].location == location
    {
      var k :| 0 <= k < |sites| && LocationsOf(members)[k] == location;
      SameMember(sites, SiteLess, sites[k]);
      var i :| 0 <= i < |sorted| && sorted[i] == sites[k];
      assert sites[k].location == location;
    }
  }

  lemma {:induction false} SitesReport(sites: seq<Site>, members: seq<Finding>, r: Rendering)
    requires SitesFit(sites, members, r)
    ensures SitesReported(Sort(sites, SiteLess), members, r)
  {
    PresentedSites(sites, members, r);
    LocationsOnce(members);
    forall f | f in members ensures exists i ::
        0 <= i < |Sort(sites, SiteLess)| && Sort(sites, SiteLess)[i].location == f.location {
      assert f.location in LocationsOf(members);
    }
  }

  lemma {:induction false} PresentedReports(group: Group, members: seq<Finding>, r: Rendering)
    requires Fits(group, members, r)
    ensures Reports(Presented(group), members, r)
  {
    PresentedEngines(group, members);
    SitesReport(group.sites, members, r);
  }

  lemma {:induction false} GroupFits(groups: map<GroupKey, Group>, findings: seq<Finding>, r: Rendering, key: GroupKey)
    requires GroupsFit(groups, KeysOf(findings), findings, r) && key in groups
    ensures Fits(groups[key], MembersOf(findings, key), r)
  {
  }

  /** No finding is worse or surer than its issue. */
  predicate Worst(group: Group, members: seq<Finding>) {
    forall f | f in members ::
      && !Before(["CRITICAL", "HIGH", "MEDIUM", "LOW", "INFO"], f.severity, group.severity)
      && !Before(["HIGH", "MEDIUM", "LOW"], f.confidence, group.confidence)
  }

  lemma {:induction false} RatedWorst(group: Group, members: seq<Finding>)
    requires Rated(group, members)
    ensures Worst(group, members)
  {
    forall f | f in members
      ensures !Before(["CRITICAL", "HIGH", "MEDIUM", "LOW", "INFO"], f.severity, group.severity)
      ensures !Before(["HIGH", "MEDIUM", "LOW"], f.confidence, group.confidence)
    {
      SeverityOrderExactly(f.severity, group.severity);
      ConfidenceOrderExactly(f.confidence, group.confidence);
    }
  }

  /** In an issue the locations come by path, and those of one path by method. */
  lemma {:induction false} LocationsInOrder(sites: seq<Site>, members: seq<Finding>, r: Rendering, i: nat, j: nat)
    requires SitesReported(sites, members, r) && i < j < |sites|
    ensures !Less(Shown(sites[j].location.endpoint), Shown(sites[i].location.endpoint))
    ensures Shown(sites[j].location.endpoint) == Shown(sites[i].location.endpoint) ==>
      !Less(Shown(sites[j].location.method_), Shown(sites[i].location.method_))
  {
    assert !SiteLess(sites[j], sites[i]);
  }

  /** What each issue says about the findings it stands for, and its number. */
  lemma {:induction false} IssueReports(groups: map<GroupKey, Group>, findings: seq<Finding>, r: Rendering,
        issues: seq<Issue>, i: nat)
    requires GroupsFit(groups, KeysOf(findings), findings, r) && i < |issues|
    requires Numbered(issues, Sort(Drafts(groups, KeysOf(findings)), IssueLess))
    ensures Reports(issues[i].group, MembersOf(findings, issues[i].key), r)
    ensures issues[i].id == IssueId(i + 1)
    ensures Worst(issues[i].group, MembersOf(findings, issues[i].key))
    ensures var members := MembersOf(findings, issues[i].key);
            && members != [] && issues[i].group.status == members[0].status
            && issues[i].group.references == Dedupe(members[0].references)
  {
    IssueFromGroup(groups, KeysOf(findings), issues, i);
    GroupFits(groups, findings, r, issues[i].key);
    PresentedReports(groups[issues[i].key], MembersOf(findings, issues[i].key), r);
    RatedWorst(issues[i].group, MembersOf(findings, issues[i].key));
  }

  /** The issues come most severe first, then by falling risk, then by title. */
  lemma {:induction false} IssuesSorted(groups: map<GroupKey, Group>, keys: seq<GroupKey>, issues: seq<Issue>)
    requires forall key | key in keys :: key in groups
    requires Numbered(issues, Sort(Drafts(groups, keys), IssueLess))
    ensures Sorted(issues, IssueLess)
    ensures forall i, j | 0 <= i < j < |issues| :: !OutOfOrder(issues[j], issues[i])
  {
    IssueLessIsOrder();
    SortSorted(Drafts(groups, keys), IssueLess);
    forall i, j | 0 <= i < j < |issues| ensures !OutOfOrder(issues[j], issues[i]) {
      SeverityOrderExactly(issues[j].group.severity, issues[i].group.severity);
      assert !IssueLess(issues[j], issues[i]);
    }
  }

  /** The issue should come before the other: it is worse, or as severe and riskier, or as severe and
      risky with a smaller title. */
  predicate OutOfOrder(issue: Issue, other: Issue) {
    || Before(["CRITICAL", "HIGH", "MEDIUM", "LOW", "INFO"], issue.group.severity, other.group.severity)
    || (issue.group.severity == other.group.severity && issue.group.risk > other.group.risk)
    || (issue.group.severity == other.group.severity && issue.group.risk == other.group.risk
        && Less(issue.key.title, other.key.title))
  }

  /** The report's maximum risk is that of all findings. */
  lemma {:induction false} MaximumRiskOfFindings(groups: map<GroupKey, Group>, findings: seq<Finding>, r: Rendering,
        issues: seq<Issue>, risk: real)
    requires GroupsFit(groups, KeysOf(findings), findings, r)
    requires Numbered(issues, Sort(Drafts(groups, KeysOf(findings)), IssueLess)) && MaximumRisk(risk, issues)
    ensures if findings == [] then risk == 0.0
            else (exists f :: f in findings && f.risk == risk) && forall f | f in findings :: f.risk <= risk
  {
    GroupKeys(groups, findings, r);
    IssuesPartitionFindings(groups, findings, issues);
    forall f | f in findings ensures f.risk <= risk {
      var i :| 0 <= i < |issues| && issues[i].key == f.key;
      IssueRisk(groups, findings, r, issues, i);
    }
    if findings != [] {
      assert findings[0] in findings;
      var i :| 0 <= i < |issues| && issues[i].group.risk == risk;
      IssueRisk(groups, findings, r, issues, i);
    }
  }

  lemma {:induction false} IssueRisk(groups: map<GroupKey, Group>, findings: seq<Finding>, r: Rendering,
        issues: seq<Issue>, i: nat)
    requires GroupsFit(groups, KeysOf(findings), findings, r) && i < |issues|
    requires Numbered(issues, Sort(Drafts(groups, KeysOf(findings)), IssueLess))
    ensures exists f :: f in findings && f.key == issues[i].key && f.risk == issues[i].group.risk
    ensures forall f | f in findings && f.key == issues[i].key :: f.risk <= issues[i].group.risk
  {
    IssueReports(groups, findings, r, issues, i);
    MembersExactly(findings, issues[i].key);
  }

  // ---------- affected locations ----------

  function PairsFor(key: GroupKey, locations: seq<Location>): seq<(GroupKey, Location)> {
    seq(|locations|, i requires 0 <= i < |locations| => (key, locations[i]))
  }

  /** The locations of all issues, with their groups. */
  function PairsOf(issues: seq<Issue>, findings: seq<Finding>): seq<(GroupKey, Location)> {
    if issues == [] then []
    else
      var key := issues[|issues| - 1].key;
      PairsOf(issues[..|issues| - 1], findings) + PairsFor(key, LocationsOf(MembersOf(findings, key)))
  }

  predicate HasKey(issues: seq<Issue>, key: GroupKey) {
    exists i :: 0 <= i < |issues| && issues[i].key == key
  }

  predicate Located(findings: seq<Finding>, key: GroupKey, location: Location) {
    exists f :: f in findings && f.key == key && f.location == location
  }

  lemma {:induction false} LocatedInGroup(findings: seq<Finding>, key: GroupKey, location: Location)
    ensures location in LocationsOf(MembersOf(findings, key)) <==> Located(findings, key, location)
  {
    MembersExactly(findings, key);
    LocationsOnce(MembersOf(findings, key));
  }

  lemma {:induction false} HasKeyNext(issues: seq<Issue>, key: GroupKey)
    requires issues != []
    ensures HasKey(issues, key) <==> HasKey(issues[..|issues| - 1], key) || issues[|issues| - 1].key == key
  {
    var init := issues[..|issues| - 1];
    assert forall i | 0 <= i < |init| :: issues[i] == init[i];
  }

  lemma {:induction false} PairsMembers(issues: seq<Issue>, findings: seq<Finding>, pair: (GroupKey, Location))
    ensures pair in PairsOf(issues, findings) <==> HasKey(issues, pair.0) && Located(findings, pair.0, pair.1)
  {
    if issues != [] {
      var key := issues[|issues| - 1].key;
      PairsMembers(issues[..|issues| - 1], findings, pair);
      HasKeyNext(issues, pair.0);
      LocatedInGroup(findings, key, pair.1);
      PairsForMembers(key, LocationsOf(MembersOf(findings, key)), pair);
    }
  }

  lemma {:induction false} PairsForMembers(key: GroupKey, locations: seq<Location>, pair: (GroupKey, Location))
    ensures pair in PairsFor(key, locations) <==> pair.0 == key && pair.1 in locations
  {
    if pair.0 == key && pair.1 in locations {
      var i :| 0 <= i < |locations| && locations[i] == pair.1;
      assert PairsFor(key, locations)[i] == pair;
    }
  }

  lemma {:induction false} PairsOnce(issues: seq<Issue>, findings: seq<Finding>)
    requires forall i, j | 0 <= i < j < |issues| :: issues[i].key != issues[j].key
    ensures NoRepeats(PairsOf(issues, findings))
  {
    if issues != [] {
      var (init, key) := (issues[..|issues| - 1], issues[|issues| - 1].key);
      var (before, own) := (PairsOf(init, findings), PairsFor(key, LocationsOf(MembersOf(findings, key))));
      PairsOnce(init, findings);
      LocationsOnce(MembersOf(findings, key));
      forall i | 0 <= i < |before| ensures before[i].0 != key {
        assert before[i] in before;
        PairsMembers(init, findings, before[i]);
      }
    }
  }

  lemma {:induction false} PairsCounted(issues: seq<Issue>, findings: seq<Finding>)
    requires forall i | 0 <= i < |issues| ::
      |issues[i].group.sites| == |LocationsOf(MembersOf(findings, issues[i].key))|
    ensures CountLocations(issues) == |PairsOf(issues, findings)|
  {
    if issues != [] {
      PairsCounted(issues[..|issues| - 1], findings);
    }
  }

  lemma {:induction false} SizeOf<T>(items: seq<T>, members: set<T>)
    requires NoRepeats(items) && forall x :: x in items <==> x in members
    ensures |items| == |members|
  {
    if items == [] {
      assert members == {};
    } else {
      assert items == [items[0]] + items[1..];
      assert items[0] !in items[1..];
      SizeOf(items[1..], members - {items[0]});
    }
  }

  /** The affected locations are counted once per group and location. */
  lemma {:induction false} LocationsCounted(groups: map<GroupKey, Group>, findings: seq<Finding>, r: Rendering,
        issues: seq<Issue>)
    requires GroupsFit(groups, KeysOf(findings), findings, r)
    requires Numbered(issues, Sort(Drafts(groups, KeysOf(findings)), IssueLess))
    ensures CountLocations(issues) == |set f | f in findings :: (f.key, f.location)|
  {
    GroupKeys(groups, findings, r);
    IssuesPartitionFindings(groups, findings, issues);
    PairsOnce(issues, findings);
    forall i | 0 <= i < |issues| ensures |issues[i].group.sites| == |LocationsOf(MembersOf(findings, issues[i].key))| {
      IssueReports(groups, findings, r, issues, i);
    }
    PairsCounted(issues, findings);
    forall pair: (GroupKey, Location)
      ensures pair in PairsOf(issues, findings) <==> pair in set f | f in findings :: (f.key, f.location)
    {
      PairsMembers(issues, findings, pair);
    }
    SizeOf(PairsOf(issues, findings), set f | f in findings :: (f.key, f.location));
  }
}
