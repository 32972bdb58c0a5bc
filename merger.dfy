/**
 * The report merger of the contract reviewer (`merge_json_responses`).
 *
 * Each reply of the language model is parsed; a reply that does not parse is
 * skipped. A parsed reply extends the three risk lists and the key-clause list
 * with whichever of its own lists are present, and downgrades each compliance
 * field it reports as exactly "Non-compliant". The report starts from a fixed
 * default: empty lists and every compliance field "Compliant".
 *
 * Clause entries are kept opaque (type parameter `C`), and the JSON parser is
 * a parameter `parse`, whose `None` stands for a decoding error.
 */
module Merger {
  import opened Wrappers

  datatype RiskLevel = High | Medium | Low

  /** The risk lists in the order the merge visits them. */
  const RiskLevels: seq<RiskLevel> := [High, Medium, Low]

  datatype ComplianceKey = Gdpr | DataProtection | IntellectualProperty

  /** The compliance fields in the order the merge visits them. */
  const ComplianceKeys: seq<ComplianceKey> := [Gdpr, DataProtection, IntellectualProperty]

  const CompliantStatus: string := "Compliant"
  const NonCompliantStatus: string := "Non-compliant"

  /** One of the four lists of a report that the merge extends. */
  datatype ListField = Risk(level: RiskLevel) | KeyClauses

  // ---------------------------------------------------------------------------
  // The merged report
  // ---------------------------------------------------------------------------

  datatype RiskAnalysis<C> = RiskAnalysis(high: seq<C>, medium: seq<C>, low: seq<C>) {
    function Get(level: RiskLevel): seq<C> {
      match level
      case High => high
      case Medium => medium
      case Low => low
    }

    /** `risk_analysis[level].extend(entries)`. */
    function Extend(level: RiskLevel, entries: seq<C>): (r: RiskAnalysis<C>)
      ensures r.Get(level) == Get(level) + entries
      ensures forall other :: other != level ==> r.Get(other) == Get(other)
    {
      match level
      case High => this.(high := high + entries)
      case Medium => this.(medium := medium + entries)
      case Low => this.(low := low + entries)
    }
  }

  datatype Compliance = Compliance(gdpr: string, dataProtection: string, intellectualProperty: string) {
    function Get(key: ComplianceKey): string {
      match key
      case Gdpr => gdpr
      case DataProtection => dataProtection
      case IntellectualProperty => intellectualProperty
    }

    /** `compliance[key] = status`. */
    function Set(key: ComplianceKey, status: string): (r: Compliance)
      ensures r.Get(key) == status
      ensures forall other :: other != key ==> r.Get(other) == Get(other)
    {
      match key
      case Gdpr => this.(gdpr := status)
      case DataProtection => this.(dataProtection := status)
      case IntellectualProperty => this.(intellectualProperty := status)
    }
  }

  datatype Report<C> = Report(riskAnalysis: RiskAnalysis<C>, compliance: Compliance, keyClauses: seq<C>) {
    function List(field: ListField): seq<C> {
      match field
      case Risk(level) => riskAnalysis.Get(level)
      case KeyClauses => keyClauses
    }
  }

  /** The report the merge starts from. */
  function DefaultReport<C>(): Report<C> {
    Report(RiskAnalysis([], [], []),
           Compliance(CompliantStatus, CompliantStatus, CompliantStatus),
           [])
  }

  // ---------------------------------------------------------------------------
  // A parsed reply: every field may be missing
  // ---------------------------------------------------------------------------

  datatype RiskReply<C> = RiskReply(high: Option<seq<C>>, medium: Option<seq<C>>, low: Option<seq<C>>) {
    function Get(level: RiskLevel): Option<seq<C>> {
      match level
      case High => high
      case Medium => medium
      case Low => low
    }
  }

  datatype ComplianceReply = ComplianceReply(gdpr: Option<string>, dataProtection: Option<string>,
                                             intellectualProperty: Option<string>) {
    function Get(key: ComplianceKey): Option<string> {
      match key
      case Gdpr => gdpr
      case DataProtection => dataProtection
      case IntellectualProperty => intellectualProperty
    }
  }

  datatype Reply<C> = Reply(riskAnalysis: Option<RiskReply<C>>, compliance: Option<ComplianceReply>,
                            keyClauses: Option<seq<C>>) {
    /** The entries this reply adds to a list of the report; nothing when the field is missing. */
    function ListPart(field: ListField): seq<C> {
      match field
      case Risk(level) =>
        if riskAnalysis.Some? && riskAnalysis.value.Get(level).Some?
        then riskAnalysis.value.Get(level).value else []
      case KeyClauses =>
        if keyClauses.Some? then keyClauses.value else []
    }

    /** Whether this reply reports the compliance field as exactly "Non-compliant". */
    predicate SaysNonCompliant(key: ComplianceKey) {
      compliance.Some? && compliance.value.Get(key) == Some(NonCompliantStatus)
    }
  }

  // ---------------------------------------------------------------------------
  // The merge as a left fold
  // ---------------------------------------------------------------------------

  /** The risk lists after one parsed reply is merged in. */
  function ExtendRisks<C>(risks: RiskAnalysis<C>, data: Reply<C>): RiskAnalysis<C> {
    RiskAnalysis(risks.high + data.ListPart(Risk(High)),
                 risks.medium + data.ListPart(Risk(Medium)),
                 risks.low + data.ListPart(Risk(Low)))
  }

  /** The compliance fields after one parsed reply is merged in. */
  function Downgrade<C>(compliance: Compliance, data: Reply<C>): Compliance {
    Compliance(
      if data.SaysNonCompliant(Gdpr) then NonCompliantStatus else compliance.gdpr,
      if data.SaysNonCompliant(DataProtection) then NonCompliantStatus else compliance.dataProtection,
      if data.SaysNonCompliant(IntellectualProperty) then NonCompliantStatus else compliance.intellectualProperty)
  }

  /** The report after one parsed reply is merged in. */
  function MergeReply<C>(report: Report<C>, data: Reply<C>): Report<C> {
    Report(ExtendRisks(report.riskAnalysis, data),
           Downgrade(report.compliance, data),
           report.keyClauses + data.ListPart(KeyClauses))
  }

  /** One iteration of the merge loop: a reply that does not parse changes nothing. */
  function Step<C>(parse: string -> Option<Reply<C>>, report: Report<C>, response: string): Report<C> {
    match parse(response)
    case None => report
    case Some(data) => MergeReply(report, data)
  }

  /** The report `merge_json_responses(responses)` returns. */
  function Merge<C>(parse: string -> Option<Reply<C>>, responses: seq<string>): Report<C>
    decreases |responses|
  {
    if responses == [] then DefaultReport()
    else Step(parse, Merge(parse, responses[..|responses| - 1]), responses[|responses| - 1])
  }

  // ---------------------------------------------------------------------------
  // The merge loop
  // ---------------------------------------------------------------------------

  /** The risk-analysis part of the merge loop's body, with its loop over the three lists. */
  method MergeRiskLists<C>(risks: RiskAnalysis<C>, data: Reply<C>) returns (merged: RiskAnalysis<C>)
    ensures merged == ExtendRisks(risks, data)
  {
    merged := risks;
    if data.riskAnalysis.Some? {
      var reported := data.riskAnalysis.value;
      for j := 0 to |RiskLevels|
        invariant forall i :: 0 <= i < j ==>
          merged.Get(RiskLevels[i]) == risks.Get(RiskLevels[i]) + data.ListPart(Risk(RiskLevels[i]))
        invariant forall i :: j <= i < |RiskLevels| ==> merged.Get(RiskLevels[i]) == risks.Get(RiskLevels[i])
      {
        var level := RiskLevels[j];
        if reported.Get(level).Some? {
          merged := merged.Extend(level, reported.Get(level).value);
        }
      }
      assert RiskLevels[0] == High && RiskLevels[1] == Medium && RiskLevels[2] == Low;
    } else {
      assert forall level :: data.ListPart(Risk(level)) == [];
    }
  }

  /** The compliance part of the merge loop's body, with its loop over the three fields. */
  method MergeCompliance<C>(compliance: Compliance, data: Reply<C>) returns (merged: Compliance)
    ensures merged == Downgrade(compliance, data)
  {
    merged := compliance;
    if data.compliance.Some? {
      var reported := data.compliance.value;
      for j := 0 to |ComplianceKeys|
        invariant forall i :: 0 <= i < j ==>
          merged.Get(ComplianceKeys[i]) == Downgrade(compliance, data).Get(ComplianceKeys[i])
        invariant forall i :: j <= i < |ComplianceKeys| ==>
          merged.Get(ComplianceKeys[i]) == compliance.Get(ComplianceKeys[i])
      {
        var key := ComplianceKeys[j];
        if reported.Get(key).Some? && reported.Get(key).value == NonCompliantStatus {
          merged := merged.Set(key, NonCompliantStatus);
        }
      }
      assert ComplianceKeys[0] == Gdpr && ComplianceKeys[1] == DataProtection;
      assert ComplianceKeys[2] == IntellectualProperty;
    }
  }

  /** The body of the merge loop for one parsed reply. */
  method MergeParsed<C>(report: Report<C>, data: Reply<C>) returns (merged: Report<C>)
    ensures merged == MergeReply(report, data)
  {
    var risks := MergeRiskLists(report.riskAnalysis, data);
    var compliance := MergeCompliance(report.compliance, data);
    var keyClauses := report.keyClauses;
    if data.keyClauses.Some? {
      keyClauses := keyClauses + data.keyClauses.value;
    }
    merged := Report(risks, compliance, keyClauses);
  }

  /** `merge_json_responses(json_responses)`. */
  method MergeJsonResponses<C>(parse: string -> Option<Reply<C>>, responses: seq<string>)
    returns (merged: Report<C>)
    ensures merged == Merge(parse, responses)
  {
    merged := DefaultReport();
    for i := 0 to |responses|
      invariant merged == Merge(parse, responses[..i])
    {
      assert responses[..i + 1][..i] == responses[..i];
      var parsed := parse(responses[i]);
      if parsed.Some? {
        merged := MergeParsed(merged, parsed.value);
      }
    }
    assert responses[..|responses|] == responses;
  }

  // ---------------------------------------------------------------------------
  // What the merged report is, independently of the fold
  // ---------------------------------------------------------------------------

  /** The entries a reply contributes to a list; a reply that does not parse contributes none. */
  function ParsedPart<C>(parsed: Option<Reply<C>>, field: ListField): seq<C> {
    if parsed.Some? then parsed.value.ListPart(field) else []
  }

  /** The in-order concatenation of the entries the replies contribute to a list. */
  function Contributions<C>(parse: string -> Option<Reply<C>>, responses: seq<string>, field: ListField): seq<C>
    decreases |responses|
  {
    if responses == [] then []
    else ParsedPart(parse(responses[0]), field) + Contributions(parse, responses[1..], field)
  }

  /** Whether a reply parses and reports the compliance field as exactly "Non-compliant". */
  predicate ParsedSays<C>(parsed: Option<Reply<C>>, key: ComplianceKey) {
    parsed.Some? && parsed.value.SaysNonCompliant(key)
  }

  /** Whether some reply parses and reports the compliance field as exactly "Non-compliant". */
  ghost predicate SomeReplySays<C>(parse: string -> Option<Reply<C>>, responses: seq<string>, key: ComplianceKey) {
    exists i :: 0 <= i < |responses| && ParsedSays(parse(responses[i]), key)
  }

  lemma {:induction false} ContributionsConcat<C>(parse: string -> Option<Reply<C>>, xs: seq<string>,
                                                 ys: seq<string>, field: ListField)
    ensures Contributions(parse, xs + ys, field) == Contributions(parse, xs, field) + Contributions(parse, ys, field)
    decreases |xs|
  {
    if xs == [] {
      assert xs + ys == ys;
    } else {
      assert (xs + ys)[0] == xs[0];
      assert (xs + ys)[1..] == xs[1..] + ys;
      ContributionsConcat(parse, xs[1..], ys, field);
    }
  }

  /** One step of the fold appends the reply's entries to each list. */
  lemma StepList<C>(parse: string -> Option<Reply<C>>, report: Report<C>, response: string, field: ListField)
    ensures Step(parse, report, response).List(field) == report.List(field) + ParsedPart(parse(response), field)
  {
  }

  /**
   * Each risk list and the key-clause list of the merged report are exactly the
   * in-order concatenation of the corresponding lists of the replies that parse;
   * a reply lacking the field contributes nothing.
   */
  lemma {:induction false} MergeListExact<C>(parse: string -> Option<Reply<C>>, responses: seq<string>, field: ListField)
    ensures Merge(parse, responses).List(field) == Contributions(parse, responses, field)
    decreases |responses|
  {
    if responses != [] {
      var init, last := responses[..|responses| - 1], responses[|responses| - 1];
      MergeListExact(parse, init, field);
      StepList(parse, Merge(parse, init), last, field);
      ContributionsConcat(parse, init, [last], field);
      assert init + [last] == responses;
      assert Contributions(parse, [last], field) == ParsedPart(parse(last), field) + [];
    }
  }

  /**
   * A compliance field of the merged report is "Non-compliant" exactly when
   * some reply that parses reports it as exactly "Non-compliant", and
   * "Compliant" otherwise.
   */
  lemma {:induction false} MergeComplianceExact<C>(parse: string -> Option<Reply<C>>, responses: seq<string>,
                                                  key: ComplianceKey)
    ensures Merge(parse, responses).compliance.Get(key)
         == if SomeReplySays(parse, responses, key) then NonCompliantStatus else CompliantStatus
    decreases |responses|
  {
    if responses != [] {
      var n := |responses| - 1;
      var init, last := responses[..n], responses[n];
      MergeComplianceExact(parse, init, key);
      if SomeReplySays(parse, init, key) {
        var i :| 0 <= i < n && ParsedSays(parse(init[i]), key);
        assert responses[i] == init[i];
      }
      if SomeReplySays(parse, responses, key) {
        var i :| 0 <= i < |responses| && ParsedSays(parse(responses[i]), key);
        if i < n {
          assert init[i] == responses[i];
        }
      }
    }
  }

  /** The compliance outcome does not depend on the order of the replies. */
  lemma MergeComplianceOrderIndependent<C>(parse: string -> Option<Reply<C>>, responses: seq<string>,
                                           reordered: seq<string>)
    requires multiset(responses) == multiset(reordered)
    ensures Merge(parse, responses).compliance == Merge(parse, reordered).compliance
  {
    forall key | true
      ensures Merge(parse, responses).compliance.Get(key) == Merge(parse, reordered).compliance.Get(key)
    {
      MergeComplianceExact(parse, responses, key);
      MergeComplianceExact(parse, reordered, key);
      SomeReplySaysPermuted(parse, responses, reordered, key);
    }
    var a, b := Merge(parse, responses).compliance, Merge(parse, reordered).compliance;
    assert a.Get(Gdpr) == b.Get(Gdpr);
    assert a.Get(DataProtection) == b.Get(DataProtection);
    assert a.Get(IntellectualProperty) == b.Get(IntellectualProperty);
  }

  lemma SomeReplySaysPermuted<C>(parse: string -> Option<Reply<C>>, responses: seq<string>,
                                 reordered: seq<string>, key: ComplianceKey)
    requires multiset(responses) == multiset(reordered)
    ensures SomeReplySays(parse, responses, key) <==> SomeReplySays(parse, reordered, key)
  {
    if SomeReplySays(parse, responses, key) {
      var i :| 0 <= i < |responses| && ParsedSays(parse(responses[i]), key);
      assert responses[i] in multiset(reordered);
      var j :| 0 <= j < |reordered| && reordered[j] == responses[i];
    }
    if SomeReplySays(parse, reordered, key) {
      var j :| 0 <= j < |reordered| && ParsedSays(parse(reordered[j]), key);
      assert reordered[j] in multiset(responses);
      var i :| 0 <= i < |responses| && responses[i] == reordered[j];
    }
  }

  /** A downgraded compliance field is never upgraded by later replies. */
  lemma MergeNeverUpgrades<C>(parse: string -> Option<Reply<C>>, earlier: seq<string>, later: seq<string>,
                              key: ComplianceKey)
    ensures Merge(parse, earlier).compliance.Get(key) == NonCompliantStatus
        ==> Merge(parse, earlier + later).compliance.Get(key) == NonCompliantStatus
  {
    MergeComplianceExact(parse, earlier, key);
    MergeComplianceExact(parse, earlier + later, key);
    if SomeReplySays(parse, earlier, key) {
      var i :| 0 <= i < |earlier| && ParsedSays(parse(earlier[i]), key);
      assert (earlier + later)[i] == earlier[i];
    }
  }

  /** Lists only grow: later replies append after what earlier replies contributed. */
  lemma MergeAppendOnly<C>(parse: string -> Option<Reply<C>>, earlier: seq<string>, later: seq<string>,
                           field: ListField)
    ensures Merge(parse, earlier + later).List(field)
         == Merge(parse, earlier).List(field) + Contributions(parse, later, field)
  {
    MergeListExact(parse, earlier + later, field);
    MergeListExact(parse, earlier, field);
    ContributionsConcat(parse, earlier, later, field);
  }

  /** A reply that fails to parse is skipped without affecting anything else. */
  lemma {:induction false} MergeSkipsUnparsable<C>(parse: string -> Option<Reply<C>>, before: seq<string>,
                                                  bad: string, after: seq<string>)
    requires parse(bad).None?
    ensures Merge(parse, before + [bad] + after) == Merge(parse, before + after)
    decreases |after|
  {
    if after == [] {
      assert before + [bad] + after == before + [bad];
      assert (before + [bad])[..|before|] == before;
      assert before + after == before;
    } else {
      var n := |after| - 1;
      MergeSkipsUnparsable(parse, before, bad, after[..n]);
      assert (before + [bad] + after)[..|before| + 1 + n] == before + [bad] + after[..n];
      assert (before + after)[..|before| + n] == before + after[..n];
    }
  }

  /** Merging no reply that parses, in particular no reply at all, gives the default report. */
  lemma {:induction false} MergeOfUnparsable<C>(parse: string -> Option<Reply<C>>, responses: seq<string>)
    requires forall i :: 0 <= i < |responses| ==> parse(responses[i]).None?
    ensures Merge(parse, responses)
         == Report(RiskAnalysis([], [], []), Compliance("Compliant", "Compliant", "Compliant"), [])
    decreases |responses|
  {
    if responses != [] {
      MergeOfUnparsable(parse, responses[..|responses| - 1]);
    }
  }
}
