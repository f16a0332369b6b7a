/** The raw findings the correlation engine receives and the consolidated groups it keeps. */
module Findings {
  import opened Basics
  import opened Ordering

  function Rank(s: Severity): int {
    match s
    case Info => 0
    case Low => 1
    case Medium => 2
    case High => 3
    case Critical => 4
    case Unrecognized(_) => -1
  }

  /** The scale the source compares severities on: unrecognised text is below every known severity. */
  lemma SeverityScale(s: Severity)
    ensures Rank(Info) < Rank(Low) < Rank(Medium) < Rank(High) < Rank(Critical) && (Rank(s) < 0 <==> s.Unrecognized?)
  {
  }

  function MaxSeverity(a: Severity, b: Severity): Severity {
    if Rank(b) > Rank(a) then b else a
  }

  /** The lower rank of the two, except that unrecognised text never wins over a known severity. */
  function MinSeverity(a: Severity, b: Severity): Severity {
    if Rank(a) < 0 then b
    else if Rank(b) < 0 then a
    else if Rank(b) < Rank(a) then b
    else a
  }

  function MinReal(a: real, b: real): real {
    if b < a then b else a
  }

  datatype Evidence = Evidence(kind: string, content: string)

  /** Canonical order: kind, then content. */
  predicate EvidenceLess(a: Evidence, b: Evidence) {
    if a.kind != b.kind then LexLess(a.kind, b.kind) else LexLess(a.content, b.content)
  }

  lemma EvidenceStrictTotal(s: set<Evidence>)
    ensures StrictTotalOn(EvidenceLess, s)
  {
    LexIsOrder();
  }

  datatype Identity = Identity(
    scanId: string, scheme: string, host: string, port: int, path: string, httpMethod: string,
    parameter: string, parameterLocation: string, vulnerabilityType: string, resourceIdentifier: string)

  /** A raw finding, with the identity `computeIdentity` derives from it. Times are instants,
      0 being Go's zero time. */
  datatype Finding = Finding(
    identity: Identity, severity: Severity, confidence: real, title: string, description: string,
    remediation: string, detectorId: string, evidence: seq<Evidence>, firstSeen: int, lastSeen: int)

  /** One evidence signature's consolidated state within a bucket. */
  datatype Group = Group(
    signature: string, confidence: real, severity: Severity, evidence: seq<Evidence>,
    title: string, description: string, remediation: string, detectorId: string)

  /** Severity, then confidence, then the lexically smaller signature. */
  predicate Stronger(a: Group, b: Group) {
    if Rank(a.severity) != Rank(b.severity) then Rank(a.severity) > Rank(b.severity)
    else if a.confidence != b.confidence then a.confidence > b.confidence
    else LexLess(a.signature, b.signature)
  }

  /** `Stronger` is a strict order that compares any two groups of different signature. */
  lemma StrongerIsOrder()
    ensures forall a: Group :: !Stronger(a, a)
    ensures forall a: Group, b: Group, c: Group :: Stronger(a, b) && Stronger(b, c) ==> Stronger(a, c)
    ensures forall a: Group, b: Group :: a.signature != b.signature ==> Stronger(a, b) || Stronger(b, a)
    ensures forall a: Group, b: Group :: !(Stronger(a, b) && Stronger(b, a))
  {
    LexIsOrder();
  }

  /** a claims at least what b claims, about the same signature. */
  predicate AtLeast(a: Group, b: Group) {
    a.signature == b.signature && Rank(a.severity) >= Rank(b.severity) && a.confidence >= b.confidence
  }

  lemma StrongerMono(a: Group, b: Group, a': Group, b': Group)
    requires Stronger(a, b) && AtLeast(a', a) && AtLeast(b, b')
    ensures Stronger(a', b')
  {
  }

  /** What a repeat of an already retained signature does to its group. */
  function Absorb(e: Group, g: Group): Group {
    var m := e.(confidence := MinReal(e.confidence, g.confidence),
                severity := MinSeverity(e.severity, g.severity));
    if LexLess(g.title, e.title) then
      m.(title := g.title, description := g.description, remediation := g.remediation, detectorId := g.detectorId)
    else m
  }
}
