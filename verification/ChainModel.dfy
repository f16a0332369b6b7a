/** Findings, relations and chain candidates as the chain correlation layer sees them. */
module ChainModel {
  import opened Basics
  import opened Text
  import Joining

  /** Stands for the SHA-256 content hash behind relation and candidate IDs. */
  type Digest = string -> string

  /** A finding; urlPath and parameterValue are what parsing its URL yields ("" when it does not parse
      or has no such query parameter). */
  datatype Finding = Finding(
    id: string, scanId: string, host: string, port: int, affectedEndpoint: string, urlPath: string,
    affectedParameter: string, parameterValue: string, vulnerabilityType: string, severity: Severity,
    identityContext: string, evidence: seq<string>)

  datatype View = View(
    finding: Finding, scanId: string, identity: string, endpoint: string, param: string, resource: string)

  datatype RelationType =
    | SameEndpoint | SameParameter | SameResource | SameIdentity | SharedEvidence
    | DataFlow | PotentialPrecondition | PotentialImpactAmplifier

  function TypeName(t: RelationType): string {
    match t
    case SameEndpoint => "SAME_ENDPOINT"
    case SameParameter => "SAME_PARAMETER"
    case SameResource => "SAME_RESOURCE"
    case SameIdentity => "SAME_IDENTITY"
    case SharedEvidence => "SHARED_EVIDENCE"
    case DataFlow => "DATA_FLOW"
    case PotentialPrecondition => "POTENTIAL_PRECONDITION"
    case PotentialImpactAmplifier => "POTENTIAL_IMPACT_AMPLIFIER"
  }

  /** detail is the matched value a relation's one evidence item records. */
  datatype Relation = Relation(
    id: string, kind: RelationType, findingA: string, findingB: string, scanJobId: string,
    detail: string, confidence: real)

  datatype Status = Potential | Supported

  datatype Impact = Impact(findings: nat, vulnerabilityTypes: nat, endpoints: nat, capped: bool)

  datatype Candidate = Candidate(
    id: string, scanJobId: string, identityContext: string, findingIds: seq<string>,
    relationIds: seq<string>, endpoints: seq<string>, status: Status, confidence: real,
    impact: Impact, reasons: seq<string>)

  datatype Limits = Limits(maxFindings: nat, maxRelations: nat, maxChainLength: nat, maxCandidateChains: nat)

  const DEFAULT_LIMITS := Limits(500, 2000, 10, 100)

  /** Zero fields take their defaults, so no bound is ever zero. */
  function Normalize(l: Limits): (r: Limits)
    ensures r.maxFindings > 0 && r.maxRelations > 0 && r.maxChainLength > 0 && r.maxCandidateChains > 0
  {
    Limits(
      if l.maxFindings == 0 then DEFAULT_LIMITS.maxFindings else l.maxFindings,
      if l.maxRelations == 0 then DEFAULT_LIMITS.maxRelations else l.maxRelations,
      if l.maxChainLength == 0 then DEFAULT_LIMITS.maxChainLength else l.maxChainLength,
      if l.maxCandidateChains == 0 then DEFAULT_LIMITS.maxCandidateChains else l.maxCandidateChains)
  }

  function PathOf(f: Finding): string {
    if f.affectedEndpoint != "" then f.affectedEndpoint else f.urlPath
  }

  function HostOf(f: Finding): string {
    ToLower(TrimSpace(f.host))
  }

  /** Host, port and path, joined for comparison ... */
  function EndpointKey(f: Finding): string {
    HostOf(f) + [Joining.UNIT_SEPARATOR] + Joining.Itoa(f.port) + [Joining.UNIT_SEPARATOR] + PathOf(f)
  }

  /** ... and for display. */
  function DisplayEndpoint(f: Finding): string {
    HostOf(f) + ":" + Joining.Itoa(f.port) + PathOf(f)
  }

  function NormalizeType(t: string): string {
    ToLower(TrimSpace(t))
  }
}
