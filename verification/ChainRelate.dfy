/** Pairwise relations between isolated findings, and the evidence tokens some of them rest on. */
module ChainRelate {
  import opened Basics
  import opened Ordering
  import opened ChainModel
  import opened Text
  import Joining

  const MIN_TOKEN_LENGTH: nat := 4
  const MAX_SHARED_FREQUENCY: nat := 4

  predicate IsDigit(c: char) {
    '0' <= c <= '9'
  }

  predicate HasDigit(v: string) {
    exists i | 0 <= i < |v| :: IsDigit(v[i])
  }

  predicate HasNonDigit(v: string) {
    exists i | 0 <= i < |v| :: !IsDigit(v[i])
  }

  /** Long enough, and with a digit, a hyphen or an underscore. (Text that parses as a number has a
      digit, so the separate numeric test adds nothing.) */
  predicate LooksLikeIdentifier(v: string) {
    |v| >= MIN_TOKEN_LENGTH && (HasDigit(v) || '-' in v || '_' in v)
  }

  /** Stricter: no escape artefact, not mostly percent-encoded, digits and other characters mixed. */
  predicate LooksShared(v: string) {
    && |v| >= MIN_TOKEN_LENGTH && !("u00" <= v)
    && !(Joining.Count(v, '%') > 0 && Joining.Count(v, '%') * 4 >= |v|)
    && HasDigit(v) && HasNonDigit(v)
  }

  predicate IsDelimiter(c: char) {
    c in " \n\t\r\"'=&?#,:{}[]/\\"
  }

  /** The maximal runs of non-delimiters, with current the run being read. */
  function TokensFrom(s: string, current: string): seq<string> {
    if s == "" then (if current == "" then [] else [current])
    else if IsDelimiter(s[0]) then (if current == "" then [] else [current]) + TokensFrom(s[1..], "")
    else TokensFrom(s[1..], current + [s[0]])
  }

  function SplitTokens(s: string): seq<string> {
    TokensFrom(s, "")
  }

  function EvidenceStrings(evidence: seq<string>): seq<string> {
    if evidence == [] then []
    else (if evidence[0] != "" then [evidence[0]] else []) + EvidenceStrings(evidence[1..])
  }

  predicate OccursAt(s: string, part: string, i: nat) {
    i + |part| <= |s| && s[i..i + |part|] == part
  }

  predicate Contains(s: string, part: string) {
    exists i | 0 <= i <= |s| :: OccursAt(s, part, i)
  }

  function ResourceValue(f: Finding): string {
    if f.affectedParameter == "" || f.parameterValue == "" || !LooksLikeIdentifier(f.parameterValue) then ""
    else f.parameterValue
  }

  function ViewOf(f: Finding): View {
    View(f, f.scanId, f.identityContext, EndpointKey(f), f.affectedParameter, ResourceValue(f))
  }

  // ----- token frequency -----

  /** The shareable tokens of one finding's evidence. */
  function TokenSet(f: Finding): set<string> {
    TokensOf(EvidenceStrings(f.evidence))
  }

  function TokensOf(contents: seq<string>): set<string> {
    set c, t | c in contents && t in SplitTokens(c) && LooksShared(t) :: t
  }

  function Holders(views: map<string, View>, token: string): set<string> {
    set id | id in views && token in TokenSet(views[id].finding)
  }

  /** For every shareable token, how many findings hold it. */
  function Frequencies(views: map<string, View>): map<string, nat> {
    map t | t in AllTokens(views) :: |Holders(views, t)|
  }

  function AllTokens(views: map<string, View>): set<string> {
    set id, t | id in views && t in TokenSet(views[id].finding) :: t
  }

  function Lookup(freq: map<string, nat>, token: string): nat {
    if token in freq then freq[token] else 0
  }

  /** freq after one more finding holding the tokens of seen. */
  function Bump(freq: map<string, nat>, seen: set<string>): map<string, nat> {
    map t | t in freq.Keys + seen :: Lookup(freq, t) + if t in seen then 1 else 0
  }

  lemma MoreTokens(views: map<string, View>, done: set<string>, id: string)
    requires done <= views.Keys && id in views && id !in done
    ensures AllTokens(Only(views, done + {id})) == AllTokens(Only(views, done)) + TokenSet(views[id].finding)
  {
    var a, b := Only(views, done), Only(views, done + {id});
    forall t ensures t in AllTokens(b) <==> t in AllTokens(a) + TokenSet(views[id].finding) {
      if t in AllTokens(b) {
        var j :| j in b && t in TokenSet(b[j].finding);
        assert j != id ==> j in a;
      }
      if t in AllTokens(a) {
        var j :| j in a && t in TokenSet(a[j].finding);
        assert j in b;
      }
      if t in TokenSet(views[id].finding) {
        assert id in b && t in TokenSet(b[id].finding);
      }
    }
  }

  lemma MoreHolders(views: map<string, View>, done: set<string>, id: string, t: string)
    requires done <= views.Keys && id in views && id !in done
    ensures |Holders(Only(views, done + {id}), t)|
         == |Holders(Only(views, done), t)| + if t in TokenSet(views[id].finding) then 1 else 0
  {
    var a, b := Only(views, done), Only(views, done + {id});
    if t in TokenSet(views[id].finding) {
      assert Holders(b, t) == Holders(a, t) + {id};
    } else {
      assert Holders(b, t) == Holders(a, t);
    }
  }

  lemma NoHolders(views: map<string, View>, t: string)
    requires t !in AllTokens(views)
    ensures Holders(views, t) == {}
  {
  }

  lemma BumpAt(views: map<string, View>, done: set<string>, id: string, t: string)
    requires done <= views.Keys && id in views && id !in done
    ensures |Holders(Only(views, done + {id}), t)|
         == Lookup(Frequencies(Only(views, done)), t) + if t in TokenSet(views[id].finding) then 1 else 0
  {
    MoreHolders(views, done, id, t);
    if t !in AllTokens(Only(views, done)) {
      NoHolders(Only(views, done), t);
    }
  }

  lemma BumpFrequencies(views: map<string, View>, done: set<string>, id: string)
    requires done <= views.Keys && id in views && id !in done
    ensures Bump(Frequencies(Only(views, done)), TokenSet(views[id].finding)) == Frequencies(Only(views, done + {id}))
  {
    MoreTokens(views, done, id);
    var freq, seen := Frequencies(Only(views, done)), TokenSet(views[id].finding);
    var next := Frequencies(Only(views, done + {id}));
    forall t | t in next ensures next[t] == Lookup(freq, t) + if t in seen then 1 else 0 {
      BumpAt(views, done, id, t);
    }
    BumpIs(freq, seen, next);
  }

  lemma BumpIs(freq: map<string, nat>, seen: set<string>, next: map<string, nat>)
    requires next.Keys == freq.Keys + seen
    requires forall t :: t in next ==> next[t] == Lookup(freq, t) + if t in seen then 1 else 0
    ensures Bump(freq, seen) == next
  {
  }

  function Only(views: map<string, View>, ids: set<string>): map<string, View> {
    map id | id in views && id in ids :: views[id]
  }

  lemma BumpOne(before: map<string, nat>, seen: set<string>, t: string)
    requires t !in seen
    ensures Bump(before, seen + {t}) == Bump(before, seen)[t := Lookup(Bump(before, seen), t) + 1]
  {
  }

  lemma BumpNone(before: map<string, nat>)
    ensures Bump(before, {}) == before
  {
  }

  /** The tokens of one piece of evidence that were not seen before. */
  method CountContent(content: string, before: map<string, nat>, seen0: set<string>, ghost base: map<string, nat>)
    returns (freq: map<string, nat>, seen: set<string>)
    requires before == Bump(base, seen0)
    ensures seen == seen0 + SharedOf(SplitTokens(content)) && freq == Bump(base, seen)
  {
    freq, seen := before, seen0;
    var tokens := SplitTokens(content);
    for j := 0 to |tokens|
      invariant seen == seen0 + SharedOf(tokens[..j]) && freq == Bump(base, seen)
    {
      var t := tokens[j];
      assert tokens[..j + 1] == tokens[..j] + [t];
      if !LooksShared(t) || t in seen {
        continue;
      }
      BumpOne(base, seen, t);
      seen := seen + {t};
      freq := freq[t := Lookup(freq, t) + 1];
    }
    assert tokens[..|tokens|] == tokens;
  }

  lemma TokensSnoc(contents: seq<string>, i: nat)
    requires i < |contents|
    ensures TokensOf(contents[..i + 1]) == TokensOf(contents[..i]) + SharedOf(SplitTokens(contents[i]))
  {
    assert contents[..i + 1] == contents[..i] + [contents[i]];
  }

  /** One finding's tokens, each counted once however often it repeats. */
  method CountTokens(f: Finding, before: map<string, nat>) returns (freq: map<string, nat>)
    ensures freq == Bump(before, TokenSet(f))
  {
    freq := before;
    BumpNone(before);
    var seen: set<string> := {};
    var contents := EvidenceStrings(f.evidence);
    for i := 0 to |contents|
      invariant seen == TokensOf(contents[..i]) && freq == Bump(before, seen)
    {
      TokensSnoc(contents, i);
      freq, seen := CountContent(contents[i], freq, seen, before);
    }
    assert contents[..|contents|] == contents;
  }

  function SharedOf(tokens: seq<string>): set<string> {
    set t | t in tokens && LooksShared(t)
  }

  /** Frequencies over all views, visited in an arbitrary order. */
  method TokenFrequency(views: map<string, View>) returns (freq: map<string, nat>)
    ensures freq == Frequencies(views)
  {
    freq := map[];
    var rest := views.Keys;
    assert Only(views, views.Keys - rest) == map[];
    while rest != {}
      invariant rest <= views.Keys && freq == Frequencies(Only(views, views.Keys - rest))
      decreases |rest|
    {
      var id :| id in rest;
      BumpFrequencies(views, views.Keys - rest, id);
      assert views.Keys - (rest - {id}) == (views.Keys - rest) + {id};
      freq := CountTokens(views[id].finding, freq);
      rest := rest - {id};
    }
    assert Only(views, views.Keys - {}) == views;
  }

  // ----- shared evidence -----

  predicate Sharable(t: string, other: set<string>, freq: map<string, nat>) {
    LooksShared(t) && Lookup(freq, t) <= MAX_SHARED_FREQUENCY && t in other
  }

  /** The first longest sharable token. */
  function BestToken(tokens: seq<string>, other: set<string>, freq: map<string, nat>): string
    decreases |tokens|
  {
    if tokens == [] then ""
    else
      var n := |tokens| - 1;
      var best := BestToken(tokens[..n], other, freq);
      if Sharable(tokens[n], other, freq) && |tokens[n]| > |best| then tokens[n] else best
  }

  /** The i-th token is sharable, longer than every sharable one before it and as long as any after. */
  ghost predicate IsFirstLongest(tokens: seq<string>, other: set<string>, freq: map<string, nat>, i: int) {
    && 0 <= i < |tokens| && Sharable(tokens[i], other, freq)
    && (forall j :: 0 <= j < i && Sharable(tokens[j], other, freq) ==> |tokens[j]| < |tokens[i]|)
    && (forall j :: i < j < |tokens| && Sharable(tokens[j], other, freq) ==> |tokens[j]| <= |tokens[i]|)
  }

  /** The overlap is a whole token of both texts, rare enough in the batch, no rare common token is
      longer and none before it as long; there is none exactly when no rare token is common. */
  lemma {:induction false} BestTokenIsBest(tokens: seq<string>, other: set<string>, freq: map<string, nat>)
    ensures var best := BestToken(tokens, other, freq);
            && (best != "" ==> best in tokens && Sharable(best, other, freq))
            && (forall t :: t in tokens && Sharable(t, other, freq) ==> |t| <= |best|)
            && (best == "" <==> forall t :: t in tokens ==> !Sharable(t, other, freq))
            && (best != "" ==> exists i :: IsFirstLongest(tokens, other, freq, i) && tokens[i] == best)
    decreases |tokens|
  {
    if tokens != [] {
      var n := |tokens| - 1;
      var pre, t := tokens[..n], tokens[n];
      BestTokenIsBest(pre, other, freq);
      assert tokens == pre + [t];
      var before, best := BestToken(pre, other, freq), BestToken(tokens, other, freq);
      if best != "" {
        if best == before {
          var i :| IsFirstLongest(pre, other, freq, i) && pre[i] == before;
          FirstLongestKept(pre, t, other, freq, i);
        } else {
          FirstLongestNew(pre, t, other, freq, before);
        }
      }
    }
  }

  lemma FirstLongestKept(pre: seq<string>, t: string, other: set<string>, freq: map<string, nat>, i: int)
    requires IsFirstLongest(pre, other, freq, i) && (Sharable(t, other, freq) ==> |t| <= |pre[i]|)
    ensures IsFirstLongest(pre + [t], other, freq, i)
  {
  }

  lemma FirstLongestNew(pre: seq<string>, t: string, other: set<string>, freq: map<string, nat>, before: string)
    requires forall x :: x in pre && Sharable(x, other, freq) ==> |x| <= |before|
    requires Sharable(t, other, freq) && |t| > |before|
    ensures IsFirstLongest(pre + [t], other, freq, |pre|)
  {
    var tokens := pre + [t];
    forall j | 0 <= j < |pre| && Sharable(tokens[j], other, freq) ensures |tokens[j]| < |t| {
      assert tokens[j] in pre;
    }
  }

  method SubstringOverlap(a: string, b: string, freq: map<string, nat>) returns (token: Option<string>)
    ensures token == Overlap(a, b, freq)
  {
    var bTokens := {};
    var bs := SplitTokens(b);
    for i := 0 to |bs|
      invariant bTokens == Elements(bs[..i])
    {
      assert bs[..i + 1] == bs[..i] + [bs[i]];
      bTokens := bTokens + {bs[i]};
    }
    assert bs[..|bs|] == bs;
    var tokens := SplitTokens(a);
    var best := "";
    for i := 0 to |tokens|
      invariant best == BestToken(tokens[..i], bTokens, freq)
    {
      assert tokens[..i + 1][..i] == tokens[..i];
      var t := tokens[i];
      if !LooksShared(t) || Lookup(freq, t) > MAX_SHARED_FREQUENCY {
        continue;
      }
      if t in bTokens && |t| > |best| {
        best := t;
      }
    }
    assert tokens[..|tokens|] == tokens;
    token := if best == "" then None else Some(best);
  }

  function Overlap(a: string, b: string, freq: map<string, nat>): Option<string> {
    var best := BestToken(SplitTokens(a), Elements(SplitTokens(b)), freq);
    if best == "" then None else Some(best)
  }

  function JoinedEvidence(f: Finding): string {
    Joining.Join(EvidenceStrings(f.evidence), '\n')
  }

  // ----- the relations of a pair -----

  /** The hard gate: one non-empty scan, one identity. */
  predicate IsolatedPair(a: View, b: View) {
    a.scanId != "" && b.scanId != "" && a.scanId == b.scanId && a.identity == b.identity
  }

  function RelationId(digest: Digest, kind: RelationType, a: string, b: string): string {
    digest(Joining.Join([TypeName(kind), a, b], Joining.UNIT_SEPARATOR))
  }

  /** A relation stores its ends in string order, whichever finding came first. */
  function NewRelation(digest: Digest, kind: RelationType, a: View, b: View, confidence: real, detail: string): Relation {
    var x, y := a.finding.id, b.finding.id;
    var first := if LexLess(y, x) then y else x;
    var second := if LexLess(y, x) then x else y;
    Relation(RelationId(digest, kind, first, second), kind, first, second, a.scanId, detail, confidence)
  }

  predicate IsHighOrCritical(s: Severity) {
    s == High || s == Critical
  }

  function DataFlowRelation(digest: Digest, src: View, dst: View): seq<Relation> {
    if NormalizeType(src.finding.vulnerabilityType) !in {"info_exposure", "reflected_xss", "sqli", "path_traversal", "idor"}
      || dst.resource == "" then []
    else
      var contents := EvidenceStrings(src.finding.evidence);
      if exists i | 0 <= i < |contents| :: Contains(contents[i], dst.resource)
      then [NewRelation(digest, DataFlow, src, dst, 0.65, dst.resource)] else []
  }

  function PreconditionRelation(digest: Digest, src: View, dst: View): seq<Relation> {
    var host := HostOf(dst.finding);
    if NormalizeType(src.finding.vulnerabilityType) !in {"open_redirect", "ssrf"}
      || |host| < MIN_TOKEN_LENGTH || host == HostOf(src.finding) then []
    else
      var contents := EvidenceStrings(src.finding.evidence);
      if exists i | 0 <= i < |contents| :: Contains(ToLower(contents[i]), host)
      then [NewRelation(digest, PotentialPrecondition, src, dst, 0.55, host)] else []
  }

  function When(condition: bool, r: Relation): seq<Relation> {
    if condition then [r] else []
  }

  predicate SharesEndpoint(a: View, b: View) {
    a.endpoint != "" && a.endpoint == b.endpoint
  }

  predicate SharesResource(a: View, b: View) {
    a.resource != "" && a.resource == b.resource
  }

  function StructuralRelations(digest: Digest, a: View, b: View): seq<Relation> {
    When(SharesEndpoint(a, b), NewRelation(digest, SameEndpoint, a, b, 0.6, DisplayEndpoint(a.finding)))
    + When(a.param != "" && a.param == b.param, NewRelation(digest, SameParameter, a, b, 0.3, a.param))
    + When(SharesResource(a, b), NewRelation(digest, SameResource, a, b, 0.7, a.resource))
    + When(a.identity != "" && a.identity == b.identity, NewRelation(digest, SameIdentity, a, b, 0.5, a.identity))
  }

  function EvidenceRelation(digest: Digest, a: View, b: View, freq: map<string, nat>): seq<Relation> {
    match Overlap(JoinedEvidence(a.finding), JoinedEvidence(b.finding), freq)
    case Some(t) => [NewRelation(digest, SharedEvidence, a, b, 0.5, t)]
    case None => []
  }

  function AmplifierRelation(digest: Digest, a: View, b: View): seq<Relation> {
    When((SharesEndpoint(a, b) || SharesResource(a, b))
         && a.finding.vulnerabilityType != b.finding.vulnerabilityType
         && (IsHighOrCritical(a.finding.severity) || IsHighOrCritical(b.finding.severity)),
         NewRelation(digest, PotentialImpactAmplifier, a, b, 0.4, if SharesEndpoint(a, b) then "endpoint" else "resource"))
  }

  function RelationsFor(digest: Digest, a: View, b: View, freq: map<string, nat>): seq<Relation> {
    if a.finding.id == b.finding.id then []
    else
      StructuralRelations(digest, a, b) + EvidenceRelation(digest, a, b, freq)
      + (DataFlowRelation(digest, a, b) + DataFlowRelation(digest, b, a))
      + (PreconditionRelation(digest, a, b) + PreconditionRelation(digest, b, a))
      + AmplifierRelation(digest, a, b)
  }

  predicate Between(r: Relation, a: View, b: View) {
    && ((r.findingA == a.finding.id && r.findingB == b.finding.id)
        || (r.findingA == b.finding.id && r.findingB == a.finding.id))
    && (r.scanJobId == a.scanId || r.scanJobId == b.scanId)
  }

  ghost predicate AllBetween(rs: seq<Relation>, a: View, b: View) {
    forall r :: r in rs ==> Between(r, a, b)
  }

  lemma AppendBetween(rs: seq<Relation>, more: seq<Relation>, a: View, b: View)
    requires AllBetween(rs, a, b) && AllBetween(more, a, b)
    ensures AllBetween(rs + more, a, b)
  {
  }

  lemma DirectedBetween(digest: Digest, a: View, b: View)
    ensures AllBetween(DataFlowRelation(digest, a, b), a, b) && AllBetween(PreconditionRelation(digest, a, b), a, b)
    ensures AllBetween(DataFlowRelation(digest, a, b), b, a) && AllBetween(PreconditionRelation(digest, a, b), b, a)
  {
  }

  lemma WhenBetween(condition: bool, digest: Digest, kind: RelationType, a: View, b: View, confidence: real, detail: string)
    ensures AllBetween(When(condition, NewRelation(digest, kind, a, b, confidence, detail)), a, b)
  {
  }

  lemma StructuralBetween(digest: Digest, a: View, b: View)
    ensures AllBetween(StructuralRelations(digest, a, b), a, b)
  {
    WhenBetween(SharesEndpoint(a, b), digest, SameEndpoint, a, b, 0.6, DisplayEndpoint(a.finding));
    WhenBetween(a.param != "" && a.param == b.param, digest, SameParameter, a, b, 0.3, a.param);
    WhenBetween(SharesResource(a, b), digest, SameResource, a, b, 0.7, a.resource);
    WhenBetween(a.identity != "" && a.identity == b.identity, digest, SameIdentity, a, b, 0.5, a.identity);
  }

  lemma OthersBetween(digest: Digest, a: View, b: View, freq: map<string, nat>)
    ensures AllBetween(EvidenceRelation(digest, a, b, freq), a, b)
    ensures AllBetween(AmplifierRelation(digest, a, b), a, b)
  {
  }

  /** Every relation of a pair joins exactly that pair. */
  lemma RelationsJoinThePair(digest: Digest, a: View, b: View, freq: map<string, nat>)
    ensures AllBetween(RelationsFor(digest, a, b, freq), a, b)
  {
    StructuralBetween(digest, a, b);
    OthersBetween(digest, a, b, freq);
    DirectedBetween(digest, a, b);
    DirectedBetween(digest, b, a);
    var flows := DataFlowRelation(digest, a, b) + DataFlowRelation(digest, b, a);
    var preconditions := PreconditionRelation(digest, a, b) + PreconditionRelation(digest, b, a);
    AppendBetween(DataFlowRelation(digest, a, b), DataFlowRelation(digest, b, a), a, b);
    AppendBetween(PreconditionRelation(digest, a, b), PreconditionRelation(digest, b, a), a, b);
    var first := StructuralRelations(digest, a, b) + EvidenceRelation(digest, a, b, freq);
    AppendBetween(StructuralRelations(digest, a, b), EvidenceRelation(digest, a, b, freq), a, b);
    AppendBetween(first, flows, a, b);
    AppendBetween(first + flows, preconditions, a, b);
    AppendBetween(first + flows + preconditions, AmplifierRelation(digest, a, b), a, b);
  }
}
