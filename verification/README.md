# Verified model of sakanner's finding, mutation and crawl logic

sakanner scans networks; between its scanners and its reports sit layers that do no I/O and make strong promises. This
project models those layers in Dafny and proves the promises, or, where the code does not keep one, proves exactly when
it does. `dafny verify dfyconfig.toml` checks everything.

## What is modelled

- **Correlation** (`GroupStream`, `GroupOrder`, `GroupOrderExact`, `GroupContents`, `Consolidation`, `IdentityKey`,
  `Canonical`, `BucketFold`, `Correlation`, `CorrelationEngine`, `CorrelationBatch`, `CorrelationMeaning`). Findings stream into per-identity buckets with a
  bound on evidence groups. The bucket and engine objects update maps and counters in place and visit maps in an
  arbitrary order; they refine a fold over the stream, which is compared with a batch consolidation. Within the bound the
  report depends on the multiset of findings only. Beyond it, two if-and-only-ifs say when the retained signatures, and
  when everything the retained groups claim, is independent of order, and the second carries over to the report.
  `CorrelationMeaning` says what a report holds over the fields of the raw findings alone.
- **Chains** (`Graphs`, `DisjointSets`, `ChainModel`, `ChainComponents`, `ChainBuild`, `ChainCandidates`, `ChainRelate`,
  `ChainCorrelate`, `ChainTokens`, `ChainMeaning`, `ChainReport`, `ChainOrdering`, `FirstBy`). Pairwise relations behind an isolation gate, union-find with path compression, component
  extraction under caps. Union-find classes are the connected components of the relation graph, chains never cross a scan
  or an identity, and the result depends on the set of findings only. `ChainTokens` to `ChainOrdering` say, over the
  fields of two findings alone, exactly when they are related, what each candidate claims and in what order all is listed.
- **JSON bodies** (`JsonSyntax`, `JsonTree`, `JsonPath`, `JsonMutation`, `JsonRedaction`). A lossless syntax tree for
  RFC 8259 texts with a parser proved sound and complete against its printer, the library's marshalling and unmarshalling
  on top of it, the recursive and the spliced dot-path update, and recursive redaction.
- **Requests and forms** (`UrlValues`, `MutationRequest`, `FormTargets`). Form encoding and decoding, deep cloning and the
  one controlled change of a request, and what a mutated form submission carries from discovery to the wire.
- **Bounded worklists** (`Crawl`, `LoginDiscovery`). Breadth-first crawl with a combined cap, and login form discovery.
- **Concurrent budgets and runs** (`Counting`, `Budgets`, `DetectionFindings`, `DetectionRun`). State machines over atomic
  steps of any number of calls or goroutines; the theorems are about every schedule.
- **Smaller pieces** (`Cidr`, `Shell`, `Reproduction`, `Comparison`), and shared sorting, joining and text helpers
  (`Ordering`, `Joining`, `Text`, `Hex`, `Basics`).

## Conventions

- Strings are sequences of characters. In the JSON modules a character is a code point, in the form and request modules it
  is one byte (`UrlValues.Bytes`).
- SHA-256 based IDs and signatures are an arbitrary function parameter (`Digest`, `Naming`); injectivity is assumed only
  where a statement says so. Confidences are reals. Times are integers with 0 as the zero time.
- Sorting is a function returning a sorted permutation; wherever the comparison is total there is only one
  (`Ordering.SortedUnique`).
- Fetching a page, running a detector, parsing a URL, deciding scope, naming security tokens and the folding of header
  names and of sensitive field names are function parameters. Waiting, cancellation and store failures are nondeterministic or parameters.
- Map iteration is an arbitrary choice, so independence of it is proved, not assumed.

## Where the code and its documentation differ

- Correlation is documented as independent of arrival order. Once eviction and a later weakening repeat meet, it is not.
  `GroupOrderExact.RetentionIsOrderIndependentIff` gives the exact condition for the set of retained signatures, and
  `CorrelationBatch.EvictionSeesOrder` a stream that violates it. The contents of the retained groups need more: a claim
  with an unrecognised severity can be displaced and its confidence or title forgotten while its signature stays
  retained in every order (`GroupContents.VagueContentsVary`). `GroupContents.ContentsAreOrderIndependentIff` gives the
  exact condition for the contents; when every severity is recognised, the first condition suffices
  (`GroupContents.KnownSeveritiesIff`). The detector named for a signature depends on order when equal titles name
  different detectors (`BucketFold.DetectorOrderIndependentIff`); nothing else in a report does then
  (`CorrelationBatch.ReportOrderIrrelevant`).
- The identity key is documented as collision-free because its separator cannot occur in a component. Nothing in the code
  removes it; `IdentityKey.KeyDeterminesIdentity` shows that its absence is exactly what is needed, and
  `DetectionFindings.DedupKeyDetermines` the same for the detection engine's key.
- Equal evidence always gives equal signatures (`Consolidation.SignatureOrderIrrelevant`). The converse, which grouping by
  signature rests on, holds between separator-free lists, but among all evidence only the empty list and a single item
  without unit separators have a signature of their own, however strong the digest
  (`Consolidation.SignatureIdentifiesIff`): several items read like one whose content holds their separators.
- A chain result is documented to be marked as truncated when a cap dropped something. When a pair's relations end exactly
  at the relation cap, later ones are dropped without a mark; repeated findings can cause a mark with nothing dropped
  (`ChainCorrelate.MarkedIffLost`, `FirstBy.SilentLoss`).
- A repeat of the same evidence with an unrecognised severity is documented to take the minimum; the code takes the other
  severity whenever one of the two is unrecognised (`GroupStream.Summarises`).
- A JSON path through an existing null makes the escaped update write to a nil map and panic, and makes the verbatim one
  return a text that is no JSON (`JsonMutation.EscapedSets`, `JsonMutation.VerbatimSets`, `JsonMutation.NullBody`).
- A path payload containing a slash changes the number of segments (`MutationRequest.PathSetsSegmentIff`,
  `MutationRequest.PathGrowsBySlashes`).
- Verbatim mode is documented to write only the payload as it is; it writes the parameter's name as it is too, so the
  mutation reaches the named parameter exactly when that name needs no escaping (`UrlValues.VerbatimAgrees`).
- An empty prefix never expands, whatever the cap: the increment wraps around inside the block (`Cidr.ExpandCIDR`,
  `Cidr.EmptyPrefixWraps`).

## Model

| member | source | states |
|---|---|---|
| `GroupStream.WeakestUnique` | internal/correlation/engine.go:142-150 | The weakest group of a bucket is one and the same in whatever order its map is visited. |
| `GroupStream.StepFacts` | internal/correlation/engine.go:102-118 | Absorbing, adding or displacing keeps every group under its own signature and never exceeds the bound. |
| `GroupStream.RunBounded` | internal/correlation/engine.go:90-122 | After any stream a bucket holds at most the bound, and only signatures that arrived. |
| `GroupStream.MergedSummarises` | internal/correlation/engine.go:102-113 | Within a signature the consolidation is the least confidence, the least recognised severity and the lexically least title ever claimed. |
| `GroupStream.MergedOfPermutation` | internal/correlation/engine.go:86-113 | That consolidation is the same for every arrival order. |
| `GroupStream.SmallStreamConsolidates` | internal/correlation/engine.go:102-115 | While the distinct signatures fit the bound, the incremental bucket is exactly the batch consolidation. |
| `GroupOrder.GapRetains` | internal/correlation/engine.go:114-118 | When no claim outside the consolidated top is as strong as one inside it, every arrival order retains exactly that top. |
| `GroupOrder.GapConsolidates` | internal/correlation/engine.go:102-118 | A retained signature whose claims all carry recognised severities, or none, then holds the consolidation of its whole stream despite evictions. |
| `GroupOrderExact.OrdersDiffer` | internal/correlation/engine.go:102-118 | A claim in that gap yields two orders of the same findings that retain different signatures. |
| `GroupOrderExact.RetentionIsOrderIndependentIff` | internal/correlation/engine.go:86-122 | Which signatures are retained is independent of arrival order if and only if the gap condition holds, and then it is the consolidated top. |
| `GroupContents.ContentsAreOrderIndependentIff` | internal/correlation/engine.go:86-122 | Which signatures are retained and what each group claims (confidence, severity rank, title) is the same in every order if and only if the gap condition holds and no retained signature has an unrecognised claim that is weaker than some outside claim and says what no recognised claim says; then every order ends with the consolidated top. |
| `GroupContents.SteadyConsolidates` | internal/correlation/engine.go:102-118 | Under that condition every order gives each retained signature the consolidation of its whole stream, displaced meanwhile or not. |
| `GroupContents.ContentsDiffer` | internal/correlation/engine.go:102-118 | When it fails for a retained signature, two orders retain that signature with different claims. |
| `GroupContents.KnownSeveritiesIff` | internal/correlation/consolidate.go:38-60 | When every severity is recognised, contents are order-independent if and only if the gap condition holds, so exactly when the retained signatures are. |
| `GroupContents.VagueContentsVary` | internal/correlation/consolidate.go:38-60 | Three claims and one slot for which the retained signature is the same in every order and its contents are not. |
| `GroupOrderExact.DistinctStreamKeepsStrongest` | internal/correlation/engine.go:114-118 | With pairwise distinct signatures streaming eviction is exact top-k: every order ends with the strongest groups, unchanged. |
| `Consolidation.BoundEvidence` | internal/correlation/engine.go:164-186 | The sort, truncate and dedupe loops compute the canonical bounded items. |
| `Consolidation.BoundedItemsFacts` | internal/correlation/engine.go:158-186 | Those items are each distinct truncated evidence item once, none longer than the cap. |
| `Consolidation.SignatureOrderIrrelevant` | internal/correlation/consolidate.go:84-102 | Equal evidence, in whatever order, always gives equal signatures and equal bounded items. |
| `Consolidation.SignatureDeterminesEvidence` | internal/correlation/consolidate.go:84-102 | With an injective digest, equal signatures of separator-free lists mean equal evidence multisets. |
| `Consolidation.SignatureCollision` | internal/correlation/consolidate.go:94-102 | Any list that is not empty and not a single item without unit separators shares its signature with different evidence, whatever the digest. |
| `Consolidation.SignatureIdentifiesIff` | internal/correlation/consolidate.go:94-102 | With an injective digest, a signature belongs to one evidence multiset among all evidence if and only if that is empty or a single item without unit separators. |
| `IdentityKey.KeyDeterminesIdentity` | internal/correlation/identity.go:56-67 | A key belongs to one identity only, among all identities, if and only if no component of it holds the separator. |
| `Canonical.BoundForOutputSelects` | internal/correlation/engine.go:251-270 | The output evidence is the 20 most detailed items of the union, in canonical order. |
| `Canonical.SelectionUnique` | internal/correlation/engine.go:251-284 | There is only one such selection, so map order cannot reach it. |
| `Canonical.ReportsAgree` | internal/correlation/engine.go:191-239 | Buckets with the same contents report the same canonical finding, the named detector included when the strongest groups agree on it. |
| `BucketFold.FoldTimes` | internal/correlation/engine.go:124-140 | Over the two sighting fields of all findings: no first sighting, or last one where it is missing, is earlier than the reported first; no last sighting, or first one where it is missing, is later than the reported last; both are such a value or zero. |
| `CorrelationMeaning.ReportSpans` | internal/correlation/engine.go:124-140 | Every report of every stream counts all raw findings of its name, and its sighting interval runs from the least first sighting to the greatest last one, over the findings' own fields. |
| `CorrelationMeaning.ReportMeans` | internal/correlation/engine.go:191-239 | There is one report for exactly each name that occurs, listed by host, port, path, type, parameter and ID. Where equal signatures mean equal evidence, severity and confidence are the greatest of the least claimed with each evidence, title and detector those of the first title claimed with the leading evidence, the evidence the 20 most detailed items cut to 4096 characters, confirmed exactly from two evidences on, never more than 50. |
| `CorrelationMeaning.SeparatorFreeSeparates` | internal/correlation/consolidate.go:84-102 | They do between separator-free evidence under an injective digest. |
| `CorrelationMeaning.FewAreKept` | internal/correlation/engine.go:114-122 | Up to 50 different evidences, all findings count. |
| `Findings.SeverityScale` | internal/correlation/consolidate.go:16-30 | The scale severities are compared on: info, low, medium, high, critical, and anything else below. |
| `BucketFold.BucketOrderIrrelevant` | internal/correlation/engine.go:86-140 | Up to 50 signatures, groups, counts and times of a bucket are a function of the multiset of findings. |
| `BucketFold.SteadyOrderIrrelevant` | internal/correlation/engine.go:86-140 | Past 50 signatures too, under the exact condition for its claims: signatures, claims, evidence, counts and times are a function of the multiset. |
| `BucketFold.DetectorOrderIndependentIff` | internal/correlation/engine.go:105-113 | The detector a signature names is order-independent if and only if all its least-titled claims name the same one. |
| `Correlation.Bucket.FindWeakest` | internal/correlation/engine.go:142-150 | Visiting the map in an arbitrary order finds the weakest group. |
| `Correlation.Bucket.Store` | internal/correlation/engine.go:102-122 | In place, one claim changes the groups by exactly one specified step. |
| `Correlation.Bucket.Sight` | internal/correlation/engine.go:124-140 | In place, one finding widens the sighting interval by the step whose fold spans all sightings. |
| `Correlation.Bucket.Ingest` | internal/correlation/engine.go:86-140 | In place, one finding changes the whole bucket state by the specified fold. |
| `Correlation.Bucket.Build` | internal/correlation/engine.go:191-239 | Whatever order the groups are visited in: maximal severity and confidence, the strongest group's title and detector, confirmed exactly from two signatures on, the selected evidence. |
| `CorrelationEngine.Engine.Ingest` | internal/correlation/engine.go:312-332 | A batch folds into the map of buckets in order, each result saying whether its identity was new. |
| `CorrelationEngine.Engine.Findings` | internal/correlation/engine.go:338-350 | One report per bucket, in canonical order, whatever order the map is visited in. |
| `CorrelationEngine.Engine.Len` | internal/correlation/engine.go:353-357 | The number of buckets. |
| `CorrelationBatch.IngestPartitions` | internal/correlation/engine.go:312-332 | After any sequence of calls each name's bucket is the fold of exactly its own findings. |
| `CorrelationBatch.IngestRebatches` | internal/correlation/engine.go:312-332 | Splitting the input over several calls changes nothing. |
| `CorrelationBatch.ReportOrderIrrelevant` | internal/correlation/engine.go:86-89 | When every bucket meets the exact condition, which up to 50 signatures it always does, the report is a function of the multiset of findings, entry by entry, except for the detector of an entry whose findings of equal title and evidence name different ones. |
| `CorrelationBatch.SeparatorFreeIsTame` | internal/correlation/identity.go:56-80 | Injective digests and separator-free text give the other hypotheses of the previous row in the engine's own naming. |
| `CorrelationBatch.EvictionSeesOrder` | internal/correlation/engine.go:114-122 | For every bound, 50 included, a concrete stream of bound plus two findings is order-sensitive. |
| `DisjointSets.DisjointSet.Find` | internal/chains/candidate.go:21-37 | Both loops end, the parent map stays an acyclic forest, the result is the class representative and compression changes no representative. |
| `DisjointSets.DisjointSet.Union` | internal/chains/candidate.go:39-44 | In place, exactly the two classes are merged. |
| `DisjointSets.UniteAllClassifies` | internal/chains/candidate.go:55-63 | After all unions two findings have one representative if and only if a chain of relations connects them. |
| `ChainBuild.GroupFindings` | internal/chains/candidate.go:64-92 | Findings are grouped by root, each once, in first-mention order. |
| `ChainBuild.GroupRelations` | internal/chains/candidate.go:64-92 | Relations are grouped by root without loss. |
| `ChainCandidates.BuildCandidates` | internal/chains/candidate.go:55-170 | The imperative builder returns the sorted, capped list of one candidate per component, tie by tie a function of its input, and reports exactly whether a component is too long or candidates are too many. |
| `ChainComponents.CandidatesAreComponents` | internal/chains/candidate.go:55-170 | When no cap binds the candidates are exactly the connected components: disjoint, covering, every relation listed with both its ends. |
| `ChainComponents.WholeComponent` | internal/chains/candidate.go:94-154 | A component within the length cap has a candidate with exactly its findings and exactly the relations touching it. |
| `ChainComponents.CandidatesRespectCaps` | internal/chains/candidate.go:94-170 | When caps bind, sizes stay within them and every listed relation has both ends in the candidate. |
| `ChainComponents.CandidateListUnique` | internal/chains/candidate.go:55-170 | With distinct candidate IDs there is one list, whichever roots union-find chose. |
| `ChainComponents.IdsDistinct` | internal/chains/ordering.go:21-29 | Candidate IDs are distinct for an injective digest and separator-free finding IDs. |
| `ChainComponents.CandidatesAreIsolated` | internal/chains/candidate.go:104-154 | However long the path between them, a candidate's findings share one non-empty scan and one identity, its own. |
| `ChainRelate.TokenFrequency` | internal/chains/tokens.go:138-160 | For any map order, each shareable token is counted once per finding holding it. |
| `ChainRelate.SubstringOverlap` | internal/chains/tokens.go:173-215 | The loop finds the specified shared token. |
| `ChainRelate.BestTokenIsBest` | internal/chains/tokens.go:173-215 | That token is shared, rare enough and the first of the longest; there is none exactly when no rare token is shared. |
| `ChainRelate.RelationsJoinThePair` | internal/chains/relate.go:48-178 | Every relation of a pair joins exactly that pair, in its scan. |
| `ChainTokens.TokenIff` | internal/chains/tokens.go:258-269 | A text has a token if and only if it is a run of non-delimiters of it that cannot be made longer. |
| `ChainTokens.SpecificIff` | internal/chains/tokens.go:223-256 | A token may be shared if and only if it has four characters or more, digits and others, does not begin with u00 and is less than a quarter percent signs. |
| `ChainMeaning.PairMeans` | internal/chains/relate.go:48-178 | For two findings of one non-empty scan and one identity: same endpoint, same parameter, same resource, same identity, data flow either way, precondition either way and impact amplifier are reported, with their weights and details, if and only if the fields of the two say so; shared evidence is reported exactly when some token is shared by at most four findings, and then names a longest one; nothing else is reported. |
| `ChainReport.FrequenciesCount` | internal/chains/tokens.go:138-160 | A token's frequency is the number of findings whose evidence has it. |
| `ChainReport.RelationsJustified` | internal/chains/engine.go:22-53 | Under any caps, every reported relation is one that the fields of two of the findings justify. |
| `ChainReport.RelationsMean` | internal/chains/engine.go:22-53 | When no cap cuts anything off, every isolated pair that something connects has its relation, in each kind. |
| `ChainReport.RelatedIff` | internal/chains/engine.go:22-53 | Then, with an injective digest and separator-free IDs, two findings are related in a kind if and only if they are isolated together and their fields connect them. |
| `ChainReport.CandidatesSummarise` | internal/chains/candidate.go:94-154 | Every candidate lists exactly the relations between its findings, the greatest of their confidences and the names of their kinds, and is supported exactly when one of them is data flow, shared evidence or a precondition. |
| `ChainReport.SupportedIff` | internal/chains/candidate.go:176-186 | In terms of findings: a chain is supported if and only if evidence of one listed finding leads to another listed one. |
| `ChainReport.CandidatesCover` | internal/chains/candidate.go:104-158 | Endpoints and impact are counted over exactly the listed findings. |
| `ChainOrdering.ChosenMeans` | internal/chains/engine.go:55-109 | The findings worked on are the first of every non-empty ID, by scan, host, endpoint and ID; a finding left out comes after all of them, and then the cap is reached. |
| `ChainOrdering.RelationsInOrder` | internal/chains/ordering.go:49-66 | Relations are listed strictly by kind name, ends and ID, within the cap. |
| `ChainOrdering.CandidatesInOrder` | internal/chains/ordering.go:21-80 | Candidates are listed by scan and ID, and the ID is the digest of the listed findings. |
| `ChainOrdering.CappedMeansSevered` | internal/chains/candidate.go:93-158 | A candidate says its length was capped if and only if some relation leads out of the findings it lists. |
| `ChainOrdering.DefaultBounds` | internal/chains/limits.go:29-63 | The bounds that stand in for zero. |
| `ChainCorrelate.BuildViews` | internal/chains/engine.go:64-109 | First occurrence per ID, canonical order, cut at the cap, one view each. |
| `FirstBy.CollectPairs` | internal/chains/engine.go:30-43 | The nested loops with early exit and truncation compute the first results of all ordered pairs, and report whether one pair's results went past the cap. |
| `FirstBy.CrossesIff` | internal/chains/engine.go:30-43 | That report is right about lost results if and only if no pair ends exactly at the cap. |
| `FirstBy.SilentLoss` | internal/chains/engine.go:30-43 | Three items, one result a pair and room for one: two results are lost and nothing is reported. |
| `FirstBy.KeepFirsts` | internal/chains/ordering.go:36-47 | The loop keeps the first item of every key. |
| `FirstBy.FirstsFacts` | internal/chains/ordering.go:31-47 | What is kept has distinct keys and exactly the keys there were. |
| `ChainCorrelate.Correlate` | internal/chains/engine.go:22-53 | The whole entry point meets its specification, the truncation mark included. |
| `ChainCorrelate.MarkedIffLost` | internal/chains/model.go:161-163 | The mark says exactly whether a cap left something out, except in two cases, each characterised: repeated or unnamed findings alone exceed the input cap, or the last relation of some pair is the last that fits. |
| `ChainCorrelate.ChainsNeverCrossIsolation` | internal/chains/relate.go:35-40 | For every input, all findings of a returned chain come from one non-empty scan and the chain's own identity. |
| `ChainCorrelate.CorrelateOrderIrrelevant` | internal/chains/engine.go:52-63 | For inputs where equal IDs mean equal findings, any reordering or repetition gives the same relations and candidates under all caps. |
| `JsonSyntax.ValueSound` | internal/mutation/mutate.go:249-257 | What the JSON parser reads is a valid value whose text, whitespace and escapes included, is exactly what it consumed. |
| `JsonSyntax.ValueComplete` | internal/mutation/mutate.go:249-257 | Every valid value is parsed back from its text, whatever follows it. |
| `JsonSyntax.TextIsParsed` | internal/mutation/mutate.go:249-257 | A text parses to a value if and only if it is that value's text between whitespace. |
| `JsonTree.QuoteRoundTrip` | internal/mutation/mutate.go:272-276 | Encoding a string as a literal and decoding it gives the string back. |
| `JsonTree.QuoteKeepsIff` | internal/mutation/mutate.go:272-276 | Exactly the text without control characters, quotes, backslashes and what HTML or JavaScript would read is written as it is. |
| `JsonTree.CompactKeeps` | internal/mutation/mutate.go:288-292 | Embedding a raw value, compacted and escaped for HTML, keeps its meaning. |
| `JsonTree.UnmarshalMeans` | internal/mutation/mutate.go:249-257 | Objects unmarshal to their fields, null to a nil map, all else is rejected. |
| `JsonTree.MarshalMeans` | internal/mutation/mutate.go:288-292 | Marshalling raw fields gives a text meaning exactly those fields. |
| `JsonPath.SetThenLookup` | internal/mutation/mutate.go:258-287 | At and below a set path there is exactly the new value. |
| `JsonPath.SetFrame` | internal/mutation/mutate.go:258-287 | Every path neither above nor below the set one is unchanged. |
| `JsonPath.SetTwice` | internal/mutation/mutate.go:265-293 | Only the last value set at a path matters. |
| `JsonMutation.EscapedSets` | internal/mutation/mutate.go:265-293 | The escaped update succeeds exactly when only objects lie on the path, then meaning the tree with the string set there; under a null it panics, other obstacles are errors. |
| `JsonMutation.VerbatimSets` | internal/mutation/mutate.go:306-343 | The textual splice means the same tree update for a JSON value text under exactly the same condition; under a null its result is no JSON at all. |
| `JsonMutation.VerbatimKeepsPayload` | internal/mutation/mutate.go:294-343 | For every payload, JSON or not: the splice fails exactly when the body is no JSON or something other than an object or null lies on the path, whatever the payload; otherwise the result is the payload, unchanged, between two texts that body and path alone determine. |
| `JsonMutation.VerbatimAlone` | internal/mutation/mutate.go:306-343 | Without a body and with one segment the result is the object of that one member with the payload as it is. |
| `JsonMutation.ApplyJsonVerbatim` | internal/mutation/mutate.go:225-247 | The same through the dot-path, and when the payload is JSON the result means the old tree with that value at the path. |
| `JsonMutation.HopelessMeansNothing` | internal/mutation/mutate.go:325-343 | The text returned under a null, whatever the payload, does not parse. |
| `JsonMutation.NullBody` | internal/mutation/mutate.go:265-343 | For the body {"a":null} and the path a.b the escaped update panics and the verbatim one returns no JSON. |
| `JsonMutation.VerbatimAgreesWithEscaped` | internal/mutation/mutate.go:294-343 | Splicing an encoded string agrees with setting the string. |
| `JsonMutation.ApplyJsonSetsOnly` | internal/mutation/mutate.go:225-247 | Through the dot-path, the named field gets the payload and every other path keeps its value. |
| `UrlValues.EscapeRoundTrip` | internal/mutation/mutate.go:188-211 | Percent-encoding and decoding a byte string is the identity. |
| `UrlValues.EscapeKeepsIff` | internal/mutation/mutate.go:188-211 | Exactly the text of letters, digits and - _ . ~ is written as it is. |
| `UrlValues.EncodeRoundTrip` | internal/mutation/mutate.go:188-211 | Decoding an encoded field set gives back every name with its values in order. |
| `UrlValues.FormSets` | internal/mutation/mutate.go:188-211 | An escaped form mutation decodes to the old fields with exactly the named one replaced, and fails exactly on bodies that do not parse. |
| `UrlValues.SplicedDecodesIff` | internal/mutation/mutate.go:170-211 | A payload escaped beforehand and spliced verbatim decodes to the old fields with exactly the named one replaced if and only if the name holds none of the characters & = ; % +. |
| `UrlValues.VerbatimAgrees` | internal/mutation/mutate.go:196-204 | So verbatim and escaped form mutation agree on all bodies, failures included, exactly for those names. |
| `MutationRequest.CloneValues` | internal/mutation/request.go:125-136 | A fresh map with fresh slices of equal contents, whatever order the map is visited in. |
| `MutationRequest.CloneCookies` | internal/mutation/request.go:138-148 | Fresh, pairwise different cookie objects with equal contents. |
| `MutationRequest.Request.Clone` | internal/mutation/request.go:96-123 | A deep copy: equal contents, and query map, header map, their slices, cookies, body bytes and query override all fresh. |
| `MutationRequest.Request.Apply` | internal/mutation/mutate.go:139-168 | In place, the copy changes by exactly the specified mutation. |
| `MutationRequest.Request.ApplyCookie` | internal/mutation/mutate.go:392-402 | Writing through a copied cookie object changes the first cookie of that name or adds one. |
| `MutationRequest.Mutate` | internal/mutation/mutate.go:127-168 | The result is as specified and all it refers to is fresh; the original and all it refers to keep their state. |
| `MutationRequest.MutateTwice` | internal/mutation/mutate.go:127-133 | Two mutations of one original each mean their own change only and share no object. |
| `MutationRequest.PolicyGuards` | internal/mutation/mutate.go:109-165 | A header is changed if and only if the allow-list for headers names it, a cookie if and only if the one for cookies does, case aside. |
| `MutationRequest.OneChange` | internal/mutation/mutate.go:127-168 | Whatever is mutated, everything else of the request stays, other headers and other cookies included. |
| `MutationRequest.QuerySets` | internal/mutation/mutate.go:170-186 | The query string sent after an escaped mutation decodes to the old parameters with exactly the named one replaced. |
| `MutationRequest.VerbatimQuerySetsIff` | internal/mutation/mutate.go:170-180 | With a payload escaped beforehand the verbatim one does too, exactly for names that need no escaping. |
| `MutationRequest.PathSetsSegmentIff` | internal/mutation/mutate.go:372-381 | Exactly the chosen path segment is replaced if and only if the payload holds no slash. |
| `MutationRequest.PathGrowsBySlashes` | internal/mutation/mutate.go:372-381 | Every slash in the payload adds one segment. |
| `MutationRequest.SlashInPayload` | internal/mutation/mutate.go:372-381 | The payload x/y for the first segment of /a/b asks for /x/y/b. |
| `FormTargets.FieldValues` | internal/detection/targets.go:309-318 | The loop computes the specified map of names to values. |
| `FormTargets.LastValueCounts` | internal/detection/targets.go:309-318 | In it every name has the value of its last occurrence. |
| `FormTargets.BuildEndpointTargets` | internal/detection/targets.go:211-296 | The loops build the specified targets in order. |
| `FormTargets.EndpointTargetsIff` | internal/detection/targets.go:211-296 | Something is a target if and only if it is the endpoint itself or built from one of its parameters that can be submitted and is not, in a form, a security token. |
| `FormTargets.FormTargetsComplete` | internal/detection/targets.go:263-285 | Every parameter of a routable form that is no security token has a target carrying all form fields. |
| `FormTargets.PathSubmissionKeepsOthers` | internal/detection/targets.go:290-303 | For every path target, the mutation replaces exactly the segment the parameter was discovered in, if and only if the payload has no slash, and touches neither query nor body. |
| `FormTargets.SeedQuery` | internal/detection/mutation_bridge.go:79-85 | For any map order, every field without a non-empty query value is filled in. |
| `FormTargets.FormSubmissionKeepsSiblings` | internal/detection/targets.go:263-285 | For every form target, the mutated body decodes to all form fields with only its own replaced, and that one is no security token. |
| `FormTargets.QuerySubmissionKeepsSiblings` | internal/detection/targets.go:228-245 | The same for forms submitted in the query. |
| `Crawl.Enqueue` | internal/crawler/crawler.go:188-193 | Links are queued unless visited or over the combined cap, and it is known whether one was dropped. |
| `Crawl.Crawl` | internal/crawler/crawler.go:143-198 | Terminates within the cap, no page twice, none too deep. Unless it is cancelled it goes on until its queue is empty: the pages are exactly the fetchable ones of all paths ever queued; the first links of the start, as many as the cap leaves room for, are pages or unfetchable; on a site where everything within depth is fetchable and linked once, the page count is the smaller of the cap and the number of such paths. Unless the cap dropped a link the pages are exactly the fetchable paths within depth, nearest first; enough room means no drop. |
| `Crawl.HeadIsShortest` | internal/crawler/crawler.go:163-176 | The worklist's head is at its shortest link distance. |
| `Crawl.PagesComplete` | internal/crawler/crawler.go:163-197 | With nothing lost and an empty queue no reachable page is missing. |
| `LoginDiscovery.DiscoverLoginForm` | internal/auth/discover.go:224-280 | At most three fetches, none twice, in the order in which the pages were first linked; the first promising page's first best form, or none exactly when no fetched page has one. |
| `LoginDiscovery.FirstBest` | internal/auth/discover.go:250-260 | The strict-improvement loop finds the first maximum. |
| `LoginDiscovery.IdentifyUsername` | internal/auth/discover.go:436-453 | The first best text-like field, none exactly when there is no such field. |
| `Budgets.StepInv` | internal/mutation/executor.go:237-256 | Every atomic step of every call keeps all counters equal to what they count. |
| `Budgets.ExecuteBudgets` | internal/mutation/executor.go:123-161 | In every interleaving: the total and the per-target budget, the slot bound, and original requests charged to nothing. |
| `Budgets.SentIsInScope` | internal/mutation/executor.go:123-161 | In every state of every schedule of either executor no request is sent that is malformed or out of scope. |
| `Budgets.FinishedIsSent` | internal/detection/executor.go:144-182 | Conversely a finished call that is well-formed, in scope and within its budgets was sent, unless it gave up waiting; and only such calls were. |
| `Budgets.TargetKeyIff` | internal/mutation/executor.go:258-260 | Without separators inside, requests share a per-target budget if and only if endpoint, parameter and location agree. |
| `Budgets.DoBudgets` | internal/detection/executor.go:144-182 | The analogous bound for Do. |
| `Budgets.FinishedRunsBalance` | internal/mutation/executor.go:154-161 | When all calls are done exactly the smaller of attempts and cap passed, all slots are free and the mutex is released. |
| `Budgets.NeverStuck` | internal/mutation/executor.go:237-256 | No schedule deadlocks: some unfinished call can always move without giving up. |
| `DetectionFindings.NormalizeSettles` | internal/detection/finding.go:19-74 | Normalising is idempotent and every evidence item ends up with its finding's ID. |
| `DetectionFindings.NormalizeKeeps` | internal/detection/finding.go:19-74 | What the detector reported stays; what it left empty comes from the target, the detector's metadata or the defaults, field by field; scan, detector, host and port are never the detector's choice. |
| `DetectionFindings.DedupKeyDetermines` | internal/detection/finding.go:86-90 | Findings of the same detector, host, port, endpoint, method, parameter and type share their key; among all findings only those do if and only if none of these holds the separator. |
| `DetectionFindings.Deduplicate` | internal/detection/finding.go:98-113 | First occurrence of every key not on record, the rest counted. |
| `DetectionFindings.KeptKeys` | internal/detection/finding.go:92-113 | Exactly the found keys not on record are kept, each once. |
| `DetectionFindings.SecondRunPersistsNothing` | internal/detection/finding.go:92-97 | A second run finding no new keys keeps nothing. |
| `DetectionRun.SupportsTarget` | internal/detection/engine.go:226-246 | The loops decide kind and, for endpoints with listed methods, the method. |
| `DetectionRun.EligiblePairs` | internal/detection/engine.go:129-138 | The nested loops list the pairs in order. |
| `DetectionRun.PairsMembers` | internal/detection/engine.go:221-246 | A pair is scheduled if and only if the detector lists the target's kind, for an endpoint lists its method or none, and finds it eligible. |
| `DetectionRun.EveryPairAccountedFor` | internal/detection/engine.go:140-200 | In every interleaving: eligible is runs plus panics plus skipped, one error per failed or panicked pair, all findings of completed pairs and no others. |
| `DetectionRun.LimitHolds` | internal/detection/engine.go:108-119 | Never more goroutines active than the concurrency limit. |
| `DetectionRun.ResultsAreScheduleIndependent` | internal/detection/engine.go:140-219 | Uncancelled runs agree on run count, findings, failing pairs, persisted keys and duplicates. |
| `DetectionRun.Persist` | internal/detection/engine.go:211-216 | Persistence stops at the first failing creation. |
| `DetectionRun.Finish` | internal/detection/engine.go:203-219 | Created plus duplicates is the number found, the store gains exactly the found keys and no repeats. |
| `Cidr.IncIP` | internal/orchestration/pipeline.go:588-595 | In place, the big-endian value goes up by one and starts over after the last address. |
| `Cidr.NextIsModular` | internal/orchestration/pipeline.go:588-595 | That is addition of one modulo the number of addresses. |
| `Cidr.MaskRounds` | internal/orchestration/pipeline.go:557 | Masking rounds an address down to its block. |
| `Cidr.ExpandCIDR` | internal/orchestration/pipeline.go:547-566 | All addresses of the block in ascending order, succeeding if and only if the prefix is not empty and the block fits the cap; the topmost block included. |
| `Cidr.EmptyPrefixWraps` | internal/orchestration/pipeline.go:557-595 | In IPv4 the empty prefix has 2^32 addresses, and incrementing the last gives the first, inside the block again. |
| `Ordering.RemoveDuplicates` | internal/orchestration/pipeline.go:575-586 | First occurrences in order. |
| `Ordering.DedupeFacts` | internal/orchestration/pipeline.go:568-586 | No repeats, and no element lost. |
| `Shell.LexQuoted` | cmd/scanner/reproduction.go:75-84 | Lexing a quoted value adds exactly that value to the current word, whatever follows. |
| `Shell.LexCommand` | cmd/scanner/reproduction.go:29-38 | Lexing a command gives back exactly the intended arguments. |
| `Shell.SanitizeForTerminal` | cmd/scanner/sanitize.go:31-47 | The loop drops exactly the control characters. |
| `Shell.SanitizedDrops` | cmd/scanner/sanitize.go:31-47 | Of every character but tab and newline below the space, and of DEL, no occurrence is left; of every other one all are. |
| `Shell.SanitizedFacts` | cmd/scanner/sanitize.go:5-18 | Nothing unwanted is left, clean text is unchanged, sanitizing twice changes nothing. |
| `Shell.LexSanitized` | cmd/scanner/sanitize.go:31-47 | Lexing the sanitized command gives exactly the sanitized arguments. |
| `Reproduction.MostSpecific` | cmd/scanner/reproduction.go:47-62 | The last usable item, none exactly when there is none. |
| `Reproduction.SplitAtFirstSpace` | cmd/scanner/reproduction.go:64-73 | The line is cut at its first space, and refused exactly when a part would be missing. |
| `Reproduction.BuildCurl` | cmd/scanner/reproduction.go:18-40 | The command lexes to curl -X, the method and the URL of the chosen evidence, and -d with parameter=payload exactly when both are there and the method is not GET; sanitized, it lexes to the sanitized arguments. |
| `Comparison.MatchOne` | lab/comparison.go:88-113 | One finding takes the first matching expected one whose ID is free, or is rightly called a duplicate or a false positive. |
| `Comparison.CompareFindings` | lab/comparison.go:78-142 | The rows are the right ones and counted right; false negatives are exactly the expected findings whose ID no row took; true positives and false negatives add up to the expected findings if and only if no ID that was taken is repeated; with unique IDs true positives are the common part of the key multisets. |
| `Comparison.RightRowsUnique` | lab/comparison.go:88-126 | Only one list of rows is right. |
| `Comparison.IsDuplicate` | lab/comparison.go:162-177 | A finding repeats an earlier matched one of the same kind, endpoint and parameter. |
| `Comparison.NoMatchingDoesBetter` | lab/comparison.go:88-113 | No one-to-one assignment of findings to expected ones matches more. |
| `JsonRedaction.RedactExactly` | internal/evidence/redact_body.go:130-151 | A sensitive key at any depth maps to the placeholder, scalars elsewhere are unchanged, no place appears or disappears. |
| `JsonRedaction.NothingSensitiveLeft` | internal/evidence/redact_body.go:112-151 | Nothing but the placeholder is left under a sensitive key. |
| `JsonRedaction.RedactTwice` | internal/evidence/redact_body.go:130-151 | Redaction is idempotent. |
| `JsonRedaction.PrintedMeans` | internal/evidence/redact_body.go:117-128 | Marshalling a tree and parsing the text gives the tree back. |
| `JsonRedaction.RedactedBodyMeans` | internal/evidence/redact_body.go:117-128 | The redacted text means the redacted tree, and redaction gives up exactly on bodies that are not JSON or hold a number out of range, also under a key repeated later. |
| `JsonRedaction.RedactPrinted` | internal/evidence/redact_body.go:117-151 | Redacting the text of a printed tree is redacting the tree. |

## Left out

- MutationRequest.Mutate: takes the JSON body update as a parameter, because the JSON modules work on code points and requests on bytes; a request's fixed routing fields and provenance are not modelled.
- LoginDiscovery.DiscoverLoginForm: page parsing, link finding and the keyword scores are parameters; scores are natural numbers, as the code's are.
- FormTargets.BuildEndpointTargets: takes an endpoint's parameters already grouped by location and the decision whether its form action is routable; URL assembly is not modelled.
- Budgets.NeverStuck: states that some call can move, not that a fair scheduler serves every call.
- JsonSyntax.ValueSound: the library's nesting limit of 10000 levels is not modelled.
- JsonTree.QuoteRoundTrip: invalid UTF-8 input, which the library replaces, cannot occur in sequences of code points.
- JsonRedaction.RedactedBodyMeans: how decoding and printing a number changes its text is a parameter, as is which numbers are out of range.
- ChainRelate.RelationsJoinThePair: the prose of a relation's reason and evidence is reduced to the matched value; lower-casing and trimming are over ASCII.
- Computing an identity from a finding (hosts, ports, schemes, paths, resource identifiers): identities are inputs to the correlation model.
- The per-relation evidence limit: every relation carries exactly one evidence item, so the limit never trims.
- Redaction of forms, multipart bodies, headers, URLs and free text.
- Networking: DNS, dialing, TLS, HTTP clients, redirects, rate limiting, external tools.
- The command line, configuration, logging, reporting and the SQLite store; persistence is a sequence that may refuse a creation.
- HTML parsing, fingerprinting and the lab's HTTP fixtures.
- Grouping discovered parameters by endpoint, and BuildTargets' joins over the store.
- computeMutationID: the deterministic mutation ID is an input.
