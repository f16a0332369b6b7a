/** Evidence signatures, bounded evidence, and the canonical finding a bucket yields. */
module Consolidation {
  import opened Ordering
  import opened Joining
  import opened Findings

  const MAX_GROUPS: nat := 50
  const MAX_ITEMS: nat := 20
  const MAX_CONTENT: nat := 4096

  const RECORD_SEPARATOR: char := '\U{001E}'

  /** The digest stands for SHA-256 in hexadecimal; only lemmas that say so assume it injective. */
  type Digest = string -> string

  ghost predicate Injective(digest: Digest) {
    forall a: string, b: string :: digest(a) == digest(b) ==> a == b
  }

  // ----- evidence signatures -----

  function Map<T, U>(s: seq<T>, f: T -> U): seq<U> {
    seq(|s|, i requires 0 <= i < |s| => f(s[i]))
  }

  function Part(e: Evidence): string {
    e.kind + [UNIT_SEPARATOR] + e.content
  }

  function Signature(digest: Digest, evidence: seq<Evidence>): string {
    digest(Join(SortStrings(Map(evidence, Part)), RECORD_SEPARATOR))
  }

  function Truncate(e: Evidence): Evidence {
    if |e.content| > MAX_CONTENT then e.(content := e.content[..MAX_CONTENT]) else e
  }

  function BoundedItems(evidence: seq<Evidence>): seq<Evidence> {
    Dedupe(Map(Sort(evidence, EvidenceLess), Truncate))
  }

  method BoundEvidence(evidence: seq<Evidence>) returns (items: seq<Evidence>)
    ensures items == BoundedItems(evidence)
  {
    var sorted := Sort(evidence, EvidenceLess);
    var truncated := [];
    for i := 0 to |sorted|
      invariant |truncated| == i && forall j :: 0 <= j < i ==> truncated[j] == Truncate(sorted[j])
    {
      truncated := truncated + [Truncate(sorted[i])];
    }
    assert truncated == Map(sorted, Truncate);
    items := RemoveDuplicates(truncated);
  }

  lemma BoundedItemsFacts(evidence: seq<Evidence>)
    ensures NoDup(BoundedItems(evidence))
    ensures Elements(BoundedItems(evidence)) == set e | e in evidence :: Truncate(e)
    ensures forall e :: e in BoundedItems(evidence) ==> |e.content| <= MAX_CONTENT
  {
    var sorted := Sort(evidence, EvidenceLess);
    SortPermutes(evidence, EvidenceLess);
    var t := Map(sorted, Truncate);
    DedupeFacts(t);
    forall x ensures x in Elements(t) <==> exists e :: e in evidence && x == Truncate(e) {
      if x in t {
        var i :| 0 <= i < |t| && t[i] == x;
        assert sorted[i] in Elements(sorted);
      }
      if e :| e in evidence && x == Truncate(e) {
        assert e in Elements(sorted);
        var i :| 0 <= i < |sorted| && sorted[i] == e;
        assert t[i] == x;
      }
    }
    forall e | e in BoundedItems(evidence) ensures |e.content| <= MAX_CONTENT {
      assert e in Elements(BoundedItems(evidence));
    }
  }

  ghost predicate SeparatorFree(evidence: seq<Evidence>) {
    forall i :: 0 <= i < |evidence| ==>
      && Free(evidence[i].kind, UNIT_SEPARATOR)
      && Free(evidence[i].kind, RECORD_SEPARATOR) && Free(evidence[i].content, RECORD_SEPARATOR)
  }

  lemma MapRemove<T, U>(t: seq<T>, i: nat, f: T -> U)
    requires i < |t|
    ensures multiset(Map(t, f)) == multiset(Map(t[..i] + t[i+1..], f)) + multiset{f(t[i])}
  {
    var m := Map(t, f);
    RemoveAt(m, i);
    assert m[..i] + m[i+1..] == Map(t[..i] + t[i+1..], f);
  }

  lemma {:induction false} MapPermutes<T, U>(s: seq<T>, t: seq<T>, f: T -> U)
    requires multiset(s) == multiset(t)
    ensures multiset(Map(s, f)) == multiset(Map(t, f))
    decreases |s|
  {
    SameMultisetSameElements(s, t);
    if s != [] {
      assert s[0] in t;
      var i :| 0 <= i < |t| && t[i] == s[0];
      var s', t' := s[..0] + s[1..], t[..i] + t[i+1..];
      RemoveAt(t, i);
      RemoveAt(s, 0);
      assert multiset(s') == multiset(s) - multiset{s[0]};
      assert multiset(t') == multiset(t) - multiset{s[0]};
      MapPermutes(s', t', f);
      MapRemove(s, 0, f);
      MapRemove(t, i, f);
    }
  }

  function FirstSeparator(s: string): (i: nat)
    ensures i <= |s| && (forall j :: 0 <= j < i ==> s[j] != UNIT_SEPARATOR)
    ensures i < |s| ==> s[i] == UNIT_SEPARATOR
  {
    if s == "" || s[0] == UNIT_SEPARATOR then 0 else 1 + FirstSeparator(s[1..])
  }

  function Unpart(s: string): Evidence {
    var i := FirstSeparator(s);
    if i < |s| then Evidence(s[..i], s[i+1..]) else Evidence(s, "")
  }

  lemma UnpartPart(e: Evidence)
    requires Free(e.kind, UNIT_SEPARATOR)
    ensures Unpart(Part(e)) == e
  {
    var s := Part(e);
    assert s[|e.kind|] == UNIT_SEPARATOR;
    assert forall j :: 0 <= j < |e.kind| ==> s[j] == e.kind[j];
    assert FirstSeparator(s) == |e.kind|;
    assert s[|e.kind| + 1..] == e.content;
  }

  lemma PartsOf(evidence: seq<Evidence>)
    requires SeparatorFree(evidence)
    ensures AllFree(SortStrings(Map(evidence, Part)), RECORD_SEPARATOR)
    ensures multiset(Map(SortStrings(Map(evidence, Part)), Unpart)) == multiset(evidence)
    ensures |SortStrings(Map(evidence, Part))| == |evidence|
    ensures evidence != [] ==> Join(SortStrings(Map(evidence, Part)), RECORD_SEPARATOR) != ""
  {
    var parts := Map(evidence, Part);
    var sorted := SortStrings(parts);
    SortPermutes(parts, LexLess);
    SameMultisetSameElements(sorted, parts);
    forall i | 0 <= i < |sorted| ensures Free(sorted[i], RECORD_SEPARATOR) && |sorted[i]| >= 1 {
      assert sorted[i] in parts;
      var j :| 0 <= j < |parts| && parts[j] == sorted[i];
      assert SeparatorFree(evidence);
    }
    MapPermutes(sorted, parts, Unpart);
    forall i | 0 <= i < |evidence| ensures Map(parts, Unpart)[i] == evidence[i] {
      UnpartPart(evidence[i]);
    }
    assert Map(parts, Unpart) == evidence;
    if evidence != [] {
      assert |sorted| >= 1;
    }
  }

  /** The same evidence has the same signature and the same bounded items, whatever order it was
      listed in. */
  lemma SignatureOrderIrrelevant(digest: Digest, a: seq<Evidence>, b: seq<Evidence>)
    requires multiset(a) == multiset(b)
    ensures Signature(digest, a) == Signature(digest, b) && BoundedItems(a) == BoundedItems(b)
  {
    MapPermutes(a, b, Part);
    LexStrictTotal(Elements(Map(a, Part)));
    SortOfPermutation(Map(a, Part), Map(b, Part), LexLess);
    EvidenceStrictTotal(Elements(a));
    SortOfPermutation(a, b, EvidenceLess);
  }

  /** With an injective digest and no separator bytes inside either list, equal signatures mean the
      same evidence. */
  lemma SignatureDeterminesEvidence(digest: Digest, a: seq<Evidence>, b: seq<Evidence>)
    requires Injective(digest) && SeparatorFree(a) && SeparatorFree(b)
    requires Signature(digest, a) == Signature(digest, b)
    ensures multiset(a) == multiset(b)
  {
    var sa, sb := SortStrings(Map(a, Part)), SortStrings(Map(b, Part));
    PartsOf(a);
    PartsOf(b);
    assert Join(sa, RECORD_SEPARATOR) == Join(sb, RECORD_SEPARATOR);
    if a != [] && b != [] {
      JoinInjective(sa, sb, RECORD_SEPARATOR);
    } else {
      assert Join([], RECORD_SEPARATOR) == "";
      assert a == [] && b == [];
    }
  }

  // ----- which evidence a signature stands for, among all evidence -----

  /** One item that reads in one way only. */
  predicate Plain(evidence: seq<Evidence>) {
    |evidence| == 1 && Free(evidence[0].kind, UNIT_SEPARATOR) && Free(evidence[0].content, UNIT_SEPARATOR)
  }

  lemma SortedParts(evidence: seq<Evidence>)
    ensures |SortStrings(Map(evidence, Part))| == |evidence|
    ensures forall i :: 0 <= i < |evidence| ==> !Free(SortStrings(Map(evidence, Part))[i], UNIT_SEPARATOR)
    ensures |evidence| == 1 ==> SortStrings(Map(evidence, Part)) == [Part(evidence[0])]
  {
    var parts := Map(evidence, Part);
    var sorted := SortStrings(parts);
    SortPermutes(parts, LexLess);
    SameMultisetSameElements(sorted, parts);
    forall i | 0 <= i < |sorted| ensures !Free(sorted[i], UNIT_SEPARATOR) {
      assert sorted[i] in parts;
      var j :| 0 <= j < |parts| && parts[j] == sorted[i];
      assert Part(evidence[j])[|evidence[j].kind|] == UNIT_SEPARATOR;
      assert parts[j] == Part(evidence[j]);
    }
    if |evidence| == 1 {
      assert parts == [parts[0]] && parts[1..] == [] && Sort<string>([], LexLess) == [];
    }
  }

  lemma PartCount(e: Evidence)
    ensures Count(Part(e), UNIT_SEPARATOR) == 1 + Count(e.kind, UNIT_SEPARATOR) + Count(e.content, UNIT_SEPARATOR)
  {
    CountConcat(e.kind + [UNIT_SEPARATOR], e.content, UNIT_SEPARATOR);
    CountConcat(e.kind, [UNIT_SEPARATOR], UNIT_SEPARATOR);
    assert Count([UNIT_SEPARATOR], UNIT_SEPARATOR) == 1 + Count("", UNIT_SEPARATOR);
  }

  /** The joined text of a signature holds a unit separator for every item. */
  lemma JoinedCount(evidence: seq<Evidence>)
    ensures Count(Join(SortStrings(Map(evidence, Part)), RECORD_SEPARATOR), UNIT_SEPARATOR) >= |evidence|
    ensures evidence == [] ==> Join(SortStrings(Map(evidence, Part)), RECORD_SEPARATOR) == ""
  {
    SortedParts(evidence);
    var sorted := SortStrings(Map(evidence, Part));
    CountOther(sorted, RECORD_SEPARATOR, UNIT_SEPARATOR);
    CountAllAtLeast(sorted, UNIT_SEPARATOR);
  }

  lemma PlainIsUnique(digest: Digest, a: seq<Evidence>, b: seq<Evidence>)
    requires Injective(digest) && (a == [] || Plain(a))
    requires Signature(digest, a) == Signature(digest, b)
    ensures multiset(a) == multiset(b)
  {
    JoinedCount(a);
    JoinedCount(b);
    if a == [] {
      assert b == [];
    } else {
      PartCount(a[0]);
      CountFree(a[0].kind, UNIT_SEPARATOR);
      CountFree(a[0].content, UNIT_SEPARATOR);
      SortedParts(a);
      SortedParts(b);
      assert |b| == 1;
      PartCount(b[0]);
      CountFree(b[0].kind, UNIT_SEPARATOR);
      UnpartPart(a[0]);
      UnpartPart(b[0]);
      assert a == [a[0]] && b == [b[0]];
    }
  }

  lemma SignatureOfOne(digest: Digest, e: Evidence)
    ensures Signature(digest, [e]) == digest(Part(e))
  {
    SortedParts([e]);
  }

  lemma PartOfUnpart(s: string)
    requires !Free(s, UNIT_SEPARATOR)
    ensures Part(Unpart(s)) == s
  {
    var i := FirstSeparator(s);
    assert i < |s|;
    assert s == s[..i] + [s[i]] + s[i+1..];
  }

  lemma JoinedNotFree(parts: seq<string>, sep: char, c: char)
    requires |parts| >= 1 && !Free(parts[0], c)
    ensures !Free(Join(parts, sep), c)
  {
    var k :| 0 <= k < |parts[0]| && parts[0][k] == c;
    assert Join(parts, sep)[k] == c;
  }

  /** Any other evidence shares its signature: several items read as one, and a further unit
      separator can be read as the boundary between kind and content. */
  lemma SignatureCollision(digest: Digest, a: seq<Evidence>) returns (b: seq<Evidence>)
    requires a != [] && !Plain(a)
    ensures multiset(a) != multiset(b) && Signature(digest, a) == Signature(digest, b)
  {
    SortedParts(a);
    var sorted := SortStrings(Map(a, Part));
    var s := Join(sorted, RECORD_SEPARATOR);
    if |a| == 1 {
      var e := a[0];
      var d := OtherReading(e);
      b := [d];
      assert a == [e];
      assert d in multiset(b) && d !in multiset(a);
    } else {
      JoinedNotFree(sorted, RECORD_SEPARATOR, UNIT_SEPARATOR);
      b := [Unpart(s)];
      PartOfUnpart(s);
      assert |multiset(a)| == |a| && |multiset(b)| == 1;
    }
    SignatureOfOne(digest, b[0]);
  }

  lemma OtherReading(e: Evidence) returns (d: Evidence)
    requires !(Free(e.kind, UNIT_SEPARATOR) && Free(e.content, UNIT_SEPARATOR))
    ensures d != e && Part(d) == Part(e)
  {
    if Free(e.content, UNIT_SEPARATOR) {
      var k :| 0 <= k < |e.kind| && e.kind[k] == UNIT_SEPARATOR;
      d := Evidence(e.kind[..k], e.kind[k+1..] + [UNIT_SEPARATOR] + e.content);
      assert e.kind == e.kind[..k] + [UNIT_SEPARATOR] + e.kind[k+1..];
      assert |d.kind| < |e.kind|;
    } else {
      var k :| 0 <= k < |e.content| && e.content[k] == UNIT_SEPARATOR;
      d := Evidence(e.kind + [UNIT_SEPARATOR] + e.content[..k], e.content[k+1..]);
      assert e.content == e.content[..k] + [UNIT_SEPARATOR] + e.content[k+1..];
      assert |d.kind| > |e.kind|;
    }
  }

  /** Among all evidence, a signature identifies the evidence it was computed from exactly when that
      is empty or a single item without unit separators. */
  lemma SignatureIdentifiesIff(digest: Digest, a: seq<Evidence>)
    requires Injective(digest)
    ensures (forall b: seq<Evidence> :: Signature(digest, a) == Signature(digest, b) ==> multiset(a) == multiset(b))
       <==> a == [] || Plain(a)
  {
    if a == [] || Plain(a) {
      forall b: seq<Evidence> | Signature(digest, a) == Signature(digest, b) ensures multiset(a) == multiset(b) {
        PlainIsUnique(digest, a, b);
      }
    } else {
      var b := SignatureCollision(digest, a);
    }
  }

  function ToGroup(digest: Digest, f: Finding): Group {
    Group(Signature(digest, f.evidence), f.confidence, f.severity, BoundedItems(f.evidence),
          f.title, f.description, f.remediation, f.detectorId)
  }
}
