/** What the tokens of evidence text are, without reading the text from left to right: the maximal runs of
    characters that are no delimiters. */
module ChainTokens {
  import opened ChainModel
  import opened ChainRelate
  import Joining

  /** Blanks, quotes, brackets and the punctuation of URLs and paths. */
  ghost predicate Delimits(c: char) {
    || c == ' ' || c == '\n' || c == '\t' || c == '\r' || c == '"' || c == '\'' || c == '=' || c == '&' || c == '?'
    || c == '#' || c == ',' || c == ':' || c == '{' || c == '}' || c == '[' || c == ']' || c == '/' || c == '\\'
  }

  ghost predicate Unbroken(s: string, i: nat, j: nat)
    requires i <= j <= |s|
  {
    forall k :: i <= k < j ==> !Delimits(s[k])
  }

  /** A run of s that cannot be made longer on either side. */
  ghost predicate IsToken(s: string, i: nat, j: nat) {
    && i < j <= |s| && Unbroken(s, i, j)
    && (i > 0 ==> Delimits(s[i - 1])) && (j < |s| ==> Delimits(s[j]))
  }

  ghost predicate HasToken(s: string, t: string) {
    exists i: nat, j: nat :: IsToken(s, i, j) && s[i..j] == t
  }

  lemma DelimitsIff(c: char)
    ensures Delimits(c) <==> IsDelimiter(c)
  {
  }

  /** starts holds, in order, the places where tokens start at or after q, and tokens the tokens there. */
  ghost predicate Places(s: string, q: nat, tokens: seq<string>, starts: seq<nat>) {
    AllPlaced(s, q, tokens, starts) && Increasing(starts) && NoneMissing(s, q, starts)
  }

  ghost predicate AllPlaced(s: string, q: nat, tokens: seq<string>, starts: seq<nat>) {
    && |starts| == |tokens|
    && forall k :: 0 <= k < |starts| ==> q <= starts[k] && Placed(s, tokens[k], starts[k])
  }

  ghost predicate Placed(s: string, t: string, i: nat) {
    IsToken(s, i, i + |t|) && s[i..i + |t|] == t
  }

  ghost predicate Increasing(starts: seq<nat>) {
    forall k, l :: 0 <= k < l < |starts| ==> starts[k] < starts[l]
  }

  ghost predicate NoneMissing(s: string, q: nat, starts: seq<nat>) {
    forall i: nat, j: nat :: q <= i && IsToken(s, i, j) ==> i in starts
  }

  /** The reader at position p, inside a run that started at q. */
  lemma {:induction false} TokenPlaces(s: string, q: nat, p: nat) returns (starts: seq<nat>)
    requires q <= p <= |s| && Unbroken(s, q, p) && (q > 0 ==> Delimits(s[q - 1]))
    ensures Places(s, q, TokensFrom(s[p..], s[q..p]), starts)
    decreases |s| - p
  {
    if p == |s| {
      starts := if q == p then [] else [q];
      OnlyStart(s, q, p);
    } else {
      DelimitsIff(s[p]);
      assert s[p..][0] == s[p] && s[p..][1..] == s[p + 1..];
      if Delimits(s[p]) {
        var rest := TokenPlaces(s, p + 1, p + 1);
        assert s[p + 1..p + 1] == "";
        OnlyStart(s, q, p);
        if q < p {
          starts := [q] + rest;
          AddFirst(s, q, p, TokensFrom(s[p + 1..], ""), rest);
        } else {
          starts := rest;
          assert s[q..p] == "" && [] + TokensFrom(s[p + 1..], "") == TokensFrom(s[p + 1..], "");
        }
      } else {
        assert s[q..p] + [s[p]] == s[q..p + 1];
        starts := TokenPlaces(s, q, p + 1);
      }
    }
  }

  /** No token starts inside the run but at its beginning. */
  lemma OnlyStart(s: string, q: nat, p: nat)
    requires q <= p <= |s| && Unbroken(s, q, p) && (p < |s| ==> Delimits(s[p]))
    ensures forall i: nat, j: nat :: q <= i <= p && IsToken(s, i, j) ==> i == q < p
  {
  }

  lemma AddFirst(s: string, q: nat, p: nat, tokens: seq<string>, rest: seq<nat>)
    requires q < p < |s| && IsToken(s, q, p) && Places(s, p + 1, tokens, rest)
    requires forall i: nat, j: nat :: q <= i <= p && IsToken(s, i, j) ==> i == q
    ensures Places(s, q, [s[q..p]] + tokens, [q] + rest)
  {
    PlacedRun(s, q, p);
    PlacedFirst(s, q, p, s[q..p], tokens, rest);
    MissingFirst(s, q, p, rest);
  }

  lemma PlacedRun(s: string, q: nat, p: nat)
    requires IsToken(s, q, p)
    ensures Placed(s, s[q..p], q)
  {
    var t := s[q..p];
    assert q + |t| == p;
  }

  lemma PlacedFirst(s: string, q: nat, p: nat, t: string, tokens: seq<string>, rest: seq<nat>)
    requires q < p && Placed(s, t, q) && AllPlaced(s, p + 1, tokens, rest) && Increasing(rest)
    ensures AllPlaced(s, q, [t] + tokens, [q] + rest) && Increasing([q] + rest)
  {
    var all, starts := [t] + tokens, [q] + rest;
    forall k | 0 <= k < |starts| ensures q <= starts[k] && Placed(s, all[k], starts[k]) {
      if k > 0 {
        assert starts[k] == rest[k - 1] && all[k] == tokens[k - 1];
      }
    }
  }

  lemma MissingFirst(s: string, q: nat, p: nat, rest: seq<nat>)
    requires q < p && NoneMissing(s, p + 1, rest)
    requires forall i: nat, j: nat :: q <= i <= p && IsToken(s, i, j) ==> i == q
    ensures NoneMissing(s, q, [q] + rest)
  {
    forall i: nat, j: nat | q <= i && IsToken(s, i, j) ensures i in [q] + rest {
      assert i > p ==> i in rest;
    }
  }

  /** Reading finds exactly the maximal runs. */
  lemma TokenIff(s: string, t: string)
    ensures t in SplitTokens(s) <==> HasToken(s, t)
  {
    assert s[0..] == s && s[0..0] == "";
    var tokens := SplitTokens(s);
    var starts := TokenPlaces(s, 0, 0);
    if t in tokens {
      var k :| 0 <= k < |tokens| && tokens[k] == t;
      assert Placed(s, t, starts[k]);
    }
    if HasToken(s, t) {
      var i: nat, j: nat :| IsToken(s, i, j) && s[i..j] == t;
      var k :| 0 <= k < |starts| && starts[k] == i;
      OneEnd(s, i, j, i + |tokens[k]|);
    }
  }

  lemma OneEnd(s: string, i: nat, j: nat, k: nat)
    requires IsToken(s, i, j) && IsToken(s, i, k)
    ensures j == k
  {
  }

  // ----- the tokens of a finding -----

  /** Some piece of f's evidence has the token t. */
  ghost predicate Carries(f: Finding, t: string) {
    exists e :: e in f.evidence && HasToken(e, t)
  }

  lemma {:induction false} TokensApart(a: string, b: string, current: string)
    ensures TokensFrom(a + ['\n'] + b, current) == TokensFrom(a, current) + TokensFrom(b, "")
    decreases |a|
  {
    var s := a + ['\n'] + b;
    if a == "" {
      assert s[1..] == b && IsDelimiter('\n');
    } else {
      assert s[0] == a[0] && s[1..] == a[1..] + ['\n'] + b;
      TokensApart(a[1..], b, if IsDelimiter(a[0]) then "" else current + [a[0]]);
    }
  }

  ghost predicate InSome(parts: seq<string>, t: string) {
    exists c :: c in parts && t in SplitTokens(c)
  }

  lemma InSomeCons(parts: seq<string>, t: string)
    requires parts != []
    ensures InSome(parts, t) <==> t in SplitTokens(parts[0]) || InSome(parts[1..], t)
  {
    if InSome(parts, t) {
      var c :| c in parts && t in SplitTokens(c);
      assert c == parts[0] || c in parts[1..];
    }
    if InSome(parts[1..], t) {
      var c :| c in parts[1..] && t in SplitTokens(c);
      assert c in parts;
    }
  }

  lemma {:induction false} TokensOfJoin(parts: seq<string>, t: string)
    ensures t in SplitTokens(Joining.Join(parts, '\n')) <==> InSome(parts, t)
  {
    if parts == [] {
      assert SplitTokens("") == [];
    } else {
      InSomeCons(parts, t);
      if |parts| > 1 {
        TokensOfJoin(parts[1..], t);
        TokensApart(parts[0], Joining.Join(parts[1..], '\n'), "");
      }
    }
  }

  lemma {:induction false} EvidenceStringsAre(evidence: seq<string>)
    ensures forall c :: c in EvidenceStrings(evidence) <==> c in evidence && c != ""
  {
    if evidence != [] {
      EvidenceStringsAre(evidence[1..]);
      assert evidence == [evidence[0]] + evidence[1..];
    }
  }

  lemma NoTokenInNothing(t: string)
    ensures !HasToken("", t)
  {
  }

  lemma CarriesIff(f: Finding, t: string)
    ensures t in SplitTokens(JoinedEvidence(f)) <==> Carries(f, t)
    ensures InSome(EvidenceStrings(f.evidence), t) <==> Carries(f, t)
  {
    var contents := EvidenceStrings(f.evidence);
    TokensOfJoin(contents, t);
    EvidenceStringsAre(f.evidence);
    NoTokenInNothing(t);
    if InSome(contents, t) {
      var c :| c in contents && t in SplitTokens(c);
      TokenIff(c, t);
    }
    if Carries(f, t) {
      var e :| e in f.evidence && HasToken(e, t);
      TokenIff(e, t);
      assert e in contents;
    }
  }

  /** Specific enough to be more than an artefact: four characters or more, digits and others mixed, not an
      escape sequence and not mostly percent signs. */
  ghost predicate Specific(t: string) {
    && |t| >= 4 && !(t[0] == 'u' && t[1] == '0' && t[2] == '0')
    && (exists c :: c in t && '0' <= c <= '9') && (exists c :: c in t && !('0' <= c <= '9'))
    && ('%' in t ==> Joining.Count(t, '%') * 4 < |t|)
  }

  lemma SpecificIff(t: string)
    ensures LooksShared(t) <==> Specific(t)
  {
    Joining.CountFree(t, '%');
    assert "u00" <= t <==> |t| >= 3 && t[0] == 'u' && t[1] == '0' && t[2] == '0' by {
      if |t| >= 3 {
        assert t[..3] == [t[0], t[1], t[2]];
      }
    }
    if HasDigit(t) {
      var i :| 0 <= i < |t| && IsDigit(t[i]);
      assert t[i] in t;
    }
    if HasNonDigit(t) {
      var i :| 0 <= i < |t| && !IsDigit(t[i]);
      assert t[i] in t;
    }
  }

  /** The findings of a batch that carry t. */
  ghost function Carriers(batch: set<Finding>, t: string): set<Finding> {
    set f | f in batch && Carries(f, t)
  }
}
