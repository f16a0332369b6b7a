/** What JSON texts mean, how encoding/json writes strings and embeds raw values, and that neither
    quoting, compacting nor marshalling changes a meaning. */
module JsonTree {
  import opened Basics
  import opened Hex
  import opened JsonSyntax
  import opened Ordering

  /** Numbers by their text; of repeated object keys the last one counts. */
  datatype Json =
    | Null
    | Bool(b: bool)
    | Number(digits: string)
    | Str(text: string)
    | Array(items: seq<Json>)
    | Object(fields: map<string, Json>)

  // ----- string literals -----

  function HexDigit(n: nat): (c: char)
    requires n < 16
    ensures IsHex(c) && HexValue(c) == n
  {
    if n < 10 then (n + '0' as int) as char else (n - 10 + 'a' as int) as char
  }

  function Code(s: string): (n: nat)
    requires |s| >= 6 && IsHex(s[2]) && IsHex(s[3]) && IsHex(s[4]) && IsHex(s[5])
    ensures n < 0x10000
  {
    HexValue(s[2]) * 4096 + HexValue(s[3]) * 256 + HexValue(s[4]) * 16 + HexValue(s[5])
  }

  predicate IsSurrogate(n: nat) {
    0xD800 <= n < 0xE000
  }

  /** s starts with an escaped low surrogate. */
  predicate LowNext(s: string) {
    Unit(s) == 6 && 0xDC00 <= Code(s) < 0xE000
  }

  function Pair(high: nat, low: nat): char
    requires 0xD800 <= high < 0xDC00 <= low < 0xE000
  {
    ((high - 0xD800) * 0x400 + (low - 0xDC00) + 0x10000) as char
  }

  function Unescaped(c: char): char {
    if c == 'b' then '\U{0008}' else if c == 'f' then '\U{000C}' else if c == 'n' then '\n'
    else if c == 'r' then '\r' else if c == 't' then '\t' else c
  }

  /** The character the first unit of raw stands for; a surrogate without its partner becomes U+FFFD. */
  function Head(raw: string): char
    requires Unit(raw) > 0
  {
    if Unit(raw) == 1 then raw[0]
    else if Unit(raw) == 2 then Unescaped(raw[1])
    else
      var code := Code(raw);
      if !IsSurrogate(code) then code as char
      else if code < 0xDC00 && LowNext(raw[6..]) then Pair(code, Code(raw[6..]))
      else '\U{FFFD}'
  }

  function Consumed(raw: string): (n: nat)
    requires Unit(raw) > 0
    ensures 0 < n <= |raw|
  {
    if Unit(raw) == 6 && 0xD800 <= Code(raw) < 0xDC00 && LowNext(raw[6..]) then 12 else Unit(raw)
  }

  function Decode(raw: string): string {
    if Unit(raw) == 0 then "" else [Head(raw)] + Decode(raw[Consumed(raw)..])
  }

  /** \u and four hexadecimal digits. */
  function Escape(n: nat): string
    requires n < 0x10000
  {
    ['\\', 'u', HexDigit(n / 4096), HexDigit(n / 256 % 16), HexDigit(n / 16 % 16), HexDigit(n % 16)]
  }

  lemma EscapeCode(n: nat, t: string)
    requires n < 0x10000
    ensures Unit(Escape(n) + t) == 6 && Code(Escape(n) + t) == n && (Escape(n) + t)[6..] == t
  {
    Digits(n);
  }

  lemma Digits(n: nat)
    requires n < 0x10000
    ensures n / 4096 * 4096 + n / 256 % 16 * 256 + n / 16 % 16 * 16 + n % 16 == n && n / 4096 < 16
  {
    assert n / 256 / 16 == n / 4096 && n / 16 / 16 == n / 256;
  }

  /** The characters encoding/json escapes so that JSON can stand inside HTML and JavaScript. */
  predicate HtmlSensitive(c: char) {
    c == '<' || c == '>' || c == '&' || c == '\U{2028}' || c == '\U{2029}'
  }

  /** How json.Marshal writes one character of a string. */
  function QuoteChar(c: char): string {
    if c == '"' || c == '\\' then ['\\', c]
    else if c == '\U{0008}' then "\\b" else if c == '\U{000C}' then "\\f" else if c == '\n' then "\\n"
    else if c == '\r' then "\\r" else if c == '\t' then "\\t"
    else if c < ' ' || HtmlSensitive(c) then Escape(c as int)
    else [c]
  }

  function QuoteRaw(s: string): string {
    if s == "" then "" else QuoteChar(s[0]) + QuoteRaw(s[1..])
  }

  /** What a string literal holds as it is: no control character, no quote and no backslash, nothing that means
      something in HTML, no line separator of JavaScript. */
  ghost predicate Harmless(c: char) {
    && c as int >= 32 && c as int != 34 && c as int != 92
    && c as int != 60 && c as int != 62 && c as int != 38 && c as int != 0x2028 && c as int != 0x2029
  }

  /** Exactly harmless text is written as it is; what else is written is harmless but for quotes and
      backslashes behind a backslash. */
  lemma {:induction false} QuoteKeepsIff(s: string)
    ensures QuoteRaw(s) == s <==> forall c :: c in s ==> Harmless(c)
    ensures forall c :: c in QuoteRaw(s) ==> Harmless(c) || c == '"' || c == '\\'
    ensures |QuoteRaw(s)| >= |s|
  {
    if s != "" {
      QuoteKeepsIff(s[1..]);
      var q, rest := QuoteChar(s[0]), QuoteRaw(s[1..]);
      QuoteCharKeeps(s[0]);
      assert s == [s[0]] + s[1..];
      assert QuoteRaw(s)[|q|..] == rest && s[0] in s;
      assert QuoteRaw(s)[..|q|] == q;
    }
  }

  lemma QuoteCharKeeps(c: char)
    ensures |QuoteChar(c)| >= 1 && (|QuoteChar(c)| == 1 <==> Harmless(c)) && (Harmless(c) ==> QuoteChar(c) == [c])
    ensures forall d :: d in QuoteChar(c) ==> Harmless(d) || d == '"' || d == '\\'
  {
    if c < ' ' || HtmlSensitive(c) {
      var n := c as int;
      HexIsHarmless(HexDigit(n / 4096));
      HexIsHarmless(HexDigit(n / 256 % 16));
      HexIsHarmless(HexDigit(n / 16 % 16));
      HexIsHarmless(HexDigit(n % 16));
    }
  }

  lemma HexIsHarmless(c: char)
    requires IsHex(c)
    ensures Harmless(c)
  {
  }

  lemma QuotedChar(c: char, t: string)
    ensures var raw := QuoteChar(c) + t;
            Unit(raw) == |QuoteChar(c)| == Consumed(raw) && Head(raw) == c && raw[|QuoteChar(c)|..] == t
  {
    if |QuoteChar(c)| == 6 {
      EscapeCode(c as int, t);
    } else if |QuoteChar(c)| == 2 {
      QuotedPair(c, t);
    } else {
      assert ([c] + t)[1..] == t;
    }
  }

  lemma QuotedPair(c: char, t: string)
    requires |QuoteChar(c)| == 2
    ensures var raw := QuoteChar(c) + t; Unit(raw) == 2 == Consumed(raw) && Head(raw) == c && raw[2..] == t
  {
    var e := QuoteChar(c);
    assert (e + t)[2..] == t && (e + t)[0] == '\\' && (e + t)[1] == e[1];
  }

  /** Quoting a string and reading the literal gives the string back. */
  lemma {:induction false} QuoteRoundTrip(s: string)
    ensures ValidRaw(QuoteRaw(s)) && Decode(QuoteRaw(s)) == s
  {
    if s != "" {
      QuoteRoundTrip(s[1..]);
      QuotedChar(s[0], QuoteRaw(s[1..]));
      assert QuoteRaw(s) != "";
      assert s == [s[0]] + s[1..];
    }
  }

  /** What compaction makes of a literal. */
  function EscapeHtml(raw: string): string
    decreases |raw|
  {
    if Unit(raw) == 0 then ""
    else (if HtmlSensitive(raw[0]) then Escape(raw[0] as int) else raw[..Unit(raw)]) + EscapeHtml(raw[Unit(raw)..])
  }

  lemma EscapedUnit(raw: string, t: string)
    requires Unit(raw) > 0
    ensures var e := if HtmlSensitive(raw[0]) then Escape(raw[0] as int) else raw[..Unit(raw)];
            |e| > 0 && Unit(e + t) == |e| && (e + t)[|e|..] == t
            && (Unit(raw) == 6 ==> Unit(e + t) == 6 && Code(e + t) == Code(raw))
            && (Unit(raw) == 1 ==> Head(e + t) == raw[0] && Consumed(e + t) == Unit(e + t))
            && (Unit(raw) == 2 ==> Unit(e + t) == 2 && Head(e + t) == Head(raw))
  {
    if HtmlSensitive(raw[0]) {
      EscapeCode(raw[0] as int, t);
    }
  }

  lemma EscapeHtmlStart(raw: string)
    ensures Unit(raw) == 0 ==> Unit(EscapeHtml(raw)) == 0
    ensures LowNext(EscapeHtml(raw)) == LowNext(raw)
    ensures LowNext(raw) ==> Code(EscapeHtml(raw)) == Code(raw)
  {
    if Unit(raw) > 0 {
      EscapedUnit(raw, EscapeHtml(raw[Unit(raw)..]));
      if HtmlSensitive(raw[0]) {
        EscapeCode(raw[0] as int, EscapeHtml(raw[Unit(raw)..]));
      }
    }
  }

  /** Compaction keeps a literal valid and keeps what it stands for. */
  lemma {:induction false} EscapeHtmlKeeps(raw: string)
    ensures Decode(EscapeHtml(raw)) == Decode(raw)
    ensures ValidRaw(raw) ==> ValidRaw(EscapeHtml(raw))
    decreases |raw|
  {
    if Unit(raw) > 0 {
      var n := Unit(raw);
      EscapedUnit(raw, EscapeHtml(raw[n..]));
      EscapeHtmlKeeps(raw[n..]);
      EscapeHtmlStart(raw[n..]);
      if Consumed(raw) == 12 {
        EscapeHtmlKeeps(raw[12..]);
        EscapedUnit(raw[6..], EscapeHtml(raw[12..]));
        assert raw[6..][6..] == raw[12..];
        assert EscapeHtml(raw)[6..] == EscapeHtml(raw[6..]);
        assert EscapeHtml(raw)[12..] == EscapeHtml(raw[6..])[6..];
      }
    }
  }

  // ----- meaning -----

  function Meaning(v: Value): Json {
    match v
    case Word(w) => if w == "true" then Bool(true) else if w == "false" then Bool(false) else Null
    case Num(d) => Number(d)
    case Text(raw) => Str(Decode(raw))
    case EmptyArr(_) => Array([])
    case Arr(items) => Array(Elems(items))
    case EmptyObj(_) => Object(map[])
    case Obj(ms) => Object(FieldMap(ms))
  }

  function Elems(items: Items): seq<Json> {
    [Meaning(items.value)] + if items.LastItem? then [] else Elems(items.rest)
  }

  function FieldMap(ms: Members): map<string, Json> {
    map[Decode(ms.key.raw) := Meaning(ms.value)] + if ms.LastMember? then map[] else FieldMap(ms.rest)
  }

  /** What a whole text means, if it is JSON. */
  function MeaningOf(text: string): Option<Json> {
    match ParseText(text)
    case Fail => None
    case Ok(v, _) => Some(Meaning(v))
  }

  // ----- json.Compact with HTML escaping -----

  function Compacted(v: Value): Value {
    match v
    case Word(_) => v
    case Num(_) => v
    case Text(raw) => Text(EscapeHtml(raw))
    case EmptyArr(_) => EmptyArr("")
    case Arr(items) => Arr(CompactItems(items))
    case EmptyObj(_) => EmptyObj("")
    case Obj(ms) => Obj(CompactMembers(ms))
  }

  function CompactItems(items: Items): Items {
    if items.LastItem? then LastItem("", Compacted(items.value), "")
    else MoreItems("", Compacted(items.value), "", CompactItems(items.rest))
  }

  function CompactMembers(ms: Members): Members {
    var key := Key("", EscapeHtml(ms.key.raw), "", "");
    if ms.LastMember? then LastMember(key, Compacted(ms.value), "")
    else MoreMembers(key, Compacted(ms.value), "", CompactMembers(ms.rest))
  }

  /** Dropping insignificant whitespace and escaping for HTML keeps a value's meaning. */
  lemma {:induction false} CompactKeeps(v: Value)
    requires Valid(v)
    ensures Valid(Compacted(v)) && Meaning(Compacted(v)) == Meaning(v)
  {
    match v
    case Text(raw) => EscapeHtmlKeeps(raw);
    case Arr(items) => CompactItemsKeeps(items);
    case Obj(ms) => CompactMembersKeeps(ms);
    case _ =>
  }

  lemma {:induction false} CompactItemsKeeps(items: Items)
    requires ValidItems(items)
    ensures ValidItems(CompactItems(items)) && Elems(CompactItems(items)) == Elems(items)
  {
    CompactKeeps(items.value);
    if items.MoreItems? {
      CompactItemsKeeps(items.rest);
    }
  }

  lemma {:induction false} CompactMembersKeeps(ms: Members)
    requires ValidMembers(ms)
    ensures ValidMembers(CompactMembers(ms)) && FieldMap(CompactMembers(ms)) == FieldMap(ms)
  {
    CompactKeeps(ms.value);
    EscapeHtmlKeeps(ms.key.raw);
    if ms.MoreMembers? {
      CompactMembersKeeps(ms.rest);
    }
  }

  // ----- json.Unmarshal into map[string]json.RawMessage -----

  /** A null text sets the map to nil. */
  datatype Fields = Malformed | NilMap | FieldsOf(m: map<string, string>)

  function RawMap(ms: Members): map<string, string> {
    map[Decode(ms.key.raw) := Unparse(ms.value)] + if ms.LastMember? then map[] else RawMap(ms.rest)
  }

  function Unmarshal(text: string): Fields {
    match ParseText(text)
    case Fail => Malformed
    case Ok(v, _) =>
      match v
      case Obj(ms) => FieldsOf(RawMap(ms))
      case EmptyObj(_) => FieldsOf(map[])
      case Word(w) => if w == "null" then NilMap else Malformed
      case _ => Malformed
  }

  predicate AllJson(m: map<string, string>) {
    forall k :: k in m ==> MeaningOf(m[k]).Some?
  }

  ghost function Meanings(m: map<string, string>): map<string, Json>
    requires AllJson(m)
  {
    map k | k in m :: MeaningOf(m[k]).value
  }

  lemma OwnText(v: Value)
    requires Valid(v)
    ensures ParseText(Unparse(v)) == Ok(v, "") && MeaningOf(Unparse(v)) == Some(Meaning(v))
  {
    PaddedParses("", v, "");
    assert Padded("", v, "") == Unparse(v);
  }

  /** The raw texts mean the fields, key by key. */
  ghost predicate Denotes(m: map<string, string>, fields: map<string, Json>) {
    m.Keys == fields.Keys && forall k :: k in m ==> MeaningOf(m[k]) == Some(fields[k])
  }

  lemma DenotesIff(m: map<string, string>, fields: map<string, Json>)
    ensures Denotes(m, fields) <==> AllJson(m) && Meanings(m) == fields
  {
  }

  lemma DenotesMerge(k: string, text: string, j: Json, m: map<string, string>, fields: map<string, Json>)
    requires MeaningOf(text) == Some(j) && Denotes(m, fields)
    ensures Denotes(map[k := text] + m, map[k := j] + fields)
    ensures Denotes(m[k := text], fields[k := j])
  {
  }

  /** The raw texts mean what the members mean. */
  lemma {:induction false} RawFields(ms: Members)
    requires ValidMembers(ms)
    ensures Denotes(RawMap(ms), FieldMap(ms))
  {
    OwnText(ms.value);
    var k, text, j := Decode(ms.key.raw), Unparse(ms.value), Meaning(ms.value);
    if ms.MoreMembers? {
      RawFields(ms.rest);
      DenotesMerge(k, text, j, RawMap(ms.rest), FieldMap(ms.rest));
    } else {
      DenotesMerge(k, text, j, map[], map[]);
    }
  }

  /** Unmarshalling finds the fields of objects, nil for null, and rejects everything else. */
  lemma UnmarshalMeans(text: string)
    ensures match Unmarshal(text)
            case FieldsOf(m) => AllJson(m) && MeaningOf(text) == Some(Object(Meanings(m)))
            case NilMap => MeaningOf(text) == Some(Null)
            case Malformed => MeaningOf(text).None? || !(MeaningOf(text).value.Object? || MeaningOf(text).value.Null?)
  {
    var p := ParseText(text);
    if p.Ok? {
      TextIsParsed(text, p.value);
      match p.value
      case Obj(ms) =>
        RawFields(ms);
        DenotesIff(RawMap(ms), FieldMap(ms));
      case _ =>
    }
  }

  // ----- json.Marshal of map[string]json.RawMessage -----

  function KeyOf(k: string): Key {
    Key("", QuoteRaw(k), "", "")
  }

  function ValueIn(text: string): Value {
    if ParseText(text).Ok? then ParseText(text).value else Word("null")
  }

  function MembersOf(keys: seq<string>, m: map<string, string>): Members
    requires keys != [] && forall k :: k in keys ==> k in m
  {
    var v := Compacted(ValueIn(m[keys[0]]));
    if |keys| == 1 then LastMember(KeyOf(keys[0]), v, "")
    else MoreMembers(KeyOf(keys[0]), v, "", MembersOf(keys[1..], m))
  }

  function MarshalTree(m: map<string, string>): Value {
    if m.Keys == {} then EmptyObj("")
    else
      SortedSetFacts(m.Keys);
      assert forall k :: k in SortedSet(m.Keys) ==> k in Elements(SortedSet(m.Keys));
      Obj(MembersOf(SortedSet(m.Keys), m))
  }

  /** Keys in string order, values compacted; an error if some raw value is not JSON. */
  function Marshal(m: map<string, string>): Option<string> {
    if AllJson(m) then Some(Unparse(MarshalTree(m))) else None
  }

  lemma MemberMeans(k: string, text: string)
    requires MeaningOf(text).Some?
    ensures var v := Compacted(ValueIn(text)); Valid(v) && Meaning(v) == MeaningOf(text).value
    ensures ValidKey(KeyOf(k)) && Decode(KeyOf(k).raw) == k
  {
    TextIsParsed(text, ValueIn(text));
    CompactKeeps(ValueIn(text));
    QuoteRoundTrip(k);
  }

  ghost function MeaningsAt(keys: seq<string>, m: map<string, string>): map<string, Json>
    requires AllJson(m) && forall k :: k in keys ==> k in m
  {
    map k | k in keys :: MeaningOf(m[k]).value
  }

  lemma MeaningsAtCons(keys: seq<string>, m: map<string, string>)
    requires AllJson(m) && keys != [] && forall k :: k in keys ==> k in m
    ensures MeaningsAt(keys, m)
         == map[keys[0] := MeaningOf(m[keys[0]]).value] + if |keys| == 1 then map[] else MeaningsAt(keys[1..], m)
  {
    assert keys == [keys[0]] + keys[1..];
  }

  lemma {:induction false} MembersOfMeans(keys: seq<string>, m: map<string, string>)
    requires AllJson(m) && keys != [] && forall k :: k in keys ==> k in m
    ensures ValidMembers(MembersOf(keys, m)) && FieldMap(MembersOf(keys, m)) == MeaningsAt(keys, m)
  {
    MemberMeans(keys[0], m[keys[0]]);
    MeaningsAtCons(keys, m);
    if |keys| > 1 {
      MembersOfMeans(keys[1..], m);
    }
  }

  lemma MarshalTreeMeans(m: map<string, string>)
    requires AllJson(m)
    ensures Valid(MarshalTree(m)) && Meaning(MarshalTree(m)) == Object(Meanings(m))
  {
    if m.Keys == {} {
      assert Meanings(m) == map[];
    } else {
      var keys := SortedSet(m.Keys);
      SortedSetFacts(m.Keys);
      InKeys(keys, m);
      MembersOfMeans(keys, m);
    }
  }

  lemma InKeys(keys: seq<string>, m: map<string, string>)
    requires AllJson(m) && Elements(keys) == m.Keys
    ensures forall k :: k in keys ==> k in m
    ensures MeaningsAt(keys, m) == Meanings(m)
  {
    assert forall k :: k in keys <==> k in Elements(keys);
  }

  /** Marshalling raw fields gives a text that means exactly those fields. */
  lemma MarshalMeans(m: map<string, string>)
    requires AllJson(m)
    ensures Marshal(m).Some? && MeaningOf(Marshal(m).value) == Some(Object(Meanings(m)))
  {
    MarshalTreeMeans(m);
    OwnText(MarshalTree(m));
  }
}
